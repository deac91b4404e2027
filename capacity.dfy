/**
 * The capacity column parser: the leftmost match of the regular expression
 * `\d+\.?\d*`, read as a decimal number, taken as terabytes when the text
 * mentions "TB" and as gigabytes (divided by 1000) when it mentions "GB".
 */
module Capacity {
  import opened Optional
  import opened Text

  predicate IsDigit(c: char) {
    '0' <= c <= '9'
  }

  predicate AllDigits(s: string) {
    forall i :: 0 <= i < |s| ==> IsDigit(s[i])
  }

  predicate NoDigits(s: string) {
    forall i :: 0 <= i < |s| ==> !IsDigit(s[i])
  }

  /** The index of the first digit at or after `i`, or `|s|` when there is none. */
  function FirstDigit(s: string, i: nat): (k: nat)
    requires i <= |s|
    ensures i <= k <= |s|
    ensures forall j :: i <= j < k ==> !IsDigit(s[j])
    ensures k < |s| ==> IsDigit(s[k])
    decreases |s| - i
  {
    if i == |s| || IsDigit(s[i]) then i else FirstDigit(s, i + 1)
  }

  /** The length of the longest run of digits starting at `i` (what `\d*` consumes). */
  function DigitRun(s: string, i: nat): (n: nat)
    requires i <= |s|
    ensures i + n <= |s|
    ensures AllDigits(s[i..i + n])
    ensures i + n < |s| ==> !IsDigit(s[i + n])
    decreases |s| - i
  {
    if i < |s| && IsDigit(s[i]) then
      var m := DigitRun(s, i + 1);
      assert s[i..i + 1 + m] == [s[i]] + s[i + 1..i + 1 + m];
      1 + m
    else 0
  }

  /**
   * One match of `\d+\.?\d*`: it starts at `start`, its integer digits are
   * `whole`, and when `dot` holds a decimal point follows them, then `frac`.
   */
  datatype Token = Token(start: nat, whole: string, dot: bool, frac: string)

  /** The text a token matched. */
  function Lexeme(t: Token): string {
    t.whole + (if t.dot then "." + t.frac else "")
  }

  /** What the regular expression demands of a match found in `s`. */
  predicate WellFormed(s: string, t: Token) {
    var e := t.start + |Lexeme(t)|;
    e <= |s| && s[t.start..e] == Lexeme(t)
    && |t.whole| > 0 && AllDigits(t.whole) && AllDigits(t.frac)
    && (!t.dot ==> t.frac == [])
  }

  /** The greedy quantifiers stop only where they must: the match cannot be extended. */
  predicate Maximal(s: string, t: Token) {
    var e := t.start + |Lexeme(t)|;
    e < |s| ==> !IsDigit(s[e]) && (!t.dot ==> s[e] != '.')
  }

  /**
   * `re.findall(r'(\d+\.?\d*)', s)[0]`: the leftmost, greedy match, or None
   * when the text holds no digit (where the indexing would raise).
   */
  function FirstNumber(s: string): (t: Option<Token>)
    ensures t.None? <==> NoDigits(s)
    ensures t.Some? ==> WellFormed(s, t.value) && Maximal(s, t.value)
    ensures t.Some? ==> forall j :: 0 <= j < t.value.start ==> !IsDigit(s[j])
  {
    var k := FirstDigit(s, 0);
    if k == |s| then None else Some(TokenAt(s, k))
  }

  /** The greedy match of `\d+\.?\d*` that starts at the digit `s[k]`. */
  function TokenAt(s: string, k: nat): (t: Token)
    requires k < |s| && IsDigit(s[k])
    ensures t.start == k && WellFormed(s, t) && Maximal(s, t)
  {
    var e := k + DigitRun(s, k);
    if e < |s| && s[e] == '.' then DecimalToken(s, k, e) else Token(k, s[k..e], false, [])
  }

  /** The match when the integer digits `s[k..e]` are followed by a point. */
  function DecimalToken(s: string, k: nat, e: nat): (t: Token)
    requires k < e < |s| && s[e] == '.' && AllDigits(s[k..e])
    ensures t.start == k && WellFormed(s, t) && Maximal(s, t)
  {
    var m := DigitRun(s, e + 1);
    assert s[k..e + 1 + m] == s[k..e] + "." + s[e + 1..e + 1 + m];
    Token(k, s[k..e], true, s[e + 1..e + 1 + m])
  }

  function DigitValue(c: char): nat
    requires IsDigit(c)
  {
    c as int - '0' as int
  }

  /** The value of the first `n` digits of `ds`, most significant first. */
  function PrefixValue(ds: string, n: nat): nat
    requires n <= |ds| && AllDigits(ds)
  {
    if n == 0 then 0 else PrefixValue(ds, n - 1) * 10 + DigitValue(ds[n - 1])
  }

  /** The value of a string of decimal digits. */
  function DigitsValue(ds: string): nat
    requires AllDigits(ds)
  {
    PrefixValue(ds, |ds|)
  }

  function Pow10(n: nat): (p: nat)
    ensures p >= 1
  {
    if n == 0 then 1 else 10 * Pow10(n - 1)
  }

  /** `n` digits denote less than 10^n. */
  lemma {:induction false} PrefixValueBelow(ds: string, n: nat)
    requires n <= |ds| && AllDigits(ds)
    ensures PrefixValue(ds, n) < Pow10(n)
  {
    if n > 0 {
      PrefixValueBelow(ds, n - 1);
    }
  }

  /** Python's `float(lexeme)`, computed exactly. */
  function TokenValue(t: Token): real
    requires AllDigits(t.whole) && AllDigits(t.frac)
  {
    DigitsValue(t.whole) as real + DigitsValue(t.frac) as real / Pow10(|t.frac|) as real
  }

  /** The integer digits of a token are the integer part of its value. */
  lemma TokenValueBounds(t: Token)
    requires AllDigits(t.whole) && AllDigits(t.frac)
    ensures DigitsValue(t.whole) as real <= TokenValue(t) < DigitsValue(t.whole) as real + 1.0
  {
    var f, p := DigitsValue(t.frac) as real, Pow10(|t.frac|) as real;
    PrefixValueBelow(t.frac, |t.frac|);
    QuotientBelowOne(f, p);
  }

  lemma QuotientBelowOne(a: real, b: real)
    requires 0.0 <= a < b
    ensures 0.0 <= a / b < 1.0
  {
  }

  /** The value of the first number in `s`, if `s` holds one. */
  function FirstNumberValue(s: string): (v: Option<real>)
    ensures v.None? <==> NoDigits(s)
    ensures v.Some? ==> v.value >= 0.0
  {
    match FirstNumber(s)
    case None => None
    case Some(t) => TokenValueBounds(t); Some(TokenValue(t))
  }

  /**
   * `capacity_tb` of the analysis: "TB" is looked for first, then "GB";
   * a text with neither unit, or with no number, yields 0.
   */
  function ParseCapacity(text: string): (tb: real)
    ensures tb >= 0.0
  {
    var units := Upper(text);
    if Contains(units, "TB") then
      match FirstNumberValue(text)
      case None => 0.0
      case Some(v) => v
    else if Contains(units, "GB") then
      match FirstNumberValue(text)
      case None => 0.0
      case Some(v) => v / 1000.0
    else 0.0
  }

  /** The capacity is the number read in terabytes or in gigabytes, or zero when either part is missing. */
  lemma ParseCapacityCases(text: string)
    ensures NoDigits(text) ==> ParseCapacity(text) == 0.0
    ensures !Contains(Upper(text), "TB") && !Contains(Upper(text), "GB") ==> ParseCapacity(text) == 0.0
    ensures Contains(Upper(text), "TB") && !NoDigits(text) ==>
              ParseCapacity(text) == FirstNumberValue(text).value
    ensures !Contains(Upper(text), "TB") && Contains(Upper(text), "GB") && !NoDigits(text) ==>
              ParseCapacity(text) == FirstNumberValue(text).value / 1000.0
  {
  }

  /** The numbers the worked examples below read. */
  lemma TokenValueExamples()
    ensures TokenValue(Token(0, "2", false, "")) == 2.0
    ensures TokenValue(Token(0, "4", false, "")) == 4.0
    ensures TokenValue(Token(0, "512", false, "")) == 512.0
    ensures TokenValue(Token(0, "3", true, "84")) == 3.84
    ensures TokenValue(Token(0, "1", true, "92")) == 1.92
  {
    assert |""| == 0 && |"2"| == 1 && |"4"| == 1 && |"512"| == 3 && |"84"| == 2 && |"92"| == 2;
  }

  /** Scanner example: a bare integer before the unit. */
  lemma ScanInteger(text: string)
    requires text == "512GB"
    ensures FirstNumber(text) == Some(Token(0, "512", false, ""))
  {
    assert DigitRun(text, 0) == 3 by {
      assert DigitRun(text, 3) == 0;
      assert DigitRun(text, 2) == 1;
      assert DigitRun(text, 1) == 2;
    }
    assert text[0..3] == "512";
  }

  /** Scanner example: the greedy match takes the decimal point and the digits after it. */
  lemma ScanDecimal(text: string)
    requires text == "3.84 TB"
    ensures FirstNumber(text) == Some(Token(0, "3", true, "84"))
  {
    assert text[0..1] == "3" && text[2..4] == "84";
    assert DigitRun(text, 0) == 1 by { assert DigitRun(text, 1) == 0; }
    assert DigitRun(text, 2) == 2 by {
      assert DigitRun(text, 4) == 0;
      assert DigitRun(text, 3) == 1;
    }
  }

  /** Worked example: a capacity in terabytes. */
  lemma ParseCapacityTerabytes(text: string)
    requires text == "4TB"
    ensures ParseCapacity(text) == 4.0
  {
    assert Upper(text) == text;
    assert Contains("4TB", "TB");
    assert DigitRun(text, 0) == 1 by { assert DigitRun(text, 1) == 0; }
    assert text[0..1] == "4";
    assert FirstNumber(text) == Some(Token(0, "4", false, ""));
    TokenValueExamples();
  }

  /** Worked example: a capacity in gigabytes is divided by 1000. */
  lemma ParseCapacityGigabytes(text: string)
    requires text == "512GB"
    ensures ParseCapacity(text) == 0.512
  {
    ScanInteger(text);
    MissingLead(Upper(text), "TB");
    assert OccursAt(text, "GB", 3) by { assert text[3..5] == "GB"; }
    UpperContains(text, "GB", 3);
    assert Upper("GB") == "GB";
    ParseCapacityCases(text);
    TokenValueExamples();
  }

  /** Worked example: the number has a fractional part and the unit follows a space. */
  lemma ParseCapacityFraction(text: string)
    requires text == "3.84 TB"
    ensures ParseCapacity(text) == 3.84
  {
    ScanDecimal(text);
    assert OccursAt(text, "TB", 5) by { assert text[5..7] == "TB"; }
    UpperContains(text, "TB", 5);
    assert Upper("TB") == "TB";
    ParseCapacityCases(text);
    TokenValueExamples();
  }

  /** Worked examples: a text with no unit gives 0, and so does an empty cell. */
  lemma ParseCapacityNoUnit(text: string)
    requires text == "N/A" || text == ""
    ensures ParseCapacity(text) == 0.0
  {
    assert Upper(text) == text;
    assert !Contains("N/A", "TB") && !Contains("N/A", "GB");
    assert !Contains("", "TB") && !Contains("", "GB");
  }

  /** Worked example: a unit with no number gives 0. */
  lemma ParseCapacityNoNumber(text: string)
    requires text == "TBD"
    ensures ParseCapacity(text) == 0.0
  {
    assert Upper(text) == text;
    assert Contains("TBD", "TB");
    assert FirstNumber(text).None?;
  }

  /** Scanner example: only the leftmost number is read. */
  lemma ScanLeftmost(text: string)
    requires text == "2TB/2000GB"
    ensures FirstNumber(text) == Some(Token(0, "2", false, ""))
  {
    assert DigitRun(text, 0) == 1 by { assert DigitRun(text, 1) == 0; }
    assert text[0..1] == "2";
  }

  /** Worked example: a text naming both units is read in terabytes, from its leftmost number. */
  lemma ParseCapacityBothUnits(text: string)
    requires text == "2TB/2000GB"
    ensures ParseCapacity(text) == 2.0
  {
    ScanLeftmost(text);
    assert OccursAt(text, "TB", 1) by { assert text[1..3] == "TB"; }
    UpperContains(text, "TB", 1);
    assert Upper("TB") == "TB";
    ParseCapacityCases(text);
    TokenValueExamples();
  }
}
