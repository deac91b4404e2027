/**
 * The string operations the crawler applies to cell text: Python's
 * `str.strip()`, ASCII `upper()`/`lower()` and the substring test `p in s`.
 */
module Text {
  import opened Seqs

  /** The code points Python's `str.isspace()` accepts, which `str.strip()` removes. */
  predicate IsSpace(c: char) {
    var n := c as int;
    (9 <= n <= 13) || (28 <= n <= 32) || n == 0x85 || n == 0xA0 || n == 0x1680
    || (0x2000 <= n <= 0x200A) || n == 0x2028 || n == 0x2029 || n == 0x202F
    || n == 0x205F || n == 0x3000
  }

  predicate AllSpace(s: string) {
    forall i :: 0 <= i < |s| ==> IsSpace(s[i])
  }

  /** The number of whitespace characters `s` starts with. */
  function LeadingSpace(s: string): (n: nat)
    ensures n <= |s|
    ensures forall i :: 0 <= i < n ==> IsSpace(s[i])
    ensures n < |s| ==> !IsSpace(s[n])
  {
    if |s| > 0 && IsSpace(s[0]) then
      var m := LeadingSpace(s[1..]);
      assert forall i :: 1 <= i < 1 + m ==> s[i] == s[1..][i - 1];
      1 + m
    else 0
  }

  /** The number of whitespace characters `s` ends with. */
  function TrailingSpace(s: string): (n: nat)
    ensures n <= |s|
    ensures forall i :: |s| - n <= i < |s| ==> IsSpace(s[i])
    ensures n < |s| ==> !IsSpace(s[|s| - n - 1])
  {
    if |s| > 0 && IsSpace(s[|s| - 1]) then
      var m := TrailingSpace(s[..|s| - 1]);
      assert forall i :: |s| - 1 - m <= i < |s| - 1 ==> s[i] == s[..|s| - 1][i];
      1 + m
    else 0
  }

  /** `r` is `s` with the whitespace-only prefix `s[..k]` and suffix removed. */
  predicate StrippedAt(s: string, r: string, k: nat) {
    k + |r| <= |s| && s[k..k + |r|] == r
    && (forall i :: 0 <= i < k ==> IsSpace(s[i]))
    && (forall i :: k + |r| <= i < |s| ==> IsSpace(s[i]))
  }

  /** Python's `s.strip()`: the text between the leading and the trailing whitespace. */
  function Trim(s: string): (r: string)
    ensures StrippedAt(s, r, LeadingSpace(s))
    ensures r == [] <==> AllSpace(s)
    ensures r != [] ==> !IsSpace(r[0]) && !IsSpace(r[|r| - 1])
  {
    var k := LeadingSpace(s);
    var n := TrailingSpace(s[k..]);
    SuffixSpace(s, k, n);
    StripFacts(s, k, n);
    s[k..|s| - n]
  }

  /** The counts of trailing whitespace of `s[k..]`, read on `s` itself. */
  lemma SuffixSpace(s: string, k: nat, n: nat)
    requires k <= |s| && n == TrailingSpace(s[k..])
    ensures k + n <= |s|
    ensures forall i :: |s| - n <= i < |s| ==> IsSpace(s[i])
    ensures k + n < |s| ==> !IsSpace(s[|s| - n - 1])
  {
    var t := s[k..];
    forall i | |s| - n <= i < |s|
      ensures IsSpace(s[i])
    {
      assert s[i] == t[i - k];
    }
    if k + n < |s| {
      assert s[|s| - n - 1] == t[|t| - n - 1];
    }
  }

  /** Whitespace bounds on both sides leave an empty middle exactly when all is whitespace. */
  lemma StripFacts(s: string, k: nat, n: nat)
    requires k + n <= |s|
    requires forall i :: 0 <= i < k ==> IsSpace(s[i])
    requires k < |s| ==> !IsSpace(s[k])
    requires forall i :: |s| - n <= i < |s| ==> IsSpace(s[i])
    ensures k + n == |s| <==> AllSpace(s)
  {
    if k + n == |s| {
      forall i | 0 <= i < |s|
        ensures IsSpace(s[i])
      {
        if i < k {
          assert IsSpace(s[i]);
        }
      }
    } else {
      assert !IsSpace(s[k]);
    }
  }

  /** A text that neither starts nor ends with whitespace is its own strip. */
  lemma TrimPlain(s: string)
    requires s != [] && !IsSpace(s[0]) && !IsSpace(s[|s| - 1])
    ensures Trim(s) == s
  {
    assert LeadingSpace(s) == 0;
    assert s[0..] == s;
    assert TrailingSpace(s) == 0;
  }

  /** Every text of a list stripped, in order. */
  function TrimAll(texts: seq<string>): (r: seq<string>)
    ensures |r| == |texts|
    ensures forall i :: 0 <= i < |texts| ==> r[i] == Trim(texts[i])
  {
    Map(Trim, texts)
  }

  /** Stripping a list piece by piece. */
  lemma TrimAllAppend(a: seq<string>, b: seq<string>)
    ensures TrimAll(a + b) == TrimAll(a) + TrimAll(b)
  {
    MapAppend(Trim, a, b);
  }

  /** Stripping twice removes nothing more. */
  lemma TrimIdempotent(s: string)
    ensures Trim(Trim(s)) == Trim(s)
  {
    var r := Trim(s);
    if r != [] {
      assert LeadingSpace(r) == 0;
      assert TrailingSpace(r) == 0;
    }
  }

  function UpperChar(c: char): char {
    if 'a' <= c <= 'z' then (c as int - 32) as char else c
  }

  function LowerChar(c: char): char {
    if 'A' <= c <= 'Z' then (c as int + 32) as char else c
  }

  /** `s.upper()` restricted to ASCII letters. */
  function Upper(s: string): (r: string)
    ensures |r| == |s|
    ensures forall i :: 0 <= i < |s| ==> r[i] == UpperChar(s[i])
  {
    if s == [] then [] else [UpperChar(s[0])] + Upper(s[1..])
  }

  /** `s.lower()` restricted to ASCII letters. */
  function Lower(s: string): (r: string)
    ensures |r| == |s|
    ensures forall i :: 0 <= i < |s| ==> r[i] == LowerChar(s[i])
  {
    if s == [] then [] else [LowerChar(s[0])] + Lower(s[1..])
  }

  /** `p` occurs in `s` starting at index `i`. */
  predicate OccursAt(s: string, p: string, i: nat) {
    i + |p| <= |s| && s[i..i + |p|] == p
  }

  /** Upper-casing the text and the pattern alike keeps every occurrence. */
  lemma UpperKeepsOccurrence(s: string, q: string, i: nat)
    requires OccursAt(s, q, i)
    ensures OccursAt(Upper(s), Upper(q), i)
  {
    assert forall k :: 0 <= k < |q| ==> s[i + k] == q[k] by {
      forall k | 0 <= k < |q| ensures s[i + k] == q[k] {
        assert s[i..i + |q|][k] == s[i + k];
      }
    }
    assert Upper(s)[i..i + |q|] == Upper(q);
  }

  /** `p` occurs somewhere in `s`: the reference meaning of the substring test. */
  ghost predicate Occurs(s: string, p: string) {
    exists i: nat :: OccursAt(s, p, i)
  }

  /** The characters `p[j..]` are found in `s` from index `i + j` on. */
  predicate AgreesFrom(s: string, p: string, i: nat, j: nat)
    requires i + |p| <= |s| && j <= |p|
    decreases |p| - j
  {
    j == |p| || (s[i + j] == p[j] && AgreesFrom(s, p, i, j + 1))
  }

  /** `p` occurs in `s` at some index `i` or later, scanning to the right. */
  predicate ContainsFrom(s: string, p: string, i: nat)
    decreases |s| - i
  {
    i + |p| <= |s| && (AgreesFrom(s, p, i, 0) || ContainsFrom(s, p, i + 1))
  }

  /** Python's `p in s` on strings. */
  predicate Contains(s: string, p: string) {
    ContainsFrom(s, p, 0)
  }

  lemma {:induction false} AgreesFromIff(s: string, p: string, i: nat, j: nat)
    requires i + |p| <= |s| && j <= |p|
    ensures AgreesFrom(s, p, i, j) <==> forall k :: j <= k < |p| ==> s[i + k] == p[k]
    decreases |p| - j
  {
    if j < |p| {
      AgreesFromIff(s, p, i, j + 1);
    }
  }

  lemma {:induction false} ContainsFromIff(s: string, p: string, i: nat)
    ensures ContainsFrom(s, p, i) <==> exists k: nat :: i <= k && OccursAt(s, p, k)
    decreases |s| - i
  {
    if i + |p| <= |s| {
      AgreesFromIff(s, p, i, 0);
      assert AgreesFrom(s, p, i, 0) <==> OccursAt(s, p, i) by {
        if AgreesFrom(s, p, i, 0) {
          assert s[i..i + |p|] == p;
        }
      }
      ContainsFromIff(s, p, i + 1);
    } else {
      forall k: nat | i <= k ensures !OccursAt(s, p, k) { }
    }
  }

  /** The scan finds `p` exactly when `p` occurs somewhere in `s`. */
  lemma ContainsIff(s: string, p: string)
    ensures Contains(s, p) <==> Occurs(s, p)
  {
    ContainsFromIff(s, p, 0);
  }

  /** A text holding `q` holds the upper-cased `q` once upper-cased itself. */
  lemma UpperContains(s: string, q: string, i: nat)
    requires OccursAt(s, q, i)
    ensures Contains(Upper(s), Upper(q))
  {
    UpperKeepsOccurrence(s, q, i);
    ContainsIff(Upper(s), Upper(q));
  }

  /** A text in which the first character of `p` never appears does not contain `p`. */
  lemma MissingLead(s: string, p: string)
    requires p != [] && forall k :: 0 <= k < |s| ==> s[k] != p[0]
    ensures !Contains(s, p)
  {
    ContainsIff(s, p);
    forall i: nat
      ensures !OccursAt(s, p, i)
    {
      if i + |p| <= |s| {
        assert s[i..i + |p|][0] == s[i] != p[0];
      }
    }
  }
}
