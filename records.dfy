/**
 * One row of the qualified-vendor table as a record of column name to cell
 * text, the keyword test that picks out TRUSTA/T7P5 drives, and the analysis
 * attached to each picked record.
 */
module Records {
  import opened Optional
  import opened Text
  import opened Capacity

  /** A table row: column header to trimmed cell text (a Python dict of str). */
  type Record = map<string, string>

  /** `record.get(key, "")`. */
  function Field(r: Record, key: string): string {
    if key in r then r[key] else ""
  }

  /** The key under which the analysis is stored in the record's own dict. */
  const AnalysisKey: string := "analysis"

  /** The keyword filter: TRUSTA in the vendor or the name, or T7P5 in the name or the series. */
  predicate Matches(r: Record) {
    var vendor := Upper(Field(r, "Vendor"));
    var name := Upper(Field(r, "Product Name"));
    var series := Upper(Field(r, "Series"));
    Contains(vendor, "TRUSTA") || Contains(name, "TRUSTA") || Contains(name, "T7P5") || Contains(series, "T7P5")
  }

  /** The filter, stated with occurrences instead of the scan. */
  lemma MatchesIff(r: Record)
    ensures Matches(r) <==>
      Occurs(Upper(Field(r, "Vendor")), "TRUSTA")
      || Occurs(Upper(Field(r, "Product Name")), "TRUSTA")
      || Occurs(Upper(Field(r, "Product Name")), "T7P5")
      || Occurs(Upper(Field(r, "Series")), "T7P5")
  {
    var vendor, name, series := Upper(Field(r, "Vendor")), Upper(Field(r, "Product Name")), Upper(Field(r, "Series"));
    ContainsIff(vendor, "TRUSTA");
    ContainsIff(name, "TRUSTA");
    ContainsIff(name, "T7P5");
    ContainsIff(series, "T7P5");
    assert Matches(r) == (Contains(vendor, "TRUSTA") || Contains(name, "TRUSTA") || Contains(name, "T7P5") || Contains(series, "T7P5"));
  }

  /** The filter looks only at the vendor, name and series columns, and ignores their case. */
  lemma MatchesIgnoresCase(r: Record, q: Record)
    requires forall k :: k in {"Vendor", "Product Name", "Series"} ==> Upper(Field(r, k)) == Upper(Field(q, k))
    ensures Matches(r) == Matches(q)
  {
    assert Upper(Field(r, "Vendor")) == Upper(Field(q, "Vendor"));
    assert Upper(Field(r, "Product Name")) == Upper(Field(q, "Product Name"));
    assert Upper(Field(r, "Series")) == Upper(Field(q, "Series"));
  }

  /** Worked example: the vendor column names TRUSTA in mixed case. */
  lemma MatchesVendor(r: Record)
    requires "Vendor" in r && r["Vendor"] == "Trusta Inc"
    ensures Matches(r)
  {
    var vendor := Field(r, "Vendor");
    assert vendor == "Trusta Inc";
    assert OccursAt(vendor, "Trusta", 0) by { assert vendor[0..6] == "Trusta"; }
    UpperKeepsOccurrence(vendor, "Trusta", 0);
    assert Upper("Trusta") == "TRUSTA";
    MatchesIff(r);
  }

  /** Worked example: the product name carries the series code. */
  lemma MatchesProductName(r: Record)
    requires "Product Name" in r && r["Product Name"] == "XYZ T7P5-2TB"
    ensures Matches(r)
  {
    var name := Field(r, "Product Name");
    assert name == "XYZ T7P5-2TB";
    assert OccursAt(name, "T7P5", 4) by { assert name[4..8] == "T7P5"; }
    UpperKeepsOccurrence(name, "T7P5", 4);
    assert Upper("T7P5") == "T7P5";
    MatchesIff(r);
  }

  /** Worked example: only the series column names the code, in lower case. */
  lemma MatchesSeries(r: Record)
    requires "Series" in r && r["Series"] == "t7p5 series"
    ensures Matches(r)
  {
    var series := Field(r, "Series");
    assert series == "t7p5 series";
    assert OccursAt(series, "t7p5", 0) by { assert series[0..4] == "t7p5"; }
    UpperKeepsOccurrence(series, "t7p5", 0);
    assert Upper("t7p5") == "T7P5";
    MatchesIff(r);
  }

  /** Worked example: a record of another vendor does not match. */
  lemma NoMatchOtherVendor(r: Record)
    requires "Vendor" in r && r["Vendor"] == "Samsung"
    requires "Product Name" in r && r["Product Name"] == "980 Pro"
    requires "Series" !in r
    ensures !Matches(r)
  {
    var vendor, name := Upper(Field(r, "Vendor")), Upper(Field(r, "Product Name"));
    assert forall k :: 0 <= k < |vendor| ==> vendor[k] != 'T';
    assert forall k :: 0 <= k < |name| ==> name[k] != 'T';
    MissingLead(vendor, "TRUSTA");
    MissingLead(name, "TRUSTA");
    MissingLead(name, "T7P5");
    assert Upper(Field(r, "Series")) == "";
  }

  /** The analysis dict built for a matching record. */
  datatype Analysis = Analysis(
    isGen5: bool,
    isNvme: bool,
    formFactorType: string,
    capacityTb: real,
    interfaceDetails: string,
    vrocSupport: bool)

  /** What `.get` reads from a record that has no analysis (`{}`): every flag false, capacity 0. */
  const NoAnalysis: Analysis := Analysis(false, false, "", 0.0, "", false)

  predicate Gen5Speed(speed: string) {
    var s := Lower(speed);
    Contains(s, "gen5") || Contains(s, "gen 5")
  }

  /** `analyze_trusta_product`: flags by lower-case substring tests, the form factor verbatim, the capacity parsed. */
  function Analyze(r: Record): (a: Analysis)
    ensures a.capacityTb >= 0.0
    ensures a.formFactorType == Field(r, "Form Factor")
  {
    Analysis(
      isGen5 := Gen5Speed(Field(r, "Interface Speed")),
      isNvme := Contains(Lower(Field(r, "Interface")), "nvme"),
      formFactorType := Field(r, "Form Factor"),
      capacityTb := ParseCapacity(Field(r, "Capacity")),
      interfaceDetails := Field(r, "Interface") + " - " + Field(r, "Interface Speed"),
      vrocSupport := Contains(Lower(Field(r, "Other")), "vroc") || Contains(Lower(Field(r, "Remark")), "vroc"))
  }

  /** The flags of the analysis, each stated as an occurrence in the lower-cased column. */
  lemma AnalyzeFlags(r: Record)
    ensures Analyze(r).isGen5 <==>
      Occurs(Lower(Field(r, "Interface Speed")), "gen5")
      || Occurs(Lower(Field(r, "Interface Speed")), "gen 5")
    ensures Analyze(r).isNvme <==> Occurs(Lower(Field(r, "Interface")), "nvme")
    ensures Analyze(r).vrocSupport <==>
      Occurs(Lower(Field(r, "Other")), "vroc")
      || Occurs(Lower(Field(r, "Remark")), "vroc")
  {
    var speed, iface := Lower(Field(r, "Interface Speed")), Lower(Field(r, "Interface"));
    var other, remark := Lower(Field(r, "Other")), Lower(Field(r, "Remark"));
    ContainsIff(speed, "gen5");
    ContainsIff(speed, "gen 5");
    ContainsIff(iface, "nvme");
    ContainsIff(other, "vroc");
    ContainsIff(remark, "vroc");
    assert Analyze(r).isGen5 == (Contains(speed, "gen5") || Contains(speed, "gen 5"));
    assert Analyze(r).isNvme == Contains(iface, "nvme");
    assert Analyze(r).vrocSupport == (Contains(other, "vroc") || Contains(remark, "vroc"));
  }

  /** The interface summary starts with the interface column and ends with the speed column. */
  lemma InterfaceDetailsParts(r: Record)
    ensures var d, i, s := Analyze(r).interfaceDetails, Field(r, "Interface"), Field(r, "Interface Speed");
      |d| == |i| + 3 + |s| && d[..|i|] == i && d[|i|..|i| + 3] == " - " && d[|i| + 3..] == s
  {
  }

  /** Worked examples of the generation flag: "Gen5 x4" and "GEN 5" are Gen 5, "Gen4 x4" is not. */
  lemma Gen5Examples(a: string, b: string, c: string)
    requires a == "Gen5 x4" && b == "GEN 5" && c == "Gen4 x4"
    ensures Gen5Speed(a) && Gen5Speed(b) && !Gen5Speed(c)
  {
    assert Lower(a) == "gen5 x4";
    assert Contains("gen5 x4", "gen5");
    assert Lower(b) == "gen 5";
    assert Contains("gen 5", "gen 5");
    assert Lower(c) == "gen4 x4";
    assert !Contains("gen4 x4", "gen5") && !Contains("gen4 x4", "gen 5");
  }

  /**
   * A table row as stored in the two result lists. For a matching row the
   * dict gains the key "analysis", which displaces a column of that name.
   */
  datatype Product = Product(fields: Record, analysis: Option<Analysis>)

  /** Keep a record, attaching the analysis when it matches the keyword filter. */
  function Classify(r: Record): (p: Product)
    ensures p.analysis.Some? <==> Matches(r)
    ensures p.analysis.Some? ==> p.analysis.value == Analyze(r) && p.fields == r - {AnalysisKey}
    ensures p.analysis.None? ==> p.fields == r
    ensures forall k :: k != AnalysisKey ==> Field(p.fields, k) == Field(r, k)
  {
    if Matches(r) then Product(r - {AnalysisKey}, Some(Analyze(r))) else Product(r, None)
  }

  /** The filter and the analysis read the same columns after the analysis is attached. */
  lemma ClassifyStable(r: Record)
    ensures Matches(Classify(r).fields) == Matches(r)
    ensures Analyze(Classify(r).fields) == Analyze(r)
  {
    var f := Classify(r).fields;
    assert forall k :: k != AnalysisKey ==> Field(f, k) == Field(r, k);
    assert Field(f, "Vendor") == Field(r, "Vendor");
    assert Field(f, "Product Name") == Field(r, "Product Name");
    assert Field(f, "Series") == Field(r, "Series");
    assert Field(f, "Interface Speed") == Field(r, "Interface Speed");
    assert Field(f, "Interface") == Field(r, "Interface");
    assert Field(f, "Form Factor") == Field(r, "Form Factor");
    assert Field(f, "Capacity") == Field(r, "Capacity");
    assert Field(f, "Other") == Field(r, "Other");
    assert Field(f, "Remark") == Field(r, "Remark");
  }
}
