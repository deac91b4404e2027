/**
 * `generate_qvl_summary`: the counts, capacity options and vendor
 * distribution computed from the two product lists.
 */
module Summary {
  import opened Optional
  import opened Records
  import opened Extraction
  import opened Ordering
  import opened Ranking

  /** `product.get("analysis", {})`, read through `.get` with the defaults of the source. */
  function AnalysisOf(p: Product): Analysis {
    match p.analysis
    case Some(a) => a
    case None => NoAnalysis
  }

  /** How many products are marked Gen 5. */
  function Gen5Count(ps: seq<Product>): (n: nat)
    ensures n <= |ps|
  {
    if ps == [] then 0
    else Gen5Count(ps[..|ps| - 1]) + (if AnalysisOf(ps[|ps| - 1]).isGen5 then 1 else 0)
  }

  /** The capacities above zero, in list order. */
  function Capacities(ps: seq<Product>): (cs: seq<real>)
    ensures |cs| <= |ps|
    ensures forall i :: 0 <= i < |cs| ==> cs[i] > 0.0
  {
    if ps == [] then []
    else
      var c := AnalysisOf(ps[|ps| - 1]).capacityTb;
      Capacities(ps[..|ps| - 1]) + (if c > 0.0 then [c] else [])
  }

  function Sum(xs: seq<real>): real {
    if xs == [] then 0.0 else Sum(xs[..|xs| - 1]) + xs[|xs| - 1]
  }

  /** A sum of positive numbers is positive unless there are none. */
  lemma {:induction false} SumPositive(xs: seq<real>)
    requires forall i :: 0 <= i < |xs| ==> xs[i] > 0.0
    ensures Sum(xs) >= 0.0
    ensures Sum(xs) == 0.0 <==> xs == []
  {
    if xs != [] {
      SumPositive(xs[..|xs| - 1]);
    }
  }

  /** `f"{capacity}TB"`, with the number rendered by `render`. */
  function Label(c: real, render: real -> string): string {
    render(c) + "TB"
  }

  function Labels(cs: seq<real>, render: real -> string): (ls: seq<string>)
    ensures |ls| == |cs|
    ensures forall i :: 0 <= i < |cs| ==> ls[i] == Label(cs[i], render)
  {
    if cs == [] then [] else Labels(cs[..|cs| - 1], render) + [Label(cs[|cs| - 1], render)]
  }

  /** What one more TRUSTA product adds to the tally. */
  lemma TallyStep(ps: seq<Product>, i: nat, render: real -> string)
    requires i < |ps|
    ensures var a, caps := AnalysisOf(ps[i]), Capacities(ps[..i]);
      Gen5Count(ps[..i + 1]) == Gen5Count(ps[..i]) + (if a.isGen5 then 1 else 0)
      && Capacities(ps[..i + 1]) == caps + (if a.capacityTb > 0.0 then [a.capacityTb] else [])
      && Sum(caps + [a.capacityTb]) == Sum(caps) + a.capacityTb
      && Labels(caps + [a.capacityTb], render) == Labels(caps, render) + [Label(a.capacityTb, render)]
  {
    assert ps[..i + 1][..i] == ps[..i];
    var caps, c := Capacities(ps[..i]), AnalysisOf(ps[i]).capacityTb;
    assert (caps + [c])[..|caps|] == caps;
  }

  /** The first loop of `generate_qvl_summary`, over the TRUSTA products. */
  method TallyTrusta(trusta: seq<Product>, render: real -> string)
    returns (gen5: nat, total: real, options: seq<string>)
    ensures gen5 == Gen5Count(trusta)
    ensures total == Sum(Capacities(trusta))
    ensures options == Labels(Capacities(trusta), render)
  {
    gen5, total, options := 0, 0.0, [];
    for i := 0 to |trusta|
      invariant gen5 == Gen5Count(trusta[..i])
      invariant total == Sum(Capacities(trusta[..i]))
      invariant options == Labels(Capacities(trusta[..i]), render)
    {
      TallyStep(trusta, i, render);
      var analysis := AnalysisOf(trusta[i]);
      if analysis.isGen5 {
        gen5 := gen5 + 1;
      }
      var capacity := analysis.capacityTb;
      if capacity > 0.0 {
        total := total + capacity;
        options := options + [Label(capacity, render)];
      } else {
        assert Capacities(trusta[..i]) + [] == Capacities(trusta[..i]);
      }
    }
    assert trusta[..|trusta|] == trusta;
  }

  /** `product.get("Vendor", "Unknown")`: an empty vendor cell stays empty. */
  function VendorOf(p: Product): (v: string)
    ensures "Vendor" in p.fields ==> v == p.fields["Vendor"]
    ensures "Vendor" !in p.fields ==> v == "Unknown"
  {
    if "Vendor" in p.fields then p.fields["Vendor"] else "Unknown"
  }

  /** The vendor of each product, in list order. */
  function VendorsOf(ps: seq<Product>): (vs: seq<string>)
    ensures |vs| == |ps|
    ensures forall i :: 0 <= i < |ps| ==> vs[i] == VendorOf(ps[i])
  {
    seq(|ps|, i requires 0 <= i < |ps| => VendorOf(ps[i]))
  }

  /** The vendors of a distribution, in dictionary order. */
  function Keys(d: seq<Entry>): (ks: seq<string>)
    ensures |ks| == |d|
    ensures forall i :: 0 <= i < |d| ==> ks[i] == d[i].vendor
  {
    seq(|d|, i requires 0 <= i < |d| => d[i].vendor)
  }

  /** No vendor appears twice: the distribution is a dictionary. */
  predicate DistinctKeys(d: seq<Entry>) {
    var ks := Keys(d);
    forall i, j :: 0 <= i < j < |ks| ==> ks[i] != ks[j]
  }

  /** `vendor_counts[vendor] = vendor_counts.get(vendor, 0) + 1` on an insertion-ordered dictionary. */
  function Bump(d: seq<Entry>, v: string): (r: seq<Entry>)
    decreases |d|
  {
    if d == [] then [Entry(v, 1)]
    else if d[0].vendor == v then [Entry(v, d[0].count + 1)] + d[1..]
    else [d[0]] + Bump(d[1..], v)
  }

  /** The vendor distribution of a product list. */
  function VendorCounts(ps: seq<Product>): seq<Entry> {
    if ps == [] then [] else Bump(VendorCounts(ps[..|ps| - 1]), VendorOf(ps[|ps| - 1]))
  }

  /** How often `v` occurs in `vs`. */
  function Occurrences(vs: seq<string>, v: string): (n: nat)
    ensures n <= |vs|
  {
    if vs == [] then 0 else Occurrences(vs[..|vs| - 1], v) + (if vs[|vs| - 1] == v then 1 else 0)
  }

  function SumCounts(d: seq<Entry>): nat {
    if d == [] then 0 else d[0].count + SumCounts(d[1..])
  }

  /** The count of `v` in a dictionary, 0 when absent. */
  function CountOf(d: seq<Entry>, v: string): nat {
    if d == [] then 0 else if d[0].vendor == v then d[0].count else CountOf(d[1..], v)
  }

  /** An increment keeps the vendors in place and appends a new one at the end. */
  lemma {:induction false} BumpKeys(d: seq<Entry>, v: string)
    ensures Keys(Bump(d, v)) == if v in Keys(d) then Keys(d) else Keys(d) + [v]
    decreases |d|
  {
    if d != [] {
      var t := d[1..];
      assert d == [d[0]] + t;
      KeysCons(d[0], t);
      if d[0].vendor == v {
        assert Keys(d)[0] == v;
        KeysCons(Entry(v, d[0].count + 1), t);
      } else {
        assert v in Keys(d) <==> v in Keys(t);
        BumpKeys(t, v);
        KeysCons(d[0], Bump(t, v));
        if v !in Keys(t) {
          assert [d[0].vendor] + (Keys(t) + [v]) == Keys(d) + [v];
        }
      }
    }
  }

  /** The vendors of a dictionary with one more entry in front. */
  lemma KeysCons(e: Entry, t: seq<Entry>)
    ensures Keys([e] + t) == [e.vendor] + Keys(t)
  {
  }

  /** An increment keeps the dictionary free of repeated vendors. */
  lemma BumpDistinct(d: seq<Entry>, v: string)
    requires DistinctKeys(d)
    ensures DistinctKeys(Bump(d, v))
  {
    BumpKeys(d, v);
  }

  /** An increment adds one to the count of its vendor and to no other. */
  lemma {:induction false} BumpCount(d: seq<Entry>, v: string, w: string)
    ensures CountOf(Bump(d, v), w) == CountOf(d, w) + (if w == v then 1 else 0)
    decreases |d|
  {
    if d != [] && d[0].vendor != v {
      BumpCount(d[1..], v, w);
      assert Bump(d, v)[1..] == Bump(d[1..], v);
    }
  }

  /** An increment adds one to the total. */
  lemma {:induction false} BumpSum(d: seq<Entry>, v: string)
    ensures SumCounts(Bump(d, v)) == SumCounts(d) + 1
    decreases |d|
  {
    if d != [] && d[0].vendor != v {
      BumpSum(d[1..], v);
      assert Bump(d, v)[1..] == Bump(d[1..], v);
    }
  }

  /** `vs` without repetitions, each vendor where it first occurs. */
  function FirstSeen(vs: seq<string>): (r: seq<string>)
    ensures forall w :: w in r <==> w in vs
  {
    if vs == [] then []
    else
      var init := FirstSeen(vs[..|vs| - 1]);
      var v := vs[|vs| - 1];
      assert vs == vs[..|vs| - 1] + [v];
      if v in init then init else init + [v]
  }

  /** The distribution of a list of vendors, counted in list order. */
  function Tally(vs: seq<string>): seq<Entry> {
    if vs == [] then [] else Bump(Tally(vs[..|vs| - 1]), vs[|vs| - 1])
  }

  /** Counting the products is counting their vendors. */
  lemma {:induction false} VendorCountsTally(ps: seq<Product>)
    ensures VendorCounts(ps) == Tally(VendorsOf(ps))
  {
    if ps != [] {
      var init := ps[..|ps| - 1];
      VendorCountsTally(init);
      var vs := VendorsOf(ps);
      assert vs[..|vs| - 1] == VendorsOf(init);
    }
  }

  /**
   * The distribution built by the counting loop: one entry per vendor, in the
   * order in which the vendors first appear, each counting the products of
   * that vendor, the counts adding up to the number of products.
   */
  lemma VendorCountsFacts(ps: seq<Product>)
    ensures var d := VendorCounts(ps);
      DistinctKeys(d)
      && Keys(d) == FirstSeen(VendorsOf(ps))
      && (forall w :: CountOf(d, w) == Occurrences(VendorsOf(ps), w))
      && SumCounts(d) == |ps|
  {
    var vs := VendorsOf(ps);
    VendorCountsTally(ps);
    TallyKeys(vs);
    TallyDistinct(vs);
    TallyCounts(vs);
    TallySum(vs);
  }

  /** The vendors of the distribution, in the order of their first occurrence. */
  lemma {:induction false} TallyKeys(vs: seq<string>)
    ensures Keys(Tally(vs)) == FirstSeen(vs)
  {
    if vs != [] {
      var init := vs[..|vs| - 1];
      TallyKeys(init);
      BumpKeys(Tally(init), vs[|vs| - 1]);
    }
  }

  /** No vendor appears twice in the distribution. */
  lemma {:induction false} TallyDistinct(vs: seq<string>)
    ensures DistinctKeys(Tally(vs))
  {
    if vs != [] {
      var init := vs[..|vs| - 1];
      TallyDistinct(init);
      BumpDistinct(Tally(init), vs[|vs| - 1]);
    }
  }

  /** Each vendor is counted as often as it occurs. */
  lemma {:induction false} TallyCounts(vs: seq<string>)
    ensures forall w :: CountOf(Tally(vs), w) == Occurrences(vs, w)
  {
    if vs != [] {
      var init := vs[..|vs| - 1];
      TallyCounts(init);
      forall w ensures CountOf(Tally(vs), w) == Occurrences(vs, w) {
        BumpCount(Tally(init), vs[|vs| - 1], w);
      }
    }
  }

  /** The counts add up to the number of vendors listed. */
  lemma {:induction false} TallySum(vs: seq<string>)
    ensures SumCounts(Tally(vs)) == |vs|
  {
    if vs != [] {
      var init := vs[..|vs| - 1];
      TallySum(init);
      BumpSum(Tally(init), vs[|vs| - 1]);
    }
  }

  /** Each vendor entry counts exactly the products carrying that vendor. */
  lemma EntryCounts(ps: seq<Product>, i: nat)
    requires i < |VendorCounts(ps)|
    ensures VendorCounts(ps)[i].count == Occurrences(VendorsOf(ps), VendorCounts(ps)[i].vendor)
    ensures VendorCounts(ps)[i].count > 0
  {
    var d := VendorCounts(ps);
    VendorCountsFacts(ps);
    CountOfAt(d, i);
    var v := d[i].vendor;
    assert v in Keys(d);
    assert v in VendorsOf(ps);
    OccursCounted(VendorsOf(ps), v);
  }

  lemma {:induction false} CountOfAt(d: seq<Entry>, i: nat)
    requires DistinctKeys(d) && i < |d|
    ensures CountOf(d, d[i].vendor) == d[i].count
  {
    if i > 0 {
      var t := d[1..];
      assert DistinctKeys(t) by {
        assert forall a :: 0 <= a < |t| ==> Keys(t)[a] == Keys(d)[a + 1];
      }
      assert Keys(d)[0] != Keys(d)[i];
      assert t[i - 1] == d[i];
      CountOfAt(t, i - 1);
    }
  }

  lemma {:induction false} OccursCounted(vs: seq<string>, v: string)
    requires v in vs
    ensures Occurrences(vs, v) > 0
  {
    var init := vs[..|vs| - 1];
    if vs[|vs| - 1] != v {
      assert vs == init + [vs[|vs| - 1]];
      OccursCounted(init, v);
    }
  }

  /**
   * How many products the distribution files under `w`, read off the rows:
   * those whose "Vendor" column reads `w`, and, for "Unknown", also those
   * without a "Vendor" column.
   */
  function VendorColumnCount(ps: seq<Product>, w: string): (n: nat)
    ensures n <= |ps|
  {
    if ps == [] then 0
    else
      var f := ps[|ps| - 1].fields;
      var filed := if "Vendor" in f then f["Vendor"] == w else w == "Unknown";
      VendorColumnCount(ps[..|ps| - 1], w) + (if filed then 1 else 0)
  }

  /** The count of each vendor is the number of rows naming it; a missing column counts as "Unknown". */
  lemma {:induction false} VendorColumnCounts(ps: seq<Product>, w: string)
    ensures CountOf(VendorCounts(ps), w) == VendorColumnCount(ps, w)
  {
    if ps != [] {
      var init := ps[..|ps| - 1];
      VendorColumnCounts(init, w);
      BumpCount(VendorCounts(init), VendorOf(ps[|ps| - 1]), w);
    }
  }

  /** The counting loop over all products, on an insertion-ordered dictionary. */
  method CountVendors(ps: seq<Product>) returns (d: seq<Entry>)
    ensures d == VendorCounts(ps)
  {
    d := [];
    for i := 0 to |ps|
      invariant d == VendorCounts(ps[..i])
    {
      var vendor := VendorOf(ps[i]);
      VendorCountsSnoc(ps, i);
      var k := FindVendor(d, vendor);
      BumpAt(d, vendor, k);
      if k < |d| {
        d := d[k := Entry(vendor, d[k].count + 1)];
      } else {
        d := d + [Entry(vendor, 1)];
      }
    }
    assert ps[..|ps|] == ps;
  }

  /** The dictionary lookup: the position of `v`, or `|d|` when it is absent. */
  method FindVendor(d: seq<Entry>, v: string) returns (k: nat)
    ensures k <= |d|
    ensures forall j :: 0 <= j < k ==> d[j].vendor != v
    ensures k < |d| ==> d[k].vendor == v
  {
    k := 0;
    while k < |d| && d[k].vendor != v
      invariant k <= |d|
      invariant forall j :: 0 <= j < k ==> d[j].vendor != v
    {
      k := k + 1;
    }
  }

  /** One more product: its vendor is counted once more. */
  lemma VendorCountsSnoc(ps: seq<Product>, i: nat)
    requires i < |ps|
    ensures VendorCounts(ps[..i + 1]) == Bump(VendorCounts(ps[..i]), VendorOf(ps[i]))
  {
    assert ps[..i + 1][..i] == ps[..i];
  }

  /** Bumping a vendor first found at `k`, or absent when `k == |d|`. */
  lemma {:induction false} BumpAt(d: seq<Entry>, v: string, k: nat)
    requires k <= |d|
    requires forall j :: 0 <= j < k ==> d[j].vendor != v
    requires k < |d| ==> d[k].vendor == v
    ensures k < |d| ==> Bump(d, v) == d[k := Entry(v, d[k].count + 1)]
    ensures k == |d| ==> Bump(d, v) == d + [Entry(v, 1)]
  {
    if d != [] && k > 0 {
      BumpAt(d[1..], v, k - 1);
      if k < |d| {
        assert d[1..][k - 1 := Entry(v, d[k].count + 1)] == d[k := Entry(v, d[k].count + 1)][1..];
      } else {
        assert d[1..] + [Entry(v, 1)] == (d + [Entry(v, 1)])[1..];
      }
    }
  }

  /** `self.results["qvl_summary"]`, without the constant page URL. */
  datatype QvlSummary = QvlSummary(
    totalNvmeProductsInQvl: nat,
    trustaProductsFound: nat,
    trustaGen5Products: nat,
    trustaCapacityOptions: seq<string>,
    totalTrustaCapacityTb: real,
    vendorDistribution: seq<Entry>)

  /** `self.results["search_summary"]`, without its constant strings; `findings` reports the count. */
  datatype SearchSummary = SearchSummary(searchSuccessful: bool, findingsCount: nat)

  /** The summary the two lists give. */
  function Summarize(all: seq<Product>, trusta: seq<Product>, render: real -> string): QvlSummary {
    var caps := Capacities(trusta);
    QvlSummary(
      totalNvmeProductsInQvl := |all|,
      trustaProductsFound := |trusta|,
      trustaGen5Products := Gen5Count(trusta),
      trustaCapacityOptions := SortedDistinct(Labels(caps, render)),
      totalTrustaCapacityTb := Sum(caps),
      vendorDistribution := VendorCounts(all))
  }

  function Search(trusta: seq<Product>): (s: SearchSummary)
    ensures s.searchSuccessful <==> |trusta| > 0
    ensures s.findingsCount == |trusta|
  {
    SearchSummary(|trusta| > 0, |trusta|)
  }

  /** A capacity option is offered exactly when some TRUSTA product has that positive capacity. */
  lemma CapacityOptions(trusta: seq<Product>, render: real -> string)
    ensures var opts := Summarize([], trusta, render).trustaCapacityOptions;
      StrictlySorted(opts)
      && forall l :: l in opts <==>
           exists i :: 0 <= i < |trusta| && AnalysisOf(trusta[i]).capacityTb > 0.0
                  && l == Label(AnalysisOf(trusta[i]).capacityTb, render)
  {
    var caps := Capacities(trusta);
    CapacitiesFrom(trusta);
    var ls := Labels(caps, render);
    forall l
      ensures l in ls <==> exists i :: 0 <= i < |trusta| && AnalysisOf(trusta[i]).capacityTb > 0.0
                                   && l == Label(AnalysisOf(trusta[i]).capacityTb, render)
    {
      if l in ls {
        var k :| 0 <= k < |ls| && ls[k] == l;
        assert caps[k] in caps;
      }
      if exists i :: 0 <= i < |trusta| && AnalysisOf(trusta[i]).capacityTb > 0.0
                 && l == Label(AnalysisOf(trusta[i]).capacityTb, render) {
        var i :| 0 <= i < |trusta| && AnalysisOf(trusta[i]).capacityTb > 0.0
                 && l == Label(AnalysisOf(trusta[i]).capacityTb, render);
        assert AnalysisOf(trusta[i]).capacityTb in caps;
        var k :| 0 <= k < |caps| && caps[k] == AnalysisOf(trusta[i]).capacityTb;
        assert ls[k] == l;
      }
    }
  }

  /** The capacities listed are exactly the positive capacities of the products. */
  lemma {:induction false} CapacitiesFrom(ps: seq<Product>)
    ensures forall c :: c in Capacities(ps) <==>
              exists i :: 0 <= i < |ps| && AnalysisOf(ps[i]).capacityTb == c && c > 0.0
  {
    if ps != [] {
      var n := |ps| - 1;
      CapacitiesFrom(ps[..n]);
      assert forall i :: 0 <= i < n ==> ps[..n][i] == ps[i];
    }
  }

  /**
   * The facts the summary promises for the lists the extraction builds: the
   * Gen 5 products are among the TRUSTA products, which are among all
   * products; the vendor counts add up to all products; the capacity total is
   * never negative and is zero only when no capacity is known.
   */
  lemma SummaryFacts(all: seq<Product>, trusta: seq<Product>, render: real -> string)
    requires trusta == Analysed(all)
    ensures var s := Summarize(all, trusta, render);
      s.trustaGen5Products <= s.trustaProductsFound <= s.totalNvmeProductsInQvl
      && SumCounts(s.vendorDistribution) == s.totalNvmeProductsInQvl
      && DistinctKeys(s.vendorDistribution)
      && s.totalTrustaCapacityTb >= 0.0
      && (s.totalTrustaCapacityTb == 0.0 <==> s.trustaCapacityOptions == [])
      && |s.trustaCapacityOptions| <= s.trustaProductsFound
  {
    VendorCountsFacts(all);
    var caps := Capacities(trusta);
    SumPositive(caps);
    var ls := Labels(caps, render);
    var opts := SortedDistinct(ls);
    if ls != [] {
      assert ls[0] in opts;
    }
  }

  /** Worked example: vendors A, B, A, C give A:2, B:1, C:1, in first-seen order. */
  lemma VendorCountsExample(ps: seq<Product>)
    requires |ps| == 4
    requires VendorOf(ps[0]) == "A" && VendorOf(ps[1]) == "B" && VendorOf(ps[2]) == "A" && VendorOf(ps[3]) == "C"
    ensures VendorCounts(ps) == [Entry("A", 2), Entry("B", 1), Entry("C", 1)]
    ensures SumCounts(VendorCounts(ps)) == 4
  {
    assert ps[..1][..0] == [] && ps[..2][..1] == ps[..1] && ps[..3][..2] == ps[..2] && ps[..3] == ps[..|ps| - 1];
    var a1, b1, a2, c1 := Entry("A", 1), Entry("B", 1), Entry("A", 2), Entry("C", 1);
    assert ps[..2][1] == ps[1] && ps[..3][2] == ps[2];
    assert VendorCounts(ps[..1]) == [a1];
    assert Bump([a1], "B") == [a1, b1] by {
      assert [a1][1..] == [];
    }
    assert VendorCounts(ps[..2]) == [a1, b1];
    assert Bump([a1, b1], "A") == [a2, b1] by {
      assert [a1, b1][1..] == [b1];
    }
    assert VendorCounts(ps[..3]) == [a2, b1];
    assert Bump([a2, b1], "C") == [a2, b1, c1] by {
      assert [a2, b1][1..] == [b1] && [b1][1..] == [];
      assert Bump([b1], "C") == [b1, c1];
    }
    assert SumCounts([a2, b1, c1]) == 4 by {
      assert [a2, b1, c1][1..] == [b1, c1] && [b1, c1][1..] == [c1] && [c1][1..] == [];
      assert SumCounts([c1]) == 1;
      assert SumCounts([b1, c1]) == 2;
    }
  }

  /** Worked example: two TRUSTA products of the same capacity give one option. */
  lemma OptionsDeduplicated(p: Product, q: Product, render: real -> string)
    requires AnalysisOf(p).capacityTb == 2.0 && AnalysisOf(q).capacityTb == 2.0
    ensures Summarize([], [p, q], render).trustaCapacityOptions == [Label(2.0, render)]
    ensures Summarize([], [p, q], render).totalTrustaCapacityTb == 4.0
  {
    TwoCapacities(p, q);
    RepeatedLabel(2.0, render);
    assert Sum([2.0, 2.0]) == 4.0 by {
      assert [2.0, 2.0][..1] == [2.0] && [2.0][..0] == [];
    }
  }

  /** The capacity list of the example: both products contribute their 2 TB. */
  lemma TwoCapacities(p: Product, q: Product)
    requires AnalysisOf(p).capacityTb == 2.0 && AnalysisOf(q).capacityTb == 2.0
    ensures Capacities([p, q]) == [2.0, 2.0]
  {
    assert [p, q][..1] == [p] && [p][..0] == [];
    assert Capacities([p]) == [2.0];
  }

  /** A capacity seen twice is offered once. */
  lemma RepeatedLabel(c: real, render: real -> string)
    ensures SortedDistinct(Labels([c, c], render)) == [Label(c, render)]
  {
    var l := Label(c, render);
    assert Labels([c, c], render) == [l, l];
    assert SortedDistinct([l, l]) == [l] by {
      assert [l, l][1..] == [l] && [l][1..] == [];
      assert SortedDistinct([l]) == [l];
    }
  }
}
