/**
 * The vendor ranking shown with the results:
 * `sorted(vendor_counts.items(), key=lambda x: x[1], reverse=True)[:10]`.
 * Python's sort is stable, also with `reverse=True`, so vendors with equal
 * counts keep the order in which the dictionary holds them.
 */
module Ranking {

  /** One item of the vendor distribution: a vendor and how many products carry it. */
  datatype Entry = Entry(vendor: string, count: nat)

  /** How many vendors are listed at most. */
  const TopCount: nat := 10

  /** Counts do not increase along the list. */
  predicate NonIncreasing(s: seq<Entry>) {
    forall i, j :: 0 <= i < j < |s| ==> s[i].count >= s[j].count
  }

  /** The entries with count `c`, in list order: what stability is about. */
  function WithCount(s: seq<Entry>, c: nat): (r: seq<Entry>)
    ensures |r| <= |s|
  {
    if s == [] then []
    else (if s[0].count == c then [s[0]] else []) + WithCount(s[1..], c)
  }

  /** `e` placed after every entry with a higher count and before the rest. */
  function InsertDesc(e: Entry, s: seq<Entry>): (r: seq<Entry>)
    ensures multiset(r) == multiset(s) + multiset{e}
    ensures |r| == |s| + 1
  {
    if s == [] || s[0].count <= e.count then [e] + s
    else
      assert s == [s[0]] + s[1..];
      [s[0]] + InsertDesc(e, s[1..])
  }

  lemma {:induction false} InsertDescSorted(e: Entry, s: seq<Entry>)
    requires NonIncreasing(s)
    ensures NonIncreasing(InsertDesc(e, s))
  {
    if s != [] && s[0].count > e.count {
      var t := InsertDesc(e, s[1..]);
      assert forall i :: 0 <= i < |s[1..]| ==> s[1..][i] == s[i + 1];
      InsertDescSorted(e, s[1..]);
      InsertDescBound(e, s[1..], s[0].count);
      var r := [s[0]] + t;
      assert forall j :: 0 < j < |r| ==> r[j] == t[j - 1];
    }
  }

  /** Inserting keeps every count at or below a bound that `e` and `s` respect. */
  lemma {:induction false} InsertDescBound(e: Entry, s: seq<Entry>, c: nat)
    requires e.count <= c && forall i :: 0 <= i < |s| ==> s[i].count <= c
    ensures forall i :: 0 <= i < |InsertDesc(e, s)| ==> InsertDesc(e, s)[i].count <= c
  {
    if s != [] && s[0].count > e.count {
      assert forall i :: 0 <= i < |s[1..]| ==> s[1..][i] == s[i + 1];
      InsertDescBound(e, s[1..], c);
      var t := InsertDesc(e, s[1..]);
      assert forall j :: 0 < j < |t| + 1 ==> ([s[0]] + t)[j] == t[j - 1];
    }
  }

  lemma {:induction false} InsertDescWithCount(e: Entry, s: seq<Entry>, c: nat)
    ensures WithCount(InsertDesc(e, s), c) == (if e.count == c then [e] else []) + WithCount(s, c)
  {
    if s == [] || s[0].count <= e.count {
      assert ([e] + s)[1..] == s;
    } else {
      var t := InsertDesc(e, s[1..]);
      InsertDescWithCount(e, s[1..], c);
      assert ([s[0]] + t)[1..] == t;
    }
  }

  /** The stable sort by descending count. */
  function SortDesc(s: seq<Entry>): (r: seq<Entry>)
    ensures multiset(r) == multiset(s)
    ensures |r| == |s|
  {
    if s == [] then []
    else
      assert s == [s[0]] + s[1..];
      InsertDesc(s[0], SortDesc(s[1..]))
  }

  /** The ranking is ordered by count, and vendors with equal counts keep their order. */
  lemma {:induction false} SortDescRanks(s: seq<Entry>)
    ensures NonIncreasing(SortDesc(s))
    ensures forall c :: WithCount(SortDesc(s), c) == WithCount(s, c)
  {
    if s != [] {
      SortDescRanks(s[1..]);
      InsertDescSorted(s[0], SortDesc(s[1..]));
      forall c ensures WithCount(SortDesc(s), c) == WithCount(s, c) {
        InsertDescWithCount(s[0], SortDesc(s[1..]), c);
      }
    }
  }

  /** The vendors shown: the first ten of the ranking. */
  function TopVendors(s: seq<Entry>): (r: seq<Entry>)
    ensures |r| <= TopCount
    ensures |r| == if |s| < TopCount then |s| else TopCount
    ensures r == SortDesc(s)[..|r|]
  {
    var ranked := SortDesc(s);
    if |ranked| <= TopCount then ranked[..|ranked|] else ranked[..TopCount]
  }

  /** No vendor left out of the list has more products than one shown. */
  lemma TopVendorsDominate(s: seq<Entry>)
    ensures var ranked, shown := SortDesc(s), |TopVendors(s)|;
      forall i, j :: 0 <= i < shown <= j < |ranked| ==> ranked[i].count >= ranked[j].count
  {
    SortDescRanks(s);
  }

  /** Every vendor shown is one of the distribution, with its own count. */
  lemma TopVendorsFromDistribution(s: seq<Entry>)
    ensures forall e :: e in TopVendors(s) ==> e in s
  {
    var ranked := SortDesc(s);
    forall e | e in TopVendors(s)
      ensures e in s
    {
      assert e in ranked;
      assert e in multiset(ranked);
    }
  }

  /** A distribution of at most ten vendors is shown in full, ranked. */
  lemma TopVendorsAll(s: seq<Entry>)
    requires |s| <= TopCount
    ensures multiset(TopVendors(s)) == multiset(s)
  {
    var ranked := SortDesc(s);
    assert ranked[..|ranked|] == ranked;
  }
}
