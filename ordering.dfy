/**
 * Python's ordering of `str` values (code point by code point, a proper
 * prefix first) and `sorted(set(xs))`: the distinct elements of a list in
 * ascending order.
 */
module Ordering {

  /** `a < b` on Python strings. */
  predicate StrLess(a: string, b: string) {
    if a == [] then b != []
    else b != [] && (a[0] < b[0] || (a[0] == b[0] && StrLess(a[1..], b[1..])))
  }

  lemma {:induction false} StrLessIrreflexive(a: string)
    ensures !StrLess(a, a)
  {
    if a != [] {
      StrLessIrreflexive(a[1..]);
    }
  }

  lemma {:induction false} StrLessTransitive(a: string, b: string, c: string)
    requires StrLess(a, b) && StrLess(b, c)
    ensures StrLess(a, c)
  {
    if a != [] && a[0] == b[0] && b[0] == c[0] {
      StrLessTransitive(a[1..], b[1..], c[1..]);
    }
  }

  /** Any two different strings are ordered one way or the other. */
  lemma {:induction false} StrLessTotal(a: string, b: string)
    requires a != b
    ensures StrLess(a, b) || StrLess(b, a)
  {
    if a != [] && b != [] && a[0] == b[0] {
      assert a == [a[0]] + a[1..] && b == [b[0]] + b[1..];
      StrLessTotal(a[1..], b[1..]);
    }
  }

  lemma {:induction false} StrLessAsymmetric(a: string, b: string)
    requires StrLess(a, b)
    ensures !StrLess(b, a)
  {
    if a != [] && a[0] == b[0] {
      StrLessAsymmetric(a[1..], b[1..]);
    }
  }

  /** Ascending without repetitions. */
  predicate StrictlySorted(s: seq<string>) {
    forall i, j :: 0 <= i < j < |s| ==> StrLess(s[i], s[j])
  }

  /** Every element is below every later one once consecutive elements are. */
  lemma {:induction false} ChainSorted(s: seq<string>)
    requires forall i :: 0 <= i < |s| - 1 ==> StrLess(s[i], s[i + 1])
    ensures StrictlySorted(s)
  {
    if |s| > 1 {
      ChainSorted(s[1..]);
      forall j | 1 < j < |s|
        ensures StrLess(s[0], s[j])
      {
        assert s[1..][0] == s[1] && s[1..][j - 1] == s[j];
        StrLessTransitive(s[0], s[1], s[j]);
      }
    }
  }

  /** `x` placed into an ascending list, unless it is already there. */
  function InsertUnique(x: string, s: seq<string>): (r: seq<string>)
    requires StrictlySorted(s)
    ensures StrictlySorted(r)
    ensures forall y :: y in r <==> y == x || y in s
    decreases |s|
  {
    if s == [] then [x]
    else if x == s[0] then s
    else if StrLess(x, s[0]) then
      assert forall j :: 0 <= j < |s| ==> StrLess(x, s[j]) by {
        forall j | 0 < j < |s| ensures StrLess(x, s[j]) {
          StrLessTransitive(x, s[0], s[j]);
        }
      }
      [x] + s
    else
      var t := InsertUnique(x, s[1..]);
      StrLessTotal(x, s[0]);
      assert forall y :: y in s[1..] ==> StrLess(s[0], y) by {
        forall y | y in s[1..] ensures StrLess(s[0], y) {
          var j :| 0 <= j < |s[1..]| && s[1..][j] == y;
          assert s[j + 1] == y;
        }
      }
      assert s == [s[0]] + s[1..];
      [s[0]] + t
  }

  /** `sorted(set(xs))`. */
  function SortedDistinct(xs: seq<string>): (r: seq<string>)
    ensures StrictlySorted(r)
    ensures forall y :: y in r <==> y in xs
    ensures |r| <= |xs|
  {
    if xs == [] then []
    else
      var r := InsertUnique(xs[0], SortedDistinct(xs[1..]));
      assert xs == [xs[0]] + xs[1..];
      SortedLength(r, xs);
      r
  }

  /** A list without repetitions is no longer than any list holding all its elements. */
  lemma SortedLength(r: seq<string>, xs: seq<string>)
    requires StrictlySorted(r)
    requires forall y :: y in r ==> y in xs
    ensures |r| <= |xs|
  {
    var sr := set y | y in r;
    var sx := set y | y in xs;
    assert sr <= sx;
    DistinctCard(r);
    SetCardBelow(xs);
    SubsetCard(sr, sx);
  }

  lemma {:induction false} DistinctCard(r: seq<string>)
    requires StrictlySorted(r)
    ensures |set y | y in r| == |r|
  {
    if r != [] {
      var t := r[1..];
      assert StrictlySorted(t) by {
        assert forall i, j :: 0 <= i < j < |t| ==> t[i] == r[i + 1] && t[j] == r[j + 1];
      }
      DistinctCard(t);
      assert r[0] !in t by {
        forall j | 0 <= j < |t| ensures t[j] != r[0] {
          assert t[j] == r[j + 1];
          StrLessIrreflexive(r[0]);
        }
      }
      assert (set y | y in r) == (set y | y in t) + {r[0]} by {
        assert r == [r[0]] + t;
      }
    }
  }

  lemma {:induction false} SetCardBelow(xs: seq<string>)
    ensures |set y | y in xs| <= |xs|
  {
    if xs != [] {
      var t := xs[1..];
      SetCardBelow(t);
      assert (set y | y in xs) == (set y | y in t) + {xs[0]} by {
        assert xs == [xs[0]] + t;
      }
    }
  }

  lemma SubsetCard(a: set<string>, b: set<string>)
    requires a <= b
    ensures |a| <= |b|
  {
    assert b == a + (b - a);
  }

  /** Two ascending lists without repetitions holding the same elements are equal. */
  lemma {:induction false} SortedUnique(a: seq<string>, b: seq<string>)
    requires StrictlySorted(a) && StrictlySorted(b)
    requires forall y :: y in a <==> y in b
    ensures a == b
    decreases |a|
  {
    DistinctCard(a);
    DistinctCard(b);
    assert (set y | y in a) == (set y | y in b);
    if a != [] {
      SortedHead(a, b);
      SortedTail(a);
      SortedTail(b);
      SortedUnique(a[1..], b[1..]);
      assert a == [a[0]] + a[1..] && b == [b[0]] + b[1..];
    }
  }

  /** Such lists start with the same element: the least one. */
  lemma SortedHead(a: seq<string>, b: seq<string>)
    requires StrictlySorted(a) && StrictlySorted(b) && a != [] && b != []
    requires forall y :: y in a <==> y in b
    ensures a[0] == b[0]
  {
    if a[0] != b[0] {
      assert a[0] in b && b[0] in a;
      var i :| 0 <= i < |b| && b[i] == a[0];
      var j :| 0 <= j < |a| && a[j] == b[0];
      assert StrLess(b[0], a[0]) by { assert i > 0; }
      assert StrLess(a[0], b[0]) by { assert j > 0; }
      StrLessAsymmetric(a[0], b[0]);
    }
  }

  /** The tail of such a list is ordered and holds everything but the head. */
  lemma SortedTail(a: seq<string>)
    requires StrictlySorted(a) && a != []
    ensures StrictlySorted(a[1..])
    ensures forall y :: y in a[1..] <==> y in a && y != a[0]
  {
    var t := a[1..];
    assert forall i :: 0 <= i < |t| ==> t[i] == a[i + 1];
    forall y | y in a && y != a[0]
      ensures y in t
    {
      assert a == [a[0]] + t;
    }
    forall y | y in t
      ensures y != a[0]
    {
      var j :| 0 <= j < |t| && t[j] == y;
      assert StrLess(a[0], a[j + 1]);
      StrLessIrreflexive(a[0]);
    }
  }

  /** The result depends only on the set of elements, not on their order or repetitions. */
  lemma SortedDistinctSetOnly(xs: seq<string>, ys: seq<string>)
    requires forall y :: y in xs <==> y in ys
    ensures SortedDistinct(xs) == SortedDistinct(ys)
  {
    SortedUnique(SortedDistinct(xs), SortedDistinct(ys));
  }
}
