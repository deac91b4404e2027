/**
 * The row loop of the table extraction: every body row of the table becomes a
 * record (or is skipped), every kept record goes to the list of all products,
 * and every record that matches the keyword filter also goes, with its
 * analysis, to the list of TRUSTA products.
 */
module Extraction {
  import opened Seqs
  import opened Text
  import opened Records

  function Min(a: nat, b: nat): nat {
    if a <= b then a else b
  }

  /** The record built from the first `n` columns; a repeated header keeps its last value. */
  function ZipPrefix(headers: seq<string>, values: seq<string>, n: nat): Record
    requires n <= |headers| && n <= |values|
  {
    if n == 0 then map[] else ZipPrefix(headers, values, n - 1)[headers[n - 1] := values[n - 1]]
  }

  /** `product_data`: header `i` mapped to the trimmed text of cell `i`, for the columns both have. */
  function Zip(headers: seq<string>, cells: seq<string>): Record {
    ZipPrefix(headers, TrimAll(cells), Min(|headers|, |cells|))
  }

  /** The keys of the record are the first `n` headers. */
  lemma {:induction false} ZipPrefixKeys(headers: seq<string>, values: seq<string>, n: nat)
    requires n <= |headers| && n <= |values|
    ensures forall k :: k in ZipPrefix(headers, values, n) <==> k in headers[..n]
  {
    if n > 0 {
      ZipPrefixKeys(headers, values, n - 1);
      assert headers[..n] == headers[..n - 1] + [headers[n - 1]];
    }
  }

  /** A header not repeated among the first `n` holds its own value. */
  lemma {:induction false} ZipPrefixValues(headers: seq<string>, values: seq<string>, n: nat)
    requires n <= |headers| && n <= |values|
    ensures forall i :: 0 <= i < n && (forall j :: i < j < n ==> headers[j] != headers[i]) ==>
              headers[i] in ZipPrefix(headers, values, n) && ZipPrefix(headers, values, n)[headers[i]] == values[i]
  {
    if n > 0 {
      ZipPrefixValues(headers, values, n - 1);
    }
  }

  /** Zipping a row: one key per header, the value the trimmed cell below it. */
  lemma ZipFields(headers: seq<string>, cells: seq<string>)
    requires |cells| >= |headers|
    ensures forall k :: k in Zip(headers, cells) <==> k in headers
    ensures forall i :: 0 <= i < |headers| && (forall j :: i < j < |headers| ==> headers[j] != headers[i]) ==>
              Zip(headers, cells)[headers[i]] == Trim(cells[i])
  {
    var values := TrimAll(cells);
    ZipPrefixKeys(headers, values, |headers|);
    ZipPrefixValues(headers, values, |headers|);
    assert headers[..|headers|] == headers;
  }

  /** One column of the record: a header not repeated later holds its own cell, stripped. */
  lemma ZipAt(headers: seq<string>, cells: seq<string>, i: nat)
    requires |cells| >= |headers| && i < |headers|
    requires forall j :: i < j < |headers| ==> headers[j] != headers[i]
    ensures headers[i] in Zip(headers, cells) && Zip(headers, cells)[headers[i]] == Trim(cells[i])
  {
    ZipFields(headers, cells);
  }

  /** A name is a key of the record exactly when it is a header. */
  lemma ZipKey(headers: seq<string>, cells: seq<string>, k: string)
    requires |cells| >= |headers|
    ensures k in Zip(headers, cells) <==> k in headers
  {
    ZipFields(headers, cells);
  }

  lemma {:induction false} ZipPrefixValuesAfter(headers: seq<string>, values: seq<string>, extra: seq<string>, n: nat)
    requires n <= |headers| && n <= |values|
    ensures ZipPrefix(headers, values + extra, n) == ZipPrefix(headers, values, n)
  {
    if n > 0 {
      ZipPrefixValuesAfter(headers, values, extra, n - 1);
      assert (values + extra)[n - 1] == values[n - 1];
    }
  }

  /** Cells beyond the last header are ignored. */
  lemma ZipIgnoresExtraCells(headers: seq<string>, cells: seq<string>, extra: seq<string>)
    requires |cells| >= |headers|
    ensures Zip(headers, cells + extra) == Zip(headers, cells)
  {
    TrimAllAppend(cells, extra);
    ZipPrefixValuesAfter(headers, TrimAll(cells), TrimAll(extra), |headers|);
  }

  /** The inner loop that fills `product_data` cell by cell. */
  method ZipRow(headers: seq<string>, cells: seq<string>) returns (product: Record)
    ensures product == Zip(headers, cells)
  {
    product := map[];
    for i := 0 to |cells|
      invariant product == ZipPrefix(headers, TrimAll(cells), Min(i, |headers|))
    {
      if i < |headers| {
        assert TrimAll(cells)[i] == Trim(cells[i]);
        assert Min(i, |headers|) == i && Min(i + 1, |headers|) == i + 1;
        product := product[headers[i] := Trim(cells[i])];
      } else {
        assert Min(i + 1, |headers|) == Min(i, |headers|);
      }
    }
  }

  /** What the loop does with one row. */
  datatype Step =
    | Skip                    // too few cells, a blank first cell, or no product name
    | Keep(product: Product)  // the row becomes a product
    | Raise                   // `cells[0]` of an empty row when there are no headers

  function RowStep(headers: seq<string>, cells: seq<string>): Step {
    if |cells| < |headers| then Skip
    else if |cells| == 0 then Raise
    else if Trim(cells[0]) == "" then Skip
    else
      var product := Zip(headers, cells);
      if Field(product, "Product Name") == "" then Skip else Keep(Classify(product))
  }

  /** When a row is kept, skipped, or stops the extraction. */
  lemma RowStepCases(headers: seq<string>, cells: seq<string>)
    ensures RowStep(headers, cells).Raise? <==> |headers| == 0 && |cells| == 0
    ensures RowStep(headers, cells).Keep? <==>
      |cells| >= |headers| && |cells| > 0 && !AllSpace(cells[0]) && Field(Zip(headers, cells), "Product Name") != ""
    ensures RowStep(headers, cells).Keep? ==>
      RowStep(headers, cells).product == Classify(Zip(headers, cells)) && "Product Name" in headers
  {
    if RowStep(headers, cells).Keep? {
      ZipFields(headers, cells);
    }
  }

  /** A long enough row with a first cell and a product name is kept, classified on its record. */
  lemma KeepWhen(headers: seq<string>, cells: seq<string>)
    requires |cells| >= |headers| && |cells| > 0 && Trim(cells[0]) != ""
    requires Field(Zip(headers, cells), "Product Name") != ""
    ensures RowStep(headers, cells) == Keep(Classify(Zip(headers, cells)))
  {
  }

  /** The two lists the loop builds, or the failure of the whole extraction. */
  datatype Outcome = Extracted(all: seq<Product>, trusta: seq<Product>) | Failed

  /** Storing a product: it joins the full list, and the TRUSTA list when it carries an analysis. */
  function Add(o: Outcome, p: Product): Outcome
    requires o.Extracted?
  {
    Extracted(o.all + [p], if p.analysis.Some? then o.trusta + [p] else o.trusta)
  }

  /** One iteration of the row loop. */
  function Apply(o: Outcome, s: Step): Outcome {
    if o.Failed? then Failed
    else
      match s
      case Skip => o
      case Raise => Failed
      case Keep(p) => Add(o, p)
  }

  /** The loop over a sequence of per-row decisions. */
  function Fold(steps: seq<Step>): Outcome {
    if steps == [] then Extracted([], [])
    else Apply(Fold(steps[..|steps| - 1]), steps[|steps| - 1])
  }

  /** The decision taken on each row. */
  function Steps(headers: seq<string>, rows: seq<seq<string>>): (steps: seq<Step>)
    ensures |steps| == |rows|
    ensures forall i :: 0 <= i < |rows| ==> steps[i] == RowStep(headers, rows[i])
  {
    Map(cells => RowStep(headers, cells), rows)
  }


  /** The row loop over the whole table body, in table order. */
  function ExtractAll(headers: seq<string>, rows: seq<seq<string>>): Outcome {
    Fold(Steps(headers, rows))
  }

  /** Running the loop over two stretches of rows in turn. */
  function Join(a: Outcome, b: Outcome): Outcome {
    if a.Failed? || b.Failed? then Failed else Extracted(a.all + b.all, a.trusta + b.trusta)
  }

  /** One more row after two stretches goes to the second. */
  lemma ApplyJoin(x: Outcome, y: Outcome, s: Step)
    ensures Apply(Join(x, y), s) == Join(x, Apply(y, s))
  {
    if x.Extracted? && y.Extracted? && s.Keep? {
      var p := s.product;
      assert x.all + y.all + [p] == x.all + (y.all + [p]);
      assert x.trusta + y.trusta + [p] == x.trusta + (y.trusta + [p]);
    }
  }

  lemma {:induction false} FoldAppend(a: seq<Step>, b: seq<Step>)
    ensures Fold(a + b) == Join(Fold(a), Fold(b))
    decreases |b|
  {
    if b == [] {
      assert a + b == a;
      var x := Fold(a);
      assert x.Extracted? ==> x.all + [] == x.all && x.trusta + [] == x.trusta;
    } else {
      var b' := b[..|b| - 1];
      assert (a + b)[..|a + b| - 1] == a + b';
      assert (a + b)[|a + b| - 1] == b[|b| - 1];
      FoldAppend(a, b');
      ApplyJoin(Fold(a), Fold(b'), b[|b| - 1]);
    }
  }

  lemma StepsAppend(headers: seq<string>, a: seq<seq<string>>, b: seq<seq<string>>)
    ensures Steps(headers, a + b) == Steps(headers, a) + Steps(headers, b)
  {
    MapAppend(cells => RowStep(headers, cells), a, b);
  }

  /** The loop over `a + b` is the loop over `a` followed by the loop over `b`. */
  lemma ExtractAllAppend(headers: seq<string>, a: seq<seq<string>>, b: seq<seq<string>>)
    ensures ExtractAll(headers, a + b) == Join(ExtractAll(headers, a), ExtractAll(headers, b))
  {
    StepsAppend(headers, a, b);
    FoldAppend(Steps(headers, a), Steps(headers, b));
  }

  /** A skipped row leaves no trace: removing it changes nothing. */
  lemma SkippedRowIgnored(headers: seq<string>, a: seq<seq<string>>, row: seq<string>, b: seq<seq<string>>)
    requires RowStep(headers, row) == Skip
    ensures ExtractAll(headers, a + [row] + b) == ExtractAll(headers, a + b)
  {
    ExtractAllAppend(headers, a + [row], b);
    ExtractAllAppend(headers, a, [row]);
    ExtractAllAppend(headers, a, b);
    assert ExtractAll(headers, [row]) == Extracted([], []) by {
      assert Steps(headers, [row]) == [Skip];
      assert [Skip][..0] == [];
    }
    var x := ExtractAll(headers, a);
    assert x.Extracted? ==> x.all + [] == x.all && x.trusta + [] == x.trusta;
  }

  lemma {:induction false} FoldFailsIff(steps: seq<Step>)
    ensures Fold(steps).Failed? <==> Raise in steps
  {
    if steps != [] {
      var init := steps[..|steps| - 1];
      FoldFailsIff(init);
      assert steps == init + [steps[|steps| - 1]];
    }
  }

  /** The extraction fails exactly when there are no headers and some row has no cells. */
  lemma ExtractFailsIff(headers: seq<string>, rows: seq<seq<string>>)
    ensures ExtractAll(headers, rows).Failed? <==> |headers| == 0 && [] in rows
  {
    var steps := Steps(headers, rows);
    FoldFailsIff(steps);
    if Raise in steps {
      var i :| 0 <= i < |steps| && steps[i] == Raise;
      RowStepCases(headers, rows[i]);
    }
    if |headers| == 0 && [] in rows {
      var i :| 0 <= i < |rows| && rows[i] == [];
      RowStepCases(headers, rows[i]);
      assert steps[i] == Raise;
    }
  }

  /** The TRUSTA products of a product list: those carrying an analysis, in order. */
  function Analysed(products: seq<Product>): (r: seq<Product>)
    ensures |r| <= |products|
  {
    if products == [] then []
    else
      var init := Analysed(products[..|products| - 1]);
      var last := products[|products| - 1];
      if last.analysis.Some? then init + [last] else init
  }

  /** The positions in the full list of the products that carry an analysis, in order. */
  function AnalysedAt(products: seq<Product>): (idx: seq<nat>)
    ensures |idx| == |Analysed(products)|
  {
    if products == [] then []
    else
      var n := |products| - 1;
      var init := AnalysedAt(products[..n]);
      if products[n].analysis.Some? then init + [n] else init
  }

  /** Each position holds the TRUSTA product of the same rank, and it carries an analysis. */
  lemma {:induction false} AnalysedAtPositions(products: seq<Product>)
    ensures forall k :: 0 <= k < |AnalysedAt(products)| ==>
      AnalysedAt(products)[k] < |products|
      && products[AnalysedAt(products)[k]] == Analysed(products)[k]
      && products[AnalysedAt(products)[k]].analysis.Some?
  {
    if products != [] {
      var n := |products| - 1;
      var front := products[..n];
      AnalysedAtPositions(front);
      var init, a := AnalysedAt(front), Analysed(front);
      assert forall k :: 0 <= k < |init| ==> init[k] < n && products[init[k]] == front[init[k]];
      if products[n].analysis.Some? {
        assert AnalysedAt(products) == init + [n] && Analysed(products) == a + [products[n]];
      } else {
        assert AnalysedAt(products) == init && Analysed(products) == a;
      }
    }
  }

  /** The positions strictly increase: the TRUSTA list keeps the order of the full list. */
  lemma {:induction false} AnalysedAtIncreasing(products: seq<Product>)
    ensures forall k, l :: 0 <= k < l < |AnalysedAt(products)| ==> AnalysedAt(products)[k] < AnalysedAt(products)[l]
  {
    if products != [] {
      var n := |products| - 1;
      var front := products[..n];
      AnalysedAtIncreasing(front);
      AnalysedAtPositions(front);
      var init := AnalysedAt(front);
      if products[n].analysis.Some? {
        var idx := init + [n];
        assert AnalysedAt(products) == idx;
        forall k, l | 0 <= k < l < |idx|
          ensures idx[k] < idx[l]
        {
          if l < |init| {
            assert idx[k] == init[k] && idx[l] == init[l];
          } else {
            assert idx[k] == init[k] < n == idx[l];
          }
        }
      } else {
        assert AnalysedAt(products) == init;
      }
    }
  }

  /** Every product carrying an analysis has its position listed: no TRUSTA product is missed. */
  lemma {:induction false} AnalysedAtComplete(products: seq<Product>)
    ensures forall i :: 0 <= i < |products| && products[i].analysis.Some? ==> i in AnalysedAt(products)
  {
    if products != [] {
      var n := |products| - 1;
      var front := products[..n];
      AnalysedAtComplete(front);
      assert forall i :: 0 <= i < n ==> products[i] == front[i];
    }
  }

  lemma {:induction false} FoldShape(steps: seq<Step>)
    requires Fold(steps).Extracted?
    ensures var o := Fold(steps);
      |o.all| <= |steps| && o.trusta == Analysed(o.all)
      && forall p :: p in o.all ==> Keep(p) in steps
  {
    if steps != [] {
      var init := steps[..|steps| - 1];
      FoldShape(init);
      var o := Fold(init);
      assert steps == init + [steps[|steps| - 1]];
      if steps[|steps| - 1].Keep? {
        var p := steps[|steps| - 1].product;
        assert (o.all + [p])[..|o.all|] == o.all;
      }
    }
  }

  /** The loop over a table of three rows is the fold of their three decisions. */
  lemma ExtractThreeRows(headers: seq<string>, rows: seq<seq<string>>)
    requires |rows| == 3
    ensures ExtractAll(headers, rows) ==
      Fold([RowStep(headers, rows[0]), RowStep(headers, rows[1]), RowStep(headers, rows[2])])
  {
    var steps := Steps(headers, rows);
    assert steps == [steps[0], steps[1], steps[2]];
  }

  /** Every product a kept row yields is in the full list. */
  lemma {:induction false} FoldKeeps(steps: seq<Step>, p: Product)
    requires Fold(steps).Extracted? && Keep(p) in steps
    ensures p in Fold(steps).all
  {
    var n := |steps| - 1;
    var init := steps[..n];
    assert steps == init + [steps[n]];
    assert Fold(init).Extracted?;
    if steps[n] != Keep(p) {
      assert Keep(p) in init;
      FoldKeeps(init, p);
    }
  }

  /** The TRUSTA list is empty exactly when no product carries an analysis. */
  lemma {:induction false} AnalysedEmpty(products: seq<Product>)
    ensures Analysed(products) == [] <==> forall p :: p in products ==> p.analysis.None?
  {
    if products != [] {
      var init, last := products[..|products| - 1], products[|products| - 1];
      AnalysedEmpty(init);
      assert products == init + [last];
    }
  }

  /**
   * The extraction finds a TRUSTA product exactly when some row is kept and
   * its record passes the keyword filter.
   */
  lemma FindsTrustaIff(headers: seq<string>, rows: seq<seq<string>>)
    requires ExtractAll(headers, rows).Extracted?
    ensures ExtractAll(headers, rows).trusta != [] <==>
      exists i :: 0 <= i < |rows| && RowStep(headers, rows[i]).Keep? && Matches(Zip(headers, rows[i]))
  {
    var steps := Steps(headers, rows);
    var o := ExtractAll(headers, rows);
    FoldShape(steps);
    AnalysedEmpty(o.all);
    if o.trusta != [] {
      var p :| p in o.all && p.analysis.Some?;
      assert Keep(p) in steps;
      var i :| 0 <= i < |steps| && steps[i] == Keep(p);
      RowStepCases(headers, rows[i]);
    }
    if exists i :: 0 <= i < |rows| && RowStep(headers, rows[i]).Keep? && Matches(Zip(headers, rows[i])) {
      var i :| 0 <= i < |rows| && RowStep(headers, rows[i]).Keep? && Matches(Zip(headers, rows[i]));
      var p := RowStep(headers, rows[i]).product;
      RowStepCases(headers, rows[i]);
      assert steps[i] == Keep(p);
      FoldKeeps(steps, p);
    }
  }

  /** A product as the loop stores it: named, analysed exactly when it matches, with its own analysis. */
  predicate Stored(p: Product) {
    Field(p.fields, "Product Name") != ""
    && (p.analysis.Some? <==> Matches(p.fields))
    && (p.analysis.Some? ==> p.analysis.value == Analyze(p.fields))
  }

  lemma KeptIsStored(headers: seq<string>, cells: seq<string>)
    requires RowStep(headers, cells).Keep?
    ensures Stored(RowStep(headers, cells).product)
  {
    RowStepCases(headers, cells);
    var r := Zip(headers, cells);
    ClassifyStable(r);
    assert Field(Classify(r).fields, "Product Name") == Field(r, "Product Name");
  }

  /**
   * What the extraction promises: no more products than rows, every product
   * named and classified on its own columns, and the TRUSTA list exactly the
   * analysed products of the full list, in the same order.
   */
  lemma ExtractedShape(headers: seq<string>, rows: seq<seq<string>>)
    requires ExtractAll(headers, rows).Extracted?
    ensures var o := ExtractAll(headers, rows);
      |o.trusta| <= |o.all| <= |rows|
      && o.trusta == Analysed(o.all)
      && forall p :: p in o.all ==> Stored(p)
  {
    var steps := Steps(headers, rows);
    FoldShape(steps);
    forall p | p in ExtractAll(headers, rows).all
      ensures Stored(p)
    {
      var i :| 0 <= i < |steps| && steps[i] == Keep(p);
      KeptIsStored(headers, rows[i]);
    }
  }

  /** The decisions of a table whose every row is kept, as the products `ps`. */
  function KeepAll(ps: seq<Product>): (steps: seq<Step>)
    ensures |steps| == |ps|
    ensures forall i :: 0 <= i < |ps| ==> steps[i] == Keep(ps[i])
  {
    if ps == [] then [] else KeepAll(ps[..|ps| - 1]) + [Keep(ps[|ps| - 1])]
  }

  lemma {:induction false} FoldKept(ps: seq<Product>)
    ensures Fold(KeepAll(ps)) == Extracted(ps, Analysed(ps))
  {
    if ps != [] {
      var n := |ps| - 1;
      FoldKept(ps[..n]);
      var steps := KeepAll(ps);
      assert steps[..n] == KeepAll(ps[..n]);
      assert ps == ps[..n] + [ps[n]];
    }
  }

  /** When every row is kept, there is one product per row, in table order. */
  lemma ExtractAllKept(headers: seq<string>, rows: seq<seq<string>>, ps: seq<Product>)
    requires |ps| == |rows|
    requires forall i :: 0 <= i < |rows| ==> RowStep(headers, rows[i]) == Keep(ps[i])
    ensures ExtractAll(headers, rows) == Extracted(ps, Analysed(ps))
  {
    assert Steps(headers, rows) == KeepAll(ps);
    FoldKept(ps);
  }

  /** One more row of the table: the loop goes on from where the prefix left it. */
  lemma ExtractAllSnoc(headers: seq<string>, rows: seq<seq<string>>, i: nat)
    requires i < |rows|
    ensures ExtractAll(headers, rows[..i + 1]) == Apply(ExtractAll(headers, rows[..i]), RowStep(headers, rows[i]))
  {
    var s := Steps(headers, rows[..i + 1]);
    assert s[..i] == Steps(headers, rows[..i]);
  }

  /** The row loop of `extract_qvl_table_data`. */
  method ExtractRows(headers: seq<string>, rows: seq<seq<string>>) returns (o: Outcome)
    ensures o == ExtractAll(headers, rows)
  {
    var all: seq<Product> := [];
    var trusta: seq<Product> := [];
    for i := 0 to |rows|
      invariant ExtractAll(headers, rows[..i]) == Extracted(all, trusta)
    {
      ExtractAllSnoc(headers, rows, i);
      var cells := rows[i];
      if |cells| < |headers| {
        assert RowStep(headers, cells) == Skip;
        continue;
      }
      if |cells| == 0 {
        // `cells[0]` raises IndexError, which aborts the whole extraction
        ExtractFailsIff(headers, rows);
        return Failed;
      }
      if Trim(cells[0]) == "" {
        assert RowStep(headers, cells) == Skip;
        continue;
      }
      var product := ZipRow(headers, cells);
      if Field(product, "Product Name") == "" {
        assert RowStep(headers, cells) == Skip;
        continue;
      }
      var p := Classify(product);
      assert RowStep(headers, cells) == Keep(p);
      all := all + [p];
      if p.analysis.Some? {
        trusta := trusta + [p];
      }
    }
    assert rows[..|rows|] == rows;
    o := Extracted(all, trusta);
  }
}
