/**
 * The crawler object: the result lists, the two summaries and the error log
 * in `self.results`, updated in place by the extraction and the summary.
 */
module Crawler {
  import opened Optional
  import opened Text
  import opened Capacity
  import opened Records
  import opened Extraction
  import opened Ordering
  import opened Summary

  /**
   * What the browser shows of the qualified-vendor table: the text of each
   * header cell and of each body cell, row by row; or, when a lookup raises,
   * the text of the exception.
   */
  datatype Page = Table(headerTexts: seq<string>, rows: seq<seq<string>>) | Unreadable(reason: string)

  const ExtractionError: string := "Error extracting QVL table data: "

  /** `str(e)` of the IndexError that `cells[0]` raises on an empty row. */
  const IndexErrorText: string := "list index out of range"

  class QvlTrustaCrawler {
    var trustaProductsFound: seq<Product>
    var allNvmeProducts: seq<Product>
    var qvlSummary: Option<QvlSummary>
    var searchSummary: Option<SearchSummary>
    var errors: seq<string>

    /** The results before any crawling: empty lists and summaries, no errors. */
    constructor ()
      ensures trustaProductsFound == [] && allNvmeProducts == []
      ensures qvlSummary == None && searchSummary == None && errors == []
      ensures Valid()
    {
      trustaProductsFound := [];
      allNvmeProducts := [];
      qvlSummary := None;
      searchSummary := None;
      errors := [];
    }

    /** The two lists as the extraction leaves them. */
    predicate Valid()
      reads this
    {
      trustaProductsFound == Analysed(allNvmeProducts)
      && forall p :: p in allNvmeProducts ==> Stored(p)
    }

    /**
     * `extract_qvl_table_data`: on success both lists are replaced by what the
     * row loop builds; on failure they are left alone and the error is logged.
     */
    method ExtractQvlTableData(page: Page) returns (ok: bool)
      requires Valid()
      modifies this
      ensures Valid()
      ensures qvlSummary == old(qvlSummary) && searchSummary == old(searchSummary)
      ensures ok <==> page.Table? && ExtractAll(TrimAll(page.headerTexts), page.rows).Extracted?
      ensures ok ==> (errors == old(errors)
                      && allNvmeProducts == ExtractAll(TrimAll(page.headerTexts), page.rows).all
                      && trustaProductsFound == ExtractAll(TrimAll(page.headerTexts), page.rows).trusta)
      ensures !ok ==> allNvmeProducts == old(allNvmeProducts) && trustaProductsFound == old(trustaProductsFound)
      ensures !ok && page.Unreadable? ==> errors == old(errors) + [ExtractionError + page.reason]
      ensures !ok && page.Table? ==> errors == old(errors) + [ExtractionError + IndexErrorText]
    {
      if page.Unreadable? {
        errors := errors + [ExtractionError + page.reason];
        return false;
      }
      var headers: seq<string> := [];
      for i := 0 to |page.headerTexts|
        invariant headers == TrimAll(page.headerTexts[..i])
      {
        headers := headers + [Trim(page.headerTexts[i])];
      }
      assert page.headerTexts[..|page.headerTexts|] == page.headerTexts;
      var outcome := ExtractRows(headers, page.rows);
      if outcome.Failed? {
        errors := errors + [ExtractionError + IndexErrorText];
        return false;
      }
      ExtractedShape(headers, page.rows);
      allNvmeProducts := outcome.all;
      trustaProductsFound := outcome.trusta;
      ok := true;
    }

    /**
     * `generate_qvl_summary`: both summaries are written from the two lists,
     * with capacities rendered by `render`; nothing else changes.
     */
    method GenerateQvlSummary(render: real -> string)
      modifies this
      ensures qvlSummary == Some(Summarize(allNvmeProducts, trustaProductsFound, render))
      ensures searchSummary == Some(Search(trustaProductsFound))
      ensures allNvmeProducts == old(allNvmeProducts) && trustaProductsFound == old(trustaProductsFound)
      ensures errors == old(errors)
    {
      var gen5, total, options := TallyTrusta(trustaProductsFound, render);
      var vendorCounts := CountVendors(allNvmeProducts);
      qvlSummary := Some(QvlSummary(
        totalNvmeProductsInQvl := |allNvmeProducts|,
        trustaProductsFound := |trustaProductsFound|,
        trustaGen5Products := gen5,
        trustaCapacityOptions := SortedDistinct(options),
        totalTrustaCapacityTb := total,
        vendorDistribution := vendorCounts));
      searchSummary := Some(Search(trustaProductsFound));
    }

    /**
     * `run_qvl_crawler` from the page on: success exactly when the extraction
     * succeeds, and then the summaries describe the extracted lists.
     */
    method RunQvlCrawler(page: Page, render: real -> string) returns (success: bool)
      requires Valid()
      modifies this
      ensures Valid()
      ensures success <==> page.Table? && ExtractAll(TrimAll(page.headerTexts), page.rows).Extracted?
      ensures success ==> (allNvmeProducts == ExtractAll(TrimAll(page.headerTexts), page.rows).all
                           && trustaProductsFound == ExtractAll(TrimAll(page.headerTexts), page.rows).trusta
                           && errors == old(errors))
      ensures success ==> (qvlSummary == Some(Summarize(allNvmeProducts, trustaProductsFound, render))
                           && searchSummary == Some(Search(trustaProductsFound)))
      ensures !success ==> (allNvmeProducts == old(allNvmeProducts) && trustaProductsFound == old(trustaProductsFound)
                            && qvlSummary == old(qvlSummary) && searchSummary == old(searchSummary))
      ensures !success ==> errors == old(errors) + [ExtractionError + (if page.Unreadable? then page.reason else IndexErrorText)]
    {
      success := ExtractQvlTableData(page);
      if !success {
        return;
      }
      GenerateQvlSummary(render);
    }
  }

  /**
   * After a successful run the summary keeps the promised bounds: Gen 5
   * products among TRUSTA products among all products, vendor counts adding
   * up to all products, success exactly when a TRUSTA product was found.
   */
  lemma RunSummaryFacts(headers: seq<string>, rows: seq<seq<string>>, render: real -> string)
    requires ExtractAll(headers, rows).Extracted?
    ensures var o := ExtractAll(headers, rows);
      var s := Summarize(o.all, o.trusta, render);
      s.trustaGen5Products <= s.trustaProductsFound <= s.totalNvmeProductsInQvl <= |rows|
      && SumCounts(s.vendorDistribution) == s.totalNvmeProductsInQvl
      && (Search(o.trusta).searchSuccessful <==> s.trustaProductsFound > 0)
      && StrictlySorted(s.trustaCapacityOptions)
      && s.totalTrustaCapacityTb >= 0.0
  {
    var o := ExtractAll(headers, rows);
    ExtractedShape(headers, rows);
    SummaryFacts(o.all, o.trusta, render);
  }

  /** The search succeeds exactly when some row of the table is kept and passes the keyword filter. */
  lemma SearchSuccessIff(headers: seq<string>, rows: seq<seq<string>>)
    requires ExtractAll(headers, rows).Extracted?
    ensures Search(ExtractAll(headers, rows).trusta).searchSuccessful <==>
      exists i :: 0 <= i < |rows| && RowStep(headers, rows[i]).Keep? && Matches(Zip(headers, rows[i]))
  {
    FindsTrustaIff(headers, rows);
  }

  /*
   * End-to-end scenario: a table of three rows, a TRUSTA Gen 5 drive of 4 TB,
   * a Samsung drive and a row whose first cell is blank.
   */

  /** The scenario's header row. */
  predicate ScenarioHeaderRow(h: seq<string>) {
    |h| == 5 && h[0] == "Product Name" && h[1] == "Vendor" && h[2] == "Interface"
    && h[3] == "Interface Speed" && h[4] == "Capacity"
  }

  /** No header name is repeated: the five names differ in length. */
  lemma HeadersDistinct(h: seq<string>)
    requires ScenarioHeaderRow(h)
    ensures forall i, j :: 0 <= i < j < |h| ==> h[i] != h[j]
  {
    var lengths := [12, 6, 9, 15, 8];
    assert forall k :: 0 <= k < 5 ==> |h[k]| == lengths[k];
    forall i, j | 0 <= i < j < |h|
      ensures h[i] != h[j]
    {
      assert lengths[i] != lengths[j];
    }
  }

  /** The table has no "Series" column. */
  lemma HeadersNoSeries(h: seq<string>)
    requires ScenarioHeaderRow(h)
    ensures "Series" !in h
  {
    assert h[1][0] != "Series"[0];
    forall k | 0 <= k < |h|
      ensures h[k] != "Series"
    {
      assert k != 1 ==> |h[k]| != 6;
    }
  }

  /** The record of a five-cell row under the scenario's headers. */
  lemma ScenarioZip(h: seq<string>, cells: seq<string>)
    requires ScenarioHeaderRow(h) && |cells| == 5
    ensures "Product Name" in Zip(h, cells) && Zip(h, cells)["Product Name"] == Trim(cells[0])
    ensures "Vendor" in Zip(h, cells) && Zip(h, cells)["Vendor"] == Trim(cells[1])
    ensures Field(Zip(h, cells), "Interface Speed") == Trim(cells[3])
    ensures Field(Zip(h, cells), "Capacity") == Trim(cells[4])
    ensures "Series" !in Zip(h, cells)
  {
    HeadersDistinct(h);
    HeadersNoSeries(h);
    ZipAt(h, cells, 0);
    ZipAt(h, cells, 1);
    ZipAt(h, cells, 3);
    ZipAt(h, cells, 4);
    ZipKey(h, cells, "Series");
  }

  /** The vendor "TRUSTA" passes the keyword filter. */
  lemma TrustaVendorMatches(r: Record)
    requires "Vendor" in r && r["Vendor"] == "TRUSTA"
    ensures Matches(r)
  {
    var vendor := Field(r, "Vendor");
    assert OccursAt(vendor, "TRUSTA", 0) by { assert vendor[0..6] == "TRUSTA"; }
    UpperKeepsOccurrence(vendor, "TRUSTA", 0);
    assert Upper("TRUSTA") == "TRUSTA";
    MatchesIff(r);
  }

  /** The speed "Gen5" is Gen 5. */
  lemma Gen5Text(speed: string)
    requires speed == "Gen5"
    ensures Gen5Speed(speed)
  {
    var s := Lower(speed);
    assert s == "gen5";
    assert OccursAt(s, "gen5", 0) by { assert s[0..4] == "gen5"; }
    ContainsIff(s, "gen5");
  }

  /** Row 1 of the scenario: a TRUSTA Gen 5 NVMe drive of 4 TB. */
  predicate TrustaRow(cells: seq<string>) {
    |cells| == 5 && cells[0] == "T7P5-4TB" && cells[1] == "TRUSTA" && cells[2] == "NVMe"
    && cells[3] == "Gen5" && cells[4] == "4TB"
  }

  /** Row 2 of the scenario: a drive of another vendor. */
  predicate OtherRow(cells: seq<string>) {
    |cells| == 5 && cells[0] == "980 Pro" && cells[1] == "Samsung" && cells[2] == "NVMe"
    && cells[3] == "Gen4" && cells[4] == "1TB"
  }

  /** Row 3 of the scenario: its first cell is blank. */
  predicate BlankRow(cells: seq<string>) {
    |cells| == 5 && cells[0] == " " && cells[1] == "Kingston" && cells[2] == "NVMe"
    && cells[3] == "Gen4" && cells[4] == "2TB"
  }

  /** The columns of row 1 that the filter and the analysis read. */
  lemma TrustaRowFields(h: seq<string>, cells: seq<string>)
    requires ScenarioHeaderRow(h) && TrustaRow(cells)
    ensures Trim(cells[0]) != ""
    ensures "Vendor" in Zip(h, cells) && Zip(h, cells)["Vendor"] == "TRUSTA"
    ensures Field(Zip(h, cells), "Product Name") == "T7P5-4TB"
    ensures Field(Zip(h, cells), "Interface Speed") == "Gen5"
    ensures Field(Zip(h, cells), "Capacity") == "4TB"
  {
    ScenarioZip(h, cells);
    TrimPlain(cells[0]);
    TrimPlain(cells[1]);
    TrimPlain(cells[3]);
    TrimPlain(cells[4]);
  }

  /** Row 1 is kept, passes the filter, and is analysed as a Gen 5 drive of 4 TB. */
  lemma ScenarioTrustaRow(h: seq<string>, cells: seq<string>)
    requires ScenarioHeaderRow(h) && TrustaRow(cells)
    ensures RowStep(h, cells).Keep?
    ensures RowStep(h, cells).product.analysis.Some?
    ensures AnalysisOf(RowStep(h, cells).product).isGen5
    ensures AnalysisOf(RowStep(h, cells).product).capacityTb == 4.0
  {
    TrustaRowFields(h, cells);
    var r := Zip(h, cells);
    KeepWhen(h, cells);
    TrustaVendorMatches(r);
    Gen5Text(Field(r, "Interface Speed"));
    ParseCapacityTerabytes(Field(r, "Capacity"));
    assert Classify(r).analysis == Some(Analyze(r));
  }

  /** Row 2 is kept but, naming neither TRUSTA nor T7P5, carries no analysis. */
  lemma ScenarioOtherRow(h: seq<string>, cells: seq<string>)
    requires ScenarioHeaderRow(h) && OtherRow(cells)
    ensures RowStep(h, cells).Keep?
    ensures RowStep(h, cells).product.analysis.None?
  {
    ScenarioZip(h, cells);
    TrimPlain(cells[0]);
    TrimPlain(cells[1]);
    KeepWhen(h, cells);
    NoMatchOtherVendor(Zip(h, cells));
  }

  /** Row 3 is skipped: its first cell is blank. */
  lemma ScenarioBlankRow(h: seq<string>, cells: seq<string>)
    requires ScenarioHeaderRow(h) && BlankRow(cells)
    ensures RowStep(h, cells).Skip?
  {
    assert AllSpace(cells[0]);
  }

  /** The loop over a TRUSTA product, another product and a skipped row. */
  lemma ScenarioFold(p: Product, q: Product)
    requires p.analysis.Some? && q.analysis.None?
    ensures Fold([Keep(p), Keep(q), Skip]) == Extracted([p, q], [p])
  {
    var s := [Keep(p), Keep(q), Skip];
    assert s[..2] == [Keep(p), Keep(q)] && s[..2][..1] == [Keep(p)] && [Keep(p)][..0] == [];
    assert Fold([Keep(p)]) == Extracted([p], [p]);
    assert Fold([Keep(p), Keep(q)]) == Extracted([p, q], [p]);
  }

  /** The TRUSTA list of the scenario: one Gen 5 product of 4 TB. */
  lemma SingleTrusta(p: Product)
    requires AnalysisOf(p).isGen5 && AnalysisOf(p).capacityTb == 4.0
    ensures Gen5Count([p]) == 1 && Capacities([p]) == [4.0]
  {
    assert [p][..0] == [];
  }

  /** A single capacity gives a single option and itself as the total. */
  lemma SingleLabel(c: real, render: real -> string)
    ensures SortedDistinct(Labels([c], render)) == [Label(c, render)]
    ensures Sum([c]) == c
  {
    assert [c][..0] == [];
    var l := Label(c, render);
    assert Labels([c], render) == [l];
    assert SortedDistinct([l]) == [l] by { assert [l][1..] == []; }
  }

  /** The summary of a Gen 5 TRUSTA drive of 4 TB beside one other product. */
  lemma ScenarioSummary(p: Product, q: Product, render: real -> string)
    requires AnalysisOf(p).isGen5 && AnalysisOf(p).capacityTb == 4.0
    ensures var s := Summarize([p, q], [p], render);
      s.totalNvmeProductsInQvl == 2 && s.trustaProductsFound == 1 && s.trustaGen5Products == 1
      && s.trustaCapacityOptions == [Label(4.0, render)] && s.totalTrustaCapacityTb == 4.0
  {
    SingleTrusta(p);
    SingleLabel(4.0, render);
  }

  /**
   * The scenario end to end, from the stripped header names `h` and the
   * three rows: two products, one of them TRUSTA and Gen 5, the single
   * option "4TB" after the rendered number, and a successful search.
   */
  lemma Scenario(h: seq<string>, rows: seq<seq<string>>, render: real -> string)
    requires ScenarioHeaderRow(h)
    requires |rows| == 3 && TrustaRow(rows[0]) && OtherRow(rows[1]) && BlankRow(rows[2])
    ensures ExtractAll(h, rows).Extracted?
    ensures var o := ExtractAll(h, rows);
      var s := Summarize(o.all, o.trusta, render);
      s.totalNvmeProductsInQvl == 2 && s.trustaProductsFound == 1 && s.trustaGen5Products == 1
      && s.trustaCapacityOptions == [Label(4.0, render)] && s.totalTrustaCapacityTb == 4.0
      && Search(o.trusta).searchSuccessful
  {
    ScenarioTrustaRow(h, rows[0]);
    ScenarioOtherRow(h, rows[1]);
    ScenarioBlankRow(h, rows[2]);
    var p, q := RowStep(h, rows[0]).product, RowStep(h, rows[1]).product;
    ExtractThreeRows(h, rows);
    ScenarioFold(p, q);
    ScenarioSummary(p, q, render);
  }
}
