# QVL TRUSTA crawler: the record pipeline

This project models the record pipeline of the `QVLTrustaCrawler` class in
`qvl_search.py`. The crawler reads the NVMe SSD table of a server's qualified
vendor list (QVL) and keeps one record per product row. It picks out the
TRUSTA / T7P5 drives and analyses each of them: PCIe generation, NVMe
interface, form factor, capacity in terabytes, interface summary and VROC
support. It then summarises the findings:
- the product counts;
- the sorted capacity options and their total;
- the vendor distribution, ranked by count and cut to ten entries.

The browser is abstracted away. The table arrives as a `Page`: the text of
each header cell and the text of every body cell, row by row, or the text of
the exception a lookup raised.

Modules, one per file:

- `Optional`: the `Option` type.
- `Seqs`: mapping a function over a list, as the header loop that appends each stripped header text does, and how a mapping splits over a concatenation.
- `Text`: `str.strip()` over Python's whitespace set, ASCII `upper()`/`lower()`, and the substring test `p in s`.
- `Capacity`: a scanner for the leftmost greedy match of `\d+\.?\d*` and its exact value. Also the capacity rule: TB is tested before GB, GB is divided by 1000, and 0 is the fallback.
- `Records`: a row as a map from column name to cell text, the keyword filter, the analysis, and the product as stored.
- `Extraction`: the row loop. It covers zipping headers with cells, the skip rules, the `IndexError` of an empty row, and the two lists it builds. The loop is a method proved equal to a fold over per-row decisions.
- `Ordering`: Python's string order, and `sorted(set(xs))`.
- `Ranking`: the stable sort of the vendor distribution by descending count, and its first ten entries.
- `Summary`: the counting loops of the summary (as methods), the insertion-ordered vendor dictionary, and the two summary records.
- `Crawler`: the crawler object, whose extraction and summary methods update its result fields in place.

The code strips every cell, drops a row whose "Product Name" is empty, and
keeps only the last cell for a repeated header name. So
`Extraction.ExtractAllKept` needs every row to be kept, and
`Extraction.ZipFields` gives the value of a header only when it is not
repeated later.

## Model

| member | source | states |
|---|---|---|
| Text.Trim | qvl_search.py:116-122 | `strip()` removes exactly a whitespace-only prefix and suffix; the result is empty iff the text is all whitespace, and otherwise starts and ends with non-whitespace |
| Text.TrimIdempotent | qvl_search.py:122 | stripping an already stripped cell changes nothing |
| Seqs.MapAppend | qvl_search.py:102-103 | mapping over a concatenation gives the two mapped parts joined, so the header list can be built one header at a time |
| Text.TrimAllAppend | qvl_search.py:102-103 | stripping the header texts one at a time and appending gives the stripped list |
| Text.TrimPlain | qvl_search.py:103 | a text that starts and ends with non-whitespace is left unchanged by `strip()` |
| Text.Upper | qvl_search.py:129-131 | `upper()` keeps the length and maps each character through the ASCII upper-case mapping |
| Text.Lower | qvl_search.py:163-167 | `lower()` keeps the length and maps each character through the ASCII lower-case mapping |
| Text.ContainsIff | qvl_search.py:133-134 | the substring test holds exactly when the pattern occurs in the text at some index |
| Text.UpperKeepsOccurrence | qvl_search.py:129-134 | upper-casing a text and a pattern alike keeps every occurrence of the pattern |
| Text.UpperContains | qvl_search.py:129-134 | a text containing a pattern, upper-cased, contains the upper-cased pattern |
| Text.MissingLead | qvl_search.py:129-134 | a text in which the first character of a pattern never appears does not contain the pattern |
| Capacity.FirstDigit | qvl_search.py:177 | the scan for the first digit returns the first digit's index, or the text's length when no digit follows |
| Capacity.DigitRun | qvl_search.py:177 | the greedy `\d*` run consumes only digits and stops before a non-digit or at the end |
| Capacity.FirstNumber | qvl_search.py:177 | `re.findall(...)[0]` is absent exactly when the text has no digit; otherwise it is a well-formed match of `\d+\.?\d*` that cannot be extended, with no digit before it |
| Capacity.TokenAt | qvl_search.py:177 | the match starting at a digit is well formed and cannot be extended |
| Capacity.DecimalToken | qvl_search.py:177 | after the integer digits and a point, the match takes the longest run of digits and is well formed and maximal |
| Capacity.PrefixValueBelow | qvl_search.py:177 | `n` decimal digits denote less than 10^n |
| Capacity.TokenValueBounds | qvl_search.py:177 | `float()` of a match lies between its integer digits and that value plus one |
| Capacity.FirstNumberValue | qvl_search.py:177 | the first number is absent exactly when the text has no digit, and is never negative |
| Capacity.ParseCapacity | qvl_search.py:174-186 | the capacity in TB is never negative, whatever the text |
| Capacity.ParseCapacityCases | qvl_search.py:174-186 | no digit or no unit gives 0; "TB" anywhere gives the first number; "GB" without "TB" gives the first number divided by 1000 |
| Capacity.TokenValueExamples | qvl_search.py:177 | the matches "2", "4", "512", "3.84" and "1.92" have the values 2, 4, 512, 3.84 and 1.92 |
| Capacity.ScanInteger | qvl_search.py:177 | in "512GB" the match is "512", at index 0, with no decimal point |
| Capacity.ScanDecimal | qvl_search.py:177 | in "3.84 TB" the greedy match takes the point and both decimals |
| Capacity.ScanLeftmost | qvl_search.py:177 | in "2TB/2000GB" only the leftmost number "2" is matched |
| Capacity.ParseCapacityTerabytes | qvl_search.py:175-178 | "4TB" gives 4.0 |
| Capacity.ParseCapacityGigabytes | qvl_search.py:181-184 | "512GB" gives 0.512 |
| Capacity.ParseCapacityFraction | qvl_search.py:175-178 | "3.84 TB" gives 3.84 |
| Capacity.ParseCapacityNoUnit | qvl_search.py:174-186 | "N/A" and "" give 0 |
| Capacity.ParseCapacityNoNumber | qvl_search.py:175-180 | "TBD" gives 0: the failed lookup of the first match is swallowed |
| Capacity.ParseCapacityBothUnits | qvl_search.py:175-181 | "2TB/2000GB" is read as terabytes from its leftmost number, giving 2.0 |
| Records.MatchesIff | qvl_search.py:129-134 | a record matches iff "TRUSTA" occurs in the upper-cased vendor or product name, or "T7P5" occurs in the upper-cased product name or series; a missing column counts as "" |
| Records.MatchesIgnoresCase | qvl_search.py:129-134 | the filter reads only the vendor, name and series columns, and ignores their case |
| Records.MatchesVendor | qvl_search.py:129-134 | vendor "Trusta Inc" matches |
| Records.MatchesProductName | qvl_search.py:129-134 | product name "XYZ T7P5-2TB" matches |
| Records.MatchesSeries | qvl_search.py:129-134 | series "t7p5 series" matches |
| Records.NoMatchOtherVendor | qvl_search.py:129-134 | vendor "Samsung" with product name "980 Pro" does not match |
| Records.Analyze | qvl_search.py:152-195 | the analysis has a non-negative capacity and copies the form factor verbatim |
| Records.AnalyzeFlags | qvl_search.py:163-191 | Gen 5 iff "gen5" or "gen 5" occurs in the lower-cased speed; NVMe iff "nvme" occurs in the lower-cased interface; VROC iff "vroc" occurs in the lower-cased Other or Remark column |
| Records.InterfaceDetailsParts | qvl_search.py:193 | the interface summary is the interface column, then " - ", then the speed column |
| Records.Gen5Examples | qvl_search.py:163-165 | "Gen5 x4" and "GEN 5" are Gen 5; "Gen4 x4" is not |
| Records.Classify | qvl_search.py:133-137 | a kept record carries an analysis iff it matches, and that analysis is the one of its own columns; the key "analysis" gives way to it; every other column is kept |
| Records.ClassifyStable | qvl_search.py:136 | once the analysis is attached, the filter and the analysis read the same values as before |
| Extraction.ZipPrefixKeys | qvl_search.py:119-122 | the partly built record has exactly the headers seen so far as keys |
| Extraction.ZipPrefixValues | qvl_search.py:119-122 | a header not repeated later among the first columns holds the value of its own column |
| Extraction.ZipFields | qvl_search.py:119-122 | the record's keys are exactly the headers, and each header not repeated later holds the stripped cell below it |
| Extraction.ZipIgnoresExtraCells | qvl_search.py:120-122 | cells beyond the last header do not change the record |
| Extraction.ZipPrefixValuesAfter | qvl_search.py:120-122 | values beyond the first columns do not change the partly built record |
| Extraction.ZipRow | qvl_search.py:119-122 | the cell loop builds exactly the zipped record |
| Extraction.ZipAt | qvl_search.py:119-122 | a header not repeated later holds the stripped cell of its own column |
| Extraction.ZipKey | qvl_search.py:119-122 | a row with enough cells has a key exactly for each header |
| Extraction.KeepWhen | qvl_search.py:116-127 | a row with enough cells, a non-blank first cell and a non-empty product name is stored as its classified record |
| Extraction.RowStepCases | qvl_search.py:116-125 | a row raises iff there are no headers and it has no cells; it is kept iff it has at least as many cells as headers, a non-blank first cell and a non-empty product name; a kept row's record is the classified zip, and "Product Name" is then one of the headers |
| Extraction.ApplyJoin | qvl_search.py:113-141 | handling one more row after two stretches of rows amounts to handling it after the second stretch |
| Extraction.FoldAppend | qvl_search.py:113-141 | the loop over two stretches of decisions is the two loops joined |
| Extraction.ExtractAllAppend | qvl_search.py:113-141 | extracting `a + b` gives the lists of `a` followed by those of `b`, and fails iff either fails |
| Extraction.SkippedRowIgnored | qvl_search.py:116-125 | a skipped row can be removed from the table without changing anything |
| Extraction.FoldFailsIff | qvl_search.py:146-150 | the loop fails exactly when some row raises |
| Extraction.StepsAppend | qvl_search.py:113-141 | the decisions on `a + b` are those on `a` followed by those on `b` |
| Extraction.ExtractFailsIff | qvl_search.py:116 | the extraction fails exactly when there are no headers and some row has no cells |
| Extraction.Analysed | qvl_search.py:133-137 | the TRUSTA list is never longer than the full list |
| Extraction.AnalysedAtPositions | qvl_search.py:127-137 | the k-th listed position holds the k-th TRUSTA product, and that product carries an analysis |
| Extraction.AnalysedAtIncreasing | qvl_search.py:127-137 | the listed positions strictly increase, so the TRUSTA list keeps the order of the full list |
| Extraction.AnalysedAtComplete | qvl_search.py:127-137 | every product carrying an analysis has its position listed, so no TRUSTA product is missed |
| Extraction.FoldShape | qvl_search.py:127-137 | every stored product comes from a kept row, and the TRUSTA list is the analysed part of the full list |
| Extraction.KeptIsStored | qvl_search.py:124-137 | a kept row becomes a product with a non-empty name, analysed iff it matches, with the analysis of its own columns |
| Extraction.ExtractedShape | qvl_search.py:110-141 | after extraction, TRUSTA count ≤ product count ≤ row count; the TRUSTA list is exactly the analysed products of the full list in order; every product is named and correctly classified |
| Extraction.FoldKept | qvl_search.py:127-137 | when every decision keeps a product, the full list is those products in order |
| Extraction.ExtractAllKept | qvl_search.py:113-127 | when every row is kept, there is one product per row, in table order |
| Extraction.ExtractThreeRows | qvl_search.py:113-141 | a table of three rows is handled by the three per-row decisions in table order |
| Extraction.FoldKeeps | qvl_search.py:127 | a product kept by some decision is in the full list |
| Extraction.AnalysedEmpty | qvl_search.py:133-137 | the TRUSTA list is empty exactly when no stored product carries an analysis |
| Extraction.FindsTrustaIff | qvl_search.py:113-141 | a TRUSTA product is found exactly when some row is kept and passes the keyword filter |
| Extraction.ExtractAllSnoc | qvl_search.py:113-141 | one more row continues the loop from where the shorter table left it |
| Extraction.ExtractRows | qvl_search.py:110-141 | the row loop, with its early `continue`s and the aborting `IndexError`, computes exactly the extraction |
| Ordering.StrLessIrreflexive | qvl_search.py:225 | no string sorts before itself |
| Ordering.StrLessTransitive | qvl_search.py:225 | the string order is transitive |
| Ordering.StrLessTotal | qvl_search.py:225 | of two different strings, one sorts first |
| Ordering.StrLessAsymmetric | qvl_search.py:225 | two strings never sort before each other |
| Ordering.ChainSorted | qvl_search.py:225 | a list whose neighbours ascend is strictly ascending |
| Ordering.InsertUnique | qvl_search.py:225 | inserting into a strictly ascending list keeps it strictly ascending and adds exactly the new element |
| Ordering.SortedDistinct | qvl_search.py:225 | `sorted(set(xs))` is strictly ascending, holds exactly the elements of `xs`, and is no longer than `xs` |
| Ordering.SortedLength | qvl_search.py:225 | a list without repeats is no longer than a list holding all its elements |
| Ordering.DistinctCard | qvl_search.py:225 | a strictly ascending list has as many distinct elements as entries |
| Ordering.SetCardBelow | qvl_search.py:225 | a list has no more distinct elements than entries |
| Ordering.SubsetCard | qvl_search.py:225 | a subset is no larger than its superset |
| Ordering.SortedUnique | qvl_search.py:225 | two strictly ascending lists with the same elements are equal |
| Ordering.SortedHead | qvl_search.py:225 | two strictly ascending lists with the same elements start with the same element |
| Ordering.SortedTail | qvl_search.py:225 | the tail of a strictly ascending list is strictly ascending and holds every element but the head |
| Ordering.SortedDistinctSetOnly | qvl_search.py:225 | the capacity options depend only on the set of labels, not on their order or repeats |
| Ranking.InsertDesc | qvl_search.py:329 | inserting an entry into the ranking adds exactly that entry |
| Ranking.InsertDescSorted | qvl_search.py:329 | inserting keeps the counts non-increasing |
| Ranking.InsertDescBound | qvl_search.py:329 | inserting keeps every count at or below a bound that the entry and the list respect |
| Ranking.InsertDescWithCount | qvl_search.py:329 | the inserted entry goes before the other entries of the same count and leaves their order alone |
| Ranking.SortDesc | qvl_search.py:329 | the ranking is a permutation of the vendor distribution |
| Ranking.SortDescRanks | qvl_search.py:329 | the ranking has non-increasing counts, and vendors with equal counts keep the dictionary order: the sort is stable under `reverse=True` |
| Ranking.TopVendors | qvl_search.py:330 | at most ten vendors are shown, each of them if there are fewer than ten, and they are the head of the ranking |
| Ranking.TopVendorsDominate | qvl_search.py:329-330 | no vendor left out has more products than a vendor shown |
| Ranking.TopVendorsFromDistribution | qvl_search.py:330 | every vendor shown is an entry of the distribution, with its count |
| Ranking.TopVendorsAll | qvl_search.py:330 | a distribution of at most ten vendors is shown in full |
| Summary.Gen5Count | qvl_search.py:206-209 | the Gen 5 count never exceeds the number of TRUSTA products |
| Summary.Capacities | qvl_search.py:211-213 | the capacities counted are all above zero, and there are no more of them than products |
| Summary.SumPositive | qvl_search.py:213 | the capacity total is never negative, and is zero exactly when no capacity is counted |
| Summary.Labels | qvl_search.py:214 | each option label is the rendered capacity followed by "TB", in order |
| Summary.TallyStep | qvl_search.py:206-214 | one more TRUSTA product adds its Gen 5 flag, and its capacity when above zero, to the tally |
| Summary.TallyTrusta | qvl_search.py:202-214 | the loop over the TRUSTA products computes the Gen 5 count, the capacity total and the labels of the positive capacities |
| Summary.VendorColumnCounts | qvl_search.py:216-219 | each vendor's count is the number of products whose "Vendor" column reads that vendor; a product without the column counts towards "Unknown" |
| Summary.BumpKeys | qvl_search.py:219 | an increment keeps every vendor in place and appends a new vendor at the end |
| Summary.BumpDistinct | qvl_search.py:219 | an increment keeps vendors unique |
| Summary.BumpCount | qvl_search.py:219 | an increment adds one to its own vendor's count and to no other |
| Summary.BumpSum | qvl_search.py:219 | an increment adds one to the total of the counts |
| Summary.FirstSeen | qvl_search.py:216-219 | the reference order of the dictionary holds exactly the vendors that occur in the product list |
| Summary.VendorCountsFacts | qvl_search.py:216-219 | the distribution has unique vendors in first-encounter order; each vendor's count is its number of occurrences; the counts add up to the number of products |
| Summary.VendorCountsTally | qvl_search.py:216-219 | counting the products gives the distribution of their vendors, in list order |
| Summary.TallyKeys | qvl_search.py:216-219 | the vendors of the distribution are the listed vendors in the order of their first occurrence |
| Summary.TallyDistinct | qvl_search.py:216-219 | no vendor appears twice in the distribution |
| Summary.TallyCounts | qvl_search.py:216-219 | the count of each vendor is its number of occurrences in the list |
| Summary.TallySum | qvl_search.py:216-219 | the counts add up to the number of vendors listed |
| Summary.EntryCounts | qvl_search.py:216-219 | every entry's count is its vendor's number of occurrences, and is positive |
| Summary.CountOfAt | qvl_search.py:219 | looking a vendor up in the dictionary gives that vendor's own entry |
| Summary.OccursCounted | qvl_search.py:219 | a vendor that occurs is counted at least once |
| Summary.CountVendors | qvl_search.py:216-219 | the loop with the `get(vendor, 0) + 1` update computes exactly the distribution |
| Summary.BumpAt | qvl_search.py:219 | an in-place update at the vendor's position, or an append when it is absent, is the dictionary increment |
| Summary.FindVendor | qvl_search.py:219 | the dictionary lookup finds the vendor's position, with no earlier entry for it, or reports it absent |
| Summary.VendorCountsSnoc | qvl_search.py:216-219 | each further product counts its vendor once more |
| Summary.VendorCountsExample | qvl_search.py:216-219 | vendors A, B, A, C give A:2, B:1, C:1, counts adding up to 4 |
| Summary.CapacitiesFrom | qvl_search.py:211-213 | a capacity is counted iff some TRUSTA product has it and it is above zero |
| Summary.CapacityOptions | qvl_search.py:211-225 | the options are strictly ascending, and a label is an option iff it renders the positive capacity of some TRUSTA product |
| Summary.OptionsDeduplicated | qvl_search.py:211-226 | two TRUSTA products of 2.0 TB give the single option "2.0TB" and a total of 4.0 |
| Summary.TwoCapacities | qvl_search.py:210-213 | two products of 2.0 TB contribute one capacity each |
| Summary.RepeatedLabel | qvl_search.py:224 | a capacity label seen twice appears once among the options |
| Summary.SummaryFacts | qvl_search.py:199-227 | for the extracted lists, Gen 5 ≤ TRUSTA ≤ all products; vendor counts add up to all products, with unique vendors; the capacity total is ≥ 0 and is 0 iff there are no options; there are no more options than TRUSTA products |
| Crawler.QvlTrustaCrawler.constructor | qvl_search.py:28-36 | the results start with empty lists, no summaries and no errors |
| Crawler.QvlTrustaCrawler.ExtractQvlTableData | qvl_search.py:95-150 | the header loop strips each header text in order; success iff the page is a table and no row raises; on success both lists are replaced by the extracted lists; on failure they are kept and "Error extracting QVL table data: " plus the exception text is appended to the errors; the summaries are untouched |
| Crawler.QvlTrustaCrawler.GenerateQvlSummary | qvl_search.py:197-237 | both summaries are written from the current lists; the lists and the errors are unchanged |
| Crawler.QvlTrustaCrawler.RunQvlCrawler | qvl_search.py:248-257 | success iff the page is a table and no row raises; on success both lists are the extracted lists, the errors are unchanged and both summaries describe those lists; on failure the lists and summaries are unchanged and one error, the prefix plus the exception text, is appended |
| Crawler.RunSummaryFacts | qvl_search.py:199-232 | after extracting a table: Gen 5 ≤ TRUSTA ≤ all products ≤ rows; vendor counts add up to all products; success iff a TRUSTA product was found; options strictly ascending; total ≥ 0 |
| Crawler.SearchSuccessIff | qvl_search.py:231-232 | the search succeeds exactly when some row of the table is kept and passes the keyword filter, and the findings report the number found |
| Crawler.HeadersDistinct | qvl_search.py:102-103 | the five example headers are pairwise different |
| Crawler.HeadersNoSeries | qvl_search.py:131 | the example headers have no "Series" column |
| Crawler.ScenarioZip | qvl_search.py:119-122 | an example row of five cells gives each named column its stripped cell and no "Series" key |
| Crawler.TrustaVendorMatches | qvl_search.py:129-134 | vendor "TRUSTA" passes the keyword filter |
| Crawler.Gen5Text | qvl_search.py:163-165 | speed "Gen5" is Gen 5 |
| Crawler.TrustaRowFields | qvl_search.py:116-122 | the TRUSTA example row has a non-blank first cell and reads product name "T7P5-4TB", vendor "TRUSTA", speed "Gen5" and capacity "4TB" |
| Crawler.ScenarioTrustaRow | qvl_search.py:116-137 | the TRUSTA example row is kept and analysed as a Gen 5 drive of 4.0 TB |
| Crawler.ScenarioOtherRow | qvl_search.py:116-137 | the Samsung example row is kept and carries no analysis |
| Crawler.ScenarioBlankRow | qvl_search.py:116-117 | the row whose first cell is blank is skipped |
| Crawler.ScenarioFold | qvl_search.py:113-137 | keep, keep, skip with only the first analysed gives both products in the full list and the first alone in the TRUSTA list |
| Crawler.SingleTrusta | qvl_search.py:206-213 | one Gen 5 product of 4.0 TB gives a Gen 5 count of 1 and the single capacity 4.0 |
| Crawler.SingleLabel | qvl_search.py:213-225 | one capacity gives exactly its own label as the options and itself as the total |
| Crawler.ScenarioSummary | qvl_search.py:199-227 | with one Gen 5 TRUSTA product of 4.0 TB among two products: 2 products in all, 1 TRUSTA, 1 Gen 5, the single option "4.0TB" as rendered, and a total of 4.0 |
| Crawler.Scenario | qvl_search.py:110-237 | the three-row table (a TRUSTA Gen 5 drive of 4 TB, a Samsung drive, a row with a blank first cell) extracts without error and summarises as 2 products, 1 TRUSTA, 1 Gen 5, options [render(4.0) + "TB"], a total of 4.0 TB, and a successful search |

## Left out

- Browser driving is not modelled, because it is I/O and timing. This covers `setup_driver`, `accept_cookies`, `navigate_to_qvl_nvme`, the `find_element` lookups, the waits and the sleeps. The table reaches the model as a `Page` value.
- `display_results`, `save_results` and `main` are console and file output and are not modelled; only the vendor ranking rule of the display is.
- The logger calls and `driver.quit()` are side effects outside the pipeline and are not modelled.
- Capacities are exact reals, so the floating-point rounding of `/ 1000` and of the capacity sum is not modelled.
- Float formatting in `f"{capacity}TB"` is a parameter `render: real -> string`, so the exact digits Python prints are not modelled.
- `\d` is modelled as the ASCII digits '0' to '9'; Python also accepts other Unicode decimal digits.
- `upper()` and `lower()` are modelled on ASCII letters only; full Unicode case mapping is not, because it needs the Unicode tables.
- The URLs, the target server name, `search_terms` and the other fixed strings of the results are configuration, not logic, and are not modelled. The filter never reads `search_terms`.
- Summary.Search: the `findings` text is kept as the count it reports, because rendering an integer as text is outside the model.
- Crawler.QvlTrustaCrawler.ExtractQvlTableData: an exception from a browser call is modelled only before the row loop (the `Unreadable` page); one raised by a browser call during the loop is not.
- Crawler.QvlTrustaCrawler.RunQvlCrawler: starts from the page already read. The driver set-up and navigation failures, and the outer `except`, are not modelled; no modelled step can raise there.
- Records.Classify: the row dict that both lists share, and that gains the key "analysis" in place, is modelled as a value with the analysis held beside the columns. Aliasing between the two lists is therefore not modelled.
