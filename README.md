# Report values merged into an Excel sheet

This project models `ReportValuesToExcelSheetMerger.MergeAsync`. That method writes the values of an XML report into an Excel worksheet template. It gets three inputs:

- a list of **label cells** found on the sheet. Each is a row, a column and a text such as `"010"`;
- a list of **report items**. Each is a logical row index, a logical column index and an integer value;
- the worksheet and its workbook package.

How the merge proceeds:

1. It splits the label cells into two groups:
   - **row anchors** are the labels alone on their physical row;
   - **column anchors** are the labels alone on their physical column.
2. For each item in turn it takes the single row anchor whose text parses to the item's row index, and the single column anchor whose text parses to its column index. `Single` throws when there is no such anchor or more than one.
3. It picks the target cell from the two anchors:
   - if the row anchor lies strictly below and strictly right of the column anchor, the target is the row anchor's row with the column anchor's column;
   - otherwise the target is the component-wise maximum of the two positions.
4. It formats the value (`0` becomes `"0"`, anything else `#,###`) and writes it into that cell in place.
5. When the loop finishes it saves the package. An exception is rethrown.

Modules:

- `Decimal`:
  - reads digit labels (`int.Parse`);
  - the `#,###` grouping with its read-back `ParseFormatted`.
- `Cells`:
  - the label cell;
  - the LINQ `GroupBy`/`Where`/`SelectMany` pipeline that chooses the anchors;
  - a reference filter, "no other label shares this row (column)", proved equal to that pipeline.
- `Resolution`:
  - `Single` with both error cases;
  - the target rule;
  - one item's resolution (`Resolve`);
  - the loop read as a trace of writes (`Trace`);
  - the grid those writes produce (`ApplyWrites`).
- `Merger`:
  - the worksheet and the package as classes whose fields change in place;
  - `MergeAsync` as a `while` loop over the items. Its invariants tie the sheet to the writes of the items seen so far.
- `Scenarios`:
  - the layouts of the repository's tests;
  - a merge that stops partway;
  - a doubled row label;
  - the two merges on fresh objects (`MergeHappy`, `MergeStopping`).

What the code does, in three points that are easy to get wrong:

- **A failing merge is not all-or-nothing.** The writes for earlier items stay in the sheet (ReportValuesToExcelSheetMerger.cs:64). Only the save at line 69 is skipped, because the exception leaves the `try` block. `MergeAsync`, `TraceFailsAt`, `CanonicalMergeStops` and `MergeStopping` state this.
- **Row labels left or right of the data give the same targets.** In both test layouts the row labels (rows 11 and 12) sit below the column labels (row 10). Whenever the row anchor is below the column anchor, the rule at lines 51-60 gives (row label's row, column label's column), whichever side the row labels are on (`TargetIgnoresRowLabelColumn`). So every item of the merge test gets the same cell in both layouts (`LayoutsAgree`).
- **Line 47 has no effect.** `cellWithBiggerRow` at ReportValuesToExcelSheetMerger.cs:47 is computed and never used, so the model leaves it out.

## Model

| member | source | states |
|---|---|---|
| Decimal.FormatHashGrouped | TechnicalTest/TechnicalTest/Server/Services/ReportValuesToExcelSheetMerger.cs:62 | `ToString("#,###")` on an integer: a `-` sign, then the grouped magnitude. `FormatHashGroupedZero` states that it writes 0 as the empty text. |
| Decimal.GroupThousands | TechnicalTest/TechnicalTest/Server/Services/ReportValuesToExcelSheetMerger.cs:62 | The `#,###` grouping of a natural number, empty for 0. Its shape and read-back are in the rows for `GroupThousandsShape` and `GroupThousandsReadsBack`. |
| Decimal.ParseDigits | TechnicalTest/TechnicalTest/Server/Services/ReportValuesToExcelSheetMerger.cs:44-45 | `int.Parse` on a digit label: the decimal value of the digits. Its properties are in the rows for `ParseDigitsAppend`, `ParseDigitsLeadingZero`, `DigitsReadBack` and `ParseDigitsExamples`. |
| Decimal.ParseDigitsAppend | TechnicalTest/TechnicalTest/Server/Services/ReportValuesToExcelSheetMerger.cs:44-45 | Reading a concatenation of digit strings shifts the left part by ten to the length of the right part. So leading zeros, as in `"010"`, do not change the index. |
| Decimal.ParseDigitsLeadingZero | TechnicalTest/TechnicalTest/Server/Services/ReportValuesToExcelSheetMerger.cs:44-45 | A leading `0` does not change what a label reads. |
| Decimal.ParseDigitsExamples | TechnicalTest/Tests/TechnicalTest.Tests/Services/ReportValuesToExcelSheetMergerTests.cs:59-91 | The test labels `"010"`, `"020"` and `"012"` read 10, 20 and 12. |
| Decimal.DigitsReadBack | TechnicalTest/TechnicalTest/Server/Services/ReportValuesToExcelSheetMerger.cs:62 | The decimal digits of a natural number read back as that number. |
| Decimal.Pad3 | TechnicalTest/TechnicalTest/Server/Services/ReportValuesToExcelSheetMerger.cs:62 | A group below 1000 is written as exactly three digits that read back as the group. |
| Decimal.GroupThousandsShape | TechnicalTest/TechnicalTest/Server/Services/ReportValuesToExcelSheetMerger.cs:62 | A positive number is written as a lead group of 1-3 digits (no leading zero), then comma-separated groups of three. |
| Decimal.GroupThousandsReadsBack | TechnicalTest/TechnicalTest/Server/Services/ReportValuesToExcelSheetMerger.cs:62 | With the commas removed, the grouped text reads back as the number. |
| Decimal.FormatValue | TechnicalTest/TechnicalTest/Server/Services/ReportValuesToExcelSheetMerger.cs:62 | The text is `"0"` exactly when the value is 0. A positive value is written grouped. A negative value is `-` followed by the grouped magnitude. |
| Decimal.FormatHashGroupedZero | TechnicalTest/TechnicalTest/Server/Services/ReportValuesToExcelSheetMerger.cs:62 | `#,###` alone writes 0 as the empty text, which is why the source tests for 0 first. |
| Decimal.FormatValueRoundTrip | TechnicalTest/TechnicalTest/Server/Services/ReportValuesToExcelSheetMerger.cs:62 | Every written value reads back as itself. |
| Decimal.FormatValueInjective | TechnicalTest/TechnicalTest/Server/Services/ReportValuesToExcelSheetMerger.cs:62 | Two values with the same text are the same value. |
| Decimal.FormatValueZero | TechnicalTest/TechnicalTest/Server/Services/ReportValuesToExcelSheetMerger.cs:62 | 0 is written `"0"`. |
| Decimal.FormatValueHundred | TechnicalTest/TechnicalTest/Server/Services/ReportValuesToExcelSheetMerger.cs:62 | 100 is written `"100"`. |
| Decimal.FormatValueThousands | TechnicalTest/TechnicalTest/Server/Services/ReportValuesToExcelSheetMerger.cs:62 | 1234 is written `"1,234"` and -1234 `"-1,234"`. |
| Cells.ColumnAnchors | TechnicalTest/TechnicalTest/Server/Services/ReportValuesToExcelSheetMerger.cs:38 | `targetColumns`: the anchors of the column axis. |
| Cells.RowAnchors | TechnicalTest/TechnicalTest/Server/Services/ReportValuesToExcelSheetMerger.cs:37 | `targetRows`: the anchors of the row axis. |
| Cells.Anchors | TechnicalTest/TechnicalTest/Server/Services/ReportValuesToExcelSheetMerger.cs:37-38 | The pipeline of lines 37-38 on one axis. Its meaning is in the rows for `AnchorsKeepAlone`, `AnchorAtIndex`, `AnchorsAreLabels` and `AnchorsDistinct`. |
| Cells.SelectMany | TechnicalTest/TechnicalTest/Server/Services/ReportValuesToExcelSheetMerger.cs:37-38 | `SelectMany(item => item.ToArray())`: the groups' labels, concatenated in group order. |
| Cells.GroupBy | TechnicalTest/TechnicalTest/Server/Services/ReportValuesToExcelSheetMerger.cs:37-38 | `GroupBy(t => t.Row)` (or `t.Column`): one group per key, holding the labels with that key (`WithKey`). |
| Cells.GroupKeys | TechnicalTest/TechnicalTest/Server/Services/ReportValuesToExcelSheetMerger.cs:37-38 | The keys of `GroupBy`, in order of first occurrence. `GroupKeysMember` states that a key is present exactly when some label has it. |
| Cells.WithKey | TechnicalTest/TechnicalTest/Server/Services/ReportValuesToExcelSheetMerger.cs:37-38 | A group holds exactly the labels with that row (column). |
| Cells.WhereSingle | TechnicalTest/TechnicalTest/Server/Services/ReportValuesToExcelSheetMerger.cs:37-38 | `Where(g => g.Count() == 1)`: a group is kept if and only if it holds exactly one label. |
| Cells.GroupKeysMember | TechnicalTest/TechnicalTest/Server/Services/ReportValuesToExcelSheetMerger.cs:37-38 | `GroupBy` has a group for a key exactly when some label has that key. |
| Cells.AnchorsKeepAlone | TechnicalTest/TechnicalTest/Server/Services/ReportValuesToExcelSheetMerger.cs:37-38 | The `GroupBy`/`Where`/`SelectMany` pipeline equals the reference filter: the labels alone on their row (column), in input order. |
| Cells.AnchorAtIndex | TechnicalTest/TechnicalTest/Server/Services/ReportValuesToExcelSheetMerger.cs:37-38 | A label is a row (column) anchor if and only if no other label shares its row (column). |
| Cells.AnchorsAreLabels | TechnicalTest/TechnicalTest/Server/Services/ReportValuesToExcelSheetMerger.cs:37-38 | Every anchor is one of the labels. |
| Cells.AnchorsDistinct | TechnicalTest/TechnicalTest/Server/Services/ReportValuesToExcelSheetMerger.cs:37-38 | No two anchors on one axis share their row (column). |
| Cells.AnchorsSnocNewKey | TechnicalTest/TechnicalTest/Server/Services/ReportValuesToExcelSheetMerger.cs:37-38 | A label with a new row (column) becomes an anchor, after the earlier ones. |
| Cells.AnchorsSnocOldKey | TechnicalTest/TechnicalTest/Server/Services/ReportValuesToExcelSheetMerger.cs:37-38 | A label whose row (column) is taken removes the anchor of that row (column), and is not an anchor itself. |
| Resolution.ApplyWrites | TechnicalTest/TechnicalTest/Server/Services/ReportValuesToExcelSheetMerger.cs:64 | The sheet after the cell writes, in order. `ApplyWritesKeys`, `ApplyWritesElsewhere` and `ApplyWritesLastWins` state what it holds. |
| Resolution.Trace | TechnicalTest/TechnicalTest/Server/Services/ReportValuesToExcelSheetMerger.cs:42-75 | The `foreach` with its rethrow: the cells written and the error that ended the loop. Its meaning is in the rows for `TraceSpec`, `TraceCompletes`, `FirstFailure` and `TraceStops`. |
| Resolution.Step | TechnicalTest/TechnicalTest/Server/Services/ReportValuesToExcelSheetMerger.cs:42-75 | One iteration: after a failure nothing more happens. A failing item records its error; a resolved item appends its cell. |
| Resolution.ResolveAll | TechnicalTest/TechnicalTest/Server/Services/ReportValuesToExcelSheetMerger.cs:42-62 | Each report item's resolution, in item order. |
| Resolution.Resolve | TechnicalTest/TechnicalTest/Server/Services/ReportValuesToExcelSheetMerger.cs:44-62 | One pass of the loop body: the two lookups, the target and the formatted value. `ResolveSpec`, `ResolveRowFails`, `ResolveColumnFails` and `ResolveWrites` state what it gives. |
| Resolution.Lookup | TechnicalTest/TechnicalTest/Server/Services/ReportValuesToExcelSheetMerger.cs:44-45 | `Single` over the row (column) anchors of the labels. Its three outcomes are in the rows for `LookupFinds`, `LookupMisses` and `LookupDoubled`. |
| Resolution.Matching | TechnicalTest/TechnicalTest/Server/Services/ReportValuesToExcelSheetMerger.cs:44-45 | The predicate of `Single` selects exactly the anchors whose label reads the index. |
| Resolution.MatchingTwo | TechnicalTest/TechnicalTest/Server/Services/ReportValuesToExcelSheetMerger.cs:44-45 | There are two or more matches exactly when two positions hold a label reading the index. |
| Resolution.UniqueMatchIff | TechnicalTest/TechnicalTest/Server/Services/ReportValuesToExcelSheetMerger.cs:44-45 | A unique match means some match and no two. |
| Resolution.Single | TechnicalTest/TechnicalTest/Server/Services/ReportValuesToExcelSheetMerger.cs:44-45 | It succeeds if and only if exactly one anchor reads the index, and then returns that anchor. It fails with "no matching anchor" if and only if none reads it, and with "more than one" if and only if two do. |
| Resolution.SingleFinds | TechnicalTest/TechnicalTest/Server/Services/ReportValuesToExcelSheetMerger.cs:44-45 | Among anchors with distinct keys, the one anchor reading the index is what `Single` returns. |
| Resolution.LookupFinds | TechnicalTest/TechnicalTest/Server/Services/ReportValuesToExcelSheetMerger.cs:37-45 | A lookup over the labels' anchors returns the anchor that alone reads the index. |
| Resolution.LookupMisses | TechnicalTest/TechnicalTest/Server/Services/ReportValuesToExcelSheetMerger.cs:44-45 | When no anchor reads the index, the lookup fails with "no matching anchor". |
| Resolution.LookupDoubled | TechnicalTest/TechnicalTest/Server/Services/ReportValuesToExcelSheetMerger.cs:44-45 | When two different anchors read the index, the lookup fails with "more than one anchor". |
| Resolution.Target | TechnicalTest/TechnicalTest/Server/Services/ReportValuesToExcelSheetMerger.cs:51-60 | The target row is the larger anchor row. The row is one of the anchors' rows and the column one of their columns. When the row anchor is below the column anchor, the target is (row anchor's row, column anchor's column) in either branch. Otherwise it is the column anchor's row with the larger column. |
| Resolution.TargetIgnoresRowLabelColumn | TechnicalTest/TechnicalTest/Server/Services/ReportValuesToExcelSheetMerger.cs:51-60 | When the row anchor is below the column anchor, moving the row label to any other column (left or right of the data) leaves the target unchanged. |
| Resolution.ResolveSpec | TechnicalTest/TechnicalTest/Server/Services/ReportValuesToExcelSheetMerger.cs:44-62 | An item resolves if and only if both lookups find a unique anchor. When the row lookup has no unique anchor, the error is a row error. A resolved item holds the formatted value at the target of anchors that read its indices. |
| Resolution.ResolveRowFails | TechnicalTest/TechnicalTest/Server/Services/ReportValuesToExcelSheetMerger.cs:44 | A failing row lookup is the item's error; the column is never looked up. |
| Resolution.ResolveColumnFails | TechnicalTest/TechnicalTest/Server/Services/ReportValuesToExcelSheetMerger.cs:45 | After a successful row lookup, a failing column lookup is the item's error. |
| Resolution.ResolveWrites | TechnicalTest/TechnicalTest/Server/Services/ReportValuesToExcelSheetMerger.cs:44-62 | After two successful lookups the item's cell is the anchors' target holding the formatted value. |
| Resolution.TraceSpec | TechnicalTest/TechnicalTest/Server/Services/ReportValuesToExcelSheetMerger.cs:42-65 | The loop writes the cells of a prefix of the items, in item order. That is all of them when it completes. Otherwise it is everything before the first failing item, whose error is reported. |
| Resolution.TraceGrows | TechnicalTest/TechnicalTest/Server/Services/ReportValuesToExcelSheetMerger.cs:42-65 | One more resolved item appends its one cell. |
| Resolution.TraceFailsAt | TechnicalTest/TechnicalTest/Server/Services/ReportValuesToExcelSheetMerger.cs:42-75 | An item that fails ends the loop with its error; the earlier writes stay. |
| Resolution.TraceCompletes | TechnicalTest/TechnicalTest/Server/Services/ReportValuesToExcelSheetMerger.cs:42-69 | The loop completes if and only if every item resolves. |
| Resolution.TraceAllOk | TechnicalTest/TechnicalTest/Server/Services/ReportValuesToExcelSheetMerger.cs:42-65 | When every item resolves, the loop writes every item's cell in order and completes. |
| Resolution.TraceStops | TechnicalTest/TechnicalTest/Server/Services/ReportValuesToExcelSheetMerger.cs:71-75 | After a failure, later items change nothing. |
| Resolution.FirstFailure | TechnicalTest/TechnicalTest/Server/Services/ReportValuesToExcelSheetMerger.cs:42-75 | If item k is the first to fail, the loop writes exactly the cells of items 0 to k-1 and reports item k's error. |
| Resolution.ApplyWritesSnoc | TechnicalTest/TechnicalTest/Server/Services/ReportValuesToExcelSheetMerger.cs:64 | One more write replaces the value of that one address. |
| Resolution.ApplyWritesKeys | TechnicalTest/TechnicalTest/Server/Services/ReportValuesToExcelSheetMerger.cs:64 | The writes add exactly their own addresses to the sheet. |
| Resolution.ApplyWritesElsewhere | TechnicalTest/TechnicalTest/Server/Services/ReportValuesToExcelSheetMerger.cs:64 | An address no write targets keeps its presence and its value. |
| Resolution.ApplyWritesLastWins | TechnicalTest/TechnicalTest/Server/Services/ReportValuesToExcelSheetMerger.cs:64 | An address holds the value of the last write to it. |
| Resolution.TraceWritesItem | TechnicalTest/TechnicalTest/Server/Services/ReportValuesToExcelSheetMerger.cs:42-65 | A written item that no later written item overwrites leaves its value at its target cell. |
| Resolution.TraceLeavesOthers | TechnicalTest/TechnicalTest/Server/Services/ReportValuesToExcelSheetMerger.cs:42-65 | A cell that no written item targets is unchanged. |
| Merger.Worksheet.SetValue | TechnicalTest/TechnicalTest/Server/Services/ReportValuesToExcelSheetMerger.cs:64 | Exactly the one addressed cell takes the text. |
| Merger.Package.SaveAs | TechnicalTest/TechnicalTest/Server/Services/ReportValuesToExcelSheetMerger.cs:69 | The saved contents are the sheet's values at that moment. |
| Merger.MergeAsync | TechnicalTest/TechnicalTest/Server/Services/ReportValuesToExcelSheetMerger.cs:37-75 | The returned error is the loop's failure, if any. The sheet equals the old sheet with the loop's writes applied in order. The package is saved with its sheet's values if and only if nothing failed; otherwise its saved state is untouched. When the package's sheet is the payload's worksheet, as the test builds it, what is saved is exactly the old sheet with all the writes applied. |
| Scenarios.LabelReadings | TechnicalTest/Tests/TechnicalTest.Tests/Services/ReportValuesToExcelSheetMergerTests.cs:55-93 | The indices the test labels read. |
| Scenarios.HappyFormats | TechnicalTest/Tests/TechnicalTest.Tests/Services/ReportValuesToExcelSheetMergerTests.cs:95-121 | The texts the merge writes for the test's values. |
| Scenarios.ColumnLookupIn | TechnicalTest/Tests/TechnicalTest.Tests/Services/ReportValuesToExcelSheetMergerTests.cs:55-84 | With the seven column labels as the column anchors, column indices 10, 11 and 12 find columns 5, 6 and 7. |
| Scenarios.CanonicalRowAnchors | TechnicalTest/Tests/TechnicalTest.Tests/Services/ReportValuesToExcelSheetMergerTests.cs:55-93 | In the merge test's layout, the row anchors are exactly the two row labels. |
| Scenarios.CanonicalColumnAnchors | TechnicalTest/Tests/TechnicalTest.Tests/Services/ReportValuesToExcelSheetMergerTests.cs:55-93 | In the merge test's layout, the column anchors are exactly the seven column labels. |
| Scenarios.CanonicalRowLookup | TechnicalTest/Tests/TechnicalTest.Tests/Services/ReportValuesToExcelSheetMergerTests.cs:85-93 | Row index 10 finds row 11 and 20 finds row 12. Row index 30 finds nothing. |
| Scenarios.CanonicalResolves | TechnicalTest/Tests/TechnicalTest.Tests/Services/ReportValuesToExcelSheetMergerTests.cs:55-121 | (10, 10) goes to (11, 5) and (20, 12) to (12, 7). |
| Scenarios.CanonicalMerge | TechnicalTest/Tests/TechnicalTest.Tests/Services/ReportValuesToExcelSheetMergerTests.cs:55-145 | The merge test's loop writes its six cells in order and completes: the "does not throw" the test asserts. |
| Scenarios.MirroredRowAnchors | TechnicalTest/Tests/TechnicalTest.Tests/Services/ReportValueCellsCalculatorTests.cs:107-145 | With the row labels on the right, the row anchors are exactly the two row labels. |
| Scenarios.MirroredColumnAnchors | TechnicalTest/Tests/TechnicalTest.Tests/Services/ReportValueCellsCalculatorTests.cs:107-145 | With the row labels on the right, the column anchors are exactly the seven column labels. |
| Scenarios.MirroredResolves | TechnicalTest/Tests/TechnicalTest.Tests/Services/ReportValueCellsCalculatorTests.cs:107-145 | With the row labels on the right, (10, 10) still goes to (11, 5) and (20, 12) to (12, 7). |
| Scenarios.MirroredMerge | TechnicalTest/Tests/TechnicalTest.Tests/Services/ReportValueCellsCalculatorTests.cs:107-145 | With the row labels on the right, the merge test's items write the same six cells and complete. |
| Scenarios.LayoutsAgree | TechnicalTest/TechnicalTest/Server/Services/ReportValuesToExcelSheetMerger.cs:51-60 | Both test layouts resolve every item of the merge test alike. |
| Scenarios.HappyWrites | TechnicalTest/TechnicalTest/Server/Services/ReportValuesToExcelSheetMerger.cs:64 | The six writes on an empty sheet give exactly the six expected cells. |
| Scenarios.CanonicalMergeStops | TechnicalTest/TechnicalTest/Server/Services/ReportValuesToExcelSheetMerger.cs:42-75 | With a middle item reading row index 30, the loop writes the first item's cell and stops with "no matching row anchor". |
| Scenarios.DoubledRowFails | TechnicalTest/TechnicalTest/Server/Services/ReportValuesToExcelSheetMerger.cs:37-44 | Two row anchors reading 10 (`"010"` and `"10"`) make `Single` throw "more than one anchor". |
| Scenarios.CornerBoth | TechnicalTest/TechnicalTest/Server/Services/ReportValuesToExcelSheetMerger.cs:37-38 | A label alone on its row and its column is both a row anchor and a column anchor. |
| Scenarios.CornerNeither | TechnicalTest/TechnicalTest/Server/Services/ReportValuesToExcelSheetMerger.cs:37-38 | A label sharing both its row and its column is neither kind of anchor. |
| Scenarios.MergeHappy | TechnicalTest/Tests/TechnicalTest.Tests/Services/ReportValuesToExcelSheetMergerTests.cs:55-145 | On a fresh sheet and package the merge test reports no failure and saves exactly the six cells. |
| Scenarios.MergeStopping | TechnicalTest/TechnicalTest/Server/Services/ReportValuesToExcelSheetMerger.cs:42-75 | On a fresh sheet the stopping items return the error. The sheet holds only the first item's cell and nothing is saved. |

## Left out

- The validator call (line 31): its source is not part of this model. Only its effect on the inputs is assumed. The labels are digit strings, which `MergeAsync` requires as `Numeric`.
- Logging (lines 35, 40, 67, 73): output only.
- The file path and the asynchronous `Task` of `SaveAsAsync` (line 69). `Package.SaveAs` records what would be written; a failed save is not modelled.
- The EPPlus worksheet and package types. The model uses a map from (row, column) to the cell's text, and only what `MergeAsync` touches.
- Decimal.FormatValue: only integer values. Rounding of fractional values and culture-specific group separators of `ToString("#,###")` are not modelled. The group separator is always `,`.
- Decimal.ParseDigits: reads only texts of ASCII digits. The signs, white space and 32-bit overflow that `int.Parse` handles or rejects are not modelled.
- The label scanner `ReportValueCellsCalculator` is not part of this model. Its output is the list of label cells.
- The constructor's null-argument checks (lines 21-27).
- Item indices and values are unbounded integers, so an `int` overflow of an item value is not modelled.
