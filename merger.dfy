/**
 * `ReportValuesToExcelSheetMerger.MergeAsync`: the worksheet is written in
 * place, item by item, and the package is saved once every item has been
 * written. An item that does not resolve throws out of the loop: the cells
 * written before it stay in the in-memory sheet and nothing is saved.
 */
module Merger {
  import opened Decimal
  import opened Cells
  import opened Resolution

  /** The worksheet: its cell values by address, updated in place. */
  class Worksheet {
    var cells: Grid

    constructor (initial: Grid)
      ensures cells == initial
    {
      cells := initial;
    }

    /** `Cells[row, column].Value = text`: that one cell takes the text. */
    method SetValue(row: int, column: int, text: string)
      modifies this
      ensures cells == old(cells)[Position(row, column) := text]
    {
      cells := cells[Position(row, column) := text];
    }
  }

  /** The workbook package; saving records the sheet's values as they are at that moment. */
  class Package {
    const sheet: Worksheet
    var saved: Option<Grid>

    constructor (sheet: Worksheet)
      ensures this.sheet == sheet && saved == None
    {
      this.sheet := sheet;
      saved := None;
    }

    /** `SaveAsAsync` to the fixed output file. */
    method SaveAs()
      modifies this
      ensures saved == Some(sheet.cells)
    {
      saved := Some(sheet.cells);
    }
  }

  /** What the merge is given: the sheet, its package, the label cells and the report items. */
  datatype ReportMergePayload = ReportMergePayload(
    workSheet: Worksheet,
    package: Package,
    cells: seq<ReportValueCell>,
    reportValues: seq<XmlReportItem>)

  /**
   * The merge. The result is the error the loop stopped on (the exception
   * rethrown), or None when every item was written and the package saved.
   */
  method MergeAsync(payload: ReportMergePayload) returns (failure: Option<ResolveError>)
    requires Numeric(payload.cells)
    modifies payload.workSheet, payload.package
    ensures var t := Trace(ResolveAll(payload.cells, payload.reportValues));
      && failure == t.failure
      && payload.workSheet.cells == ApplyWrites(old(payload.workSheet.cells), t.written)
      && payload.package.saved == if failure.None? then Some(payload.package.sheet.cells)
                                  else old(payload.package.saved)
    ensures payload.package.sheet == payload.workSheet && failure.None? ==>
      payload.package.saved == Some(ApplyWrites(old(payload.workSheet.cells), Trace(ResolveAll(payload.cells, payload.reportValues)).written))
  {
    var labels, items, sheet := payload.cells, payload.reportValues, payload.workSheet;
    AnchorsAreLabels(labels, ByRow);
    AnchorsAreLabels(labels, ByColumn);
    var targetRows := RowAnchors(labels);
    var targetColumns := ColumnAnchors(labels);
    ghost var results := ResolveAll(labels, items);

    var i := 0;
    while i < |items|
      invariant 0 <= i <= |items|
      invariant Trace(results[..i]).failure == None
      invariant sheet.cells == ApplyWrites(old(sheet.cells), Trace(results[..i]).written)
      invariant payload.package.saved == old(payload.package.saved)
    {
      var item := items[i];
      assert results[i] == Resolve(labels, item);

      var cell1 := Single(targetRows, ByRow, item.row);
      assert cell1 == Lookup(labels, ByRow, item.row);
      if cell1.Err? {
        failure := Some(cell1.error);
        ResolveRowFails(labels, item);
        TraceFailsAt(results, i);
        return;
      }
      var cell2 := Single(targetColumns, ByColumn, item.column);
      assert cell2 == Lookup(labels, ByColumn, item.column);
      if cell2.Err? {
        failure := Some(cell2.error);
        ResolveColumnFails(labels, item);
        TraceFailsAt(results, i);
        return;
      }

      var rowAnchor, columnAnchor := cell1.value, cell2.value;
      var row, column;
      if rowAnchor.row > columnAnchor.row && rowAnchor.column > columnAnchor.column {
        row := rowAnchor.row;
        column := columnAnchor.column;
      } else {
        row := Max(rowAnchor.row, columnAnchor.row);
        column := Max(rowAnchor.column, columnAnchor.column);
      }
      var value := if item.value == 0 then "0" else FormatHashGrouped(item.value);

      ResolveWrites(labels, item, rowAnchor, columnAnchor);
      assert Position(row, column) == Target(rowAnchor, columnAnchor);
      assert value == FormatValue(item.value);
      TraceGrows(results, i);
      ApplyWritesSnoc(old(sheet.cells), Trace(results[..i]).written, ReportValueCell(row, column, value));
      sheet.SetValue(row, column, value);
      i := i + 1;
    }
    assert results[..|items|] == results;

    payload.package.SaveAs();
    failure := None;
  }
}
