/**
 * The label layouts and report items of the repository's tests, and what the
 * model says the merge does with them.
 */
module Scenarios {
  import opened Decimal
  import opened Cells
  import opened Resolution
  import opened Merger

  // The column labels 010 … 040 across row 10, from column 5 to column 11.
  const Col010 := ReportValueCell(10, 5, "010")
  const Col011 := ReportValueCell(10, 6, "011")
  const Col012 := ReportValueCell(10, 7, "012")
  const Col022 := ReportValueCell(10, 8, "022")
  const Col025 := ReportValueCell(10, 9, "025")
  const Col031 := ReportValueCell(10, 10, "031")
  const Col040 := ReportValueCell(10, 11, "040")

  // The row labels 010 and 020, left of the data (column 2) or right of it (column 12).
  const LeftRow010 := ReportValueCell(11, 2, "010")
  const LeftRow020 := ReportValueCell(12, 2, "020")
  const RightRow010 := ReportValueCell(11, 12, "010")
  const RightRow020 := ReportValueCell(12, 12, "020")

  const ColumnLabels: seq<ReportValueCell> := [Col010, Col011, Col012, Col022, Col025, Col031, Col040]

  /** The merge test's template: the row labels on the left. */
  const Canonical: seq<ReportValueCell> :=
    [Col010, Col011, Col012, Col022, Col025, Col031, Col040, LeftRow010, LeftRow020]

  /** The template variant with the row labels on the right. */
  const Mirrored: seq<ReportValueCell> :=
    [Col010, Col011, Col012, Col022, Col025, Col031, Col040, RightRow010, RightRow020]

  /** The report items of the merge test. */
  const HappyItems: seq<XmlReportItem> := [
    XmlReportItem(10, 10, 100), XmlReportItem(10, 11, 200), XmlReportItem(10, 12, 0),
    XmlReportItem(20, 10, 600), XmlReportItem(20, 11, 500), XmlReportItem(20, 12, 0)
  ]

  /** The cells the merge writes for those items, in item order. */
  const HappyCells: seq<ReportValueCell> := [
    ReportValueCell(11, 5, "100"), ReportValueCell(11, 6, "200"), ReportValueCell(11, 7, "0"),
    ReportValueCell(12, 5, "600"), ReportValueCell(12, 6, "500"), ReportValueCell(12, 7, "0")
  ]

  /** The label texts of the template read as their indices. */
  lemma LabelReadings()
    ensures LabelIndex(Col010) == 10 && LabelIndex(Col011) == 11 && LabelIndex(Col012) == 12
    ensures LabelIndex(Col022) == 22 && LabelIndex(Col025) == 25 && LabelIndex(Col031) == 31
    ensures LabelIndex(Col040) == 40
    ensures LabelIndex(LeftRow010) == 10 && LabelIndex(LeftRow020) == 20
    ensures LabelIndex(RightRow010) == 10 && LabelIndex(RightRow020) == 20
  {
    assert "0"[..0] == "";
    assert "01"[..1] == "0" && "02"[..1] == "0" && "03"[..1] == "0" && "04"[..1] == "0";
    assert "010"[..2] == "01" && "011"[..2] == "01" && "012"[..2] == "01";
    assert "020"[..2] == "02" && "022"[..2] == "02" && "025"[..2] == "02";
    assert "031"[..2] == "03" && "040"[..2] == "04";
  }

  /** Every label of either layout is a digit string. */
  lemma LayoutsNumeric()
    ensures Numeric(Canonical) && Numeric(Mirrored)
  {
  }

  /** A single digit followed by two zeros is written as those three characters. */
  lemma FormatHundreds(d: nat)
    requires 1 <= d <= 9
    ensures FormatValue(100 * d) == [DigitChar(d), '0', '0']
  {
    assert Digits(d) == [DigitChar(d)] by {
      assert d / 10 == 0 && d % 10 == d;
    }
    assert Digits(10 * d) == [DigitChar(d), DigitChar(0)] by {
      assert (10 * d) / 10 == d && (10 * d) % 10 == 0;
    }
    assert Digits(100 * d) == [DigitChar(d), DigitChar(0), DigitChar(0)] by {
      assert (100 * d) / 10 == 10 * d && (100 * d) % 10 == 0;
    }
  }

  /** The values of the merge test as they are written. */
  lemma HappyFormats()
    ensures FormatValue(100) == "100" && FormatValue(200) == "200" && FormatValue(0) == "0"
    ensures FormatValue(600) == "600" && FormatValue(500) == "500"
  {
    FormatHundreds(1);
    FormatHundreds(2);
    FormatHundreds(5);
    FormatHundreds(6);
    assert DigitChar(1) == '1' && DigitChar(2) == '2' && DigitChar(5) == '5' && DigitChar(6) == '6';
  }

  /**
   * With any row anchor in row 11 (for row index 10) or row 12 (for 20), below
   * the column labels, an item of the merge test is written as its expected cell.
   */
  lemma HappyCellOf(i: nat, rowAnchor: ReportValueCell)
    requires i < |HappyItems|
    requires HappyItems[i].row == 10 || HappyItems[i].row == 20
    requires rowAnchor.row == if HappyItems[i].row == 10 then 11 else 12
    ensures 10 <= HappyItems[i].column <= 12
    ensures var p := Target(rowAnchor, ColumnLabels[HappyItems[i].column - 10]);
      ReportValueCell(p.row, p.column, FormatValue(HappyItems[i].value)) == HappyCells[i]
  {
    HappyFormats();
  }

  // ---------------------------------------------------------------------
  // Anchors
  // ---------------------------------------------------------------------

  /** Among the column labels, the one reading 10, 11 or 12 is the one in column 5, 6 or 7. */
  lemma ColumnLabelReading(b: ReportValueCell, n: int)
    requires 10 <= n <= 12
    requires b in ColumnLabels && LabelIndex(b) == n
    ensures b == ColumnLabels[n - 10]
  {
    LabelReadings();
    assert b == Col010 || b == Col011 || b == Col012 || b == Col022 || b == Col025 || b == Col031 || b == Col040;
  }

  /**
   * In a layout whose column anchors are exactly the seven column labels,
   * column indices 10, 11 and 12 find the labels in columns 5, 6 and 7.
   */
  lemma ColumnLookupIn(labels: seq<ReportValueCell>, n: int)
    requires Numeric(labels)
    requires forall x :: x in Anchors(labels, ByColumn) <==> x in ColumnLabels
    requires 10 <= n <= 12
    ensures Lookup(labels, ByColumn, n) == Ok(ColumnLabels[n - 10])
  {
    ColumnLabelReads(n);
    ColumnLabelsReadOnce(labels, n);
    LookupFinds(labels, ByColumn, n, ColumnLabels[n - 10]);
  }

  /** The column labels in columns 5, 6 and 7 read 10, 11 and 12. */
  lemma ColumnLabelReads(n: int)
    requires 10 <= n <= 12
    ensures ColumnLabels[n - 10] in ColumnLabels
    ensures IsDigits(ColumnLabels[n - 10].value) && LabelIndex(ColumnLabels[n - 10]) == n
  {
    LabelReadings();
    assert ColumnLabels[n - 10] == if n == 10 then Col010 else if n == 11 then Col011 else Col012;
  }

  /** No other column anchor reads the same index. */
  lemma ColumnLabelsReadOnce(labels: seq<ReportValueCell>, n: int)
    requires forall x :: x in Anchors(labels, ByColumn) <==> x in ColumnLabels
    requires 10 <= n <= 12
    ensures forall b :: b in Anchors(labels, ByColumn) && IsDigits(b.value) && LabelIndex(b) == n ==> b == ColumnLabels[n - 10]
  {
    forall b | b in Anchors(labels, ByColumn) && IsDigits(b.value) && LabelIndex(b) == n
      ensures b == ColumnLabels[n - 10]
    {
      ColumnLabelReading(b, n);
    }
  }

  /** With the row labels on the left, the row anchors are the two row labels: row 10 holds seven cells. */
  lemma CanonicalRowAnchors()
    ensures forall x :: x in RowAnchors(Canonical) <==> x == LeftRow010 || x == LeftRow020
  {
    var c := Canonical;
    AnchorsAreLabels(c, ByRow);
    assert c[0].row == c[1].row;
    AnchorAtIndex(c, ByRow, 0);
    AnchorAtIndex(c, ByRow, 1);
    AnchorAtIndex(c, ByRow, 2);
    AnchorAtIndex(c, ByRow, 3);
    AnchorAtIndex(c, ByRow, 4);
    AnchorAtIndex(c, ByRow, 5);
    AnchorAtIndex(c, ByRow, 6);
    AnchorAtIndex(c, ByRow, 7);
    AnchorAtIndex(c, ByRow, 8);
  }

  /** With the row labels on the left, each column label is alone in its column. */
  lemma CanonicalColumnLabelsAlone()
    ensures forall i :: 0 <= i < 7 ==> Canonical[i] in Anchors(Canonical, ByColumn)
  {
    forall i | 0 <= i < 7
      ensures Canonical[i] in Anchors(Canonical, ByColumn)
    {
      AnchorAtIndex(Canonical, ByColumn, i);
    }
  }

  /** With the row labels on the left, the column anchors are the seven column labels: column 2 holds both row labels. */
  lemma CanonicalColumnAnchors()
    ensures forall x :: x in ColumnAnchors(Canonical) <==> x in ColumnLabels
  {
    var c := Canonical;
    AnchorsAreLabels(c, ByColumn);
    assert c[7].column == c[8].column;
    AnchorAtIndex(c, ByColumn, 7);
    AnchorAtIndex(c, ByColumn, 8);
    CanonicalColumnLabelsAlone();
    assert forall i :: 0 <= i < 7 ==> ColumnLabels[i] == c[i];
  }

  /** With the row labels on the right, the row anchors are the two row labels: row 10 holds seven cells. */
  lemma MirroredRowAnchors()
    ensures forall x :: x in RowAnchors(Mirrored) <==> x == RightRow010 || x == RightRow020
  {
    var c := Mirrored;
    AnchorsAreLabels(c, ByRow);
    assert c[0].row == c[1].row;
    AnchorAtIndex(c, ByRow, 0);
    AnchorAtIndex(c, ByRow, 1);
    AnchorAtIndex(c, ByRow, 2);
    AnchorAtIndex(c, ByRow, 3);
    AnchorAtIndex(c, ByRow, 4);
    AnchorAtIndex(c, ByRow, 5);
    AnchorAtIndex(c, ByRow, 6);
    AnchorAtIndex(c, ByRow, 7);
    AnchorAtIndex(c, ByRow, 8);
  }

  /** With the row labels on the right, each column label is alone in its column. */
  lemma MirroredColumnLabelsAlone()
    ensures forall i :: 0 <= i < 7 ==> Mirrored[i] in Anchors(Mirrored, ByColumn)
  {
    forall i | 0 <= i < 7
      ensures Mirrored[i] in Anchors(Mirrored, ByColumn)
    {
      AnchorAtIndex(Mirrored, ByColumn, i);
    }
  }

  /** With the row labels on the right, the column anchors are the seven column labels: column 12 holds both row labels. */
  lemma MirroredColumnAnchors()
    ensures forall x :: x in ColumnAnchors(Mirrored) <==> x in ColumnLabels
  {
    var c := Mirrored;
    AnchorsAreLabels(c, ByColumn);
    assert c[7].column == c[8].column;
    AnchorAtIndex(c, ByColumn, 7);
    AnchorAtIndex(c, ByColumn, 8);
    MirroredColumnLabelsAlone();
    assert forall i :: 0 <= i < 7 ==> ColumnLabels[i] == c[i];
  }

  // ---------------------------------------------------------------------
  // The row labels on the left
  // ---------------------------------------------------------------------

  /** The row anchors and the indices their labels read. */
  lemma CanonicalRowReaders()
    ensures Numeric(Canonical)
    ensures LeftRow010 in Anchors(Canonical, ByRow) && IsDigits(LeftRow010.value) && LabelIndex(LeftRow010) == 10
    ensures LeftRow020 in Anchors(Canonical, ByRow) && IsDigits(LeftRow020.value) && LabelIndex(LeftRow020) == 20
    ensures forall b :: b in Anchors(Canonical, ByRow) ==> b == LeftRow010 || b == LeftRow020
  {
    LayoutsNumeric();
    CanonicalRowAnchors();
    assert RowAnchors(Canonical) == Anchors(Canonical, ByRow);
    LabelReadings();
  }

  /** Row index 10 finds the row label in row 11 and 20 the one in row 12; no label reads row index 30. */
  lemma CanonicalRowLookup(n: int)
    requires n == 10 || n == 20 || n == 30
    ensures Numeric(Canonical)
    ensures Lookup(Canonical, ByRow, n)
         == if n == 10 then Ok(LeftRow010) else if n == 20 then Ok(LeftRow020) else Err(NoMatchingAnchor(ByRow, 30))
  {
    CanonicalRowReaders();
    if n == 10 {
      LookupFinds(Canonical, ByRow, 10, LeftRow010);
    } else if n == 20 {
      LookupFinds(Canonical, ByRow, 20, LeftRow020);
    } else {
      LookupMisses(Canonical, ByRow, 30);
    }
  }

  /** Column indices 10, 11 and 12 find the labels in columns 5, 6 and 7. */
  lemma CanonicalColumnLookup(n: int)
    requires 10 <= n <= 12
    ensures Numeric(Canonical)
    ensures Lookup(Canonical, ByColumn, n) == Ok(ColumnLabels[n - 10])
  {
    LayoutsNumeric();
    CanonicalColumnAnchors();
    assert ColumnAnchors(Canonical) == Anchors(Canonical, ByColumn);
    ColumnLookupIn(Canonical, n);
  }

  /**
   * Each item of the merge test resolves to its cell: (10, 10) to row 11,
   * column 5 written "100", …, (20, 12) to row 12, column 7 written "0".
   */
  lemma CanonicalResolvesItem(i: nat)
    requires i < |HappyItems|
    ensures Numeric(Canonical)
    ensures Resolve(Canonical, HappyItems[i]) == Ok(HappyCells[i])
  {
    var item := HappyItems[i];
    var rowAnchor := if item.row == 10 then LeftRow010 else LeftRow020;
    HappyCellOf(i, rowAnchor);
    CanonicalRowLookup(item.row);
    CanonicalColumnLookup(item.column);
    ResolveWrites(Canonical, item, rowAnchor, ColumnLabels[item.column - 10]);
  }

  /** The two items the merge test's layout is known by: (10, 10) and (20, 12). */
  lemma CanonicalResolves()
    ensures Numeric(Canonical)
    ensures Resolve(Canonical, XmlReportItem(10, 10, 100)) == Ok(ReportValueCell(11, 5, "100"))
    ensures Resolve(Canonical, XmlReportItem(20, 12, 0)) == Ok(ReportValueCell(12, 7, "0"))
  {
    CanonicalResolvesItem(0);
    CanonicalResolvesItem(5);
  }

  /** The merge test's loop writes its six cells in order and completes. */
  lemma CanonicalMerge()
    ensures Numeric(Canonical)
    ensures Trace(ResolveAll(Canonical, HappyItems)) == MergeTrace(HappyCells, None)
  {
    LayoutsNumeric();
    var results := ResolveAll(Canonical, HappyItems);
    forall i | 0 <= i < |results|
      ensures results[i] == Ok(HappyCells[i])
    {
      CanonicalResolvesItem(i);
    }
    TraceAllOk(results, HappyCells);
  }

  // ---------------------------------------------------------------------
  // The row labels on the right
  // ---------------------------------------------------------------------

  /** The row anchors and the indices their labels read. */
  lemma MirroredRowReaders()
    ensures Numeric(Mirrored)
    ensures RightRow010 in Anchors(Mirrored, ByRow) && IsDigits(RightRow010.value) && LabelIndex(RightRow010) == 10
    ensures RightRow020 in Anchors(Mirrored, ByRow) && IsDigits(RightRow020.value) && LabelIndex(RightRow020) == 20
    ensures forall b :: b in Anchors(Mirrored, ByRow) ==> b == RightRow010 || b == RightRow020
  {
    LayoutsNumeric();
    MirroredRowAnchors();
    assert RowAnchors(Mirrored) == Anchors(Mirrored, ByRow);
    LabelReadings();
  }

  /** Row index 10 finds the row label in row 11 and 20 the one in row 12; no label reads row index 30. */
  lemma MirroredRowLookup(n: int)
    requires n == 10 || n == 20 || n == 30
    ensures Numeric(Mirrored)
    ensures Lookup(Mirrored, ByRow, n)
         == if n == 10 then Ok(RightRow010) else if n == 20 then Ok(RightRow020) else Err(NoMatchingAnchor(ByRow, 30))
  {
    MirroredRowReaders();
    if n == 10 {
      LookupFinds(Mirrored, ByRow, 10, RightRow010);
    } else if n == 20 {
      LookupFinds(Mirrored, ByRow, 20, RightRow020);
    } else {
      LookupMisses(Mirrored, ByRow, 30);
    }
  }

  /** Column indices 10, 11 and 12 find the labels in columns 5, 6 and 7. */
  lemma MirroredColumnLookup(n: int)
    requires 10 <= n <= 12
    ensures Numeric(Mirrored)
    ensures Lookup(Mirrored, ByColumn, n) == Ok(ColumnLabels[n - 10])
  {
    LayoutsNumeric();
    MirroredColumnAnchors();
    assert ColumnAnchors(Mirrored) == Anchors(Mirrored, ByColumn);
    ColumnLookupIn(Mirrored, n);
  }

  /**
   * Each item of the merge test resolves to its cell: (10, 10) to row 11,
   * column 5 written "100", …, (20, 12) to row 12, column 7 written "0".
   */
  lemma MirroredResolvesItem(i: nat)
    requires i < |HappyItems|
    ensures Numeric(Mirrored)
    ensures Resolve(Mirrored, HappyItems[i]) == Ok(HappyCells[i])
  {
    var item := HappyItems[i];
    var rowAnchor := if item.row == 10 then RightRow010 else RightRow020;
    HappyCellOf(i, rowAnchor);
    MirroredRowLookup(item.row);
    MirroredColumnLookup(item.column);
    ResolveWrites(Mirrored, item, rowAnchor, ColumnLabels[item.column - 10]);
  }

  /** The two items the merge test's layout is known by: (10, 10) and (20, 12). */
  lemma MirroredResolves()
    ensures Numeric(Mirrored)
    ensures Resolve(Mirrored, XmlReportItem(10, 10, 100)) == Ok(ReportValueCell(11, 5, "100"))
    ensures Resolve(Mirrored, XmlReportItem(20, 12, 0)) == Ok(ReportValueCell(12, 7, "0"))
  {
    MirroredResolvesItem(0);
    MirroredResolvesItem(5);
  }

  /** The merge test's loop writes its six cells in order and completes. */
  lemma MirroredMerge()
    ensures Numeric(Mirrored)
    ensures Trace(ResolveAll(Mirrored, HappyItems)) == MergeTrace(HappyCells, None)
  {
    LayoutsNumeric();
    var results := ResolveAll(Mirrored, HappyItems);
    forall i | 0 <= i < |results|
      ensures results[i] == Ok(HappyCells[i])
    {
      MirroredResolvesItem(i);
    }
    TraceAllOk(results, HappyCells);
  }

  // ---------------------------------------------------------------------
  // What the two layouts have in common, and where a merge stops
  // ---------------------------------------------------------------------

  /** Moving the row labels from the left of the data to its right changes no item's target. */
  lemma LayoutsAgree()
    ensures Numeric(Canonical) && Numeric(Mirrored)
    ensures ResolveAll(Canonical, HappyItems) == ResolveAll(Mirrored, HappyItems)
  {
    LayoutsNumeric();
    forall i | 0 <= i < |HappyItems|
      ensures ResolveAll(Canonical, HappyItems)[i] == ResolveAll(Mirrored, HappyItems)[i]
    {
      CanonicalResolvesItem(i);
      MirroredResolvesItem(i);
    }
  }

  /** The grid the merge test's six writes produce on an empty sheet. */
  const HappyGrid: Grid := map[
    Position(11, 5) := "100", Position(11, 6) := "200", Position(11, 7) := "0",
    Position(12, 5) := "600", Position(12, 6) := "500", Position(12, 7) := "0"]

  lemma HappyWrites()
    ensures ApplyWrites(map[], HappyCells) == HappyGrid
  {
    var c := HappyCells;
    assert ApplyWrites(map[], c[..1]) == map[Position(11, 5) := "100"] by {
      HappyWritesStep(0);
    }
    assert ApplyWrites(map[], c[..2]) == map[Position(11, 5) := "100", Position(11, 6) := "200"] by {
      HappyWritesStep(1);
    }
    assert ApplyWrites(map[], c[..3])
        == map[Position(11, 5) := "100", Position(11, 6) := "200", Position(11, 7) := "0"] by {
      HappyWritesStep(2);
    }
    assert ApplyWrites(map[], c[..4])
        == map[Position(11, 5) := "100", Position(11, 6) := "200", Position(11, 7) := "0",
               Position(12, 5) := "600"] by {
      HappyWritesStep(3);
    }
    assert ApplyWrites(map[], c[..5])
        == map[Position(11, 5) := "100", Position(11, 6) := "200", Position(11, 7) := "0",
               Position(12, 5) := "600", Position(12, 6) := "500"] by {
      HappyWritesStep(4);
    }
    HappyWritesStep(5);
    assert c[..6] == c;
  }

  lemma HappyWritesStep(k: nat)
    requires k < |HappyCells|
    ensures ApplyWrites(map[], HappyCells[..k + 1])
         == ApplyWrites(map[], HappyCells[..k])[At(HappyCells[k]) := HappyCells[k].value]
  {
    assert HappyCells[..k + 1] == HappyCells[..k] + [HappyCells[k]];
    ApplyWritesSnoc(map[], HappyCells[..k], HappyCells[k]);
  }

  /** The merge test's items with a middle one whose row index no row label reads. */
  const StoppingItems: seq<XmlReportItem> := [
    XmlReportItem(10, 10, 100), XmlReportItem(30, 10, 5), XmlReportItem(20, 12, 0)
  ]

  /** The first stopping item is the merge test's first item, written at row 11, column 5. */
  lemma StoppingFirst()
    ensures Numeric(Canonical)
    ensures Resolve(Canonical, StoppingItems[0]) == Ok(ReportValueCell(11, 5, "100"))
  {
    CanonicalResolvesItem(0);
  }

  /** The second stopping item reads row index 30, which no row label reads. */
  lemma StoppingSecond()
    ensures Numeric(Canonical)
    ensures Resolve(Canonical, StoppingItems[1]) == Err(NoMatchingAnchor(ByRow, 30))
  {
    CanonicalRowLookup(30);
    ResolveRowFails(Canonical, StoppingItems[1]);
  }

  /**
   * The loop writes the first item's cell, then stops on the second with
   * "no matching row anchor"; the third item is never reached.
   */
  lemma CanonicalMergeStops()
    ensures Numeric(Canonical)
    ensures Trace(ResolveAll(Canonical, StoppingItems))
         == MergeTrace([ReportValueCell(11, 5, "100")], Some(NoMatchingAnchor(ByRow, 30)))
  {
    StoppingFirst();
    StoppingSecond();
    var results := ResolveAll(Canonical, StoppingItems);
    StopsSecond(results, ReportValueCell(11, 5, "100"), NoMatchingAnchor(ByRow, 30));
  }

  /** A first item that is written and a second that fails: the loop ends there. */
  lemma StopsSecond(results: seq<Result<ReportValueCell>>, cell: ReportValueCell, e: ResolveError)
    requires |results| >= 2 && results[0] == Ok(cell) && results[1] == Err(e)
    ensures Trace(results) == MergeTrace([cell], Some(e))
  {
    FirstFailure(results, 1);
    assert seq(1, i requires 0 <= i < 1 => results[i].value) == [cell];
  }

  // ---------------------------------------------------------------------
  // Small layouts: a doubled row label, and cells that are both or neither
  // ---------------------------------------------------------------------

  /** A second row label, "10", that reads the same index as "010". */
  const DupRow := ReportValueCell(13, 2, "10")

  /** Two column labels and two row labels, both row labels reading 10. */
  const Doubled: seq<ReportValueCell> := [Col010, Col011, LeftRow010, DupRow]

  lemma DupRowReading()
    ensures IsDigits(DupRow.value) && LabelIndex(DupRow) == 10
  {
    assert "1"[..0] == "";
    assert "10"[..1] == "1";
  }

  lemma DoubledRowAnchors()
    ensures Numeric(Doubled)
    ensures LeftRow010 in Anchors(Doubled, ByRow) && IsDigits(LeftRow010.value) && LabelIndex(LeftRow010) == 10
    ensures DupRow in Anchors(Doubled, ByRow) && IsDigits(DupRow.value) && LabelIndex(DupRow) == 10
  {
    LabelReadings();
    DupRowReading();
    AnchorAtIndex(Doubled, ByRow, 2);
    AnchorAtIndex(Doubled, ByRow, 3);
  }

  /** Row index 10 now matches two row anchors, and `Single` throws. */
  lemma DoubledRowFails()
    ensures Numeric(Doubled)
    ensures Resolve(Doubled, XmlReportItem(10, 10, 100)) == Err(MoreThanOneAnchor(ByRow, 10))
  {
    DoubledRowAnchors();
    LookupDoubled(Doubled, ByRow, 10, LeftRow010, DupRow);
    ResolveRowFails(Doubled, XmlReportItem(10, 10, 100));
  }

  /**
   * Row and column anchors are worked out separately: the first cell here is
   * alone on both its row and its column, the third shares both.
   */
  const Corner1 := ReportValueCell(1, 1, "1")
  const Corner2 := ReportValueCell(2, 2, "2")
  const Corner3 := ReportValueCell(2, 3, "3")
  const Corner4 := ReportValueCell(3, 3, "4")
  const Corner: seq<ReportValueCell> := [Corner1, Corner2, Corner3, Corner4]

  lemma CornerBoth()
    ensures Corner1 in RowAnchors(Corner) && Corner1 in ColumnAnchors(Corner)
  {
    AnchorAtIndex(Corner, ByRow, 0);
    AnchorAtIndex(Corner, ByColumn, 0);
    assert RowAnchors(Corner) == Anchors(Corner, ByRow);
    assert ColumnAnchors(Corner) == Anchors(Corner, ByColumn);
  }

  lemma CornerNeither()
    ensures Corner3 !in RowAnchors(Corner) && Corner3 !in ColumnAnchors(Corner)
  {
    AnchorAtIndex(Corner, ByRow, 2);
    assert Key(Corner[1], ByRow) == Key(Corner[2], ByRow);
    AnchorAtIndex(Corner, ByColumn, 2);
    assert Key(Corner[3], ByColumn) == Key(Corner[2], ByColumn);
    assert RowAnchors(Corner) == Anchors(Corner, ByRow);
    assert ColumnAnchors(Corner) == Anchors(Corner, ByColumn);
  }

  // ---------------------------------------------------------------------
  // The merge test, run on a fresh sheet and package
  // ---------------------------------------------------------------------

  /** The merge test's items on an empty sheet: nothing fails, and the six cells are saved. */
  method MergeHappy() returns (failure: Option<ResolveError>, saved: Option<Grid>)
    ensures failure == None
    ensures saved == Some(HappyGrid)
  {
    var sheet := new Worksheet(map[]);
    var package := new Package(sheet);
    LayoutsNumeric();
    failure := MergeAsync(ReportMergePayload(sheet, package, Canonical, HappyItems));
    CanonicalMerge();
    HappyWrites();
    saved := package.saved;
  }

  /**
   * The stopping items on an empty sheet: the error comes back, the sheet
   * holds the first item's cell only, and nothing is saved.
   */
  method MergeStopping() returns (failure: Option<ResolveError>, written: Grid, saved: Option<Grid>)
    ensures failure == Some(NoMatchingAnchor(ByRow, 30))
    ensures written == map[Position(11, 5) := "100"]
    ensures saved == None
  {
    var sheet := new Worksheet(map[]);
    var package := new Package(sheet);
    LayoutsNumeric();
    failure := MergeAsync(ReportMergePayload(sheet, package, Canonical, StoppingItems));
    CanonicalMergeStops();
    ApplyWritesSnoc(map[], [], ReportValueCell(11, 5, "100"));
    written, saved := sheet.cells, package.saved;
  }
}
