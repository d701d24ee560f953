/**
 * Resolving one report item to the sheet cell it is written into, and the
 * sequence of writes the merge loop performs over all items.
 */
module Resolution {
  import opened Decimal
  import opened Cells

  datatype Option<T> = None | Some(value: T)

  /** The two ways `Enumerable.Single(predicate)` throws. */
  datatype ResolveError =
    | NoMatchingAnchor(axis: Axis, index: int)
    | MoreThanOneAnchor(axis: Axis, index: int)

  datatype Result<T> = Ok(value: T) | Err(error: ResolveError) {
    predicate IsFailure() {
      Err?
    }

    function PropagateFailure<U>(): Result<U>
      requires Err?
    {
      Err(error)
    }

    function Extract(): T
      requires Ok?
    {
      value
    }
  }

  /** A value of the report: logical row index, logical column index, amount. */
  datatype XmlReportItem = XmlReportItem(row: int, column: int, value: int)

  /** A physical sheet address. */
  datatype Position = Position(row: int, column: int)

  function Max(a: int, b: int): int {
    if a < b then b else a
  }

  // ---------------------------------------------------------------------
  // Anchor lookup: anchors.Single(a => int.Parse(a.Value) == n)
  // ---------------------------------------------------------------------

  /** The anchors whose label reads `n`, in order. */
  function Matching(anchors: seq<ReportValueCell>, n: int): (r: seq<ReportValueCell>)
    requires Numeric(anchors)
    ensures forall x :: x in r <==> x in anchors && LabelIndex(x) == n
  {
    if anchors == [] then []
    else
      var last := anchors[|anchors| - 1];
      Matching(anchors[..|anchors| - 1], n) + (if LabelIndex(last) == n then [last] else [])
  }

  /** Exactly one position of `anchors` holds a label reading `n`. */
  predicate UniqueMatch(anchors: seq<ReportValueCell>, n: int) {
    && Numeric(anchors)
    && exists i :: 0 <= i < |anchors| && LabelIndex(anchors[i]) == n
         && forall j :: 0 <= j < |anchors| && j != i ==> LabelIndex(anchors[j]) != n
  }

  /** Two different positions of `anchors` hold a label reading `n`. */
  predicate TwoMatches(anchors: seq<ReportValueCell>, n: int)
    requires Numeric(anchors)
  {
    exists p, q :: 0 <= p < q < |anchors| && LabelIndex(anchors[p]) == n && LabelIndex(anchors[q]) == n
  }

  /** `a` is an anchor whose label reads `n`. */
  predicate IsAnchorFor(anchors: seq<ReportValueCell>, n: int, a: ReportValueCell) {
    a in anchors && IsDigits(a.value) && LabelIndex(a) == n
  }

  /** Some position of `anchors` holds a label reading `n`. */
  predicate SomeMatch(anchors: seq<ReportValueCell>, n: int)
    requires Numeric(anchors)
  {
    exists i :: 0 <= i < |anchors| && LabelIndex(anchors[i]) == n
  }

  /** Two matches in `pre + [last]` are two in `pre`, or one in `pre` and `last`. */
  lemma TwoMatchesSnoc(pre: seq<ReportValueCell>, last: ReportValueCell, n: int)
    requires Numeric(pre + [last])
    ensures Numeric(pre)
    ensures TwoMatches(pre + [last], n) <==> TwoMatches(pre, n) || (SomeMatch(pre, n) && LabelIndex(last) == n)
  {
    var a := pre + [last];
    assert forall i :: 0 <= i < |pre| ==> a[i] == pre[i];
    assert a[|pre|] == last;
    assert Numeric(pre) by {
      forall c | c in pre ensures IsDigits(c.value) {
        assert c in a;
      }
    }
    if TwoMatches(a, n) {
      var p, q :| 0 <= p < q < |a| && LabelIndex(a[p]) == n && LabelIndex(a[q]) == n;
      if q < |pre| {
        assert LabelIndex(pre[p]) == n && LabelIndex(pre[q]) == n;
      } else {
        assert LabelIndex(pre[p]) == n;
      }
    }
    if SomeMatch(pre, n) && LabelIndex(last) == n {
      var p :| 0 <= p < |pre| && LabelIndex(pre[p]) == n;
      assert LabelIndex(a[p]) == n && LabelIndex(a[|pre|]) == n;
    }
    if TwoMatches(pre, n) {
      var p, q :| 0 <= p < q < |pre| && LabelIndex(pre[p]) == n && LabelIndex(pre[q]) == n;
      assert LabelIndex(a[p]) == n && LabelIndex(a[q]) == n;
    }
  }

  /** No match exactly when `Matching` is empty. */
  lemma MatchingEmpty(anchors: seq<ReportValueCell>, n: int)
    requires Numeric(anchors)
    ensures |Matching(anchors, n)| == 0 <==> !SomeMatch(anchors, n)
  {
    var m := Matching(anchors, n);
    if |m| > 0 {
      assert m[0] in anchors;
      var i :| 0 <= i < |anchors| && anchors[i] == m[0];
    }
    if SomeMatch(anchors, n) {
      var i :| 0 <= i < |anchors| && LabelIndex(anchors[i]) == n;
      assert anchors[i] in m;
    }
  }

  /** More than one match exactly when two positions match. */
  lemma {:induction false} MatchingTwo(anchors: seq<ReportValueCell>, n: int)
    requires Numeric(anchors)
    ensures |Matching(anchors, n)| >= 2 <==> TwoMatches(anchors, n)
    decreases |anchors|
  {
    if anchors != [] {
      var k := |anchors| - 1;
      var pre, last := anchors[..k], anchors[k];
      assert anchors == pre + [last];
      TwoMatchesSnoc(pre, last, n);
      MatchingTwo(pre, n);
      MatchingEmpty(pre, n);
    }
  }

  /** Exactly one match: some position matches and no two do. */
  lemma UniqueMatchIff(anchors: seq<ReportValueCell>, n: int)
    requires Numeric(anchors)
    ensures UniqueMatch(anchors, n) <==> SomeMatch(anchors, n) && !TwoMatches(anchors, n)
  {
    if SomeMatch(anchors, n) && !TwoMatches(anchors, n) {
      var i :| 0 <= i < |anchors| && LabelIndex(anchors[i]) == n;
      forall j | 0 <= j < |anchors| && j != i ensures LabelIndex(anchors[j]) != n {
        var p, q := if j < i then j else i, if j < i then i else j;
        assert !(0 <= p < q < |anchors| && LabelIndex(anchors[p]) == n && LabelIndex(anchors[q]) == n);
      }
    }
  }

  /**
   * `Single`: the one anchor whose label reads `n`. It fails when no anchor
   * matches and when a second one does.
   */
  function Single(anchors: seq<ReportValueCell>, axis: Axis, n: int): (r: Result<ReportValueCell>)
    requires Numeric(anchors)
    ensures r.Ok? <==> UniqueMatch(anchors, n)
    ensures r.Ok? ==> IsAnchorFor(anchors, n, r.value)
    ensures r.Ok? ==> forall a :: IsAnchorFor(anchors, n, a) ==> a == r.value
    ensures r == Err(NoMatchingAnchor(axis, n)) <==> forall a :: a in anchors ==> LabelIndex(a) != n
    ensures r == Err(MoreThanOneAnchor(axis, n)) <==> TwoMatches(anchors, n)
  {
    var m := Matching(anchors, n);
    MatchingTwo(anchors, n);
    MatchingEmpty(anchors, n);
    UniqueMatchIff(anchors, n);
    if |m| == 0 then
      Err(NoMatchingAnchor(axis, n))
    else if |m| > 1 then
      Err(MoreThanOneAnchor(axis, n))
    else
      assert m[0] in anchors;
      Ok(m[0])
  }

  // ---------------------------------------------------------------------
  // The target cell
  // ---------------------------------------------------------------------

  /**
   * Where the value for a row anchor and a column anchor goes. A row anchor
   * strictly below and right of the column anchor (row labels on the right of
   * the data) takes the row anchor's row and the column anchor's column;
   * otherwise each coordinate is the larger of the two.
   */
  function Target(rowAnchor: ReportValueCell, columnAnchor: ReportValueCell): (p: Position)
    ensures p.row == Max(rowAnchor.row, columnAnchor.row)
    ensures p.row == rowAnchor.row || p.row == columnAnchor.row
    ensures p.column == rowAnchor.column || p.column == columnAnchor.column
    ensures rowAnchor.row > columnAnchor.row ==> p == Position(rowAnchor.row, columnAnchor.column)
    ensures rowAnchor.row <= columnAnchor.row
        ==> p == Position(columnAnchor.row, Max(rowAnchor.column, columnAnchor.column))
  {
    if rowAnchor.row > columnAnchor.row && rowAnchor.column > columnAnchor.column then
      Position(rowAnchor.row, columnAnchor.column)
    else
      Position(Max(rowAnchor.row, columnAnchor.row), Max(rowAnchor.column, columnAnchor.column))
  }

  /**
   * Below the column labels, the row anchor's own column does not matter: the
   * canonical layout (row labels left) and the mirrored one (row labels right)
   * give the same cell.
   */
  lemma TargetIgnoresRowLabelColumn(rowAnchor: ReportValueCell, columnAnchor: ReportValueCell, column: int)
    requires rowAnchor.row > columnAnchor.row
    ensures Target(rowAnchor.(column := column), columnAnchor) == Target(rowAnchor, columnAnchor)
    ensures Target(rowAnchor, columnAnchor) == Position(rowAnchor.row, columnAnchor.column)
  {
  }

  // ---------------------------------------------------------------------
  // One report item
  // ---------------------------------------------------------------------

  /**
   * `targetRows.Single(...)` (on `ByRow`) and `targetColumns.Single(...)` (on
   * `ByColumn`): the anchor of that axis whose label reads `n`.
   */
  function Lookup(labels: seq<ReportValueCell>, axis: Axis, n: int): Result<ReportValueCell>
    requires Numeric(labels)
  {
    AnchorsAreLabels(labels, axis);
    Single(Anchors(labels, axis), axis, n)
  }

  /** In anchors with distinct coordinates, the only one whose label reads `n` is the one `Single` returns. */
  lemma SingleFinds(anchors: seq<ReportValueCell>, axis: Axis, n: int, a: ReportValueCell)
    requires Numeric(anchors) && DistinctKeys(anchors, axis)
    requires a in anchors && LabelIndex(a) == n
    requires forall b :: b in anchors && LabelIndex(b) == n ==> b == a
    ensures Single(anchors, axis, n) == Ok(a)
  {
    var i :| 0 <= i < |anchors| && anchors[i] == a;
    assert SomeMatch(anchors, n);
    forall p, q | 0 <= p < q < |anchors| && LabelIndex(anchors[p]) == n
      ensures LabelIndex(anchors[q]) != n
    {
      assert Key(anchors[p], axis) != Key(anchors[q], axis);
    }
    UniqueMatchIff(anchors, n);
  }

  /** The only anchor whose label reads `n` is the one the lookup returns. */
  lemma LookupFinds(labels: seq<ReportValueCell>, axis: Axis, n: int, a: ReportValueCell)
    requires Numeric(labels)
    requires a in Anchors(labels, axis) && IsDigits(a.value) && LabelIndex(a) == n
    requires forall b :: b in Anchors(labels, axis) && IsDigits(b.value) && LabelIndex(b) == n ==> b == a
    ensures Lookup(labels, axis, n) == Ok(a)
  {
    AnchorsAreLabels(labels, axis);
    AnchorsDistinct(labels, axis);
    SingleFinds(Anchors(labels, axis), axis, n, a);
  }

  /** When no anchor's label reads `n`, the lookup throws for a missing match. */
  lemma LookupMisses(labels: seq<ReportValueCell>, axis: Axis, n: int)
    requires Numeric(labels)
    requires forall b :: b in Anchors(labels, axis) && IsDigits(b.value) ==> LabelIndex(b) != n
    ensures Lookup(labels, axis, n) == Err(NoMatchingAnchor(axis, n))
  {
    AnchorsAreLabels(labels, axis);
  }

  /** When two different anchors' labels read `n`, the lookup throws for the ambiguity. */
  lemma LookupDoubled(labels: seq<ReportValueCell>, axis: Axis, n: int, a: ReportValueCell, b: ReportValueCell)
    requires Numeric(labels)
    requires a in Anchors(labels, axis) && IsDigits(a.value) && LabelIndex(a) == n
    requires b in Anchors(labels, axis) && IsDigits(b.value) && LabelIndex(b) == n
    requires a != b
    ensures Lookup(labels, axis, n) == Err(MoreThanOneAnchor(axis, n))
  {
    AnchorsAreLabels(labels, axis);
    var s := Anchors(labels, axis);
    var i :| 0 <= i < |s| && s[i] == a;
    var j :| 0 <= j < |s| && s[j] == b;
    var p, q := if i < j then i else j, if i < j then j else i;
    assert 0 <= p < q < |s| && LabelIndex(s[p]) == n && LabelIndex(s[q]) == n;
  }

  /** The written cell for `item`: its target and its formatted value. */
  function Resolve(labels: seq<ReportValueCell>, item: XmlReportItem): Result<ReportValueCell>
    requires Numeric(labels)
  {
    var rowAnchor :- Lookup(labels, ByRow, item.row);
    var columnAnchor :- Lookup(labels, ByColumn, item.column);
    var p := Target(rowAnchor, columnAnchor);
    Ok(ReportValueCell(p.row, p.column, FormatValue(item.value)))
  }

  /**
   * An item resolves exactly when one row anchor reads its row index and one
   * column anchor reads its column index; the row lookup comes first, so a
   * missing or doubled row label is the error reported whatever the columns.
   * A resolved item is written, formatted, at the target of those two anchors.
   */
  lemma ResolveSpec(labels: seq<ReportValueCell>, item: XmlReportItem)
    requires Numeric(labels)
    ensures var r := Resolve(labels, item);
      && (r.Ok? <==> UniqueMatch(RowAnchors(labels), item.row) && UniqueMatch(ColumnAnchors(labels), item.column))
      && (!UniqueMatch(RowAnchors(labels), item.row) ==> r.Err? && r.error.axis == ByRow)
      && (r.Ok? ==> r.value.value == FormatValue(item.value))
      && (r.Ok? ==> exists ra, ca ::
            && IsAnchorFor(RowAnchors(labels), item.row, ra)
            && IsAnchorFor(ColumnAnchors(labels), item.column, ca)
            && At(r.value) == Target(ra, ca))
  {
    AnchorsAreLabels(labels, ByRow);
    AnchorsAreLabels(labels, ByColumn);
    var r := Resolve(labels, item);
    var ra := Single(RowAnchors(labels), ByRow, item.row);
    if ra.Ok? {
      var ca := Single(ColumnAnchors(labels), ByColumn, item.column);
      if ca.Ok? {
        assert At(r.value) == Target(ra.value, ca.value);
      }
    }
  }

  /** When the row lookup throws, the item fails with that lookup's error. */
  lemma ResolveRowFails(labels: seq<ReportValueCell>, item: XmlReportItem)
    requires Numeric(labels)
    requires Lookup(labels, ByRow, item.row).Err?
    ensures Resolve(labels, item) == Err(Lookup(labels, ByRow, item.row).error)
  {
  }

  /** When the row lookup succeeds and the column lookup throws, the item fails with the latter's error. */
  lemma ResolveColumnFails(labels: seq<ReportValueCell>, item: XmlReportItem)
    requires Numeric(labels)
    requires Lookup(labels, ByRow, item.row).Ok?
    requires Lookup(labels, ByColumn, item.column).Err?
    ensures Resolve(labels, item) == Err(Lookup(labels, ByColumn, item.column).error)
  {
  }

  /** When both lookups succeed, the item is written at their target with its formatted value. */
  lemma ResolveWrites(labels: seq<ReportValueCell>, item: XmlReportItem, ra: ReportValueCell, ca: ReportValueCell)
    requires Numeric(labels)
    requires Lookup(labels, ByRow, item.row) == Ok(ra)
    requires Lookup(labels, ByColumn, item.column) == Ok(ca)
    ensures Resolve(labels, item)
         == Ok(ReportValueCell(Target(ra, ca).row, Target(ra, ca).column, FormatValue(item.value)))
  {
  }

  // ---------------------------------------------------------------------
  // The merge loop over all items
  // ---------------------------------------------------------------------

  /** Each item's resolution, in item order. */
  function ResolveAll(labels: seq<ReportValueCell>, items: seq<XmlReportItem>): seq<Result<ReportValueCell>>
    requires Numeric(labels)
  {
    seq(|items|, i requires 0 <= i < |items| => Resolve(labels, items[i]))
  }

  /** What the loop did: the cells it wrote, in order, and the error it stopped on, if any. */
  datatype MergeTrace = MergeTrace(written: seq<ReportValueCell>, failure: Option<ResolveError>)

  /** The loop's step for one more item, given what the earlier items did. */
  function Step(prev: MergeTrace, result: Result<ReportValueCell>): MergeTrace {
    if prev.failure.Some? then prev
    else
      match result
      case Err(e) => MergeTrace(prev.written, Some(e))
      case Ok(cell) => MergeTrace(prev.written + [cell], None)
  }

  /**
   * The `foreach` over the report items, given each item's resolution: the
   * cells are written in turn, and the first item that does not resolve
   * throws, which ends the loop.
   */
  function Trace(results: seq<Result<ReportValueCell>>): MergeTrace {
    if results == [] then MergeTrace([], None)
    else Step(Trace(results[..|results| - 1]), results[|results| - 1])
  }

  /**
   * What the loop writes: the cells of a prefix of the items, in item order;
   * all of them when nothing fails, and otherwise everything before the first
   * item that fails, whose error is the one reported.
   */
  predicate TraceOf(results: seq<Result<ReportValueCell>>, t: MergeTrace) {
    && |t.written| <= |results|
    && (forall i :: 0 <= i < |t.written| ==> results[i] == Ok(t.written[i]))
    && (t.failure.None? ==> |t.written| == |results|)
    && (t.failure.Some? ==> |t.written| < |results| && results[|t.written|] == Err(t.failure.value))
  }

  lemma {:induction false} TraceSpec(results: seq<Result<ReportValueCell>>)
    ensures TraceOf(results, Trace(results))
    decreases |results|
  {
    if results != [] {
      var n := |results| - 1;
      var pre := results[..n];
      TraceSpec(pre);
      var prev, t := Trace(pre), Trace(results);
      assert t == Step(prev, results[n]);
      assert forall i :: 0 <= i < n ==> results[i] == pre[i];
      if prev.failure.None? && results[n].Ok? {
        assert t.written == prev.written + [results[n].value];
      }
    }
  }

  /** One more item that resolves, after a prefix that did not fail: its cell is appended. */
  lemma TraceGrows(results: seq<Result<ReportValueCell>>, i: nat)
    requires i < |results| && results[i].Ok?
    requires Trace(results[..i]).failure.None?
    ensures Trace(results[..i + 1]) == MergeTrace(Trace(results[..i]).written + [results[i].value], None)
  {
    assert results[..i + 1][..i] == results[..i];
  }

  /** One more item that fails, after a prefix that did not: the loop ends with its error. */
  lemma TraceFailsAt(results: seq<Result<ReportValueCell>>, i: nat)
    requires i < |results| && results[i].Err?
    requires Trace(results[..i]).failure.None?
    ensures Trace(results) == MergeTrace(Trace(results[..i]).written, Some(results[i].error))
  {
    assert results[..i + 1][..i] == results[..i];
    TraceStops(results, i + 1);
  }

  /** The merge completes exactly when every item resolves. */
  lemma TraceCompletes(results: seq<Result<ReportValueCell>>)
    ensures Trace(results).failure.None? <==> forall i :: 0 <= i < |results| ==> results[i].Ok?
  {
    var t := Trace(results);
    TraceSpec(results);
    if t.failure.Some? {
      assert !results[|t.written|].Ok?;
    }
  }

  /** When every item resolves, the loop writes every item's cell, in item order, and completes. */
  lemma TraceAllOk(results: seq<Result<ReportValueCell>>, cells: seq<ReportValueCell>)
    requires |results| == |cells|
    requires forall i :: 0 <= i < |results| ==> results[i] == Ok(cells[i])
    ensures Trace(results) == MergeTrace(cells, None)
  {
    TraceSpec(results);
    TraceCompletes(results);
    var t := Trace(results);
    assert t.written == cells;
  }

  /** Once an item fails, later items change nothing: the trace of the prefix is the trace. */
  lemma {:induction false} TraceStops(results: seq<Result<ReportValueCell>>, k: nat)
    requires k <= |results|
    requires Trace(results[..k]).failure.Some?
    ensures Trace(results) == Trace(results[..k])
    decreases |results| - k
  {
    if k < |results| {
      var n := |results| - 1;
      assert results[..n][..k] == results[..k];
      TraceStops(results[..n], k);
    } else {
      assert results[..k] == results;
    }
  }

  /**
   * If item `k` is the first that does not resolve, the loop writes exactly
   * the cells of the items before it and reports its error.
   */
  lemma FirstFailure(results: seq<Result<ReportValueCell>>, k: nat)
    requires k < |results| && results[k].Err?
    requires forall i :: 0 <= i < k ==> results[i].Ok?
    ensures Trace(results).failure == Some(results[k].error)
    ensures Trace(results).written == seq(k, i requires 0 <= i < k => results[i].value)
  {
    TraceSpec(results);
  }

  // ---------------------------------------------------------------------
  // Writing into the grid
  // ---------------------------------------------------------------------

  /** The worksheet's cell values by address. */
  type Grid = map<Position, string>

  function At(cell: ReportValueCell): Position {
    Position(cell.row, cell.column)
  }

  /** The grid after writing `written` in order, each write replacing the cell's value. */
  function ApplyWrites(grid: Grid, written: seq<ReportValueCell>): Grid {
    if written == [] then grid
    else
      var last := written[|written| - 1];
      ApplyWrites(grid, written[..|written| - 1])[At(last) := last.value]
  }

  /** Writing one more cell replaces that one address's value. */
  lemma ApplyWritesSnoc(grid: Grid, written: seq<ReportValueCell>, cell: ReportValueCell)
    ensures ApplyWrites(grid, written + [cell]) == ApplyWrites(grid, written)[At(cell) := cell.value]
  {
    assert (written + [cell])[..|written|] == written;
  }

  /** The writes touch exactly their own addresses: the grid gains those and keeps the rest. */
  lemma {:induction false} ApplyWritesKeys(grid: Grid, written: seq<ReportValueCell>)
    ensures ApplyWrites(grid, written).Keys == grid.Keys + set w | w in written :: At(w)
    decreases |written|
  {
    if written != [] {
      var pre, last := written[..|written| - 1], written[|written| - 1];
      ApplyWritesKeys(grid, pre);
      assert written == pre + [last];
      assert (set w | w in written :: At(w)) == (set w | w in pre :: At(w)) + {At(last)};
    }
  }

  /** A cell no write addresses keeps its value. */
  lemma {:induction false} ApplyWritesElsewhere(grid: Grid, written: seq<ReportValueCell>, p: Position)
    requires forall i :: 0 <= i < |written| ==> At(written[i]) != p
    ensures p in ApplyWrites(grid, written) <==> p in grid
    ensures p in grid ==> ApplyWrites(grid, written)[p] == grid[p]
    decreases |written|
  {
    if written != [] {
      ApplyWritesElsewhere(grid, written[..|written| - 1], p);
    }
  }

  /** The last write to an address decides its value: later items overwrite earlier ones. */
  lemma {:induction false} ApplyWritesLastWins(grid: Grid, written: seq<ReportValueCell>, k: nat)
    requires k < |written|
    requires forall j :: k < j < |written| ==> At(written[j]) != At(written[k])
    ensures At(written[k]) in ApplyWrites(grid, written)
    ensures ApplyWrites(grid, written)[At(written[k])] == written[k].value
    decreases |written|
  {
    var n := |written| - 1;
    if k < n {
      var pre := written[..n];
      ApplyWritesLastWins(grid, pre, k);
      assert pre[k] == written[k];
    }
  }

  /**
   * When every item up to `k` resolves, item `k`'s cell is in the grid after
   * the loop, holding item `k`'s text, unless a later resolved item writes the
   * same address; this holds whether or not a later item fails.
   */
  lemma TraceWritesItem(grid: Grid, results: seq<Result<ReportValueCell>>, k: nat)
    requires k < |results|
    requires forall i :: 0 <= i <= k ==> results[i].Ok?
    requires forall j :: k < j < |results| && results[j].Ok? ==> At(results[j].value) != At(results[k].value)
    ensures At(results[k].value) in ApplyWrites(grid, Trace(results).written)
    ensures ApplyWrites(grid, Trace(results).written)[At(results[k].value)] == results[k].value.value
  {
    TraceSpec(results);
    var w := Trace(results).written;
    assert results[k] == Ok(w[k]);
    forall j | k < j < |w|
      ensures At(w[j]) != At(w[k])
    {
      assert results[j] == Ok(w[j]);
    }
    ApplyWritesLastWins(grid, w, k);
  }

  /** An address no resolved item targets keeps what it had before the loop. */
  lemma TraceLeavesOthers(grid: Grid, results: seq<Result<ReportValueCell>>, p: Position)
    requires forall j :: 0 <= j < |results| && results[j].Ok? ==> At(results[j].value) != p
    ensures p in ApplyWrites(grid, Trace(results).written) <==> p in grid
    ensures p in grid ==> ApplyWrites(grid, Trace(results).written)[p] == grid[p]
  {
    TraceSpec(results);
    var w := Trace(results).written;
    forall i | 0 <= i < |w|
      ensures At(w[i]) != p
    {
      assert results[i] == Ok(w[i]);
    }
    ApplyWritesElsewhere(grid, w, p);
  }
}
