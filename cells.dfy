/**
 * Label cells and their classification into row anchors and column anchors.
 *
 * The merger groups the label cells by physical row (and, independently, by
 * physical column) with LINQ `GroupBy`, keeps the groups of exactly one cell
 * with `Where`, and flattens them again with `SelectMany`. This module models
 * that pipeline as written and proves it equal to a plain filter: the cells
 * that no other label cell shares a row (or a column) with, in input order.
 */
module Cells {
  import opened Decimal

  /** A sheet cell with its 1-based physical position and its text. */
  datatype ReportValueCell = ReportValueCell(row: int, column: int, value: string)

  /** Which coordinate the cells are grouped on. */
  datatype Axis = ByRow | ByColumn

  function Key(c: ReportValueCell, axis: Axis): int {
    match axis
    case ByRow => c.row
    case ByColumn => c.column
  }

  /** Every label text is a decimal digit string, as the label scanner supplies them. */
  predicate Numeric(cells: seq<ReportValueCell>) {
    forall c :: c in cells ==> IsDigits(c.value)
  }

  /** `int.Parse(cell.Value)` on a digit-string label. */
  function LabelIndex(c: ReportValueCell): nat
    requires IsDigits(c.value)
  {
    ParseDigits(c.value)
  }

  // ---------------------------------------------------------------------
  // The LINQ pipeline as written:
  //   cells.GroupBy(key).Where(g => g.Count() == 1).SelectMany(g => g.ToArray())
  // ---------------------------------------------------------------------

  /** One group of `GroupBy`: a key and the cells carrying it, in input order. */
  datatype Grouping = Grouping(key: int, elements: seq<ReportValueCell>)

  /** The keys of `GroupBy`: each key once, in the order of its first occurrence. */
  function GroupKeys(cells: seq<ReportValueCell>, axis: Axis): seq<int> {
    if cells == [] then []
    else
      var keys := GroupKeys(cells[..|cells| - 1], axis);
      var k := Key(cells[|cells| - 1], axis);
      if k in keys then keys else keys + [k]
  }

  /** The cells whose key is `k`, in input order. */
  function WithKey(cells: seq<ReportValueCell>, axis: Axis, k: int): (r: seq<ReportValueCell>)
    ensures forall x :: x in r <==> x in cells && Key(x, axis) == k
  {
    if cells == [] then []
    else
      var last := cells[|cells| - 1];
      WithKey(cells[..|cells| - 1], axis, k) + (if Key(last, axis) == k then [last] else [])
  }

  /** `GroupBy`: one grouping per distinct key, ordered by first occurrence. */
  function GroupBy(cells: seq<ReportValueCell>, axis: Axis): seq<Grouping> {
    var keys := GroupKeys(cells, axis);
    seq(|keys|, i requires 0 <= i < |keys| => Grouping(keys[i], WithKey(cells, axis, keys[i])))
  }

  /** `Where(g => g.Count() == 1)`: exactly the groups of one, in order. */
  function WhereSingle(groups: seq<Grouping>): (r: seq<Grouping>)
    ensures forall g :: g in r <==> g in groups && |g.elements| == 1
  {
    if groups == [] then []
    else
      var last := groups[|groups| - 1];
      assert groups == groups[..|groups| - 1] + [last];
      WhereSingle(groups[..|groups| - 1]) + (if |last.elements| == 1 then [last] else [])
  }

  /** `SelectMany(g => g.ToArray())`. */
  function SelectMany(groups: seq<Grouping>): seq<ReportValueCell> {
    if groups == [] then []
    else SelectMany(groups[..|groups| - 1]) + groups[|groups| - 1].elements
  }

  /** The anchors on one axis, computed as the merger computes them. */
  function Anchors(cells: seq<ReportValueCell>, axis: Axis): seq<ReportValueCell> {
    SelectMany(WhereSingle(GroupBy(cells, axis)))
  }

  /** `targetRows`: the label cells alone on their physical row. */
  function RowAnchors(cells: seq<ReportValueCell>): seq<ReportValueCell> {
    Anchors(cells, ByRow)
  }

  /** `targetColumns`: the label cells alone on their physical column. */
  function ColumnAnchors(cells: seq<ReportValueCell>): seq<ReportValueCell> {
    Anchors(cells, ByColumn)
  }

  // ---------------------------------------------------------------------
  // The reference definition: a filter on "alone on its row / column".
  // ---------------------------------------------------------------------

  /** `c`'s key occurs exactly once among `full`. */
  predicate AloneIn(full: seq<ReportValueCell>, axis: Axis, c: ReportValueCell) {
    |WithKey(full, axis, Key(c, axis))| == 1
  }

  /** The cells of `s` that are alone in `full`, in the order of `s`. */
  function KeepAlone(full: seq<ReportValueCell>, s: seq<ReportValueCell>, axis: Axis): (r: seq<ReportValueCell>)
    ensures forall x :: x in r <==> x in s && AloneIn(full, axis, x)
  {
    if s == [] then []
    else
      var last := s[|s| - 1];
      KeepAlone(full, s[..|s| - 1], axis) + (if AloneIn(full, axis, last) then [last] else [])
  }

  /** No two cells of `s` share their coordinate on `axis`. */
  predicate DistinctKeys(s: seq<ReportValueCell>, axis: Axis) {
    forall p, q :: 0 <= p < q < |s| ==> Key(s[p], axis) != Key(s[q], axis)
  }

  /** The cells of `s` whose key is not `k`. */
  function DropKey(s: seq<ReportValueCell>, axis: Axis, k: int): seq<ReportValueCell> {
    if s == [] then []
    else
      var last := s[|s| - 1];
      DropKey(s[..|s| - 1], axis, k) + (if Key(last, axis) == k then [] else [last])
  }

  /** The groups of `groups` whose key is not `k`. */
  function DropGroup(groups: seq<Grouping>, k: int): seq<Grouping> {
    if groups == [] then []
    else
      var last := groups[|groups| - 1];
      DropGroup(groups[..|groups| - 1], k) + (if last.key == k then [] else [last])
  }

  // ---------------------------------------------------------------------
  // Lemmas connecting the two.
  // ---------------------------------------------------------------------

  /** A key is a group key exactly when some cell carries it. */
  lemma {:induction false} GroupKeysMember(cells: seq<ReportValueCell>, axis: Axis, k: int)
    ensures k in GroupKeys(cells, axis) <==> |WithKey(cells, axis, k)| > 0
  {
    if cells != [] {
      var pre, last := cells[..|cells| - 1], cells[|cells| - 1];
      GroupKeysMember(pre, axis, k);
    }
  }

  /** Appending one cell to the input adds it to its own key's group, and to no other. */
  lemma WithKeySnoc(cells: seq<ReportValueCell>, c: ReportValueCell, axis: Axis, k: int)
    ensures WithKey(cells + [c], axis, k)
         == WithKey(cells, axis, k) + (if Key(c, axis) == k then [c] else [])
  {
    assert (cells + [c])[..|cells|] == cells;
  }

  lemma {:induction false} DropKeyAppend(a: seq<ReportValueCell>, b: seq<ReportValueCell>, axis: Axis, k: int)
    ensures DropKey(a + b, axis, k) == DropKey(a, axis, k) + DropKey(b, axis, k)
    decreases |b|
  {
    if b == [] {
      assert a + b == a;
    } else {
      assert (a + b)[..|a + b| - 1] == a + b[..|b| - 1];
      DropKeyAppend(a, b[..|b| - 1], axis, k);
    }
  }

  /** Dropping the key `k` removes a group of key `k` entirely and keeps any other. */
  lemma {:induction false} DropKeyOfGroup(s: seq<ReportValueCell>, axis: Axis, key: int, k: int)
    requires forall x :: x in s ==> Key(x, axis) == key
    ensures DropKey(s, axis, k) == if key == k then [] else s
    decreases |s|
  {
    if s != [] {
      assert s[..|s| - 1] + [s[|s| - 1]] == s;
      DropKeyOfGroup(s[..|s| - 1], axis, key, k);
    }
  }

  /** Flattening after dropping the groups of key `k` is dropping the cells of key `k` after flattening. */
  lemma {:induction false} SelectManyDropGroup(groups: seq<Grouping>, axis: Axis, k: int)
    requires forall g, x :: g in groups && x in g.elements ==> Key(x, axis) == g.key
    ensures SelectMany(DropGroup(groups, k)) == DropKey(SelectMany(groups), axis, k)
    decreases |groups|
  {
    if groups != [] {
      var pre, last := groups[..|groups| - 1], groups[|groups| - 1];
      SelectManyDropGroup(pre, axis, k);
      DropKeyAppend(SelectMany(pre), last.elements, axis, k);
      DropKeyOfGroup(last.elements, axis, last.key, k);
      if last.key == k {
        assert DropGroup(groups, k) == DropGroup(pre, k);
      } else {
        assert DropGroup(groups, k) == DropGroup(pre, k) + [last];
        assert (DropGroup(pre, k) + [last])[..|DropGroup(pre, k)|] == DropGroup(pre, k);
      }
    }
  }

  /**
   * When the group of key `k` grows past one cell and the others stay as they
   * were, the single-cell groups lose that group and nothing else.
   */
  lemma {:induction false} WhereSingleGrow(groups: seq<Grouping>, grown: seq<Grouping>, k: int)
    requires |grown| == |groups|
    requires forall i :: 0 <= i < |groups| ==> grown[i].key == groups[i].key
    requires forall i :: 0 <= i < |groups| && groups[i].key != k ==> grown[i] == groups[i]
    requires forall i :: 0 <= i < |groups| && groups[i].key == k ==> |grown[i].elements| >= 2
    ensures WhereSingle(grown) == DropGroup(WhereSingle(groups), k)
    decreases |groups|
  {
    if groups != [] {
      var n := |groups| - 1;
      WhereSingleGrow(groups[..n], grown[..n], k);
      var sw := WhereSingle(groups[..n]);
      if |groups[n].elements| == 1 {
        assert WhereSingle(groups) == sw + [groups[n]];
        assert (sw + [groups[n]])[..|sw|] == sw;
      } else {
        assert WhereSingle(groups) == sw;
      }
    }
  }

  /** Whether a cell of `s` is kept depends only on whether it is alone. */
  lemma {:induction false} KeepAloneCongruent(f: seq<ReportValueCell>, g: seq<ReportValueCell>, s: seq<ReportValueCell>, axis: Axis)
    requires forall x :: x in s ==> (AloneIn(f, axis, x) <==> AloneIn(g, axis, x))
    ensures KeepAlone(f, s, axis) == KeepAlone(g, s, axis)
    decreases |s|
  {
    if s != [] {
      KeepAloneCongruent(f, g, s[..|s| - 1], axis);
    }
  }

  /** If the cells of key `k` stop being alone and the others keep their status, the kept cells lose key `k`. */
  lemma {:induction false} KeepAloneGrow(f: seq<ReportValueCell>, g: seq<ReportValueCell>, s: seq<ReportValueCell>, axis: Axis, k: int)
    requires forall x :: x in s && Key(x, axis) != k ==> (AloneIn(f, axis, x) <==> AloneIn(g, axis, x))
    requires forall x :: x in s && Key(x, axis) == k ==> !AloneIn(g, axis, x)
    ensures KeepAlone(g, s, axis) == DropKey(KeepAlone(f, s, axis), axis, k)
    decreases |s|
  {
    if s != [] {
      var pre, last := s[..|s| - 1], s[|s| - 1];
      KeepAloneGrow(f, g, pre, axis, k);
      var kept := if AloneIn(f, axis, last) then [last] else [];
      DropKeyAppend(KeepAlone(f, pre, axis), kept, axis, k);
      if AloneIn(f, axis, last) {
        assert [last][..0] == [];
      }
    }
  }

  /** Appending a cell with a key not seen before adds one group, holding only that cell. */
  lemma GroupBySnocNewKey(pre: seq<ReportValueCell>, c: ReportValueCell, axis: Axis)
    requires Key(c, axis) !in GroupKeys(pre, axis)
    ensures GroupBy(pre + [c], axis) == GroupBy(pre, axis) + [Grouping(Key(c, axis), [c])]
  {
    var cells, k := pre + [c], Key(c, axis);
    assert cells[..|cells| - 1] == pre;
    var keys := GroupKeys(pre, axis);
    assert GroupKeys(cells, axis) == keys + [k];
    var lhs, rhs := GroupBy(cells, axis), GroupBy(pre, axis) + [Grouping(k, [c])];
    forall i | 0 <= i < |lhs| ensures lhs[i] == rhs[i] {
      GroupBySnocAt(pre, c, axis, i);
    }
  }

  /** The `i`-th group after appending a cell with a new key. */
  lemma GroupBySnocAt(pre: seq<ReportValueCell>, c: ReportValueCell, axis: Axis, i: nat)
    requires Key(c, axis) !in GroupKeys(pre, axis)
    requires GroupKeys(pre + [c], axis) == GroupKeys(pre, axis) + [Key(c, axis)]
    requires i <= |GroupKeys(pre, axis)|
    ensures GroupBy(pre + [c], axis)[i] == (GroupBy(pre, axis) + [Grouping(Key(c, axis), [c])])[i]
  {
    var cells, k, keys := pre + [c], Key(c, axis), GroupKeys(pre, axis);
    WithKeySnoc(pre, c, axis, (keys + [k])[i]);
    if i == |keys| {
      GroupKeysMember(pre, axis, k);
      assert GroupBy(cells, axis)[i] == Grouping(k, WithKey(cells, axis, k));
    } else {
      assert (keys + [k])[i] == keys[i] && keys[i] != k;
      assert GroupBy(cells, axis)[i] == Grouping(keys[i], WithKey(cells, axis, keys[i]));
    }
  }

  lemma WhereSingleSnoc(groups: seq<Grouping>, g: Grouping)
    ensures WhereSingle(groups + [g]) == WhereSingle(groups) + (if |g.elements| == 1 then [g] else [])
  {
    assert (groups + [g])[..|groups|] == groups;
  }

  lemma SelectManySnoc(groups: seq<Grouping>, g: Grouping)
    ensures SelectMany(groups + [g]) == SelectMany(groups) + g.elements
  {
    assert (groups + [g])[..|groups|] == groups;
  }

  /** Appending a cell with a key not seen before appends it to the anchors. */
  lemma AnchorsSnocNewKey(pre: seq<ReportValueCell>, c: ReportValueCell, axis: Axis)
    requires Key(c, axis) !in GroupKeys(pre, axis)
    ensures Anchors(pre + [c], axis) == Anchors(pre, axis) + [c]
  {
    var g := Grouping(Key(c, axis), [c]);
    GroupBySnocNewKey(pre, c, axis);
    WhereSingleSnoc(GroupBy(pre, axis), g);
    SelectManySnoc(WhereSingle(GroupBy(pre, axis)), g);
  }

  /** Appending a cell with a key seen before removes that key's cells from the anchors. */
  lemma AnchorsSnocOldKey(pre: seq<ReportValueCell>, c: ReportValueCell, axis: Axis)
    requires Key(c, axis) in GroupKeys(pre, axis)
    ensures Anchors(pre + [c], axis) == DropKey(Anchors(pre, axis), axis, Key(c, axis))
  {
    var cells, k := pre + [c], Key(c, axis);
    assert cells[..|cells| - 1] == pre;
    var groups, groups' := GroupBy(pre, axis), GroupBy(cells, axis);
    forall k' ensures WithKey(cells, axis, k') == WithKey(pre, axis, k') + (if k == k' then [c] else []) {
      WithKeySnoc(pre, c, axis, k');
    }
    GroupKeysMember(pre, axis, k);
    assert GroupKeys(cells, axis) == GroupKeys(pre, axis);
    WhereSingleGrow(groups, groups', k);
    SelectManyDropGroup(WhereSingle(groups), axis, k);
  }

  /** The reference filter under the same two kinds of step. */
  lemma KeepAloneSnoc(pre: seq<ReportValueCell>, c: ReportValueCell, axis: Axis)
    ensures Key(c, axis) !in GroupKeys(pre, axis) ==>
      KeepAlone(pre + [c], pre + [c], axis) == KeepAlone(pre, pre, axis) + [c]
    ensures Key(c, axis) in GroupKeys(pre, axis) ==>
      KeepAlone(pre + [c], pre + [c], axis) == DropKey(KeepAlone(pre, pre, axis), axis, Key(c, axis))
  {
    var cells, k := pre + [c], Key(c, axis);
    assert cells[..|cells| - 1] == pre;
    forall k' ensures WithKey(cells, axis, k') == WithKey(pre, axis, k') + (if k == k' then [c] else []) {
      WithKeySnoc(pre, c, axis, k');
    }
    GroupKeysMember(pre, axis, k);
    if k !in GroupKeys(pre, axis) {
      forall x | x in pre ensures AloneIn(pre, axis, x) <==> AloneIn(cells, axis, x) {
        GroupKeysMember(pre, axis, Key(x, axis));
      }
      KeepAloneCongruent(pre, cells, pre, axis);
    } else {
      KeepAloneGrow(pre, cells, pre, axis, k);
    }
  }

  /** The LINQ pipeline keeps exactly the cells alone on their row (or column), in input order. */
  lemma {:induction false} AnchorsKeepAlone(cells: seq<ReportValueCell>, axis: Axis)
    ensures Anchors(cells, axis) == KeepAlone(cells, cells, axis)
    decreases |cells|
  {
    if cells != [] {
      var pre, c := cells[..|cells| - 1], cells[|cells| - 1];
      assert cells == pre + [c];
      AnchorsKeepAlone(pre, axis);
      KeepAloneSnoc(pre, c, axis);
      if Key(c, axis) in GroupKeys(pre, axis) {
        AnchorsSnocOldKey(pre, c, axis);
      } else {
        AnchorsSnocNewKey(pre, c, axis);
      }
    }
  }

  /** `c`'s key occurs once in `cells` exactly when no other index carries it. */
  lemma {:induction false} AloneAtIndex(cells: seq<ReportValueCell>, axis: Axis, i: nat)
    requires i < |cells|
    ensures AloneIn(cells, axis, cells[i])
        <==> forall j :: 0 <= j < |cells| && j != i ==> Key(cells[j], axis) != Key(cells[i], axis)
    decreases |cells|
  {
    var n := |cells| - 1;
    var pre, c, k := cells[..n], cells[n], Key(cells[i], axis);
    assert cells == pre + [c];
    WithKeySnoc(pre, c, axis, k);
    if i == n {
      if |WithKey(pre, axis, k)| > 0 {
        var x := WithKey(pre, axis, k)[0];
        assert x in pre;
        var j :| 0 <= j < n && pre[j] == x;
        assert cells[j] == x;
      }
    } else {
      AloneAtIndex(pre, axis, i);
      assert cells[i] in WithKey(pre, axis, k);
    }
  }

  /**
   * A label cell is an anchor on an axis exactly when no other label cell of
   * the full list has the same coordinate on that axis.
   */
  lemma AnchorAtIndex(cells: seq<ReportValueCell>, axis: Axis, i: nat)
    requires i < |cells|
    ensures cells[i] in Anchors(cells, axis)
        <==> forall j :: 0 <= j < |cells| && j != i ==> Key(cells[j], axis) != Key(cells[i], axis)
  {
    AnchorsKeepAlone(cells, axis);
    AloneAtIndex(cells, axis, i);
  }

  /** Every anchor is one of the label cells. */
  lemma AnchorsAreLabels(cells: seq<ReportValueCell>, axis: Axis)
    ensures forall x :: x in Anchors(cells, axis) ==> x in cells
  {
    AnchorsKeepAlone(cells, axis);
  }

  /** No two anchors of one axis share their coordinate on that axis. */
  lemma {:induction false} KeepAloneDistinct(cells: seq<ReportValueCell>, axis: Axis, n: nat)
    requires n <= |cells|
    ensures DistinctKeys(KeepAlone(cells, cells[..n], axis), axis)
  {
    if n > 0 {
      var s := cells[..n];
      assert s[..n - 1] == cells[..n - 1];
      KeepAloneDistinct(cells, axis, n - 1);
      var r0 := KeepAlone(cells, cells[..n - 1], axis);
      if AloneIn(cells, axis, cells[n - 1]) {
        assert KeepAlone(cells, s, axis) == r0 + [cells[n - 1]];
        AloneAtIndex(cells, axis, n - 1);
        forall p | 0 <= p < |r0| ensures Key(r0[p], axis) != Key(cells[n - 1], axis) {
          assert r0[p] in cells[..n - 1];
          var j :| 0 <= j < n - 1 && cells[..n - 1][j] == r0[p];
          assert cells[j] == r0[p];
        }
        var r := r0 + [cells[n - 1]];
        assert DistinctKeys(r0, axis);
        forall p, q | 0 <= p < q < |r| ensures Key(r[p], axis) != Key(r[q], axis) {
          if q == |r0| {
            assert r[p] == r0[p] && r[q] == cells[n - 1];
          } else {
            assert r[p] == r0[p] && r[q] == r0[q];
          }
        }
      } else {
        assert KeepAlone(cells, s, axis) == r0;
      }
    }
  }

  lemma AnchorsDistinct(cells: seq<ReportValueCell>, axis: Axis)
    ensures DistinctKeys(Anchors(cells, axis), axis)
  {
    AnchorsKeepAlone(cells, axis);
    KeepAloneDistinct(cells, axis, |cells|);
    assert cells[..|cells|] == cells;
  }
}
