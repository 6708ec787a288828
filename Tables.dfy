/**
 * The last-column auto-expand listener of `Tables.setLastColumnAutoExpand`
 * (de.sebthom.eclipse.commons.ui.Tables): on every resize, the last column
 * of a table takes up whatever width the other columns leave free in the
 * client area, but never less than `minWidth`.
 *
 * Widths are mathematical integers; Java `int` overflow of the width sum is
 * not modelled. The table's client-area width is a parameter.
 */
module Tables {
  import opened Common

  /** A table column: its width and the control listeners registered on it. */
  class TableColumn {
    var width: int
    var controlListeners: multiset<object>

    constructor (width: int)
      ensures this.width == width && controlListeners == multiset{}
    {
      this.width := width;
      controlListeners := multiset{};
    }

    method AddControlListener(listener: object)
      modifies this
      ensures controlListeners == old(controlListeners) + multiset{listener}
      ensures width == old(width)
    {
      controlListeners := controlListeners + multiset{listener};
    }

    method SetWidth(w: int)
      modifies this
      ensures width == w
      ensures controlListeners == old(controlListeners)
    {
      width := w;
    }
  }

  function Sum(s: seq<int>): int
  {
    if s == [] then 0 else Sum(s[..|s| - 1]) + s[|s| - 1]
  }

  function Widths(cols: seq<TableColumn>): (ws: seq<int>)
    reads cols
    ensures |ws| == |cols|
    ensures forall i :: 0 <= i < |cols| ==> ws[i] == cols[i].width
  {
    seq(|cols|, i reads cols requires 0 <= i < |cols| => cols[i].width)
  }

  /** The total width of some columns. */
  function SumOfWidths(cols: seq<TableColumn>): int
    reads cols
  {
    if cols == [] then 0 else SumOfWidths(cols[..|cols| - 1]) + cols[|cols| - 1].width
  }

  lemma {:induction false} SumOfWidthsIsSum(cols: seq<TableColumn>)
    ensures SumOfWidths(cols) == Sum(Widths(cols))
  {
    if cols != [] {
      SumOfWidthsIsSum(cols[..|cols| - 1]);
      assert Widths(cols)[..|cols| - 1] == Widths(cols[..|cols| - 1]);
    }
  }

  function ColumnSet(cols: seq<TableColumn>): set<TableColumn>
  {
    set c | c in cols
  }

  /**
   * The width the last column gets: what the other columns leave of the
   * client area, but at least `minWidth`. With one column there are no
   * others, and the width is `max(minWidth, clientWidth)`.
   */
  function LastColumnWidth(minWidth: int, clientWidth: int, otherWidths: seq<int>): (w: int)
    ensures w >= minWidth
    ensures Sum(otherWidths) + w >= clientWidth
    ensures w == minWidth || Sum(otherWidths) + w == clientWidth
  {
    Max(minWidth, clientWidth - Sum(otherWidths))
  }

  /**
   * When the other columns leave at least `minWidth` free, the columns
   * fill the client area exactly; otherwise the last one is `minWidth` wide
   * and the columns overflow it.
   */
  lemma LastColumnFillsClientArea(minWidth: int, clientWidth: int, otherWidths: seq<int>)
    ensures clientWidth - Sum(otherWidths) >= minWidth ==>
      Sum(otherWidths + [LastColumnWidth(minWidth, clientWidth, otherWidths)]) == clientWidth
    ensures clientWidth - Sum(otherWidths) < minWidth ==>
      LastColumnWidth(minWidth, clientWidth, otherWidths) == minWidth &&
      Sum(otherWidths + [LastColumnWidth(minWidth, clientWidth, otherWidths)]) > clientWidth
  {
    var all := otherWidths + [LastColumnWidth(minWidth, clientWidth, otherWidths)];
    assert all[..|all| - 1] == otherWidths;
  }

  /** A listener list with `listener` added when `added` holds. */
  function WithListener(before: multiset<object>, listener: object, added: bool): multiset<object>
  {
    if added then before + multiset{listener} else before
  }

  /**
   * The registration invariant carries over: a column that had the
   * listener once exactly when it was monitored still does, whether or not
   * it has just become monitored.
   */
  lemma RegisteredOnce(before: multiset<object>, listener: object, wasMonitored: bool, isMonitored: bool)
    requires wasMonitored ==> isMonitored
    requires before[listener] == if wasMonitored then 1 else 0
    ensures WithListener(before, listener, isMonitored && !wasMonitored)[listener] == if isMonitored then 1 else 0
  {
  }

  /** The anonymous `ControlAdapter` that `setLastColumnAutoExpand` registers on the table. */
  class LastColumnAutoExpand {
    const minWidth: int
    var monitoredColumns: set<TableColumn>

    constructor (minWidth: int)
      ensures this.minWidth == minWidth && monitoredColumns == {}
    {
      this.minWidth := minWidth;
      monitoredColumns := {};
    }

    /**
     * `controlResized(event)` for a table whose columns are `cols` and
     * whose client area is `clientWidth` wide. Only the last column's width
     * changes; every other column is watched, and this listener is
     * registered on a column only when it is first watched, so a column
     * carries the listener once exactly when it is monitored.
     */
    method ControlResized(cols: seq<TableColumn>, clientWidth: int)
      modifies this, cols
      ensures |cols| <= 1 ==> monitoredColumns == old(monitoredColumns)
      ensures |cols| == 1 ==> cols[0].width == Max(minWidth, clientWidth)
      ensures |cols| >= 2 ==>
        && cols[|cols| - 1].width == LastColumnWidth(minWidth, clientWidth, old(Widths(cols[..|cols| - 1])))
        && monitoredColumns == old(monitoredColumns) + ColumnSet(cols[..|cols| - 1])
      ensures forall i :: 0 <= i < |cols| - 1 && cols[i] != cols[|cols| - 1] ==> cols[i].width == old(cols[i].width)
      ensures forall c :: c in cols ==>
        c.controlListeners == WithListener(old(c.controlListeners), this, c in monitoredColumns && c !in old(monitoredColumns))
      ensures forall c :: c in cols && old(c.controlListeners[this]) == (if c in old(monitoredColumns) then 1 else 0) ==>
        c.controlListeners[this] == if c in monitoredColumns then 1 else 0
    {
      if |cols| == 0 {
        return;
      }
      if |cols| == 1 {
        cols[0].SetWidth(Max(minWidth, clientWidth));
      } else {
        ResizeLast(cols, clientWidth);
      }
      forall c | c in cols && old(c.controlListeners[this]) == (if c in old(monitoredColumns) then 1 else 0)
        ensures c.controlListeners[this] == if c in monitoredColumns then 1 else 0
      {
        RegisteredOnce(old(c.controlListeners), this, c in old(monitoredColumns), c in monitoredColumns);
      }
    }

    /** `controlResized` for two or more columns. */
    method ResizeLast(cols: seq<TableColumn>, clientWidth: int)
      requires |cols| >= 2
      modifies this, cols
      ensures cols[|cols| - 1].width == LastColumnWidth(minWidth, clientWidth, old(Widths(cols[..|cols| - 1])))
      ensures monitoredColumns == old(monitoredColumns) + ColumnSet(cols[..|cols| - 1])
      ensures forall i :: 0 <= i < |cols| - 1 && cols[i] != cols[|cols| - 1] ==> cols[i].width == old(cols[i].width)
      ensures forall c :: c in cols ==>
        c.controlListeners == WithListener(old(c.controlListeners), this, c in monitoredColumns && c !in old(monitoredColumns))
    {
      var last := |cols| - 1;
      SumOfWidthsIsSum(cols[..last]);
      var totalWidthOfOtherColumns := WatchColumns(cols, last);
      cols[last].SetWidth(Max(minWidth, clientWidth - totalWidthOfOtherColumns));
    }

    /** One step of the loop: watch `col`, registering this listener on it unless it is watched already. */
    method Watch(col: TableColumn)
      modifies this, col
      ensures monitoredColumns == old(monitoredColumns) + {col}
      ensures col.width == old(col.width)
      ensures col.controlListeners == WithListener(old(col.controlListeners), this, col !in old(monitoredColumns))
    {
      if col !in monitoredColumns {
        col.AddControlListener(this);
        monitoredColumns := monitoredColumns + {col};
      }
    }

    /**
     * The loop of `controlResized` over the first `n` columns: it watches
     * each of them, registering this listener on those not yet watched,
     * and sums their widths.
     */
    method WatchColumns(cols: seq<TableColumn>, n: nat) returns (total: int)
      requires n <= |cols|
      modifies this, cols
      ensures total == old(SumOfWidths(cols[..n]))
      ensures monitoredColumns == old(monitoredColumns) + ColumnSet(cols[..n])
      ensures forall c :: c in cols ==> c.width == old(c.width)
      ensures forall c :: c in cols ==>
        c.controlListeners == WithListener(old(c.controlListeners), this, c in monitoredColumns && c !in old(monitoredColumns))
    {
      total := 0;
      for i := 0 to n
        invariant total == old(SumOfWidths(cols[..i]))
        invariant monitoredColumns == old(monitoredColumns) + ColumnSet(cols[..i])
        invariant forall c :: c in cols ==> c.width == old(c.width)
        invariant forall c :: c in cols ==>
          c.controlListeners == WithListener(old(c.controlListeners), this, c in monitoredColumns && c !in old(monitoredColumns))
      {
        var col := cols[i];
        assert cols[..i + 1][..i] == cols[..i];
        assert ColumnSet(cols[..i + 1]) == ColumnSet(cols[..i]) + {col};
        Watch(col);
        total := total + col.width;
      }
    }
  }
}
