// src/render/Instruction.cpp: rectangle translation, the per-block line and
// item bookkeeping of the renderer, and the height of a logical line.

module Instructions {
  import opened Geometry
  import opened Cells

  /** Instruction::updateRect: the rectangle moved by `offset`, its size kept. */
  function UpdateRect(rect: Rect, offset: Point): (r: Rect)
    ensures r.width == rect.width && r.height == rect.height
  {
    Rect(offset.x + rect.x, offset.y + rect.y, rect.width, rect.height)
  }

  /** Translations compose, the zero offset is the identity, and the opposite offset undoes one. */
  lemma {:induction false} UpdateRectComposes(rect: Rect, a: Point, b: Point)
    ensures UpdateRect(UpdateRect(rect, a), b) == UpdateRect(rect, Point(a.x + b.x, a.y + b.y))
    ensures UpdateRect(rect, Point(0, 0)) == rect
    ensures UpdateRect(UpdateRect(rect, a), Point(-a.x, -a.y)) == rect
  {
  }

  /**
   * A logical item: a cell with its begin-of-line and end-of-line flags (a
   * logical line wraps into visual rows; `eol` ends a row, `bol` starts one).
   */
  datatype LogicalItem = LogicalItem(cell: Cell, bol: bool, eol: bool)

  /** LogicalLine: its items and the height it reports while empty. */
  datatype LogicalLine = LogicalLine(items: seq<LogicalItem>, h: int)

  /** front(): the first item; the line must not be empty. */
  function Front(line: LogicalLine): (r: LogicalItem)
    requires |line.items| > 0
    ensures r in line.items
  {
    line.items[0]
  }

  /** back(): the last item; the line must not be empty. */
  function Back(line: LogicalLine): (r: LogicalItem)
    requires |line.items| > 0
    ensures r in line.items
  {
    line.items[|line.items| - 1]
  }

  /** operator[]: the item at `index`, which must be in range. */
  function At(line: LogicalLine, index: int): (r: LogicalItem)
    requires 0 <= index < |line.items|
    ensures r in line.items
  {
    line.items[index]
  }

  /** front() and back() are the items at the two ends of operator[]'s range. */
  lemma {:induction false} FrontBackAt(line: LogicalLine)
    requires |line.items| > 0
    ensures Front(line) == At(line, 0) && Back(line) == At(line, |line.items| - 1)
    ensures |line.items| == 1 ==> Front(line) == Back(line)
  {
  }

  function Sum(xs: seq<int>): int
  {
    if |xs| == 0 then 0 else Sum(xs[..|xs| - 1]) + xs[|xs| - 1]
  }

  lemma {:induction false} SumAppend(a: seq<int>, b: seq<int>)
    ensures Sum(a + b) == Sum(a) + Sum(b)
    decreases |b|
  {
    if |b| > 0 {
      assert (a + b)[..|a + b| - 1] == a + b[..|b| - 1];
      SumAppend(a, b[..|b| - 1]);
    } else {
      assert a + b == a;
    }
  }

  /** The total length of the text cells among `items`; other cells count nothing. */
  function TextLength(items: seq<LogicalItem>): int
  {
    if |items| == 0 then 0
    else
      var last := items[|items| - 1].cell;
      TextLength(items[..|items| - 1]) + (if last.TextCell? then Length(last) else 0)
  }

  /** The text length of a line is additive over any cut of the line. */
  lemma {:induction false} TextLengthAppend(a: seq<LogicalItem>, b: seq<LogicalItem>)
    ensures TextLength(a + b) == TextLength(a) + TextLength(b)
    decreases |b|
  {
    if |b| > 0 {
      assert (a + b)[..|a + b| - 1] == a + b[..|b| - 1];
      TextLengthAppend(a, b[..|b| - 1]);
    } else {
      assert a + b == a;
    }
  }

  /** Only text cells count: a line without text cells has text length 0. */
  lemma {:induction false} TextLengthOnlyText(items: seq<LogicalItem>)
    requires forall i :: 0 <= i < |items| ==> !items[i].cell.TextCell?
    ensures TextLength(items) == 0
    decreases |items|
  {
    if |items| > 0 {
      TextLengthOnlyText(items[..|items| - 1]);
    }
  }

  function Max(a: int, b: int): int
  {
    if a < b then b else a
  }

  /** The heights of the rows of `items` that an eol flag has closed. */
  function Closed(items: seq<LogicalItem>): seq<int>
  {
    if |items| == 0 then []
    else
      var x := items[|items| - 1];
      var p := items[..|items| - 1];
      if x.eol then Closed(p) + [Max(Pending(p), x.cell.size.height)] else Closed(p)
  }

  /** The tallest cell (at least 0) since the last eol flag. */
  function Pending(items: seq<LogicalItem>): int
  {
    if |items| == 0 then 0
    else
      var x := items[|items| - 1];
      var p := items[..|items| - 1];
      if x.eol then 0 else Max(Pending(p), x.cell.size.height)
  }

  /** The height of each visual row of a non-empty logical line, in order. */
  function RowHeights(items: seq<LogicalItem>): seq<int>
  {
    if |items| == 0 then []
    else if items[|items| - 1].eol then Closed(items)
    else Closed(items) + [Pending(items)]
  }

  /** The number of items that begin a visual row. */
  function BolCount(items: seq<LogicalItem>): nat
  {
    if |items| == 0 then 0
    else BolCount(items[..|items| - 1]) + (if items[|items| - 1].bol then 1 else 0)
  }

  /** The height a logical line reports: its stored height while empty, else the sum of its rows. */
  function LineHeight(line: LogicalLine): int
  {
    if |line.items| == 0 then line.h else Sum(RowHeights(line.items))
  }

  /** The tallest cell among `items`, and 0 when none is taller. */
  function MaxHeight(items: seq<LogicalItem>): int
  {
    if |items| == 0 then 0 else Max(MaxHeight(items[..|items| - 1]), items[|items| - 1].cell.size.height)
  }

  /** A stretch of items no eol flag interrupts is one row, as tall as its tallest cell. */
  lemma {:induction false} PendingIsMax(items: seq<LogicalItem>)
    requires forall i :: 0 <= i < |items| ==> !items[i].eol
    ensures Pending(items) == MaxHeight(items) && Closed(items) == []
    decreases |items|
  {
    if |items| > 0 {
      PendingIsMax(items[..|items| - 1]);
    }
  }

  /** Items with an eol flag at most on the last item form exactly one row. */
  lemma {:induction false} OneRow(items: seq<LogicalItem>)
    requires |items| > 0
    requires forall i :: 0 <= i < |items| - 1 ==> !items[i].eol
    ensures RowHeights(items) == [MaxHeight(items)]
  {
    var p := items[..|items| - 1];
    PendingIsMax(p);
    if !items[|items| - 1].eol {
      PendingIsMax(items);
    }
  }

  /** Rows never cross an eol flag: after one, the rows start afresh. */
  lemma {:induction false} RowsRestartAfterEol(a: seq<LogicalItem>, b: seq<LogicalItem>)
    requires |a| > 0 && a[|a| - 1].eol
    ensures Closed(a + b) == Closed(a) + Closed(b)
    ensures Pending(a + b) == Pending(b)
    decreases |b|
  {
    if |b| == 0 {
      assert a + b == a;
    } else {
      assert (a + b)[..|a + b| - 1] == a + b[..|b| - 1];
      RowsRestartAfterEol(a, b[..|b| - 1]);
    }
  }

  /** A line cut right after an eol flag is as tall as its two parts together. */
  lemma {:induction false} LineHeightSplits(a: seq<LogicalItem>, b: seq<LogicalItem>, h: int)
    requires |a| > 0 && a[|a| - 1].eol
    ensures RowHeights(a + b) == RowHeights(a) + RowHeights(b)
    ensures LineHeight(LogicalLine(a + b, h)) == LineHeight(LogicalLine(a, h)) + (if |b| == 0 then 0 else LineHeight(LogicalLine(b, h)))
  {
    RowsRestartAfterEol(a, b);
    if |b| == 0 {
      assert a + b == a;
    } else {
      assert (a + b)[|a + b| - 1] == b[|b| - 1];
    }
    SumAppend(RowHeights(a), RowHeights(b));
  }

  /**
   * LogicalLine::height. The source asserts that there are as many rows as
   * items flagged bol; that is this method's precondition.
   */
  method Height(line: LogicalLine) returns (h: int)
    requires |line.items| > 0 ==> |RowHeights(line.items)| == BolCount(line.items)
    ensures h == LineHeight(line)
  {
    var items := line.items;
    if |items| == 0 {
      return line.h;
    }
    var hs: seq<int> := [];
    var starts := 0;
    var curMaxH := 0;
    var i := 0;
    while i < |items|
      invariant 0 <= i <= |items|
      invariant hs == Closed(items[..i]) && curMaxH == Pending(items[..i])
      invariant starts == BolCount(items[..i])
    {
      assert items[..i + 1][..i] == items[..i];
      var cell := items[i];
      curMaxH := Max(curMaxH, cell.cell.size.height);
      if cell.eol {
        hs := hs + [curMaxH];
        curMaxH := 0;
      }
      if cell.bol {
        starts := starts + 1;
      }
      i := i + 1;
    }
    assert items[..i] == items;
    if !items[|items| - 1].eol {
      hs := hs + [curMaxH];
    }
    assert |hs| == starts;
    h := 0;
    var j := 0;
    while j < |hs|
      invariant 0 <= j <= |hs|
      invariant h == Sum(hs[..j])
    {
      assert hs[..j + 1][..j] == hs[..j];
      h := h + hs[j];
      j := j + 1;
    }
    assert hs[..j] == hs;
  }

  /**
   * Block: the visual lines (rows of draw instructions) and the logical lines
   * (rows of cells) of one rendered block.
   */
  class Block<VisualItem> {
    var visualLines: seq<seq<VisualItem>>
    var logicalLines: seq<LogicalLine>

    /** countOfVisualItem: the size of visual line `l`, which must exist. */
    function CountOfVisualItem(l: int): nat
      reads this
      requires 0 <= l < |visualLines|
    {
      |visualLines[l]|
    }

    /** visualItemAt: both indices must be in range. */
    function VisualItemAt(l: int, i: int): VisualItem
      reads this
      requires 0 <= l < |visualLines| && 0 <= i < |visualLines[l]|
    {
      visualLines[l][i]
    }

    /** countOfLogicalItem: 0 when there are no logical lines, else the size of line `l`. */
    function CountOfLogicalItem(l: int): nat
      reads this
      requires |logicalLines| > 0 ==> 0 <= l < |logicalLines|
    {
      if |logicalLines| == 0 then 0 else |logicalLines[l].items|
    }

    /**
     * maxOffsetOfLogicalLine: 0 without logical lines, else the summed length
     * of the text cells of line `index`.
     */
    method MaxOffsetOfLogicalLine(index: int) returns (total: int)
      requires |logicalLines| > 0 ==> 0 <= index < |logicalLines|
      ensures |logicalLines| == 0 ==> total == 0
      ensures |logicalLines| > 0 ==> total == TextLength(logicalLines[index].items)
    {
      if |logicalLines| == 0 {
        return 0;
      }
      var line := logicalLines[index].items;
      total := 0;
      for i := 0 to |line|
        invariant total == TextLength(line[..i])
      {
        assert line[..i + 1][..i] == line[..i];
        var cell := line[i].cell;
        if !cell.TextCell? {
          continue;
        }
        total := total + Length(cell);
      }
      assert line[..|line|] == line;
    }

    /** appendVisualItem: the item goes at the end of the last visual line, which must exist. */
    method AppendVisualItem(item: VisualItem)
      requires |visualLines| > 0
      modifies this
      ensures |visualLines| == |old(visualLines)|
      ensures forall l :: 0 <= l < |visualLines| - 1 ==> visualLines[l] == old(visualLines)[l]
      ensures visualLines[|visualLines| - 1] == old(visualLines)[|visualLines| - 1] + [item]
      ensures logicalLines == old(logicalLines)
      ensures CountOfVisualItem(|visualLines| - 1) == old(CountOfVisualItem(|visualLines| - 1)) + 1
    {
      var last := |visualLines| - 1;
      visualLines := visualLines[last := visualLines[last] + [item]];
    }

    /** appendLogicalItem: the item goes at the end of the last logical line, which must exist. */
    method AppendLogicalItem(item: LogicalItem)
      requires |logicalLines| > 0
      modifies this
      ensures |logicalLines| == |old(logicalLines)|
      ensures forall l :: 0 <= l < |logicalLines| - 1 ==> logicalLines[l] == old(logicalLines)[l]
      ensures logicalLines[|logicalLines| - 1].items == old(logicalLines)[|logicalLines| - 1].items + [item]
      ensures logicalLines[|logicalLines| - 1].h == old(logicalLines)[|logicalLines| - 1].h
      ensures visualLines == old(visualLines)
      ensures CountOfLogicalItem(|logicalLines| - 1) == old(CountOfLogicalItem(|logicalLines| - 1)) + 1
    {
      var last := |logicalLines| - 1;
      var line := logicalLines[last];
      logicalLines := logicalLines[last := line.(items := line.items + [item])];
    }

    /**
     * insertVisualItem: the item goes before position `i` of visual line `l`;
     * `i` must name an existing item, so this cannot append.
     */
    method InsertVisualItem(l: int, i: int, item: VisualItem)
      requires 0 <= l < |visualLines| && 0 <= i < |visualLines[l]|
      modifies this
      ensures |visualLines| == |old(visualLines)|
      ensures forall m :: 0 <= m < |visualLines| && m != l ==> visualLines[m] == old(visualLines)[m]
      ensures visualLines[l] == old(visualLines)[l][..i] + [item] + old(visualLines)[l][i..]
      ensures logicalLines == old(logicalLines)
      ensures VisualItemAt(l, i) == item
      ensures forall j :: i <= j < old(CountOfVisualItem(l)) ==> VisualItemAt(l, j + 1) == old(VisualItemAt(l, j))
    {
      var line := visualLines[l];
      visualLines := visualLines[l := line[..i] + [item] + line[i..]];
    }
  }
}
