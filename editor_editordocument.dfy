// editor/EditorDocument.cpp and editor/EditorDocument.h (the middle
// generation): the grid of rendered lines and cells the editor's cursor
// walks, and the bridge from the cursor to the piece table of the Text
// under it.

module EditorDocuments {
  import opened Optional
  import opened QStr
  import opened Geometry
  import opened EditorPieceTable

  /** The middle generation's CursorCoord: a line, a cell of that line and an offset into the cell's text. */
  datatype CursorCoord = CursorCoord(lineNo: int, cellNo: int, offset: int)

  /**
   * A Text node of the middle parser, as far as the editor reads it: where
   * its text starts in the original buffer and how long it is. The
   * piece-table memo is keyed by the node's identity.
   */
  class TextNode {
    var offset: int
    var length: int
  }

  /**
   * Cell: one rendered run of text on a line, with its rectangle, its text,
   * the piece table of the Text it shows (null when none) and where its
   * text starts in that table. The font and the node pointer are left out.
   */
  datatype Cell = Cell(rect: Rect, text: QString, table: PieceTable?, totalOffset: int)

  /** LineData: the cells of one visual line, in order. */
  datatype LineData = LineData(cells: seq<Cell>)

  /** The middle generation's Cursor, as far as the document moves it: its coordinate and its position. */
  class Cursor {
    var coord: CursorCoord
    var pos: Point
  }

  // ------------------------------------------------------------- LineData

  /** A rectangle spans the height y when y1 <= y < y1 + height. */
  predicate SpansY(rect: Rect, y: int)
  {
    rect.y <= y < rect.y + rect.height
  }

  /** LineData::contains: std::any_of over the cells, testing only the y range of each rectangle. */
  method Contains(line: LineData, y: int) returns (r: bool)
    ensures r <==> exists k :: 0 <= k < |line.cells| && SpansY(line.cells[k].rect, y)
  {
    var k := 0;
    while k < |line.cells|
      invariant 0 <= k <= |line.cells|
      invariant forall j :: 0 <= j < k ==> !SpansY(line.cells[j].rect, y)
    {
      var rect := line.cells[k].rect;
      var y1 := rect.y;
      var y2 := rect.y + rect.height;
      if y1 <= y && y < y2 {
        return true;
      }
      k := k + 1;
    }
    return false;
  }

  /** LineData::lastCoord: the last cell and the offset just past its text. */
  function LastCoord(line: LineData): (r: (int, int))
    requires |line.cells| > 0
    ensures 0 <= r.0 < |line.cells| && r.0 + 1 == |line.cells|
    ensures r.1 == |line.cells[r.0].text|
  {
    (|line.cells| - 1, |line.cells[|line.cells| - 1].text|)
  }

  // ----------------------------------------------------------------- grid

  /** Every line has a cell: the moves index the first and last cell of the lines they enter. */
  predicate Grid(lines: seq<LineData>)
  {
    forall l :: 0 <= l < |lines| ==> |lines[l].cells| > 0
  }

  /** The coordinate names a cell of the grid and an offset within its text (the offset just past the text included). */
  predicate At(lines: seq<LineData>, c: CursorCoord)
  {
    && 0 <= c.lineNo < |lines|
    && 0 <= c.cellNo < |lines[c.lineNo].cells|
    && 0 <= c.offset <= |lines[c.lineNo].cells[c.cellNo].text|
  }

  /** The number of cursor positions a run of cells offers: each cell's text length plus one. */
  function CellsWidth(cells: seq<Cell>): int
  {
    if |cells| == 0 then 0 else CellsWidth(cells[..|cells| - 1]) + |cells[|cells| - 1].text| + 1
  }

  /** The number of cursor positions of a run of lines. */
  function LinesWidth(lines: seq<LineData>): int
  {
    if |lines| == 0 then 0 else LinesWidth(lines[..|lines| - 1]) + CellsWidth(lines[|lines| - 1].cells)
  }

  /**
   * The position of a coordinate when the grid's positions are numbered in
   * reading order: line by line, cell by cell, offset by offset.
   */
  function Rank(lines: seq<LineData>, c: CursorCoord): int
    requires At(lines, c)
  {
    LinesWidth(lines[..c.lineNo]) + CellsWidth(lines[c.lineNo].cells[..c.cellNo]) + c.offset
  }

  /** The last position of the grid: the end of the last cell of the last line. */
  predicate IsEnd(lines: seq<LineData>, c: CursorCoord)
    requires At(lines, c)
  {
    c.lineNo == |lines| - 1 && c.cellNo == |lines[c.lineNo].cells| - 1
    && c.offset == |lines[c.lineNo].cells[c.cellNo].text|
  }

  lemma {:induction false} CellsWidthAppend(a: seq<Cell>, b: seq<Cell>)
    ensures CellsWidth(a + b) == CellsWidth(a) + CellsWidth(b)
    decreases |b|
  {
    if |b| == 0 {
      assert a + b == a;
    } else {
      assert (a + b)[..|a + b| - 1] == a + b[..|b| - 1];
      CellsWidthAppend(a, b[..|b| - 1]);
    }
  }

  lemma {:induction false} LinesWidthAppend(a: seq<LineData>, b: seq<LineData>)
    ensures LinesWidth(a + b) == LinesWidth(a) + LinesWidth(b)
    decreases |b|
  {
    if |b| == 0 {
      assert a + b == a;
    } else {
      assert (a + b)[..|a + b| - 1] == a + b[..|b| - 1];
      LinesWidthAppend(a, b[..|b| - 1]);
    }
  }

  /** Every cell offers at least one position. */
  lemma {:induction false} CellsWidthBound(cells: seq<Cell>)
    ensures CellsWidth(cells) >= |cells|
    decreases |cells|
  {
    if |cells| > 0 {
      CellsWidthBound(cells[..|cells| - 1]);
    }
  }

  /** Every line of a grid offers at least one position. */
  lemma {:induction false} LinesWidthBound(lines: seq<LineData>)
    requires Grid(lines)
    ensures LinesWidth(lines) >= |lines|
    decreases |lines|
  {
    if |lines| > 0 {
      var init := lines[..|lines| - 1];
      assert Grid(init) by {
        assert forall l :: 0 <= l < |init| ==> init[l] == lines[l];
      }
      LinesWidthBound(init);
      CellsWidthBound(lines[|lines| - 1].cells);
    }
  }

  /** A line's positions: those of the cells before cell k, cell k's own, and those after it. */
  lemma {:induction false} CellsAround(cells: seq<Cell>, k: nat)
    requires k < |cells|
    ensures CellsWidth(cells) == CellsWidth(cells[..k]) + |cells[k].text| + 1 + CellsWidth(cells[k + 1..])
    ensures CellsWidth(cells[..k + 1]) == CellsWidth(cells[..k]) + |cells[k].text| + 1
  {
    assert cells == cells[..k + 1] + cells[k + 1..];
    CellsWidthAppend(cells[..k + 1], cells[k + 1..]);
    assert cells[..k + 1][..k] == cells[..k];
  }

  /** The grid's positions: those of the lines before line l, line l's own, and those after it. */
  lemma {:induction false} LinesAround(lines: seq<LineData>, l: nat)
    requires l < |lines|
    ensures LinesWidth(lines) == LinesWidth(lines[..l]) + CellsWidth(lines[l].cells) + LinesWidth(lines[l + 1..])
    ensures LinesWidth(lines[..l + 1]) == LinesWidth(lines[..l]) + CellsWidth(lines[l].cells)
  {
    assert lines == lines[..l + 1] + lines[l + 1..];
    LinesWidthAppend(lines[..l + 1], lines[l + 1..]);
    assert lines[..l + 1][..l] == lines[..l];
  }

  /**
   * The ranks of a grid run from 0 at (0, 0, 0) to one less than its width
   * at the end of its last cell, and only those two coordinates take them.
   */
  lemma {:induction false} RankBounds(lines: seq<LineData>, c: CursorCoord)
    requires Grid(lines) && At(lines, c)
    ensures 0 <= Rank(lines, c) <= LinesWidth(lines) - 1
    ensures Rank(lines, c) == 0 <==> c == CursorCoord(0, 0, 0)
    ensures Rank(lines, c) == LinesWidth(lines) - 1 <==> IsEnd(lines, c)
  {
    var cells := lines[c.lineNo].cells;
    LinesAround(lines, c.lineNo);
    CellsAround(cells, c.cellNo);
    var rest := lines[c.lineNo + 1..];
    assert Grid(rest) by {
      assert forall l :: 0 <= l < |rest| ==> rest[l] == lines[c.lineNo + 1 + l];
    }
    var before := lines[..c.lineNo];
    assert Grid(before) by {
      assert forall l :: 0 <= l < |before| ==> before[l] == lines[l];
    }
    LinesWidthBound(rest);
    LinesWidthBound(before);
    CellsWidthBound(cells[c.cellNo + 1..]);
    CellsWidthBound(cells[..c.cellNo]);
  }

  /** A step right inside a cell, across to the next cell or down to the next line moves one position on. */
  lemma {:induction false} RankStepRight(lines: seq<LineData>, c: CursorCoord)
    requires Grid(lines) && At(lines, c) && !IsEnd(lines, c)
    ensures At(lines, RightStep(lines, c)) && Rank(lines, RightStep(lines, c)) == Rank(lines, c) + 1
  {
    var cells := lines[c.lineNo].cells;
    if c.offset < |cells[c.cellNo].text| {
    } else if c.cellNo < |cells| - 1 {
      CellsAround(cells, c.cellNo);
    } else {
      LinesAround(lines, c.lineNo);
      CellsAround(cells, c.cellNo);
      assert cells[..c.cellNo + 1] == cells;
      assert lines[c.lineNo + 1].cells[..0] == [];
    }
  }

  /** A step left inside a cell, back to the previous cell or up to the previous line moves one position back. */
  lemma {:induction false} RankStepLeft(lines: seq<LineData>, c: CursorCoord)
    requires Grid(lines) && At(lines, c) && c != CursorCoord(0, 0, 0)
    ensures At(lines, LeftStep(lines, c)) && Rank(lines, LeftStep(lines, c)) == Rank(lines, c) - 1
  {
    if c.offset > 0 {
    } else if c.cellNo > 0 {
      CellsAround(lines[c.lineNo].cells, c.cellNo - 1);
    } else {
      var prev := lines[c.lineNo - 1].cells;
      LinesAround(lines, c.lineNo - 1);
      CellsAround(prev, |prev| - 1);
      assert prev[..|prev|] == prev;
      assert lines[c.lineNo].cells[..0] == [];
    }
  }

  // ------------------------------------------------------------ the moves

  /** The coordinate one step to the right: within the cell, to the next cell's start or to the next line's start. */
  function RightStep(lines: seq<LineData>, c: CursorCoord): CursorCoord
    requires Grid(lines) && At(lines, c)
  {
    if c.offset < |lines[c.lineNo].cells[c.cellNo].text| then c.(offset := c.offset + 1)
    else if c.cellNo < |lines[c.lineNo].cells| - 1 then CursorCoord(c.lineNo, c.cellNo + 1, 0)
    else CursorCoord(c.lineNo + 1, 0, 0)
  }

  /** The coordinate one step to the left: within the cell, to the previous cell's end or to the previous line's end. */
  function LeftStep(lines: seq<LineData>, c: CursorCoord): CursorCoord
    requires Grid(lines) && At(lines, c) && c != CursorCoord(0, 0, 0)
  {
    if c.offset > 0 then c.(offset := c.offset - 1)
    else if c.cellNo > 0 then CursorCoord(c.lineNo, c.cellNo - 1, |lines[c.lineNo].cells[c.cellNo - 1].text|)
    else
      var prev := lines[c.lineNo - 1].cells;
      CursorCoord(c.lineNo - 1, |prev| - 1, |prev[|prev| - 1].text|)
  }

  /**
   * moveCursorRight as written: each step inside a cell costs one unit of
   * `length`, a step to the next cell costs one unless `ignoreCell`, a step
   * to the next line always costs one. At the end of the last line with
   * length left no branch applies and the loop never exits (None).
   */
  function MoveRightAsWritten(lines: seq<LineData>, c: CursorCoord, length: int, ignoreCell: bool): Option<CursorCoord>
    requires Grid(lines) && At(lines, c)
    decreases |lines| - c.lineNo, |lines[c.lineNo].cells| - c.cellNo, |lines[c.lineNo].cells[c.cellNo].text| - c.offset
  {
    if length <= 0 then Some(c)
    else if c.offset < |lines[c.lineNo].cells[c.cellNo].text| then
      MoveRightAsWritten(lines, c.(offset := c.offset + 1), length - 1, ignoreCell)
    else if c.cellNo < |lines[c.lineNo].cells| - 1 then
      MoveRightAsWritten(lines, CursorCoord(c.lineNo, c.cellNo + 1, 0), if ignoreCell then length else length - 1, ignoreCell)
    else if c.lineNo < |lines| - 1 then
      MoveRightAsWritten(lines, CursorCoord(c.lineNo + 1, 0, 0), length - 1, ignoreCell)
    else None
  }

  /** moveCursorRight repaired: at the end of the last line the loop stops, as the closing comment of the source says. */
  function MoveRight(lines: seq<LineData>, c: CursorCoord, length: int, ignoreCell: bool): (r: CursorCoord)
    requires Grid(lines) && At(lines, c)
    ensures At(lines, r)
    decreases |lines| - c.lineNo, |lines[c.lineNo].cells| - c.cellNo, |lines[c.lineNo].cells[c.cellNo].text| - c.offset
  {
    if length <= 0 then c
    else if c.offset < |lines[c.lineNo].cells[c.cellNo].text| then
      MoveRight(lines, c.(offset := c.offset + 1), length - 1, ignoreCell)
    else if c.cellNo < |lines[c.lineNo].cells| - 1 then
      MoveRight(lines, CursorCoord(c.lineNo, c.cellNo + 1, 0), if ignoreCell then length else length - 1, ignoreCell)
    else if c.lineNo < |lines| - 1 then
      MoveRight(lines, CursorCoord(c.lineNo + 1, 0, 0), length - 1, ignoreCell)
    else c
  }

  /**
   * moveCursorLeft as written. A step inside a cell costs one unit, a step
   * to the previous cell's or line's end costs one unless `ignoreCell`.
   * When the offset and the cell's length both equal the length left, the
   * `ignoreCell` case jumps to the cell's start and moves one more position
   * left; without `ignoreCell` the offset is not stepped and the loop goes
   * on to the previous cell or line, skipping the cell's text, or, in the
   * first cell of the first line, never exits (None). At (0, 0, 0) with
   * length left the loop never exits either.
   */
  function MoveLeftAsWritten(lines: seq<LineData>, c: CursorCoord, length: int, ignoreCell: bool): Option<CursorCoord>
    requires Grid(lines) && At(lines, c)
    decreases c.lineNo, c.cellNo, c.offset
  {
    if length <= 0 then Some(c)
    else if c.offset > 0 && !(|lines[c.lineNo].cells[c.cellNo].text| == length && c.offset == length) then
      MoveLeftAsWritten(lines, c.(offset := c.offset - 1), length - 1, ignoreCell)
    else if c.offset > 0 && ignoreCell then
      MoveLeftAsWritten(lines, c.(offset := 0), 1, false)
    else if c.cellNo > 0 then
      MoveLeftAsWritten(lines, CursorCoord(c.lineNo, c.cellNo - 1, |lines[c.lineNo].cells[c.cellNo - 1].text|),
        if ignoreCell then length else length - 1, ignoreCell)
    else if c.lineNo > 0 then
      var prev := lines[c.lineNo - 1].cells;
      MoveLeftAsWritten(lines, CursorCoord(c.lineNo - 1, |prev| - 1, |prev[|prev| - 1].text|),
        if ignoreCell then length else length - 1, ignoreCell)
    else None
  }

  /**
   * moveCursorLeft repaired: the whole-cell case applies only with
   * `ignoreCell` (otherwise the offset steps back as usual), and at
   * (0, 0, 0) the loop stops, as the closing comment of the source says.
   */
  function MoveLeft(lines: seq<LineData>, c: CursorCoord, length: int, ignoreCell: bool): (r: CursorCoord)
    requires Grid(lines) && At(lines, c)
    ensures At(lines, r)
    decreases c.lineNo, c.cellNo, c.offset
  {
    if length <= 0 then c
    else if c.offset > 0 then
      if ignoreCell && |lines[c.lineNo].cells[c.cellNo].text| == length && c.offset == length then
        MoveLeft(lines, c.(offset := 0), 1, false)
      else MoveLeft(lines, c.(offset := c.offset - 1), length - 1, ignoreCell)
    else if c.cellNo > 0 then
      MoveLeft(lines, CursorCoord(c.lineNo, c.cellNo - 1, |lines[c.lineNo].cells[c.cellNo - 1].text|),
        if ignoreCell then length else length - 1, ignoreCell)
    else if c.lineNo > 0 then
      var prev := lines[c.lineNo - 1].cells;
      MoveLeft(lines, CursorCoord(c.lineNo - 1, |prev| - 1, |prev[|prev| - 1].text|),
        if ignoreCell then length else length - 1, ignoreCell)
    else c
  }

  function Min(a: int, b: int): int
  {
    if a <= b then a else b
  }

  function Max(a: int, b: int): int
  {
    if a >= b then a else b
  }

  /**
   * The repaired right move walks `length` positions in reading order,
   * stopping at the end of the grid; with `ignoreCell` the steps into the
   * next cell are free, so it gets at least as far.
   */
  lemma {:induction false} MoveRightRank(lines: seq<LineData>, c: CursorCoord, length: int, ignoreCell: bool)
    requires Grid(lines) && At(lines, c) && length >= 0
    ensures !ignoreCell ==> Rank(lines, MoveRight(lines, c, length, ignoreCell)) == Min(Rank(lines, c) + length, LinesWidth(lines) - 1)
    ensures ignoreCell ==> Rank(lines, MoveRight(lines, c, length, ignoreCell)) >= Min(Rank(lines, c) + length, LinesWidth(lines) - 1)
    decreases |lines| - c.lineNo, |lines[c.lineNo].cells| - c.cellNo, |lines[c.lineNo].cells[c.cellNo].text| - c.offset
  {
    RankBounds(lines, c);
    if length > 0 && !IsEnd(lines, c) {
      var next := RightStep(lines, c);
      RankStepRight(lines, c);
      var cells := lines[c.lineNo].cells;
      if c.offset < |cells[c.cellNo].text| {
        MoveRightRank(lines, next, length - 1, ignoreCell);
      } else if c.cellNo < |cells| - 1 {
        MoveRightRank(lines, next, if ignoreCell then length else length - 1, ignoreCell);
      } else {
        MoveRightRank(lines, next, length - 1, ignoreCell);
      }
    }
  }

  /**
   * The repaired left move walks `length` positions back in reading order,
   * stopping at (0, 0, 0); with `ignoreCell` the steps into the previous
   * cell are free, so it gets at least as far.
   */
  lemma {:induction false} MoveLeftRank(lines: seq<LineData>, c: CursorCoord, length: int, ignoreCell: bool)
    requires Grid(lines) && At(lines, c) && length >= 0
    ensures !ignoreCell ==> Rank(lines, MoveLeft(lines, c, length, ignoreCell)) == Max(Rank(lines, c) - length, 0)
    ensures ignoreCell ==> Rank(lines, MoveLeft(lines, c, length, ignoreCell)) <= Max(Rank(lines, c) - length, 0)
    decreases c.lineNo, c.cellNo, c.offset
  {
    RankBounds(lines, c);
    if length > 0 && c != CursorCoord(0, 0, 0) {
      var cells := lines[c.lineNo].cells;
      if c.offset > 0 && ignoreCell && |cells[c.cellNo].text| == length && c.offset == length {
        var start := c.(offset := 0);
        MoveLeftRank(lines, start, 1, false);
      } else {
        var next := LeftStep(lines, c);
        RankStepLeft(lines, c);
        if c.offset > 0 {
          MoveLeftRank(lines, next, length - 1, ignoreCell);
        } else {
          MoveLeftRank(lines, next, if ignoreCell then length else length - 1, ignoreCell);
        }
      }
    }
  }

  /** The repaired moves agree with the written ones wherever the written loop exits and skips nothing. */
  lemma {:induction false} MoveRightAgrees(lines: seq<LineData>, c: CursorCoord, length: int, ignoreCell: bool)
    requires Grid(lines) && At(lines, c)
    ensures MoveRightAsWritten(lines, c, length, ignoreCell).Some? ==>
      MoveRightAsWritten(lines, c, length, ignoreCell).value == MoveRight(lines, c, length, ignoreCell)
    decreases |lines| - c.lineNo, |lines[c.lineNo].cells| - c.cellNo, |lines[c.lineNo].cells[c.cellNo].text| - c.offset
  {
    if length > 0 {
      var cells := lines[c.lineNo].cells;
      if c.offset < |cells[c.cellNo].text| {
        MoveRightAgrees(lines, c.(offset := c.offset + 1), length - 1, ignoreCell);
      } else if c.cellNo < |cells| - 1 {
        MoveRightAgrees(lines, CursorCoord(c.lineNo, c.cellNo + 1, 0), if ignoreCell then length else length - 1, ignoreCell);
      } else if c.lineNo < |lines| - 1 {
        MoveRightAgrees(lines, CursorCoord(c.lineNo + 1, 0, 0), length - 1, ignoreCell);
      }
    }
  }

  /** As written, a right move from the end of the last line with length left never exits. */
  lemma {:induction false} MoveRightHangsAtEnd(lines: seq<LineData>, c: CursorCoord, length: int, ignoreCell: bool)
    requires Grid(lines) && At(lines, c) && IsEnd(lines, c) && length > 0
    ensures MoveRightAsWritten(lines, c, length, ignoreCell).None?
    ensures MoveRight(lines, c, length, ignoreCell) == c
  {
  }

  /**
   * As written, moving one position left from after the one-unit text of
   * the only cell never exits, where (0, 0, 0) was meant.
   */
  lemma {:induction false} MoveLeftHangsAsWritten(rect: Rect, u: CodeUnit)
    ensures var lines := [LineData([Cell(rect, [u], null, 0)])];
            && MoveLeftAsWritten(lines, CursorCoord(0, 0, 1), 1, false).None?
            && MoveLeft(lines, CursorCoord(0, 0, 1), 1, false) == CursorCoord(0, 0, 0)
  {
    var lines := [LineData([Cell(rect, [u], null, 0)])];
    assert MoveLeftAsWritten(lines, CursorCoord(0, 0, 1), 1, false) == None;
  }

  /**
   * As written, moving one position left from after the one-unit text of a
   * second cell lands at the end of the first cell, skipping the unit.
   */
  lemma {:induction false} MoveLeftSkipsAsWritten(r1: Rect, r2: Rect, u: CodeUnit, v: CodeUnit)
    ensures var lines := [LineData([Cell(r1, [u, u], null, 0), Cell(r2, [v], null, 2)])];
            && MoveLeftAsWritten(lines, CursorCoord(0, 1, 1), 1, false) == Some(CursorCoord(0, 0, 2))
            && MoveLeft(lines, CursorCoord(0, 1, 1), 1, false) == CursorCoord(0, 1, 0)
  {
    var lines := [LineData([Cell(r1, [u, u], null, 0), Cell(r2, [v], null, 2)])];
    assert MoveLeftAsWritten(lines, CursorCoord(0, 1, 1), 1, false)
        == MoveLeftAsWritten(lines, CursorCoord(0, 0, 2), 0, false);
  }

  /** The table of the cell under a coordinate, as a frame. */
  function CellTable(lines: seq<LineData>, c: CursorCoord): set<PieceTable>
    requires 0 <= c.lineNo < |lines| && 0 <= c.cellNo < |lines[c.lineNo].cells|
  {
    var t := lines[c.lineNo].cells[c.cellNo].table;
    if t == null then {} else {t}
  }

  /**
   * EditorDocument: the rendered lines, the two buffers of the text and the
   * memo of piece tables, one per Text node. The parsed document that the
   * constructor keeps and the links, images and code blocks the renderer
   * records are left out.
   */
  class EditorDocument {
    var lineData: seq<LineData>
    var originalBuffer: QString
    var addBuffer: QString
    var tables: map<TextNode, PieceTable>

    constructor(text: QString)
      ensures originalBuffer == text && addBuffer == [] && lineData == [] && tables == map[]
    {
      originalBuffer := text;
      addBuffer := [];
      lineData := [];
      tables := map[];
    }

    /** createNewLineData: an empty line appended. */
    method CreateNewLineData()
      modifies this
      ensures lineData == old(lineData) + [LineData([])]
      ensures originalBuffer == old(originalBuffer) && addBuffer == old(addBuffer) && tables == old(tables)
    {
      lineData := lineData + [LineData([])];
    }

    /** appendCell: the cell appended to the last line. */
    method AppendCell(cell: Cell)
      requires |lineData| > 0
      modifies this
      ensures |lineData| == |old(lineData)|
      ensures lineData[..|lineData| - 1] == old(lineData)[..|lineData| - 1]
      ensures lineData[|lineData| - 1].cells == old(lineData)[|lineData| - 1].cells + [cell]
      ensures originalBuffer == old(originalBuffer) && addBuffer == old(addBuffer) && tables == old(tables)
    {
      var last := |lineData| - 1;
      lineData := lineData[last := LineData(lineData[last].cells + [cell])];
    }

    /** moveCursorRight, repaired as MoveRight describes; a null cursor is left alone. */
    method MoveCursorRight(cursor: Cursor?, length: int, ignoreCell: bool)
      requires cursor != null ==> Grid(lineData) && At(lineData, cursor.coord)
      modifies cursor
      ensures cursor != null ==> cursor.coord == MoveRight(lineData, old(cursor.coord), length, ignoreCell)
      ensures cursor != null ==> cursor.pos == old(cursor.pos)
    {
      if cursor == null {
        return;
      }
      var coord := cursor.coord;
      var left := length;
      while left > 0
        invariant At(lineData, coord)
        invariant MoveRight(lineData, coord, left, ignoreCell) == MoveRight(lineData, cursor.coord, length, ignoreCell)
        decreases |lineData| - coord.lineNo, |lineData[coord.lineNo].cells| - coord.cellNo,
          |lineData[coord.lineNo].cells[coord.cellNo].text| - coord.offset
      {
        var cells := lineData[coord.lineNo].cells;
        if coord.offset < |cells[coord.cellNo].text| {
          coord := coord.(offset := coord.offset + 1);
          left := left - 1;
        } else if coord.cellNo < |cells| - 1 {
          coord := CursorCoord(coord.lineNo, coord.cellNo + 1, 0);
          if !ignoreCell {
            left := left - 1;
          }
        } else if coord.lineNo < |lineData| - 1 {
          coord := CursorCoord(coord.lineNo + 1, 0, 0);
          left := left - 1;
        } else {
          break;
        }
      }
      cursor.coord := coord;
    }

    /** moveCursorLeft, repaired as MoveLeft describes; a null cursor is left alone. */
    method MoveCursorLeft(cursor: Cursor?, length: int, ignoreCell: bool)
      requires cursor != null ==> Grid(lineData) && At(lineData, cursor.coord)
      modifies cursor
      ensures cursor != null ==> cursor.coord == MoveLeft(lineData, old(cursor.coord), length, ignoreCell)
      ensures cursor != null ==> cursor.pos == old(cursor.pos)
      decreases if ignoreCell then 1 else 0
    {
      if cursor == null {
        return;
      }
      var coord := cursor.coord;
      var left := length;
      while left > 0
        invariant At(lineData, coord) && cursor.pos == old(cursor.pos)
        invariant MoveLeft(lineData, coord, left, ignoreCell) == MoveLeft(lineData, old(cursor.coord), length, ignoreCell)
        decreases coord.lineNo, coord.cellNo, coord.offset
      {
        var cells := lineData[coord.lineNo].cells;
        if coord.offset > 0 {
          if ignoreCell && |cells[coord.cellNo].text| == left && coord.offset == left {
            coord := coord.(offset := 0);
            cursor.coord := coord;
            MoveCursorLeft(cursor, 1, false);
            return;
          }
          coord := coord.(offset := coord.offset - 1);
          left := left - 1;
        } else if coord.cellNo > 0 {
          coord := CursorCoord(coord.lineNo, coord.cellNo - 1, |cells[coord.cellNo - 1].text|);
          if !ignoreCell {
            left := left - 1;
          }
        } else if coord.lineNo > 0 {
          var prev := lineData[coord.lineNo - 1].cells;
          coord := CursorCoord(coord.lineNo - 1, |prev| - 1, |prev[|prev| - 1].text|);
          if !ignoreCell {
            left := left - 1;
          }
        } else {
          break;
        }
      }
      cursor.coord := coord;
    }

    /**
     * insertText: with a piece table under the cursor, the text is appended
     * to the add buffer and its span inserted at the cell's start in the
     * table plus the cursor's offset; without one nothing changes.
     */
    method InsertText(text: QString, cursor: Cursor)
      requires 0 <= cursor.coord.lineNo < |lineData| && 0 <= cursor.coord.cellNo < |lineData[cursor.coord.lineNo].cells|
      modifies this, CellTable(lineData, cursor.coord)
      ensures lineData == old(lineData) && originalBuffer == old(originalBuffer) && tables == old(tables)
      ensures var cell := lineData[cursor.coord.lineNo].cells[cursor.coord.cellNo];
              && (cell.table == null ==> addBuffer == old(addBuffer))
              && (cell.table != null ==>
                    && addBuffer == old(addBuffer) + text
                    && cell.table.items == Inserted(old(cell.table.items), cell.totalOffset + cursor.coord.offset, |old(addBuffer)|, |text|))
      ensures var cell := lineData[cursor.coord.lineNo].cells[cursor.coord.cellNo];
              var k := cell.totalOffset + cursor.coord.offset;
              cell.table != null && Valid(old(cell.table.items), originalBuffer, old(addBuffer))
              && |old(cell.table.items)| > 0 && 0 <= k <= |Content(old(cell.table.items), originalBuffer, old(addBuffer))| ==>
                Content(cell.table.items, originalBuffer, addBuffer)
                == Content(old(cell.table.items), originalBuffer, old(addBuffer))[..k] + text
                   + Content(old(cell.table.items), originalBuffer, old(addBuffer))[k..]
    {
      var coord := cursor.coord;
      var cell := lineData[coord.lineNo].cells[coord.cellNo];
      if cell.table == null {
        return;
      }
      var addOffset := |addBuffer|;
      var addLength := |text|;
      ghost var oldItems := cell.table.items;
      ghost var oldAdd := addBuffer;
      addBuffer := addBuffer + text;
      var offset := cell.totalOffset + coord.offset;
      cell.table.Insert(offset, addOffset, addLength);
      if Valid(oldItems, originalBuffer, oldAdd) && |oldItems| > 0 && 0 <= offset {
        ContentLength(oldItems, originalBuffer, oldAdd);
        if offset <= Total(oldItems) {
          InsertContent(oldItems, offset, originalBuffer, oldAdd, text);
        }
      }
    }

    /**
     * removeText: with a piece table under the cursor, the `length` units
     * that end at the cursor are removed from it; without one nothing
     * changes.
     */
    method RemoveText(length: int, cursor: Cursor)
      requires 0 <= cursor.coord.lineNo < |lineData| && 0 <= cursor.coord.cellNo < |lineData[cursor.coord.lineNo].cells|
      modifies CellTable(lineData, cursor.coord)
      ensures var cell := lineData[cursor.coord.lineNo].cells[cursor.coord.cellNo];
              cell.table != null ==>
                cell.table.items == Removed(old(cell.table.items), cell.totalOffset + cursor.coord.offset - length, length)
      ensures var cell := lineData[cursor.coord.lineNo].cells[cursor.coord.cellNo];
              var k := cell.totalOffset + cursor.coord.offset - length;
              cell.table != null && Valid(old(cell.table.items), originalBuffer, addBuffer)
              && InsideOneSpan(old(cell.table.items), k, length)
              && k + length <= |Content(old(cell.table.items), originalBuffer, addBuffer)| ==>
                Content(cell.table.items, originalBuffer, addBuffer)
                == Content(old(cell.table.items), originalBuffer, addBuffer)[..k]
                   + Content(old(cell.table.items), originalBuffer, addBuffer)[k + length..]
    {
      var coord := cursor.coord;
      var cell := lineData[coord.lineNo].cells[coord.cellNo];
      if cell.table == null {
        return;
      }
      ghost var oldItems := cell.table.items;
      var offset := cell.totalOffset + coord.offset;
      cell.table.Remove(offset - length, length);
      if Valid(oldItems, originalBuffer, addBuffer) && InsideOneSpan(oldItems, offset - length, length) {
        RemoveContent(oldItems, offset - length, length, originalBuffer, addBuffer);
      }
    }

    /**
     * pieceTable: null for a null Text; the memoised table of a Text seen
     * before; otherwise a new table of one original span over the Text's
     * range, remembered for the next call.
     */
    method PieceTableOf(text: TextNode?) returns (table: PieceTable?)
      modifies this
      ensures lineData == old(lineData) && originalBuffer == old(originalBuffer) && addBuffer == old(addBuffer)
      ensures text == null ==> table == null && tables == old(tables)
      ensures text != null && text in old(tables) ==> table == old(tables)[text] && tables == old(tables)
      ensures text != null && text !in old(tables) ==>
        && table != null && fresh(table)
        && table.items == [PieceTableItem(Original, text.offset, text.length)]
        && tables == old(tables)[text := table]
    {
      if text == null {
        return null;
      }
      if text in tables {
        return tables[text];
      }
      var t := new PieceTable(text.offset, text.length);
      tables := tables[text := t];
      return t;
    }

    /** text2str: "" for a null Text, otherwise the strings of its table's spans, concatenated. */
    method Text2Str(text: TextNode?) returns (s: QString)
      modifies this
      ensures lineData == old(lineData) && originalBuffer == old(originalBuffer) && addBuffer == old(addBuffer)
      ensures text == null ==> s == []
      ensures text != null ==> text in tables && s == Content(tables[text].items, originalBuffer, addBuffer)
      ensures text != null && text in old(tables) ==> tables == old(tables)
    {
      if text == null {
        return [];
      }
      var table := PieceTableOf(text);
      var ss := table.Strings(originalBuffer, addBuffer);
      s := [];
      var k := 0;
      while k < |ss|
        invariant 0 <= k <= |ss| && s == Joined(ss[..k])
      {
        assert ss[..k + 1][..k] == ss[..k];
        s := s + ss[k];
        k := k + 1;
      }
      assert ss[..k] == ss;
    }
  }

  /**
   * A second pieceTable call for the same Text returns the table of the
   * first: the memo hands out one table per Text.
   */
  method PieceTableMemo(doc: EditorDocument, text: TextNode) returns (first: PieceTable?, second: PieceTable?)
    modifies doc
    ensures first != null && first == second
  {
    first := doc.PieceTableOf(text);
    second := doc.PieceTableOf(text);
  }
}
