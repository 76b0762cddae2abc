// Render.cpp at the repository root: the render state the layout keeps
// (pen position, line height, the lines of cells drawn so far and the font
// stack), the guards of drawText and the cursor moves over the grid of
// drawn cells. Font metrics are parameters.

module LegacyRender {
  import opened Optional
  import opened QStr
  import opened Geometry

  /** A font as far as the layout tells fonts apart. */
  datatype Font = Font(pixelSize: int, bold: bool, italic: bool)

  /** The font reset() installs: 16 pixels, neither bold nor italic. */
  const DefaultFont: Font := Font(16, false, false)

  /** RenderSetting, as far as this file reads it. */
  datatype RenderSetting = RenderSetting(lineSpacing: int, maxWidth: int,
                                         marginLeft: int, marginTop: int, marginRight: int, marginBottom: int)

  /** The defaults of RenderSetting: spacing 10, width 800, margins of 20. */
  const DefaultSetting: RenderSetting := RenderSetting(10, 800, 20, 20, 20, 20)

  /** RenderSetting::contentMaxWidth: the width between the left and right margins. */
  function ContentMaxWidth(s: RenderSetting): int
  {
    s.maxWidth - s.marginLeft - s.marginRight
  }

  /** Cell: a run of text drawn in one font at one rectangle. */
  datatype Cell = Cell(font: Font, rect: Rect, text: QString)

  /** LineData: the cells drawn on one visual line, in order. */
  datatype LineData = LineData(cells: seq<Cell>)

  /** The root CursorCoord: a line, a cell of that line, an offset into the cell's text. */
  datatype CursorCoord = CursorCoord(lineNo: int, cellNo: int, offset: int)

  /** The root Cursor, as far as the render moves it: its coordinate, its position and its height. */
  class Cursor {
    var coord: CursorCoord
    var x: int
    var y: int
    var height: int

    constructor()
      ensures coord == CursorCoord(0, 0, 0) && x == 0 && y == 0 && height == 0
    {
      coord := CursorCoord(0, 0, 0);
      x := 0;
      y := 0;
      height := 0;
    }
  }

  // ------------------------------------------------------------- LineData

  /** A rectangle spans the height y when y1 <= y < y1 + height. */
  predicate SpansY(rect: Rect, y: int)
  {
    rect.y <= y < rect.y + rect.height
  }

  /** LineData::contains: std::any_of over the cells, testing only the y range of each rectangle. */
  method Contains(line: LineData, y: int) returns (r: bool)
    ensures r <==> exists k :: 0 <= k < |line.cells| && SpansY(line.cells[k].rect, y)
  {
    var k := 0;
    while k < |line.cells|
      invariant 0 <= k <= |line.cells|
      invariant forall j :: 0 <= j < k ==> !SpansY(line.cells[j].rect, y)
    {
      var rect := line.cells[k].rect;
      if rect.y <= y && y < rect.y + rect.height {
        return true;
      }
      k := k + 1;
    }
    return false;
  }

  /** LineData::lastCoord: the last cell and the offset just past its text. */
  function LastCoord(line: LineData): (r: (int, int))
    requires |line.cells| > 0
    ensures 0 <= r.0 < |line.cells| && r.0 + 1 == |line.cells|
    ensures r.1 == |line.cells[r.0].text|
  {
    (|line.cells| - 1, |line.cells[|line.cells| - 1].text|)
  }

  // ------------------------------------------------------------- the grid

  /** Every line has a cell: the moves index the last cell of the lines they enter. */
  predicate Grid(lines: seq<LineData>)
  {
    forall l :: 0 <= l < |lines| ==> |lines[l].cells| > 0
  }

  /** The coordinate names a cell of the grid and an offset within its text (the offset past the text included). */
  predicate At(lines: seq<LineData>, c: CursorCoord)
  {
    && 0 <= c.lineNo < |lines|
    && 0 <= c.cellNo < |lines[c.lineNo].cells|
    && 0 <= c.offset <= |lines[c.lineNo].cells[c.cellNo].text|
  }

  /** The reading order of coordinates: by line, then cell, then offset. */
  predicate Before(a: CursorCoord, b: CursorCoord)
  {
    a.lineNo < b.lineNo
    || (a.lineNo == b.lineNo && a.cellNo < b.cellNo)
    || (a.lineNo == b.lineNo && a.cellNo == b.cellNo && a.offset < b.offset)
  }

  /** The first position: the start of the first cell of the first line. */
  const Begin: CursorCoord := CursorCoord(0, 0, 0)

  /** The last position: past the text of the last cell of the last line. */
  function End(lines: seq<LineData>): (r: CursorCoord)
    requires |lines| > 0 && |lines[|lines| - 1].cells| > 0
    ensures At(lines, r)
  {
    var line := lines[|lines| - 1];
    CursorCoord(|lines| - 1, LastCoord(line).0, LastCoord(line).1)
  }

  /** moveCursorLeft's step: back one unit, else to the end of the previous cell, else of the previous line. */
  function StepLeft(lines: seq<LineData>, c: CursorCoord): CursorCoord
    requires At(lines, c) && Grid(lines)
  {
    if c.offset > 0 then c.(offset := c.offset - 1)
    else if c.cellNo > 0 then
      CursorCoord(c.lineNo, c.cellNo - 1, |lines[c.lineNo].cells[c.cellNo - 1].text|)
    else if c.lineNo > 0 then
      var (cellNo, offset) := LastCoord(lines[c.lineNo - 1]);
      CursorCoord(c.lineNo - 1, cellNo, offset)
    else c
  }

  /** moveCursorRight's step: on one unit, else to the start of the next cell, else of the next line. */
  function StepRight(lines: seq<LineData>, c: CursorCoord): CursorCoord
    requires At(lines, c)
  {
    if c.offset < |lines[c.lineNo].cells[c.cellNo].text| then c.(offset := c.offset + 1)
    else if c.cellNo < |lines[c.lineNo].cells| - 1 then CursorCoord(c.lineNo, c.cellNo + 1, 0)
    else if c.lineNo < |lines| - 1 then CursorCoord(c.lineNo + 1, 0, 0)
    else c
  }

  /** moveCursorUp on the first line: the start of that line's first cell. */
  function UpOnFirstLine(c: CursorCoord): CursorCoord
    requires c.lineNo == 0
  {
    c.(cellNo := 0, offset := 0)
  }

  /** moveCursorDown on the last line: past the text of that line's last cell. */
  function DownOnLastLine(lines: seq<LineData>, c: CursorCoord): CursorCoord
    requires 0 <= c.lineNo < |lines| && |lines[c.lineNo].cells| > 0
  {
    var (cellNo, offset) := LastCoord(lines[c.lineNo]);
    c.(cellNo := cellNo, offset := offset)
  }

  // ------------------------------------------------------ the cursor moves

  /** A left step stays on the grid, and it moves back in reading order unless it is at the first position. */
  lemma {:induction false} LeftSpec(lines: seq<LineData>, c: CursorCoord)
    requires At(lines, c) && Grid(lines)
    ensures At(lines, StepLeft(lines, c))
    ensures StepLeft(lines, c) == c <==> c == Begin
    ensures c != Begin ==> Before(StepLeft(lines, c), c)
  {
  }

  /** A right step stays on the grid, and it moves on in reading order unless it is at the last position. */
  lemma {:induction false} RightSpec(lines: seq<LineData>, c: CursorCoord)
    requires At(lines, c) && Grid(lines)
    ensures At(lines, StepRight(lines, c))
    ensures StepRight(lines, c) == c <==> c == End(lines)
    ensures c != End(lines) ==> Before(c, StepRight(lines, c))
  {
  }

  /** A left step undoes a right step that moved. */
  lemma {:induction false} LeftUndoesRight(lines: seq<LineData>, c: CursorCoord)
    requires At(lines, c) && Grid(lines) && c != End(lines)
    ensures StepLeft(lines, StepRight(lines, c)) == c
  {
    RightSpec(lines, c);
  }

  /** A right step undoes a left step that moved. */
  lemma {:induction false} RightUndoesLeft(lines: seq<LineData>, c: CursorCoord)
    requires At(lines, c) && Grid(lines) && c != Begin
    ensures StepRight(lines, StepLeft(lines, c)) == c
  {
    LeftSpec(lines, c);
  }

  /** Up on the first line lands on the first position, where a left step stays. */
  lemma {:induction false} UpOnFirstLineIsBegin(lines: seq<LineData>, c: CursorCoord)
    requires At(lines, c) && Grid(lines) && c.lineNo == 0
    ensures UpOnFirstLine(c) == Begin && At(lines, Begin)
    ensures StepLeft(lines, UpOnFirstLine(c)) == UpOnFirstLine(c)
  {
  }

  /** Down on the last line lands on the last position, where a right step stays. */
  lemma {:induction false} DownOnLastLineIsEnd(lines: seq<LineData>, c: CursorCoord)
    requires At(lines, c) && Grid(lines) && c.lineNo == |lines| - 1
    ensures DownOnLastLine(lines, c) == End(lines)
    ensures StepRight(lines, DownOnLastLine(lines, c)) == DownOnLastLine(lines, c)
  {
    RightSpec(lines, End(lines));
  }

  // ------------------------------------------------- the search under x

  /** C++ division of an int by two, which truncates toward zero. */
  function Half(w: int): (r: int)
    ensures 2 * r == w || 2 * r == w - 1 || 2 * r == w + 1
    ensures w >= 0 ==> 0 <= r <= w && 2 * r <= w
    ensures w < 0 ==> w <= r <= 0 && 2 * r >= w
  {
    if w >= 0 then w / 2 else -((-w) / 2)
  }

  /** A character the search finds: its cell and offset, and the cursor's new x, y and height. */
  datatype Hit = Hit(cellNo: int, offset: int, x: int, y: int, height: int)

  /**
   * A cell's rectangle spans x across its width: from its left edge to
   * before its right edge for moveCursorDown, to its right edge included
   * for moveCursorUp.
   */
  predicate Spans(rect: Rect, x: int, up: bool)
  {
    rect.x <= x && (if up then x <= rect.x + rect.width else x < rect.x + rect.width)
  }

  /**
   * The walk over a cell's characters from the j-th, whose left edge is
   * left: the first character whose advance w holds x gives the offset
   * before it, or after it when x lies more than w / 2 past its left edge,
   * and the new x at its right edge less one.
   */
  function TextSearch(advance: (Font, QString) -> int, cell: Cell, x: int, j: nat, left: int): Option<(int, int)>
    requires j <= |cell.text|
    decreases |cell.text| - j
  {
    if j == |cell.text| then None
    else
      var w := advance(cell.font, [cell.text[j]]);
      if left <= x <= left + w then Some((if x - left > Half(w) then j + 1 else j, left + w - 1))
      else TextSearch(advance, cell, x, j + 1, left + w)
  }

  /** The walk over a line's cells from the i-th: the first cell that spans x and holds a character under it. */
  function LineSearch(advance: (Font, QString) -> int, line: LineData, x: int, up: bool, i: nat): Option<Hit>
    requires i <= |line.cells|
    decreases |line.cells| - i
  {
    if i == |line.cells| then None
    else
      var cell := line.cells[i];
      var found := if Spans(cell.rect, x, up) then TextSearch(advance, cell, x, 0, cell.rect.x) else None;
      match found
      case Some((offset, newX)) => Some(Hit(i, offset, newX, cell.rect.y, cell.rect.height))
      case None => LineSearch(advance, line, x, up, i + 1)
  }

  /**
   * Where a move onto the line numbered lineNo leaves a cursor at x, y with
   * the given height: at the character found, or at the line's last
   * position with its place kept.
   */
  function IntoLine(advance: (Font, QString) -> int, line: LineData, lineNo: int, x: int, y: int, height: int, up: bool)
    : (CursorCoord, int, int, int)
    requires |line.cells| > 0
  {
    match LineSearch(advance, line, x, up, 0)
    case Some(h) => (CursorCoord(lineNo, h.cellNo, h.offset), h.x, h.y, h.height)
    case None => (CursorCoord(lineNo, LastCoord(line).0, LastCoord(line).1), x, y, height)
  }

  /** A character found from the j-th on is at offset j or later, within the text, and x lies at most one past the new x. */
  lemma {:induction false} TextSearchLands(advance: (Font, QString) -> int, cell: Cell, x: int, j: nat, left: int)
    requires j <= |cell.text|
    ensures var r := TextSearch(advance, cell, x, j, left);
            r.Some? ==> j <= r.value.0 <= |cell.text| && x <= r.value.1 + 1
    decreases |cell.text| - j
  {
    if j < |cell.text| {
      var w := advance(cell.font, [cell.text[j]]);
      if !(left <= x <= left + w) {
        TextSearchLands(advance, cell, x, j + 1, left + w);
      }
    }
  }

  /**
   * A hit from the i-th cell on names a cell at i or later that spans x,
   * an offset within its text, the cell's top and height, and x at most one
   * past the new x; every cell before it either does not span x or holds no
   * character under it.
   */
  lemma {:induction false} LineSearchLands(advance: (Font, QString) -> int, line: LineData, x: int, up: bool, i: nat)
    requires i <= |line.cells|
    ensures var r := LineSearch(advance, line, x, up, i);
            r.Some? ==>
              && i <= r.value.cellNo < |line.cells|
              && Spans(line.cells[r.value.cellNo].rect, x, up)
              && 0 <= r.value.offset <= |line.cells[r.value.cellNo].text|
              && r.value.y == line.cells[r.value.cellNo].rect.y
              && r.value.height == line.cells[r.value.cellNo].rect.height
              && x <= r.value.x + 1
              && forall k :: i <= k < r.value.cellNo ==>
                   !Spans(line.cells[k].rect, x, up) || TextSearch(advance, line.cells[k], x, 0, line.cells[k].rect.x).None?
    decreases |line.cells| - i
  {
    if i < |line.cells| {
      var cell := line.cells[i];
      if Spans(cell.rect, x, up) {
        TextSearchLands(advance, cell, x, 0, cell.rect.x);
      }
      LineSearchLands(advance, line, x, up, i + 1);
    }
  }

  /** When no cell from the i-th on spans x, nothing is found. */
  lemma {:induction false} NoSpanNoHit(advance: (Font, QString) -> int, line: LineData, x: int, up: bool, i: nat)
    requires i <= |line.cells|
    requires forall k :: i <= k < |line.cells| ==> !Spans(line.cells[k].rect, x, up)
    ensures LineSearch(advance, line, x, up, i) == None
    decreases |line.cells| - i
  {
    if i < |line.cells| {
      NoSpanNoHit(advance, line, x, up, i + 1);
    }
  }

  /** Up and down moves land on the grid, whether or not the search finds a character. */
  lemma IntoLineOnGrid(advance: (Font, QString) -> int, lines: seq<LineData>, lineNo: int, x: int, y: int, height: int, up: bool)
    requires Grid(lines) && 0 <= lineNo < |lines|
    ensures At(lines, IntoLine(advance, lines[lineNo], lineNo, x, y, height, up).0)
  {
    LineSearchLands(advance, lines[lineNo], x, up, 0);
  }

  /**
   * One cell from 0 to 8 holding one character 8 wide. A cursor at x 5
   * lands after the character, at x 7, moving either way. At x 8, on the
   * right edge, moving up finds the character and moving down does not, and
   * goes to the line's last position keeping x 8.
   */
  lemma UpAndDownAtTheRightEdge()
    ensures var line := LineData([Cell(DefaultFont, Rect(0, 30, 8, 20), [97])]);
            var advance := (f: Font, s: QString) => 8 * |s|;
            && IntoLine(advance, line, 1, 5, 0, 20, false) == (CursorCoord(1, 0, 1), 7, 30, 20)
            && IntoLine(advance, line, 1, 5, 0, 20, true) == (CursorCoord(1, 0, 1), 7, 30, 20)
            && IntoLine(advance, line, 1, 8, 0, 20, true) == (CursorCoord(1, 0, 1), 7, 30, 20)
            && IntoLine(advance, line, 1, 8, 0, 20, false) == (CursorCoord(1, 0, 1), 8, 0, 20)
  {
    var cell := Cell(DefaultFont, Rect(0, 30, 8, 20), [97]);
    var line := LineData([cell]);
    var advance := (f: Font, s: QString) => 8 * |s|;
    assert advance(cell.font, [cell.text[0]]) == 8;
    assert TextSearch(advance, cell, 5, 0, 0) == Some((1, 7));
    assert TextSearch(advance, cell, 8, 0, 0) == Some((1, 7));
    assert LineSearch(advance, line, 5, false, 1) == None;
    assert LineSearch(advance, line, 8, false, 1) == None;
    assert !Spans(cell.rect, 8, false);
  }

  // ---------------------------------------------------------- the render

  /**
   * Render: the pen position, the tallest rectangle of the current line,
   * the lines of cells drawn so far, the font and font stack of the
   * calculate-only mode, and the painter's font and save stack. The
   * metrics are the font metrics the layout asks: the advance of a text
   * in a font, and the bounding rectangle of a text laid out from a
   * rectangle.
   */
  class Render {
    const setting: RenderSetting
    const advance: (Font, QString) -> int
    const bounding: (Font, Rect, QString) -> Rect
    var justCalculate: bool
    var curX: int
    var curY: int
    var lastMaxHeight: int
    var lastMaxWidth: int
    var lines: seq<LineData>
    var font: Font
    var fonts: seq<Font>
    var hasPainter: bool
    var painterFont: Font
    var painterSaved: seq<Font>

    /** The tallest rectangle of the line is never negative. */
    predicate Valid()
      reads this
    {
      lastMaxHeight >= 0
    }

    /** The constructor: no painter, not in calculate-only mode, then reset(nullptr). */
    constructor(setting: RenderSetting, advance: (Font, QString) -> int, bounding: (Font, Rect, QString) -> Rect)
      ensures Valid() && this.setting == setting && this.advance == advance && this.bounding == bounding
      ensures !justCalculate && !hasPainter && lastMaxWidth == setting.maxWidth
      ensures curX == setting.marginLeft && curY == setting.marginTop && lastMaxHeight == 0
      ensures lines == [] && font == DefaultFont && fonts == [] && painterSaved == []
    {
      this.setting := setting;
      this.advance := advance;
      this.bounding := bounding;
      justCalculate := false;
      hasPainter := false;
      lastMaxWidth := setting.maxWidth;
      painterFont := DefaultFont;
      painterSaved := [];
      fonts := [];
      curX := setting.marginLeft;
      curY := setting.marginTop;
      lastMaxHeight := 0;
      font := DefaultFont;
      lines := [];
    }

    /** The font the layout measures with: the own font when only calculating, else the painter's. */
    function CurFont(): Font
      reads this
    {
      if justCalculate then font else painterFont
    }

    /**
     * reset: the pen back at the top-left margins, no line height, no
     * lines; the default font goes to the new painter when there is one,
     * else to the own font.
     */
    method Reset(painter: bool)
      modifies this
      ensures Valid()
      ensures curX == setting.marginLeft && curY == setting.marginTop && lastMaxHeight == 0 && lines == []
      ensures painter ==> hasPainter && painterFont == DefaultFont && painterSaved == [] && font == old(font)
      ensures !painter ==> font == DefaultFont && hasPainter == old(hasPainter)
                           && painterFont == old(painterFont) && painterSaved == old(painterSaved)
      ensures justCalculate == old(justCalculate) && fonts == old(fonts) && lastMaxWidth == old(lastMaxWidth)
    {
      curX := setting.marginLeft;
      curY := setting.marginTop;
      lastMaxHeight := 0;
      if painter {
        hasPainter := true;
        painterSaved := [];
        painterFont := DefaultFont;
      } else {
        font := DefaultFont;
      }
      lines := [];
    }

    /** setJustCalculate. */
    method SetJustCalculate(flag: bool)
      modifies this
      ensures justCalculate == flag
      ensures curX == old(curX) && curY == old(curY) && lastMaxHeight == old(lastMaxHeight) && lines == old(lines)
      ensures font == old(font) && fonts == old(fonts) && painterFont == old(painterFont) && painterSaved == old(painterSaved)
    {
      justCalculate := flag;
    }

    /** save: push the current font on the own stack when only calculating, else save the painter. */
    method Save()
      requires justCalculate || hasPainter
      modifies this
      ensures justCalculate ==> fonts == old(fonts) + [old(font)] && painterSaved == old(painterSaved)
      ensures !justCalculate ==> painterSaved == old(painterSaved) + [old(painterFont)] && fonts == old(fonts)
      ensures font == old(font) && painterFont == old(painterFont) && justCalculate == old(justCalculate) && hasPainter == old(hasPainter)
      ensures curX == old(curX) && curY == old(curY) && lastMaxHeight == old(lastMaxHeight) && lines == old(lines)
    {
      if justCalculate {
        fonts := fonts + [CurFont()];
      } else {
        painterSaved := painterSaved + [painterFont];
      }
    }

    /**
     * restore: pop the own stack into the font when only calculating (the
     * stack must not be empty), else restore the painter, which ignores an
     * unbalanced restore.
     */
    method Restore()
      requires justCalculate ==> |fonts| > 0
      requires justCalculate || hasPainter
      modifies this
      ensures old(justCalculate) ==> font == old(fonts)[|old(fonts)| - 1] && fonts == old(fonts)[..|old(fonts)| - 1]
                                     && painterFont == old(painterFont) && painterSaved == old(painterSaved)
      ensures !justCalculate && |old(painterSaved)| > 0 ==>
                painterFont == old(painterSaved)[|old(painterSaved)| - 1] && painterSaved == old(painterSaved)[..|old(painterSaved)| - 1]
      ensures !justCalculate && |old(painterSaved)| == 0 ==> painterFont == old(painterFont) && painterSaved == []
      ensures !justCalculate ==> font == old(font) && fonts == old(fonts)
      ensures justCalculate == old(justCalculate) && hasPainter == old(hasPainter)
      ensures curX == old(curX) && curY == old(curY) && lastMaxHeight == old(lastMaxHeight) && lines == old(lines)
    {
      if justCalculate {
        font := fonts[|fonts| - 1];
        fonts := fonts[..|fonts| - 1];
      } else if |painterSaved| > 0 {
        painterFont := painterSaved[|painterSaved| - 1];
        painterSaved := painterSaved[..|painterSaved| - 1];
      }
    }

    /** setFont: the own font when only calculating, else the painter's. */
    method SetFont(f: Font)
      requires justCalculate || hasPainter
      modifies this
      ensures CurFont() == f
      ensures justCalculate ==> painterFont == old(painterFont)
      ensures !justCalculate ==> font == old(font)
      ensures fonts == old(fonts) && painterSaved == old(painterSaved) && justCalculate == old(justCalculate) && hasPainter == old(hasPainter)
      ensures curX == old(curX) && curY == old(curY) && lastMaxHeight == old(lastMaxHeight) && lines == old(lines)
    {
      if justCalculate {
        font := f;
      } else {
        painterFont := f;
      }
    }

    /**
     * The save, setFont, ..., restore bracket the visits use around a
     * node drawn in its own font: afterwards the font and both stacks are
     * as before.
     */
    method WithFont(f: Font)
      requires justCalculate || hasPainter
      modifies this
      ensures CurFont() == old(CurFont()) && font == old(font) && fonts == old(fonts)
      ensures painterFont == old(painterFont) && painterSaved == old(painterSaved)
      ensures curX == old(curX) && curY == old(curY) && lastMaxHeight == old(lastMaxHeight) && lines == old(lines)
    {
      Save();
      SetFont(f);
      Restore();
    }

    /**
     * moveToNewLine: the pen goes below the current line (its tallest
     * rectangle plus the line spacing) at the left margin, and a new empty
     * line begins.
     */
    method MoveToNewLine()
      requires Valid()
      modifies this
      ensures Valid()
      ensures curY == old(curY) + old(lastMaxHeight) + setting.lineSpacing
      ensures curX == setting.marginLeft && lastMaxHeight == 0
      ensures lines == old(lines) + [LineData([])]
      ensures font == old(font) && fonts == old(fonts) && justCalculate == old(justCalculate)
      ensures painterFont == old(painterFont) && painterSaved == old(painterSaved)
    {
      curY := curY + lastMaxHeight;
      curX := setting.marginLeft;
      curY := curY + setting.lineSpacing;
      lastMaxHeight := 0;
      lines := lines + [LineData([])];
    }

    /** currentLineCanDrawText: the text's advance still ends before the content width. */
    function CanDraw(text: QString): bool
      reads this
    {
      curX + advance(CurFont(), text) < ContentMaxWidth(setting)
    }

    /**
     * drawTextInCurrentLine with both adjustments: the text's bounding
     * rectangle from the pen, the pen moved past it, the line's height
     * raised to it.
     */
    method DrawTextInCurrentLine(text: QString) returns (rect: Rect)
      requires Valid()
      modifies this
      ensures Valid()
      ensures rect == bounding(CurFont(), Rect(old(curX), curY, ContentMaxWidth(setting), 0), text)
      ensures curX == old(curX) + rect.width && curY == old(curY)
      ensures lastMaxHeight == if rect.height > old(lastMaxHeight) then rect.height else old(lastMaxHeight)
      ensures lines == old(lines) && font == old(font) && fonts == old(fonts) && justCalculate == old(justCalculate)
      ensures painterFont == old(painterFont) && painterSaved == old(painterSaved)
    {
      rect := bounding(CurFont(), Rect(curX, curY, ContentMaxWidth(setting), 0), text);
      curX := curX + rect.width;
      if rect.height > lastMaxHeight {
        lastMaxHeight := rect.height;
      }
    }

    /**
     * drawText for a carriage return, an empty text and a text that fits
     * on the current line: the first two draw nothing and change nothing;
     * the third draws one rectangle and adds one cell to the last line.
     */
    method DrawText(text: QString) returns (rects: seq<Rect>)
      requires Valid()
      requires text == Lit("\r") || |text| == 0 || (CanDraw(text) && |lines| > 0)
      modifies this
      ensures Valid()
      ensures text == Lit("\r") || |text| == 0 ==>
                rects == [] && curX == old(curX) && curY == old(curY) && lastMaxHeight == old(lastMaxHeight)
                && lines == old(lines)
      ensures text != Lit("\r") && |text| > 0 ==>
                |rects| == 1 && |lines| == |old(lines)| && lines[..|lines| - 1] == old(lines)[..|lines| - 1]
                && lines[|lines| - 1].cells == old(lines)[|lines| - 1].cells + [Cell(CurFont(), rects[0], text)]
                && curX == old(curX) + rects[0].width && curY == old(curY)
      ensures font == old(font) && fonts == old(fonts) && justCalculate == old(justCalculate)
      ensures painterFont == old(painterFont) && painterSaved == old(painterSaved)
    {
      if text == Lit("\r") {
        return [];
      }
      if |text| == 0 {
        return [];
      }
      var rect := DrawTextInCurrentLine(text);
      rects := [rect];
      var last := lines[|lines| - 1];
      lines := lines[|lines| - 1 := LineData(last.cells + [Cell(CurFont(), rect, text)])];
    }

    /** moveCursorLeft: nothing without a cursor, else the left step. */
    method MoveCursorLeft(cursor: Cursor?)
      requires cursor != null ==> At(lines, cursor.coord) && Grid(lines)
      modifies cursor
      ensures cursor != null ==> cursor.coord == StepLeft(lines, old(cursor.coord))
                                 && cursor.x == old(cursor.x) && cursor.y == old(cursor.y) && cursor.height == old(cursor.height)
    {
      if cursor == null {
        return;
      }
      var coord := cursor.coord;
      if coord.offset > 0 {
        coord := coord.(offset := coord.offset - 1);
        cursor.coord := coord;
        return;
      }
      if coord.cellNo > 0 {
        coord := coord.(cellNo := coord.cellNo - 1);
        coord := coord.(offset := |lines[coord.lineNo].cells[coord.cellNo].text|);
        cursor.coord := coord;
        return;
      }
      if coord.lineNo > 0 {
        coord := coord.(lineNo := coord.lineNo - 1);
        coord := coord.(cellNo := |lines[coord.lineNo].cells| - 1);
        coord := coord.(offset := |lines[coord.lineNo].cells[coord.cellNo].text|);
        cursor.coord := coord;
        return;
      }
    }

    /** moveCursorRight: nothing without a cursor, else the right step. */
    method MoveCursorRight(cursor: Cursor?)
      requires cursor != null ==> At(lines, cursor.coord)
      modifies cursor
      ensures cursor != null ==> cursor.coord == StepRight(lines, old(cursor.coord))
                                 && cursor.x == old(cursor.x) && cursor.y == old(cursor.y) && cursor.height == old(cursor.height)
    {
      if cursor == null {
        return;
      }
      var coord := cursor.coord;
      if coord.offset < |lines[coord.lineNo].cells[coord.cellNo].text| {
        coord := coord.(offset := coord.offset + 1);
        cursor.coord := coord;
        return;
      }
      if coord.cellNo < |lines[coord.lineNo].cells| - 1 {
        coord := coord.(cellNo := coord.cellNo + 1, offset := 0);
        cursor.coord := coord;
        return;
      }
      if coord.lineNo < |lines| - 1 {
        coord := coord.(lineNo := coord.lineNo + 1, cellNo := 0, offset := 0);
        cursor.coord := coord;
        return;
      }
    }

    /**
     * moveCursorUp: on the first line, to its start; otherwise onto the line
     * above, where the search under the cursor's x decides.
     */
    method MoveCursorUp(cursor: Cursor?)
      requires cursor != null ==> 0 <= cursor.coord.lineNo < |lines| && Grid(lines)
      modifies cursor
      ensures cursor != null && old(cursor.coord.lineNo) == 0 ==>
                cursor.coord == UpOnFirstLine(old(cursor.coord))
                && cursor.x == old(cursor.x) && cursor.y == old(cursor.y) && cursor.height == old(cursor.height)
      ensures cursor != null && old(cursor.coord.lineNo) > 0 ==>
                var n := old(cursor.coord.lineNo) - 1;
                (cursor.coord, cursor.x, cursor.y, cursor.height)
                == IntoLine(advance, lines[n], n, old(cursor.x), old(cursor.y), old(cursor.height), true)
    {
      if cursor == null {
        return;
      }
      var coord := cursor.coord;
      if coord.lineNo > 0 {
        coord := coord.(lineNo := coord.lineNo - 1);
        MoveIntoLine(cursor, coord, true);
        return;
      }
      coord := coord.(cellNo := 0, offset := 0);
      cursor.coord := coord;
    }

    /**
     * moveCursorDown: on the last line, to its end; otherwise onto the line
     * below, where the search under the cursor's x decides.
     */
    method MoveCursorDown(cursor: Cursor?)
      requires cursor != null ==> 0 <= cursor.coord.lineNo < |lines| && Grid(lines)
      modifies cursor
      ensures cursor != null && old(cursor.coord.lineNo) == |lines| - 1 ==>
                cursor.coord == DownOnLastLine(lines, old(cursor.coord))
                && cursor.x == old(cursor.x) && cursor.y == old(cursor.y) && cursor.height == old(cursor.height)
      ensures cursor != null && old(cursor.coord.lineNo) < |lines| - 1 ==>
                var n := old(cursor.coord.lineNo) + 1;
                (cursor.coord, cursor.x, cursor.y, cursor.height)
                == IntoLine(advance, lines[n], n, old(cursor.x), old(cursor.y), old(cursor.height), false)
    {
      if cursor == null {
        return;
      }
      var coord := cursor.coord;
      if coord.lineNo < |lines| - 1 {
        coord := coord.(lineNo := coord.lineNo + 1);
        MoveIntoLine(cursor, coord, false);
        return;
      }
      var line := lines[coord.lineNo];
      coord := coord.(cellNo := |line.cells| - 1);
      coord := coord.(offset := |line.cells[coord.cellNo].text|);
      cursor.coord := coord;
    }

    /**
     * The search both moves make on the line they enter (the source repeats
     * it in each; `up` selects moveCursorUp's inclusive right edge). Over the
     * cells that span the cursor's x, over their characters measured one by
     * one: the first character that holds x sets the coordinate and moves the
     * cursor to that character's right edge less one, on the cell's top, with
     * the cell's height. Without one the cursor goes to the line's last
     * position and keeps its place.
     */
    method MoveIntoLine(cursor: Cursor, coord: CursorCoord, up: bool)
      requires 0 <= coord.lineNo < |lines| && Grid(lines)
      modifies cursor
      ensures (cursor.coord, cursor.x, cursor.y, cursor.height)
              == IntoLine(advance, lines[coord.lineNo], coord.lineNo, old(cursor.x), old(cursor.y), old(cursor.height), up)
    {
      var line := lines[coord.lineNo];
      var x := cursor.x;
      var i := 0;
      while i < |line.cells|
        invariant 0 <= i <= |line.cells|
        invariant LineSearch(advance, line, x, up, i) == LineSearch(advance, line, x, up, 0)
      {
        var cell := line.cells[i];
        var rect := cell.rect;
        if rect.x <= x && (if up then x <= rect.x + rect.width else x < rect.x + rect.width) {
          var newX := rect.x;
          var j := 0;
          while j < |cell.text|
            invariant 0 <= j <= |cell.text|
            invariant TextSearch(advance, cell, x, j, newX) == TextSearch(advance, cell, x, 0, rect.x)
          {
            var w := advance(cell.font, [cell.text[j]]);
            if newX <= x && x <= newX + w {
              var offset := if x - newX > Half(w) then j + 1 else j;
              cursor.coord := coord.(cellNo := i, offset := offset);
              cursor.x, cursor.y := newX + w - 1, rect.y;
              cursor.height := rect.height;
              return;
            }
            newX := newX + w;
            j := j + 1;
          }
        }
        i := i + 1;
      }
      var (cellNo, offset) := LastCoord(line);
      cursor.coord := coord.(cellNo := cellNo, offset := offset);
    }
  }
}
