// src/render/Cell.cpp: the cells a rendered line is made of, their logical
// length and the pixel width of a prefix of them.

module Cells {
  import opened QStr
  import opened Geometry

  /**
   * A cell: a span of a parser Text (`offset`, `length` into that Text's
   * string), a fixed string, or an image. Every cell has a position and a size.
   */
  datatype Cell =
    | TextCell(pos: Point, size: Size, offset: int, length: int)
    | StaticTextCell(pos: Point, size: Size, text: QString)
    | ImageCell(pos: Point, size: Size)

  /** length(): the number of logical positions (code units, or 1 for an image). */
  function Length(c: Cell): int
  {
    match c
    case TextCell(_, _, _, length) => length
    case StaticTextCell(_, _, text) => |text|
    case ImageCell(_, _) => 1
  }

  /**
   * The units a text cell shows: its span of the Text's string `source`, cut
   * with QString::mid, or the static text. An image shows none.
   */
  function Shown(c: Cell, source: QString): QString
  {
    match c
    case TextCell(_, _, offset, length) => Mid(source, offset, length)
    case StaticTextCell(_, _, text) => text
    case ImageCell(_, _) => []
  }

  /** The bound width(length) asserts for text cells: 0 <= length <= the cell's length. */
  predicate WidthAllowed(c: Cell, n: int)
  {
    c.ImageCell? || 0 <= n <= Length(c)
  }

  /** The prefix of the shown units whose advance width(length) measures. */
  function Measured(c: Cell, n: int, source: QString): (r: QString)
    requires WidthAllowed(c, n)
    ensures !c.ImageCell? ==> |r| <= n && |r| <= |Shown(c, source)| && r == Shown(c, source)[..|r|]
    ensures !c.ImageCell? && n <= |Shown(c, source)| ==> |r| == n
  {
    if c.ImageCell? then [] else Left(Shown(c, source), n)
  }

  /**
   * width(length): the font's horizontal advance of the measured prefix for a
   * text cell; for an image 0 when nothing is covered and the full image width
   * otherwise. The font metrics are the parameter `advance`.
   */
  function Width(c: Cell, n: int, source: QString, advance: QString -> int): int
    requires WidthAllowed(c, n)
  {
    if c.ImageCell? then (if n == 0 then 0 else c.size.width)
    else advance(Measured(c, n, source))
  }

  /** The span of a text cell lies inside the Text's string. */
  predicate SpanInside(c: Cell, source: QString)
  {
    c.TextCell? ==> 0 <= c.offset && 0 <= c.length && c.offset + c.length <= |source|
  }

  /**
   * The logical length counts exactly the units a text cell shows, so measuring
   * the whole length measures the whole cell; an image covers one position
   * and is as wide as its picture once that position is covered.
   */
  lemma {:induction false} WholeCellMeasured(c: Cell, source: QString, advance: QString -> int)
    requires SpanInside(c, source)
    ensures !c.ImageCell? ==> |Shown(c, source)| == Length(c)
    ensures WidthAllowed(c, Length(c)) && WidthAllowed(c, 0)
    ensures !c.ImageCell? ==> Measured(c, Length(c), source) == Shown(c, source)
    ensures Width(c, Length(c), source, advance) == (if c.ImageCell? then c.size.width else advance(Shown(c, source)))
    ensures c.ImageCell? ==> Width(c, 0, source, advance) == 0
  {
  }

  /** A longer prefix measures a text that extends the shorter one. */
  lemma {:induction false} MeasuredGrows(c: Cell, m: int, n: int, source: QString)
    requires !c.ImageCell? && 0 <= m <= n <= Length(c)
    ensures Measured(c, m, source) == Measured(c, n, source)[..|Measured(c, m, source)|]
  {
  }
}
