// src/editor/Cursor.h and src/editor/Cursor.cpp: the editor cursor (a
// coordinate, a screen position and a caret height) and the selection range.

module Cursors {
  import opened Coords
  import opened Geometry

  /** A cursor as a value, the form in which SelectionRange stores and returns it. */
  datatype CursorValue = CursorValue(coord: CursorCoord, pos: Point, height: int)

  /** The caret height a new cursor starts with. */
  const DefaultHeight := 20

  /** Cursor: three fields, each with its own setter. */
  class Cursor {
    var coord: CursorCoord
    var pos: Point
    var h: int

    /** A new cursor sits at coordinate (0, 0, 0), position (0, 0), height 20. */
    constructor()
      ensures coord == Origin && pos == Point(0, 0) && h == DefaultHeight
    {
      coord := Origin;
      pos := Point(0, 0);
      h := DefaultHeight;
    }

    /** The cursor's current state as a value (what copying a Cursor yields). */
    function Value(): CursorValue
      reads this
    {
      CursorValue(coord, pos, h)
    }

    method SetCoord(c: CursorCoord)
      modifies this
      ensures coord == c && pos == old(pos) && h == old(h)
    {
      coord := c;
    }

    /** setX: only the x part of the position changes. */
    method SetX(x: int)
      modifies this
      ensures pos == Point(x, old(pos).y) && coord == old(coord) && h == old(h)
    {
      pos := pos.(x := x);
    }

    method SetPos(p: Point)
      modifies this
      ensures pos == p && coord == old(coord) && h == old(h)
    {
      pos := p;
    }

    method SetHeight(height: int)
      modifies this
      ensures h == height && coord == old(coord) && pos == old(pos)
    {
      h := height;
    }
  }

  /** SelectionRange: the caret and the anchor, both held by value. */
  datatype SelectionRange = SelectionRange(caret: CursorValue, anchor: CursorValue)

  /**
   * range(): the two ends of the selection in document order. The pair is the
   * caret and the anchor in some order, and the first does not come after the
   * second.
   */
  function Range(s: SelectionRange): (r: (CursorValue, CursorValue))
    ensures LessEq(r.0.coord, r.1.coord)
    ensures r == (s.caret, s.anchor) || r == (s.anchor, s.caret)
    ensures Less(r.0.coord, r.1.coord) || Equal(r.0.coord, r.1.coord)
  {
    DerivedOperators(s.anchor.coord, s.caret.coord);
    Trichotomy(s.caret.coord, s.anchor.coord);
    if Less(s.caret.coord, s.anchor.coord) then (s.caret, s.anchor) else (s.anchor, s.caret)
  }

  /**
   * Swapping caret and anchor does not change the range when their coordinates
   * differ; when they coincide, range() puts the anchor first.
   */
  lemma {:induction false} RangeIgnoresDirection(a: CursorValue, b: CursorValue)
    ensures a.coord != b.coord ==> Range(SelectionRange(a, b)) == Range(SelectionRange(b, a))
    ensures a.coord == b.coord ==> Range(SelectionRange(a, b)) == (b, a)
  {
    Trichotomy(a.coord, b.coord);
    EqualIsIdentity(a.coord, b.coord);
  }
}
