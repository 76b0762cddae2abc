// src/editor/CursorCoord.cpp and CursorCoord.h: the editor's cursor
// coordinate and its comparison operators.

module Coords {

  /** CursorCoord: block index, logical line in the block, offset in the line. */
  datatype CursorCoord = CursorCoord(blockNo: int, lineNo: int, offset: int)

  /** The default-initialised coordinate. */
  const Origin := CursorCoord(0, 0, 0)

  /** operator<: block first, then line, then offset. */
  predicate Less(a: CursorCoord, b: CursorCoord)
  {
    if a.blockNo < b.blockNo then true
    else if b.blockNo < a.blockNo then false
    else if a.lineNo < b.lineNo then true
    else if b.lineNo < a.lineNo then false
    else a.offset < b.offset
  }

  /** operator>: the arguments of operator< swapped. */
  predicate Greater(a: CursorCoord, b: CursorCoord)
  {
    Less(b, a)
  }

  /** operator<=: not greater. */
  predicate LessEq(a: CursorCoord, b: CursorCoord)
  {
    !Less(b, a)
  }

  /** operator>=: not less. */
  predicate GreaterEq(a: CursorCoord, b: CursorCoord)
  {
    !Less(a, b)
  }

  /** operator==: all three fields agree. */
  predicate Equal(a: CursorCoord, b: CursorCoord)
  {
    a.blockNo == b.blockNo && a.lineNo == b.lineNo && a.offset == b.offset
  }

  /** operator!=: the negation of operator== with the arguments swapped. */
  predicate NotEqual(a: CursorCoord, b: CursorCoord)
  {
    !Equal(b, a)
  }

  /** The fields as a triple, for the lexicographic reading of the order. */
  function Key(c: CursorCoord): (int, int, int)
  {
    (c.blockNo, c.lineNo, c.offset)
  }

  /** Lexicographic order on triples, stated independently of operator<. */
  predicate LexLess(x: (int, int, int), y: (int, int, int))
  {
    x.0 < y.0 || (x.0 == y.0 && (x.1 < y.1 || (x.1 == y.1 && x.2 < y.2)))
  }

  /** operator< is the lexicographic order on (blockNo, lineNo, offset). */
  lemma {:induction false} LessIsLexicographic(a: CursorCoord, b: CursorCoord)
    ensures Less(a, b) <==> LexLess(Key(a), Key(b))
  {
  }

  /** operator== is equality of coordinates, and operator!= its negation. */
  lemma {:induction false} EqualIsIdentity(a: CursorCoord, b: CursorCoord)
    ensures Equal(a, b) <==> a == b
    ensures NotEqual(a, b) <==> a != b
  {
  }

  /** No coordinate is less than itself. */
  lemma {:induction false} LessIrreflexive(a: CursorCoord)
    ensures !Less(a, a)
  {
  }

  /** operator< is transitive. */
  lemma {:induction false} LessTransitive(a: CursorCoord, b: CursorCoord, c: CursorCoord)
    requires Less(a, b) && Less(b, c)
    ensures Less(a, c)
  {
  }

  /** For any two coordinates exactly one of a < b, a == b, a > b holds. */
  lemma {:induction false} Trichotomy(a: CursorCoord, b: CursorCoord)
    ensures Less(a, b) || Equal(a, b) || Greater(a, b)
    ensures !(Less(a, b) && Equal(a, b)) && !(Less(a, b) && Greater(a, b)) && !(Equal(a, b) && Greater(a, b))
  {
  }

  /** The derived operators: <= is < or ==, >= is > or ==. */
  lemma {:induction false} DerivedOperators(a: CursorCoord, b: CursorCoord)
    ensures LessEq(a, b) <==> Less(a, b) || Equal(a, b)
    ensures GreaterEq(a, b) <==> Greater(a, b) || Equal(a, b)
    ensures Greater(a, b) <==> Less(b, a)
  {
  }

  /** The default coordinate is below every coordinate with non-negative fields other than itself. */
  lemma {:induction false} OriginIsLeast(c: CursorCoord)
    requires c.blockNo >= 0 && c.lineNo >= 0 && c.offset >= 0
    ensures LessEq(Origin, c)
    ensures c != Origin ==> Less(Origin, c)
  {
  }
}
