// src/parser/PieceTable.cpp: one span of a piece table and its two renderings
// (the text it denotes and the debug form).

module PieceTable {
  import opened QStr

  /** Which of the document's two buffers a span points into. */
  datatype BufferType = original | add

  /** PieceTableItem: `length` code units of a buffer starting at `offset`. */
  datatype PieceTableItem = PieceTableItem(bufferType: BufferType, offset: int, length: int)

  /**
   * The two buffers owned by a document: the text as loaded (m_originalBuffer)
   * and everything typed since (m_addBuffer).
   */
  datatype Buffers = Buffers(original: QString, add: QString)

  function Buffer(bufs: Buffers, t: BufferType): QString
  {
    if t == original then bufs.original else bufs.add
  }

  /** The span lies inside the buffer it names. */
  predicate InBounds(item: PieceTableItem, bufs: Buffers)
  {
    0 <= item.offset && 0 <= item.length
    && item.offset + item.length <= |Buffer(bufs, item.bufferType)|
  }

  /**
   * PieceTableItem::toString: the slice of the selected buffer, cut with
   * QString::mid, so it is never longer than `length`. The trailing-newline
   * test in the source only logs.
   */
  function ItemString(item: PieceTableItem, bufs: Buffers): (r: QString)
    ensures 0 <= item.length ==> |r| <= item.length
    ensures InBounds(item, bufs) ==> r == Buffer(bufs, item.bufferType)[item.offset..item.offset + item.length]
    ensures item.offset > |Buffer(bufs, item.bufferType)| ==> r == []
  {
    if item.bufferType == original then Mid(bufs.original, item.offset, item.length)
    else Mid(bufs.add, item.offset, item.length)
  }

  /** An original span reads only the original buffer; an add span only the add buffer. */
  lemma {:induction false} ItemStringReadsOneBuffer(item: PieceTableItem, o: QString, a: QString, o': QString, a': QString)
    ensures item.bufferType == original ==> ItemString(item, Buffers(o, a)) == ItemString(item, Buffers(o, a'))
    ensures item.bufferType == add ==> ItemString(item, Buffers(o, a)) == ItemString(item, Buffers(o', a))
  {
  }

  /** Appending to a buffer does not change the text of a span that was already inside it. */
  lemma {:induction false} BufferGrowthKeepsSpan(item: PieceTableItem, bufs: Buffers, extra: QString)
    requires InBounds(item, bufs)
    ensures InBounds(item, Buffers(bufs.original, bufs.add + extra))
    ensures ItemString(item, Buffers(bufs.original, bufs.add + extra)) == ItemString(item, bufs)
  {
    var bufs' := Buffers(bufs.original, bufs.add + extra);
    if item.bufferType == add {
      assert Buffer(bufs', add)[item.offset..item.offset + item.length]
          == Buffer(bufs, add)[item.offset..item.offset + item.length];
    }
  }

  /** The name the debug formatter prints for a buffer type. */
  function BufferName(t: BufferType): QString
  {
    if t == original then Lit("original") else Lit("add")
  }

  /** The part of the debug form after the buffer name: `o, l)`. */
  function FieldsString(offset: int, length: int): QString
  {
    Number(offset) + (Lit(", ") + (Number(length) + Lit(")")))
  }

  /** The QDebug form of an item: `(original, o, l)` or `(add, o, l)`. */
  function DebugString(item: PieceTableItem): QString
  {
    Lit("(") + BufferName(item.bufferType) + Lit(", ") + FieldsString(item.offset, item.length)
  }

  /** The debug form names the buffer: its second unit is 'o' for original spans and 'a' for add spans. */
  lemma {:induction false} DebugStringNamesBuffer(item: PieceTableItem)
    ensures DebugString(item)[1] == (if item.bufferType == original then Unit('o') else Unit('a'))
  {
    var name := BufferName(item.bufferType);
    assert DebugString(item) == Lit("(") + (name + (Lit(", ") + FieldsString(item.offset, item.length)));
  }

  lemma {:induction false} PrefixCancel(h: QString, x: QString, y: QString)
    requires h + x == h + y
    ensures x == y
  {
    assert x == (h + x)[|h|..];
    assert y == (h + y)[|h|..];
  }

  /**
   * Two runs of digits followed by the same kind of text: if the texts agree,
   * the digit runs agree (the first non-digit ends both runs).
   */
  lemma {:induction false} DigitRunsAgree(x: QString, rx: QString, y: QString, ry: QString)
    requires forall i :: 0 <= i < |x| ==> IsAsciiDigit(x[i])
    requires forall i :: 0 <= i < |y| ==> IsAsciiDigit(y[i])
    requires |rx| > 0 && !IsAsciiDigit(rx[0])
    requires |ry| > 0 && !IsAsciiDigit(ry[0])
    requires x + rx == y + ry
    ensures x == y && rx == ry
  {
    assert (x + rx)[|x|] == rx[0];
    assert (y + ry)[|y|] == ry[0];
    assert |x| == |y|;
    assert x == (x + rx)[..|x|];
    assert y == (y + ry)[..|y|];
    assert rx == (x + rx)[|x|..];
    assert ry == (y + ry)[|y|..];
  }

  /** The fields part identifies non-negative offset and length. */
  lemma {:induction false} FieldsStringInjective(o1: nat, l1: nat, o2: nat, l2: nat)
    requires FieldsString(o1, l1) == FieldsString(o2, l2)
    ensures o1 == o2 && l1 == l2
  {
    var sep := Lit(", ");
    var close := Lit(")");
    DigitRunsAgree(Digits(o1), sep + (Digits(l1) + close), Digits(o2), sep + (Digits(l2) + close));
    PrefixCancel(sep, Digits(l1) + close, Digits(l2) + close);
    DigitRunsAgree(Digits(l1), close, Digits(l2), close);
    DigitsInjective(o1, o2);
    DigitsInjective(l1, l2);
  }

  /** The debug form identifies an item with non-negative fields. */
  lemma {:induction false} DebugStringInjective(a: PieceTableItem, b: PieceTableItem)
    requires a.offset >= 0 && a.length >= 0 && b.offset >= 0 && b.length >= 0
    requires DebugString(a) == DebugString(b)
    ensures a == b
  {
    DebugStringNamesBuffer(a);
    DebugStringNamesBuffer(b);
    assert a.bufferType == b.bufferType;
    var head := Lit("(") + BufferName(a.bufferType) + Lit(", ");
    PrefixCancel(head, FieldsString(a.offset, a.length), FieldsString(b.offset, b.length));
    FieldsStringInjective(a.offset, a.length, b.offset, b.length);
  }
}
