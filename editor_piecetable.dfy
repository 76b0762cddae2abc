// editor/PieceTable.cpp and editor/PieceTable.h (the middle generation): the
// piece table behind one Text node of the editor, a list of spans over the
// editor document's original and add buffers, edited in place by a scan
// that keeps a running start offset.

module EditorPieceTable {
  import opened Optional
  import opened QStr

  /** Which buffer of the EditorDocument a span points into. */
  datatype BufferType = Original | Add

  /** PieceTableItem: `length` code units of a buffer starting at `offset`. */
  datatype PieceTableItem = PieceTableItem(bufferType: BufferType, offset: int, length: int)

  type Items = seq<PieceTableItem>

  /** The text one span denotes: its buffer cut with QString::mid (itemString's body). */
  function SpanString(item: PieceTableItem, original: QString, add: QString): QString
  {
    if item.bufferType == Original then Mid(original, item.offset, item.length)
    else Mid(add, item.offset, item.length)
  }

  /** The span lies inside the buffer it names. */
  predicate InBounds(item: PieceTableItem, original: QString, add: QString)
  {
    0 <= item.offset && 0 <= item.length
    && item.offset + item.length <= (if item.bufferType == Original then |original| else |add|)
  }

  predicate Valid(items: Items, original: QString, add: QString)
  {
    forall j :: 0 <= j < |items| ==> InBounds(items[j], original, add)
  }

  /**
   * The text of a run of spans, each read by `read`: their strings in
   * order. The table's text is this with every span read from the buffers
   * (Content); the lemmas about rearranging spans hold for any reader.
   */
  function Concat(items: Items, read: PieceTableItem -> QString): QString
  {
    if |items| == 0 then [] else Concat(items[..|items| - 1], read) + read(items[|items| - 1])
  }

  function Reader(original: QString, add: QString): PieceTableItem -> QString
  {
    it => SpanString(it, original, add)
  }

  /** The text of the table: its spans' strings in order. */
  function Content(items: Items, original: QString, add: QString): QString
  {
    Concat(items, Reader(original, add))
  }

  /** The sum of the span lengths. */
  function Total(items: Items): int
  {
    if |items| == 0 then 0 else Total(items[..|items| - 1]) + items[|items| - 1].length
  }

  predicate NonNegative(items: Items)
  {
    forall j :: 0 <= j < |items| ==> items[j].length >= 0
  }

  // ----------------------------------------------------------- content algebra

  /** The first t units of a span. */
  function Head(it: PieceTableItem, t: int): PieceTableItem
  {
    it.(length := t)
  }

  /** A span less its first t units. */
  function Tail(it: PieceTableItem, t: int): PieceTableItem
  {
    PieceTableItem(it.bufferType, it.offset + t, it.length - t)
  }

  lemma {:induction false} InBoundsSpan(item: PieceTableItem, original: QString, add: QString)
    requires InBounds(item, original, add)
    ensures |SpanString(item, original, add)| == item.length
    ensures item.bufferType == Original ==> SpanString(item, original, add) == original[item.offset..item.offset + item.length]
    ensures item.bufferType == Add ==> SpanString(item, original, add) == add[item.offset..item.offset + item.length]
  {
  }

  /** A one-unit span reads as that unit of its buffer. */
  lemma {:induction false} ReadUnit(it: PieceTableItem, original: QString, add: QString)
    requires InBounds(it, original, add) && it.length == 1
    ensures Reader(original, add)(it) == [if it.bufferType == Original then original[it.offset] else add[it.offset]]
  {
    InBoundsSpan(it, original, add);
  }

  /** Cutting a span at t cuts its string at t. */
  lemma {:induction false} SpanCut(it: PieceTableItem, t: int, original: QString, add: QString)
    requires InBounds(it, original, add) && 0 <= t <= it.length
    ensures InBounds(Head(it, t), original, add) && InBounds(Tail(it, t), original, add)
    ensures SpanString(Head(it, t), original, add) == SpanString(it, original, add)[..t]
    ensures SpanString(Tail(it, t), original, add) == SpanString(it, original, add)[t..]
  {
    var buf := if it.bufferType == Original then original else add;
    InBoundsSpan(it, original, add);
    InBoundsSpan(Head(it, t), original, add);
    InBoundsSpan(Tail(it, t), original, add);
    assert buf[it.offset..it.offset + it.length][..t] == buf[it.offset..it.offset + t];
    assert buf[it.offset..it.offset + it.length][t..] == buf[it.offset + t..it.offset + it.length];
  }

  /** Appending to the add buffer does not change what a span inside the buffers reads. */
  lemma {:induction false} SpanGrown(it: PieceTableItem, original: QString, add: QString, text: QString)
    requires InBounds(it, original, add)
    ensures InBounds(it, original, add + text)
    ensures SpanString(it, original, add + text) == SpanString(it, original, add)
  {
    InBoundsSpan(it, original, add);
    InBoundsSpan(it, original, add + text);
    if it.bufferType == Add {
      assert (add + text)[it.offset..it.offset + it.length] == add[it.offset..it.offset + it.length];
    }
  }

  /** The span (|add|, |text|) of the add buffer grown by `text` reads `text`. */
  lemma {:induction false} SpanAdded(original: QString, add: QString, text: QString)
    ensures InBounds(PieceTableItem(Add, |add|, |text|), original, add + text)
    ensures SpanString(PieceTableItem(Add, |add|, |text|), original, add + text) == text
  {
    InBoundsSpan(PieceTableItem(Add, |add|, |text|), original, add + text);
    assert (add + text)[|add|..|add| + |text|] == text;
  }

  /** An add span ending where the add buffer ends, grown with the buffer, reads its old string and `text`. */
  lemma {:induction false} SpanExtended(it: PieceTableItem, original: QString, add: QString, text: QString)
    requires InBounds(it, original, add) && it.bufferType == Add && it.offset + it.length == |add|
    ensures InBounds(it.(length := it.length + |text|), original, add + text)
    ensures SpanString(it.(length := it.length + |text|), original, add + text) == SpanString(it, original, add) + text
  {
    InBoundsSpan(it, original, add);
    InBoundsSpan(it.(length := it.length + |text|), original, add + text);
    assert (add + text)[it.offset..it.offset + it.length + |text|] == add[it.offset..] + text;
  }

  /** The reader gives every span a string as long as the span. */
  predicate Measured(items: Items, read: PieceTableItem -> QString)
  {
    forall j :: 0 <= j < |items| ==> |read(items[j])| == items[j].length
  }

  lemma {:induction false} ConcatLength(items: Items, read: PieceTableItem -> QString)
    requires Measured(items, read)
    ensures |Concat(items, read)| == Total(items)
    decreases |items|
  {
    if |items| > 0 {
      ConcatLength(items[..|items| - 1], read);
    }
  }

  lemma {:induction false} ContentLength(items: Items, original: QString, add: QString)
    requires Valid(items, original, add)
    ensures |Content(items, original, add)| == Total(items)
  {
    forall j | 0 <= j < |items|
      ensures |Reader(original, add)(items[j])| == items[j].length
    {
      InBoundsSpan(items[j], original, add);
    }
    ConcatLength(items, Reader(original, add));
  }

  lemma {:induction false} ConcatAppend(a: Items, b: Items, read: PieceTableItem -> QString)
    ensures Concat(a + b, read) == Concat(a, read) + Concat(b, read)
    decreases |b|
  {
    if |b| == 0 {
      assert a + b == a;
    } else {
      var init := b[..|b| - 1];
      assert (a + b)[..|a + b| - 1] == a + init;
      ConcatAppend(a, init, read);
    }
  }

  lemma {:induction false} ConcatOne(x: PieceTableItem, read: PieceTableItem -> QString)
    ensures Concat([x], read) == read(x)
  {
    assert [x][..0] == [];
  }

  lemma {:induction false} ConcatTwo(x: PieceTableItem, y: PieceTableItem, read: PieceTableItem -> QString)
    ensures Concat([x, y], read) == read(x) + read(y)
  {
    ConcatOne(x, read);
    assert [x, y][..1] == [x];
  }

  lemma {:induction false} ConcatThree(x: PieceTableItem, y: PieceTableItem, z: PieceTableItem, read: PieceTableItem -> QString)
    ensures Concat([x, y, z], read) == read(x) + read(y) + read(z)
  {
    ConcatTwo(x, y, read);
    assert [x, y, z][..2] == [x, y];
  }

  lemma {:induction false} TotalAppend(a: Items, b: Items)
    ensures Total(a + b) == Total(a) + Total(b)
    decreases |b|
  {
    if |b| == 0 {
      assert a + b == a;
    } else {
      var init := b[..|b| - 1];
      assert (a + b)[..|a + b| - 1] == a + init;
      TotalAppend(a, init);
    }
  }

  /** Span i splits the text into the text before it, its own string and the text after it. */
  lemma {:induction false} Around(items: Items, i: nat, m: Items, read: PieceTableItem -> QString) returns (a: QString, b: QString)
    requires Measured(items, read) && i < |items|
    ensures |a| == Total(items[..i])
    ensures Concat(items, read) == a + read(items[i]) + b
    ensures Concat(items[..i] + m + items[i + 1..], read) == a + Concat(m, read) + b
  {
    a, b := Concat(items[..i], read), Concat(items[i + 1..], read);
    assert items == items[..i] + [items[i]] + items[i + 1..];
    ConcatAppend(items[..i] + [items[i]], items[i + 1..], read);
    ConcatAppend(items[..i], [items[i]], read);
    ConcatOne(items[i], read);
    ConcatAppend(items[..i] + m, items[i + 1..], read);
    ConcatAppend(items[..i], m, read);
    assert Measured(items[..i], read) by {
      assert forall j :: 0 <= j < i ==> items[..i][j] == items[j];
    }
    ConcatLength(items[..i], read);
  }

  /** Putting x t units into the middle part puts it |a| + t units into the whole. */
  lemma {:induction false} PutIn(a: QString, s: QString, b: QString, t: int, x: QString, ms: QString)
    requires 0 <= t <= |s| && ms == s[..t] + x + s[t..]
    ensures 0 <= |a| + t <= |a + s + b|
    ensures a + ms + b == (a + s + b)[..|a| + t] + x + (a + s + b)[|a| + t..]
  {
    assert (a + s + b)[..|a| + t] == a + s[..t];
    assert (a + s + b)[|a| + t..] == s[t..] + b;
  }

  /** Cutting units out of the middle part cuts them |a| + t units into the whole. */
  lemma {:induction false} CutOut(a: QString, s: QString, b: QString, t: int, length: int, ms: QString)
    requires 0 <= t && 0 <= length && t + length <= |s| && ms == s[..t] + s[t + length..]
    ensures 0 <= |a| + t && |a| + t + length <= |a + s + b|
    ensures a + ms + b == (a + s + b)[..|a| + t] + (a + s + b)[|a| + t + length..]
  {
    assert (a + s + b)[..|a| + t] == a + s[..t];
    assert (a + s + b)[|a| + t + length..] == s[t + length..] + b;
  }

  /** Spans inside their buffers read as strings of their own lengths. */
  lemma {:induction false} ValidMeasured(items: Items, original: QString, add: QString)
    requires Valid(items, original, add)
    ensures Measured(items, Reader(original, add))
  {
    forall j | 0 <= j < |items|
      ensures |Reader(original, add)(items[j])| == items[j].length
    {
      InBoundsSpan(items[j], original, add);
    }
  }

  /**
   * Replacing span i by spans that read as its string with x put t units
   * in puts x at the span's start plus t in the text.
   */
  lemma {:induction false} SpliceInsert(items: Items, i: nat, t: int, m: Items, x: QString, read: PieceTableItem -> QString)
    requires Measured(items, read) && i < |items| && 0 <= t <= items[i].length
    requires Concat(m, read) == read(items[i])[..t] + x + read(items[i])[t..]
    ensures 0 <= Total(items[..i]) + t <= |Concat(items, read)|
    ensures Concat(items[..i] + m + items[i + 1..], read)
         == Concat(items, read)[..Total(items[..i]) + t] + x + Concat(items, read)[Total(items[..i]) + t..]
  {
    var a, b := Around(items, i, m, read);
    PutIn(a, read(items[i]), b, t, x, Concat(m, read));
  }

  /**
   * Replacing span i by spans that read as its string less `length` units
   * from t removes those units at the span's start plus t.
   */
  lemma {:induction false} SpliceRemove(items: Items, i: nat, t: int, length: int, m: Items, read: PieceTableItem -> QString)
    requires Measured(items, read) && i < |items|
    requires 0 <= t && 0 <= length && t + length <= items[i].length
    requires Concat(m, read) == read(items[i])[..t] + read(items[i])[t + length..]
    ensures 0 <= Total(items[..i]) + t && Total(items[..i]) + t + length <= |Concat(items, read)|
    ensures Concat(items[..i] + m + items[i + 1..], read)
         == Concat(items, read)[..Total(items[..i]) + t] + Concat(items, read)[Total(items[..i]) + t + length..]
  {
    var a, b := Around(items, i, m, read);
    CutOut(a, read(items[i]), b, t, length, Concat(m, read));
  }

  /** Two readers that agree on every span read a run of spans alike. */
  lemma {:induction false} ConcatAgree(items: Items, r1: PieceTableItem -> QString, r2: PieceTableItem -> QString)
    requires forall j :: 0 <= j < |items| ==> r1(items[j]) == r2(items[j])
    ensures Concat(items, r1) == Concat(items, r2)
    decreases |items|
  {
    if |items| > 0 {
      ConcatAgree(items[..|items| - 1], r1, r2);
    }
  }

  /** Appending to the add buffer does not change what valid spans read. */
  lemma {:induction false} ContentGrowth(items: Items, original: QString, add: QString, text: QString)
    requires Valid(items, original, add)
    ensures Valid(items, original, add + text)
    ensures Content(items, original, add + text) == Content(items, original, add)
  {
    forall j | 0 <= j < |items|
      ensures InBounds(items[j], original, add + text)
      ensures Reader(original, add + text)(items[j]) == Reader(original, add)(items[j])
    {
      SpanGrown(items[j], original, add, text);
    }
    ConcatAgree(items, Reader(original, add + text), Reader(original, add));
  }

  lemma {:induction false} ValidSplice(items: Items, i: nat, m: Items, original: QString, add: QString)
    requires Valid(items, original, add) && Valid(m, original, add) && i < |items|
    ensures Valid(items[..i] + m + items[i + 1..], original, add)
  {
    var r := items[..i] + m + items[i + 1..];
    forall j | 0 <= j < |r|
      ensures InBounds(r[j], original, add)
    {
      if j < i {
        assert r[j] == items[j];
      } else if j < i + |m| {
        assert r[j] == m[j - i];
      } else {
        assert r[j] == items[j - |m| + 1];
      }
    }
  }

  // ------------------------------------------------------------------- scans

  /**
   * Where the scan of insert (inclusive of a span's end) or of remove
   * (exclusive) stops: the first span whose range holds k, with its start.
   * None when the scan runs out of spans or meets a start already past k
   * (the ERROR branch).
   */
  function SiteFrom(items: Items, k: int, includeRight: bool, i: nat, total: int): Option<(nat, int)>
    requires i <= |items|
    decreases |items| - i
  {
    if i == |items| then None
    else if total > k then None
    else if (if includeRight then k > total + items[i].length else total + items[i].length <= k) then
      SiteFrom(items, k, includeRight, i + 1, total + items[i].length)
    else Some((i, total))
  }

  function Site(items: Items, k: int, includeRight: bool): Option<(nat, int)>
  {
    SiteFrom(items, k, includeRight, 0, 0)
  }

  /** The site holds k, starts at the total length of the spans before it, and every earlier span ends before k. */
  predicate IsSite(items: Items, k: int, includeRight: bool, i: nat, s: int)
  {
    i < |items| && s == Total(items[..i]) && s <= k
    && (if includeRight then k <= s + items[i].length else k < s + items[i].length)
  }

  lemma {:induction false} TotalStep(items: Items, i: nat)
    requires i < |items|
    ensures Total(items[..i + 1]) == Total(items[..i]) + items[i].length
  {
    assert items[..i + 1][..i] == items[..i];
  }

  lemma {:induction false} SiteFromSpec(items: Items, k: int, includeRight: bool, i: nat, total: int)
    requires i <= |items| && total == Total(items[..i])
    ensures SiteFrom(items, k, includeRight, i, total).Some? ==>
      var (j, s) := SiteFrom(items, k, includeRight, i, total).value; i <= j && IsSite(items, k, includeRight, j, s)
    decreases |items| - i
  {
    if i < |items| && total <= k {
      TotalStep(items, i);
      if (if includeRight then k > total + items[i].length else total + items[i].length <= k) {
        SiteFromSpec(items, k, includeRight, i + 1, total + items[i].length);
      }
    }
  }

  /** The site the scan finds is a span holding k, starting where the spans before it end. */
  lemma {:induction false} SiteSpec(items: Items, k: int, includeRight: bool)
    ensures Site(items, k, includeRight).Some? ==>
      var (i, s) := Site(items, k, includeRight).value; IsSite(items, k, includeRight, i, s)
  {
    assert items[..0] == [];
    SiteFromSpec(items, k, includeRight, 0, 0);
  }

  lemma {:induction false} SiteFromFound(items: Items, k: int, includeRight: bool, i: nat, total: int)
    requires i < |items| && total == Total(items[..i]) && total <= k
    requires if includeRight then k <= Total(items) else k < Total(items)
    ensures SiteFrom(items, k, includeRight, i, total).Some?
    decreases |items| - i
  {
    assert items[..|items|] == items;
    TotalStep(items, i);
    if (if includeRight then k > total + items[i].length else total + items[i].length <= k) {
      SiteFromFound(items, k, includeRight, i + 1, total + items[i].length);
    }
  }

  /** With non-negative lengths, the scan finds a site for every k from 0 up to the end of the text. */
  lemma {:induction false} SiteFound(items: Items, k: int, includeRight: bool)
    requires |items| > 0 && 0 <= k
    requires if includeRight then k <= Total(items) else k < Total(items)
    ensures Site(items, k, includeRight).Some?
  {
    assert items[..0] == [];
    SiteFromFound(items, k, includeRight, 0, 0);
  }

  lemma {:induction false} TotalNonNegative(items: Items)
    requires NonNegative(items)
    ensures Total(items) >= 0
    decreases |items|
  {
    if |items| > 0 {
      var init := items[..|items| - 1];
      assert NonNegative(init) by {
        assert forall j :: 0 <= j < |init| ==> init[j] == items[j];
      }
      TotalNonNegative(init);
    }
  }

  lemma {:induction false} SiteFromMissed(items: Items, k: int, includeRight: bool, i: nat, total: int)
    requires NonNegative(items) && i <= |items| && total == Total(items[..i])
    requires if includeRight then k > Total(items) else k >= Total(items)
    ensures SiteFrom(items, k, includeRight, i, total).None?
    decreases |items| - i
  {
    if i < |items| && total <= k {
      TotalStep(items, i);
      TotalPrefix(items, i + 1);
      SiteFromMissed(items, k, includeRight, i + 1, total + items[i].length);
    }
  }

  /** With non-negative lengths, a prefix of the spans is no longer than the whole. */
  lemma {:induction false} TotalPrefix(items: Items, j: nat)
    requires NonNegative(items) && j <= |items|
    ensures Total(items[..j]) <= Total(items)
  {
    assert items == items[..j] + items[j..];
    TotalAppend(items[..j], items[j..]);
    assert NonNegative(items[j..]) by {
      assert forall m :: 0 <= m < |items[j..]| ==> items[j..][m] == items[j + m];
    }
    TotalNonNegative(items[j..]);
  }

  /** A k before the text or past its end finds no site. */
  lemma {:induction false} SiteMissed(items: Items, k: int, includeRight: bool)
    requires NonNegative(items)
    requires k < 0 || (if includeRight then k > Total(items) else k >= Total(items))
    ensures Site(items, k, includeRight).None?
  {
    assert items[..0] == [];
    if k >= 0 {
      SiteFromMissed(items, k, includeRight, 0, 0);
    }
  }

  // ------------------------------------------------------------------ insert

  function Added(addOffset: int, addLength: int): PieceTableItem
  {
    PieceTableItem(Add, addOffset, addLength)
  }

  /**
   * What insert puts in place of the span it stops at, t units into it,
   * repaired: the span is extended only when it is an add span that ends
   * where the new text starts, and a split's remainder keeps the span's
   * buffer.
   */
  function InsertPiece(it: PieceTableItem, t: int, addOffset: int, addLength: int): Items
  {
    if t == 0 then [Added(addOffset, addLength), it]
    else if t == it.length then
      if it.bufferType == Add && it.offset + it.length == addOffset then [it.(length := it.length + addLength)]
      else [it, Added(addOffset, addLength)]
    else [it.(length := t), Added(addOffset, addLength), PieceTableItem(it.bufferType, it.offset + t, it.length - t)]
  }

  /** InsertPiece as the source writes it: no buffer check on extension, remainder tagged original. */
  function InsertPieceAsWritten(it: PieceTableItem, t: int, addOffset: int, addLength: int): Items
  {
    if t == 0 then [Added(addOffset, addLength), it]
    else if t == it.length then
      if it.offset + it.length == addOffset then [it.(length := it.length + addLength)]
      else [it, Added(addOffset, addLength)]
    else [it.(length := t), Added(addOffset, addLength), PieceTableItem(Original, it.offset + t, it.length - t)]
  }

  /** PieceTable::insert, repaired: the span the scan stops at replaced by InsertPiece. */
  function Inserted(items: Items, offset: int, addOffset: int, addLength: int): Items
  {
    match Site(items, offset, true)
    case None => items
    case Some((i, s)) =>
      if i < |items| then items[..i] + InsertPiece(items[i], offset - s, addOffset, addLength) + items[i + 1..]
      else items
  }

  /** PieceTable::insert as written. */
  function InsertedAsWritten(items: Items, offset: int, addOffset: int, addLength: int): Items
  {
    match Site(items, offset, true)
    case None => items
    case Some((i, s)) =>
      if i < |items| then items[..i] + InsertPieceAsWritten(items[i], offset - s, addOffset, addLength) + items[i + 1..]
      else items
  }

  /** The repaired piece reads as the span's string with the added text put t units in. */
  lemma {:induction false} InsertPieceContent(it: PieceTableItem, t: int, original: QString, add: QString, text: QString)
    requires InBounds(it, original, add) && 0 <= t <= it.length
    ensures Valid(InsertPiece(it, t, |add|, |text|), original, add + text)
    ensures Content(InsertPiece(it, t, |add|, |text|), original, add + text)
         == SpanString(it, original, add)[..t] + text + SpanString(it, original, add)[t..]
  {
    var add' := add + text;
    var read := Reader(original, add');
    var s := SpanString(it, original, add);
    var a := Added(|add|, |text|);
    SpanAdded(original, add, text);
    SpanGrown(it, original, add, text);
    InBoundsSpan(it, original, add);
    if t == 0 {
      ConcatTwo(a, it, read);
      assert s[..0] == [] && s[0..] == s;
    } else if t == it.length {
      assert s[..t] == s && s[t..] == [];
      if it.bufferType == Add && it.offset + it.length == |add| {
        SpanExtended(it, original, add, text);
        ConcatOne(it.(length := it.length + |text|), read);
      } else {
        ConcatTwo(it, a, read);
      }
    } else {
      SpanCut(it, t, original, add');
      assert InsertPiece(it, t, |add|, |text|) == [Head(it, t), a, Tail(it, t)];
      ConcatThree(Head(it, t), a, Tail(it, t), read);
    }
  }

  /**
   * The editor's insert: the text is appended to the add buffer and the
   * span (|add|, |text|) inserted at k. For every k from 0 to the end of a
   * non-empty table of spans inside their buffers, the table then reads as
   * the old text with `text` put in at k, and its spans stay inside the
   * grown buffers.
   */
  lemma {:induction false} InsertContent(items: Items, k: int, original: QString, add: QString, text: QString)
    requires Valid(items, original, add) && |items| > 0 && 0 <= k <= Total(items)
    ensures k <= |Content(items, original, add)|
    ensures Valid(Inserted(items, k, |add|, |text|), original, add + text)
    ensures Content(Inserted(items, k, |add|, |text|), original, add + text)
         == Content(items, original, add)[..k] + text + Content(items, original, add)[k..]
  {
    var i, s := InsertSite(items, k, |add|, |text|);
    var m := items[..i] + InsertPiece(items[i], k - s, |add|, |text|) + items[i + 1..];
    InsertAt(items, i, k - s, k, m, original, add, text);
    assert Inserted(items, k, |add|, |text|) == m;
  }

  /** The span the scan of insert stops at, for an offset inside a non-empty table. */
  lemma {:induction false} InsertSite(items: Items, k: int, addOffset: int, addLength: int) returns (i: nat, s: int)
    requires |items| > 0 && 0 <= k <= Total(items)
    ensures IsSite(items, k, true, i, s) && Site(items, k, true) == Some((i, s))
    ensures Inserted(items, k, addOffset, addLength) == items[..i] + InsertPiece(items[i], k - s, addOffset, addLength) + items[i + 1..]
    ensures InsertedAsWritten(items, k, addOffset, addLength)
         == items[..i] + InsertPieceAsWritten(items[i], k - s, addOffset, addLength) + items[i + 1..]
  {
    SiteFound(items, k, true);
    SiteSpec(items, k, true);
    i, s := Site(items, k, true).value.0, Site(items, k, true).value.1;
  }

  /** InsertContent at a given span: the piece spliced in t units into span i, k units into the text. */
  lemma {:induction false} InsertAt(items: Items, i: nat, t: int, k: int, r: Items, original: QString, add: QString, text: QString)
    requires Valid(items, original, add) && i < |items| && 0 <= t <= items[i].length
    requires k == Total(items[..i]) + t
    requires r == items[..i] + InsertPiece(items[i], t, |add|, |text|) + items[i + 1..]
    ensures 0 <= k <= |Content(items, original, add)|
    ensures Valid(r, original, add + text)
    ensures Content(r, original, add + text) == Content(items, original, add)[..k] + text + Content(items, original, add)[k..]
  {
    var m := InsertPiece(items[i], t, |add|, |text|);
    InsertPieceContent(items[i], t, original, add, text);
    ContentGrowth(items, original, add, text);
    ValidSplice(items, i, m, original, add + text);
    ValidMeasured(items, original, add + text);
    SpanGrown(items[i], original, add, text);
    SpliceInsert(items, i, t, m, text, Reader(original, add + text));
  }

  /** An offset before the text or past its end, or an empty table at any offset, leaves the spans as they are. */
  lemma {:induction false} InsertOutside(items: Items, k: int, addOffset: int, addLength: int)
    requires NonNegative(items)
    requires k < 0 || k > Total(items) || items == []
    ensures Inserted(items, k, addOffset, addLength) == items
    ensures InsertedAsWritten(items, k, addOffset, addLength) == items
  {
    if k < 0 || k > Total(items) {
      SiteMissed(items, k, true);
    }
  }

  /**
   * As written, an insert at the end of an original span extends that span
   * when its offset plus length equals the add offset: over the original
   * buffer "ab" and an add buffer "y" that becomes "yx", inserting "x"
   * after the span (original, 0, 1) gives (original, 0, 2), which reads
   * "ab" where "ax" was meant.
   */
  lemma {:induction false} ExtendOriginalAsWritten(items: Items, a: CodeUnit, b: CodeUnit, x: CodeUnit, y: CodeUnit)
    requires items == [PieceTableItem(Original, 0, 1)]
    ensures InsertedAsWritten(items, 1, 1, 1) == [PieceTableItem(Original, 0, 2)]
    ensures Content(InsertedAsWritten(items, 1, 1, 1), [a, b], [y, x]) == [a, b]
    ensures Content(Inserted(items, 1, 1, 1), [a, b], [y, x]) == [a] + [x]
  {
    var i, s := InsertSite(items, 1, 1, 1);
    assert i == 0 && s == 0;
    var w := [PieceTableItem(Original, 0, 2)];
    assert items[..0] + w + items[1..] == w;
    ConcatOne(w[0], Reader([a, b], [y, x]));
    InBoundsSpan(w[0], [a, b], [y, x]);
    assert [a, b][0..2] == [a, b];
    var n := [items[0], Added(1, 1)];
    assert items[..0] + n + items[1..] == n;
    ReadsTwo(n[0], n[1], [a, b], [y, x]);
  }

  /**
   * As written, splitting an add span tags its remainder original: over an
   * original buffer p q and an add buffer x y to which z has been appended,
   * inserting z one unit into the add span (add, 0, 2) reads x z q where
   * x z y was meant.
   */
  lemma {:induction false} SplitAddAsWritten(items: Items, p: CodeUnit, q: CodeUnit, x: CodeUnit, y: CodeUnit, z: CodeUnit)
    requires items == [PieceTableItem(Add, 0, 2)]
    ensures Content(InsertedAsWritten(items, 1, 2, 1), [p, q], [x, y, z]) == [x] + [z] + [q]
    ensures Content(Inserted(items, 1, 2, 1), [p, q], [x, y, z]) == [x] + [z] + [y]
  {
    var m, n := SplitAddPieces();
    ReadsThree(m[0], m[1], m[2], [p, q], [x, y, z]);
    ReadsThree(n[0], n[1], n[2], [p, q], [x, y, z]);
  }

  /** The unit a one-unit span reads. */
  function UnitOf(it: PieceTableItem, original: QString, add: QString): CodeUnit
    requires InBounds(it, original, add) && it.length == 1
  {
    if it.bufferType == Original then original[it.offset] else add[it.offset]
  }

  /** Two one-unit spans read as their two units. */
  lemma {:induction false} ReadsTwo(a: PieceTableItem, b: PieceTableItem, original: QString, add: QString)
    requires InBounds(a, original, add) && InBounds(b, original, add)
    requires a.length == 1 && b.length == 1
    ensures Content([a, b], original, add) == [UnitOf(a, original, add)] + [UnitOf(b, original, add)]
  {
    ConcatTwo(a, b, Reader(original, add));
    ReadUnit(a, original, add);
    ReadUnit(b, original, add);
  }

  /** Three one-unit spans read as their three units. */
  lemma {:induction false} ReadsThree(a: PieceTableItem, b: PieceTableItem, c: PieceTableItem, original: QString, add: QString)
    requires InBounds(a, original, add) && InBounds(b, original, add) && InBounds(c, original, add)
    requires a.length == 1 && b.length == 1 && c.length == 1
    ensures Content([a, b, c], original, add) == [UnitOf(a, original, add)] + [UnitOf(b, original, add)] + [UnitOf(c, original, add)]
  {
    ConcatThree(a, b, c, Reader(original, add));
    ReadUnit(a, original, add);
    ReadUnit(b, original, add);
    ReadUnit(c, original, add);
  }

  /** The spans that SplitAddAsWritten reads: the written ones end in an original span, the repaired ones in an add span. */
  lemma {:induction false} SplitAddPieces() returns (m: Items, n: Items)
    ensures m == [PieceTableItem(Add, 0, 1), PieceTableItem(Add, 2, 1), PieceTableItem(Original, 1, 1)]
    ensures n == [PieceTableItem(Add, 0, 1), PieceTableItem(Add, 2, 1), PieceTableItem(Add, 1, 1)]
    ensures InsertedAsWritten([PieceTableItem(Add, 0, 2)], 1, 2, 1) == m
    ensures Inserted([PieceTableItem(Add, 0, 2)], 1, 2, 1) == n
  {
    var items := [PieceTableItem(Add, 0, 2)];
    var i, s := InsertSite(items, 1, 2, 1);
    assert i == 0 && s == 0;
    m := [PieceTableItem(Add, 0, 1), PieceTableItem(Add, 2, 1), PieceTableItem(Original, 1, 1)];
    assert items[..0] + m + items[1..] == m;
    n := [PieceTableItem(Add, 0, 1), PieceTableItem(Add, 2, 1), PieceTableItem(Add, 1, 1)];
    assert items[..0] + n + items[1..] == n;
  }

  // ------------------------------------------------------------------ remove

  /**
   * What remove puts in place of the span holding `offset`, t units into
   * it, repaired: a removal at the head moves the span's start and also
   * shortens it.
   */
  function RemovePiece(it: PieceTableItem, t: int, length: int): Items
  {
    if t == 0 then
      if it.length == length then [] else [PieceTableItem(it.bufferType, it.offset + length, it.length - length)]
    else if t + length == it.length then [it.(length := it.length - length)]
    else [it.(length := t), PieceTableItem(it.bufferType, it.offset + t + length, it.length - t - length)]
  }

  /** RemovePiece as the source writes it: a removal at the head only moves the span's start. */
  function RemovePieceAsWritten(it: PieceTableItem, t: int, length: int): Items
  {
    if t == 0 then
      if it.length == length then [] else [it.(offset := it.offset + length)]
    else if t + length == it.length then [it.(length := it.length - length)]
    else [it.(length := t), PieceTableItem(it.bufferType, it.offset + t + length, it.length - t - length)]
  }

  /** PieceTable::remove, repaired: only the first span ending after `offset` is edited. */
  function Removed(items: Items, offset: int, length: int): Items
  {
    match Site(items, offset, false)
    case None => items
    case Some((i, s)) =>
      if i < |items| then items[..i] + RemovePiece(items[i], offset - s, length) + items[i + 1..]
      else items
  }

  /** PieceTable::remove as written. */
  function RemovedAsWritten(items: Items, offset: int, length: int): Items
  {
    match Site(items, offset, false)
    case None => items
    case Some((i, s)) =>
      if i < |items| then items[..i] + RemovePieceAsWritten(items[i], offset - s, length) + items[i + 1..]
      else items
  }

  /** The removed range lies inside the one span that holds its start. */
  predicate InsideOneSpan(items: Items, offset: int, length: int)
  {
    && 0 <= offset && 0 <= length
    && Site(items, offset, false).Some?
    && var (i, s) := Site(items, offset, false).value;
       i < |items| && offset + length <= s + items[i].length
  }

  /** The repaired piece reads as the span's string less `length` units from t. */
  lemma {:induction false} RemovePieceContent(it: PieceTableItem, t: int, length: int, original: QString, add: QString)
    requires InBounds(it, original, add) && 0 <= t && 0 <= length && t + length <= it.length
    ensures Valid(RemovePiece(it, t, length), original, add)
    ensures Content(RemovePiece(it, t, length), original, add)
         == SpanString(it, original, add)[..t] + SpanString(it, original, add)[t + length..]
  {
    var read := Reader(original, add);
    var s := SpanString(it, original, add);
    InBoundsSpan(it, original, add);
    SpanCut(it, t, original, add);
    SpanCut(it, t + length, original, add);
    if t == 0 {
      assert s[..0] == [];
      if it.length == length {
        assert s[length..] == [];
      } else {
        assert RemovePiece(it, t, length) == [Tail(it, length)];
        ConcatOne(Tail(it, length), read);
      }
    } else if t + length == it.length {
      assert RemovePiece(it, t, length) == [Head(it, t)];
      ConcatOne(Head(it, t), read);
      assert s[t + length..] == [];
    } else {
      assert RemovePiece(it, t, length) == [Head(it, t), Tail(it, t + length)];
      ConcatTwo(Head(it, t), Tail(it, t + length), read);
    }
  }

  /**
   * A removal inside one span deletes exactly the units [offset,
   * offset + length) of the text, and the spans stay inside their buffers.
   */
  lemma {:induction false} RemoveContent(items: Items, offset: int, length: int, original: QString, add: QString)
    requires Valid(items, original, add) && InsideOneSpan(items, offset, length)
    ensures Valid(Removed(items, offset, length), original, add)
    ensures offset + length <= |Content(items, original, add)|
    ensures Content(Removed(items, offset, length), original, add)
         == Content(items, original, add)[..offset] + Content(items, original, add)[offset + length..]
  {
    SiteSpec(items, offset, false);
    var (i, s) := Site(items, offset, false).value;
    var m := items[..i] + RemovePiece(items[i], offset - s, length) + items[i + 1..];
    RemoveAt(items, i, offset - s, offset, length, m, original, add);
    assert Removed(items, offset, length) == m;
  }

  /** RemoveContent at a given span: `length` units cut t units into span i, k units into the text. */
  lemma {:induction false} RemoveAt(items: Items, i: nat, t: int, k: int, length: int, r: Items, original: QString, add: QString)
    requires Valid(items, original, add) && i < |items|
    requires 0 <= t && 0 <= length && t + length <= items[i].length
    requires k == Total(items[..i]) + t
    requires r == items[..i] + RemovePiece(items[i], t, length) + items[i + 1..]
    ensures 0 <= k && k + length <= |Content(items, original, add)|
    ensures Valid(r, original, add)
    ensures Content(r, original, add) == Content(items, original, add)[..k] + Content(items, original, add)[k + length..]
  {
    var m := RemovePiece(items[i], t, length);
    RemovePieceContent(items[i], t, length, original, add);
    ValidSplice(items, i, m, original, add);
    ValidMeasured(items, original, add);
    SpliceRemove(items, i, t, length, m, Reader(original, add));
  }

  /** A removal starting before the text or at or past its end leaves the spans as they are. */
  lemma {:induction false} RemoveOutside(items: Items, offset: int, length: int)
    requires NonNegative(items)
    requires offset < 0 || offset >= Total(items)
    ensures Removed(items, offset, length) == items
    ensures RemovedAsWritten(items, offset, length) == items
  {
    SiteMissed(items, offset, false);
  }

  /**
   * As written, removing one unit at the head of (original, 0, 3) over the
   * original buffer "abcd" gives (original, 1, 3), which reads "bcd": the
   * text does not shrink, where "bc" was meant.
   */
  lemma {:induction false} RemoveHeadAsWritten(items: Items, a: CodeUnit, b: CodeUnit, c: CodeUnit, d: CodeUnit)
    requires items == [PieceTableItem(Original, 0, 3)]
    ensures RemovedAsWritten(items, 0, 1) == [PieceTableItem(Original, 1, 3)]
    ensures Content(RemovedAsWritten(items, 0, 1), [a, b, c, d], []) == [b, c, d]
    ensures Content(Removed(items, 0, 1), [a, b, c, d], []) == [b, c]
  {
    assert items[..0] == [];
    SiteFromFound(items, 0, false, 0, 0);
    SiteSpec(items, 0, false);
    assert Site(items, 0, false) == Some((0, 0));
    var w := [PieceTableItem(Original, 1, 3)];
    assert items[..0] + w + items[1..] == w;
    var n := [PieceTableItem(Original, 1, 2)];
    assert items[..0] + n + items[1..] == n;
    var read := Reader([a, b, c, d], []);
    ConcatOne(w[0], read);
    InBoundsSpan(w[0], [a, b, c, d], []);
    assert [a, b, c, d][1..4] == [b, c, d];
    ConcatOne(n[0], read);
    InBoundsSpan(n[0], [a, b, c, d], []);
    assert [a, b, c, d][1..3] == [b, c];
  }

  // ------------------------------------------------------------- itemString

  /**
   * itemString as written: an index equal to the number of spans passes
   * the guard and reads past the list (None); other out-of-range indices
   * give the empty string.
   */
  function ItemStringAsWritten(items: Items, index: int, original: QString, add: QString): Option<QString>
  {
    if index < 0 || index > |items| then Some([])
    else if index == |items| then None
    else Some(SpanString(items[index], original, add))
  }

  /** itemString with the guard repaired to `index >= size`. */
  function ItemString(items: Items, index: int, original: QString, add: QString): (r: QString)
    ensures 0 <= index < |items| && InBounds(items[index], original, add) ==> |r| == items[index].length
    ensures (index < 0 || index >= |items|) ==> r == []
  {
    if index < 0 || index >= |items| then [] else SpanString(items[index], original, add)
  }

  /** The two guards agree on every index but the one just past the list, which the written guard lets through. */
  lemma {:induction false} ItemStringGuard(items: Items, index: int, original: QString, add: QString)
    ensures index != |items| ==> ItemStringAsWritten(items, index, original, add) == Some(ItemString(items, index, original, add))
    ensures ItemStringAsWritten(items, |items|, original, add).None?
  {
  }

  /** The iteration's strings, concatenated, are the table's text. */
  function Joined(ss: seq<QString>): QString
  {
    if |ss| == 0 then [] else Joined(ss[..|ss| - 1]) + ss[|ss| - 1]
  }

  /** PieceTable: the list of spans of one Text, over the buffers of its EditorDocument. */
  class PieceTable {
    var items: Items

    /** PieceTable(doc, offset, length): one original span. */
    constructor(offset: int, length: int)
      ensures items == [PieceTableItem(Original, offset, length)]
    {
      items := [PieceTableItem(Original, offset, length)];
    }

    /** insert(offset, addOffset, addLength), repaired as Inserted describes. */
    method Insert(offset: int, addOffset: int, addLength: int)
      modifies this
      ensures items == Inserted(old(items), offset, addOffset, addLength)
    {
      var i := 0;
      var total := 0;
      while i < |items|
        invariant 0 <= i <= |items| && items == old(items)
        invariant SiteFrom(items, offset, true, i, total) == Site(items, offset, true)
      {
        var item := items[i];
        if total > offset {
          return;
        }
        if offset > total + item.length {
          total := total + item.length;
          i := i + 1;
        } else {
          var added := PieceTableItem(Add, addOffset, addLength);
          if total == offset {
            items := items[..i] + [added] + items[i..];
            assert items == old(items)[..i] + [added, item] + old(items)[i + 1..];
          } else if total + item.length == offset {
            if item.bufferType == Add && item.offset + item.length == addOffset {
              items := items[i := item.(length := item.length + addLength)];
              assert items == old(items)[..i] + [item.(length := item.length + addLength)] + old(items)[i + 1..];
            } else {
              items := items[..i + 1] + [added] + items[i + 1..];
              assert items == old(items)[..i] + [item, added] + old(items)[i + 1..];
            }
          } else {
            var rest := PieceTableItem(item.bufferType, offset - total + item.offset, item.length - (offset - total));
            items := items[i := item.(length := offset - total)];
            items := items[..i + 1] + [rest] + items[i + 1..];
            items := items[..i + 1] + [added] + items[i + 1..];
            assert items == old(items)[..i] + [item.(length := offset - total), added, rest] + old(items)[i + 1..];
          }
          return;
        }
      }
    }

    /** remove(offset, length), repaired as Removed describes. */
    method Remove(offset: int, length: int)
      modifies this
      ensures items == Removed(old(items), offset, length)
    {
      var i := 0;
      var total := 0;
      while i < |items|
        invariant 0 <= i <= |items| && items == old(items)
        invariant SiteFrom(items, offset, false, i, total) == Site(items, offset, false)
      {
        var item := items[i];
        if total > offset {
          return;
        }
        if total + item.length <= offset {
          total := total + item.length;
          i := i + 1;
        } else {
          if total == offset {
            if item.length == length {
              items := items[..i] + items[i + 1..];
              assert items == old(items)[..i] + [] + old(items)[i + 1..];
            } else {
              items := items[i := PieceTableItem(item.bufferType, item.offset + length, item.length - length)];
              assert items == old(items)[..i] + [items[i]] + old(items)[i + 1..];
            }
          } else if total + item.length == offset + length {
            items := items[i := item.(length := item.length - length)];
            assert items == old(items)[..i] + [items[i]] + old(items)[i + 1..];
          } else {
            var rest := PieceTableItem(item.bufferType, item.offset + (offset - total) + length,
                                       item.length - (offset - total) - length);
            items := items[..i + 1] + [rest] + items[i + 1..];
            items := items[i := item.(length := offset - total)];
            assert items == old(items)[..i] + [item.(length := offset - total), rest] + old(items)[i + 1..];
          }
          return;
        }
      }
    }

    /** itemString(index), with the guard repaired. */
    method ItemStringAt(index: int, original: QString, add: QString) returns (s: QString)
      ensures s == ItemString(items, index, original, add)
    {
      if index < 0 || index >= |items| {
        return [];
      }
      var item := items[index];
      if item.bufferType == Original {
        s := Mid(original, item.offset, item.length);
      } else {
        s := Mid(add, item.offset, item.length);
      }
    }

    /**
     * Iterating the table from begin() to end(): itemString of each index in
     * order, whose concatenation is the table's text.
     */
    method Strings(original: QString, add: QString) returns (ss: seq<QString>)
      ensures |ss| == |items|
      ensures forall k :: 0 <= k < |items| ==> ss[k] == SpanString(items[k], original, add)
      ensures Joined(ss) == Content(items, original, add)
    {
      ss := [];
      var index := 0;
      while index < |items|
        invariant 0 <= index <= |items| && |ss| == index
        invariant forall k :: 0 <= k < index ==> ss[k] == SpanString(items[k], original, add)
        invariant Joined(ss) == Content(items[..index], original, add)
      {
        var s := ItemStringAt(index, original, add);
        assert (ss + [s])[..index] == ss;
        assert items[..index + 1][..index] == items[..index];
        ss := ss + [s];
        index := index + 1;
      }
      assert items[..index] == items;
    }
  }
}
