// src/parser/Text.cpp and src/parser/Text.h: a Text node is a piece table,
// a list of spans over the document's two buffers, edited in place.

module Texts {
  import opened QStr
  import opened Optional
  import opened PieceTable
  import Ast

  type Items = seq<PieceTableItem>

  /** Sum of the span lengths: the length of the text the spans denote. */
  function Total(items: Items): int
  {
    if |items| == 0 then 0 else Total(items[..|items| - 1]) + items[|items| - 1].length
  }

  /** Where span i starts in the text: the total length of the spans before it. */
  function Start(items: Items, i: nat): int
    requires i <= |items|
  {
    Total(items[..i])
  }

  /** Every span lies inside its buffer. */
  predicate ValidItems(items: Items, bufs: Buffers)
  {
    forall i :: 0 <= i < |items| ==> InBounds(items[i], bufs)
  }

  predicate NonNegative(items: Items)
  {
    forall i :: 0 <= i < |items| ==> items[i].length >= 0
  }

  // ---------------------------------------------------------------- spans

  /** The first t units of a span. */
  function Head(it: PieceTableItem, t: int): PieceTableItem
  {
    it.(length := t)
  }

  /** A span less its first t units. */
  function Tail(it: PieceTableItem, t: int): PieceTableItem
  {
    PieceTableItem(it.bufferType, it.offset + t, it.length - t)
  }

  /** `item` starts in the same buffer exactly where `it` ends. */
  predicate Continues(it: PieceTableItem, item: PieceTableItem)
  {
    item.bufferType == it.bufferType && it.offset + it.length == item.offset
  }

  /** `it` grown by the length of `item`. */
  function Extended(it: PieceTableItem, item: PieceTableItem): PieceTableItem
  {
    it.(length := it.length + item.length)
  }

  /** Cutting a span at t yields two spans inside the buffer whose strings are the two parts of its string. */
  lemma {:induction false} CutSpan(it: PieceTableItem, t: int, bufs: Buffers)
    requires InBounds(it, bufs) && 0 <= t <= it.length
    ensures InBounds(Head(it, t), bufs) && InBounds(Tail(it, t), bufs)
    ensures ItemString(Head(it, t), bufs) == ItemString(it, bufs)[..t]
    ensures ItemString(Tail(it, t), bufs) == ItemString(it, bufs)[t..]
    ensures CutsAt(Reader(bufs), it, t)
  {
  }

  /** A span followed by one that continues it reads, extended, as the two strings joined. */
  lemma {:induction false} MergedSpan(it: PieceTableItem, item: PieceTableItem, bufs: Buffers)
    requires InBounds(it, bufs) && InBounds(item, bufs) && Continues(it, item)
    ensures InBounds(Extended(it, item), bufs)
    ensures ItemString(Extended(it, item), bufs) == ItemString(it, bufs) + ItemString(item, bufs)
  {
    var buf := Buffer(bufs, it.bufferType);
    assert buf[it.offset..item.offset + item.length] == buf[it.offset..item.offset] + buf[item.offset..item.offset + item.length];
  }

  // ---------------------------------------------------------------- text

  /**
   * The spans' strings in order, each read by `read`. Text::toString is
   * this with every span read from the document's buffers (Content); the
   * lemmas about rearranging spans hold for any reader.
   */
  function Concat(items: Items, read: PieceTableItem -> QString): QString
  {
    if |items| == 0 then [] else Concat(items[..|items| - 1], read) + read(items[|items| - 1])
  }

  /** PieceTableItem::toString over the given buffers, as a reader. */
  function Reader(bufs: Buffers): PieceTableItem -> QString
  {
    it => ItemString(it, bufs)
  }

  /** The text the spans denote (Text::toString). */
  function Content(items: Items, bufs: Buffers): QString
  {
    Concat(items, Reader(bufs))
  }

  /** The reader gives every span a string as long as the span. */
  predicate Measured(items: Items, read: PieceTableItem -> QString)
  {
    forall j :: 0 <= j < |items| ==> |read(items[j])| == items[j].length
  }

  /** The reader agrees with cutting `it` at t. */
  predicate CutsAt(read: PieceTableItem -> QString, it: PieceTableItem, t: int)
  {
    0 <= t <= |read(it)| && read(Head(it, t)) == read(it)[..t] && read(Tail(it, t)) == read(it)[t..]
  }

  lemma {:induction false} ConcatLength(items: Items, read: PieceTableItem -> QString)
    requires Measured(items, read)
    ensures |Concat(items, read)| == Total(items)
    decreases |items|
  {
    if |items| > 0 {
      ConcatLength(items[..|items| - 1], read);
    }
  }

  /** Spans inside their buffers read as strings of their own lengths. */
  lemma {:induction false} Measure(items: Items, bufs: Buffers)
    requires ValidItems(items, bufs)
    ensures Measured(items, Reader(bufs))
  {
  }

  /** With every span inside its buffer, the content is as long as the total. */
  lemma {:induction false} ContentLength(items: Items, bufs: Buffers)
    requires ValidItems(items, bufs)
    ensures |Content(items, bufs)| == Total(items)
  {
    Measure(items, bufs);
    ConcatLength(items, Reader(bufs));
  }

  /** The text of two runs of spans is their two texts. */
  lemma {:induction false} ConcatAppend(a: Items, b: Items, read: PieceTableItem -> QString)
    ensures Concat(a + b, read) == Concat(a, read) + Concat(b, read)
    decreases |b|
  {
    if |b| == 0 {
      assert a + b == a;
    } else {
      var b' := b[..|b| - 1];
      assert (a + b)[..|a + b| - 1] == a + b';
      ConcatAppend(a, b', read);
    }
  }

  lemma {:induction false} ConcatOne(x: PieceTableItem, read: PieceTableItem -> QString)
    ensures Concat([x], read) == read(x)
  {
    assert [x][..0] == [];
  }

  lemma {:induction false} ConcatTwo(x: PieceTableItem, y: PieceTableItem, read: PieceTableItem -> QString)
    ensures Concat([x, y], read) == read(x) + read(y)
  {
    ConcatOne(x, read);
    assert [x, y][..1] == [x];
  }

  lemma {:induction false} ConcatThree(x: PieceTableItem, y: PieceTableItem, z: PieceTableItem, read: PieceTableItem -> QString)
    ensures Concat([x, y, z], read) == read(x) + read(y) + read(z)
  {
    ConcatTwo(x, y, read);
    assert [x, y, z][..2] == [x, y];
  }

  /**
   * Span i splits the text into what comes before it, its own string and
   * what follows; what comes before is Start(items, i) units long.
   */
  lemma {:induction false} ConcatAt(items: Items, i: nat, read: PieceTableItem -> QString)
    requires Measured(items, read) && i < |items|
    ensures Concat(items, read) == Concat(items[..i], read) + read(items[i]) + Concat(items[i + 1..], read)
    ensures |Concat(items[..i], read)| == Start(items, i)
  {
    assert items == items[..i] + [items[i]] + items[i + 1..];
    ConcatAppend(items[..i] + [items[i]], items[i + 1..], read);
    ConcatAppend(items[..i], [items[i]], read);
    ConcatOne(items[i], read);
    assert Measured(items[..i], read) by {
      assert forall j :: 0 <= j < i ==> items[..i][j] == items[j];
    }
    ConcatLength(items[..i], read);
  }

  /** A splice's text is the texts of its three parts. */
  lemma {:induction false} ConcatSplice(a: Items, m: Items, b: Items, read: PieceTableItem -> QString)
    ensures Concat(a + m + b, read) == Concat(a, read) + Concat(m, read) + Concat(b, read)
  {
    ConcatAppend(a + m, b, read);
    ConcatAppend(a, m, read);
  }

  /**
   * The text around span i: what comes before it (Start(items, i) units
   * long) and what follows, also around any run m that replaces the span.
   */
  lemma {:induction false} Around(items: Items, i: nat, m: Items, read: PieceTableItem -> QString) returns (a: QString, b: QString)
    requires Measured(items, read) && i < |items|
    ensures |a| == Start(items, i)
    ensures Concat(items, read) == a + read(items[i]) + b
    ensures Concat(items[..i] + m + items[i + 1..], read) == a + Concat(m, read) + b
  {
    a, b := Concat(items[..i], read), Concat(items[i + 1..], read);
    ConcatSplice(items[..i], m, items[i + 1..], read);
    ConcatAt(items, i, read);
  }

  /** Putting x t units into the middle part puts it |a| + t units into the whole. */
  lemma {:induction false} PutIn(a: QString, s: QString, b: QString, t: int, x: QString, ms: QString)
    requires 0 <= t <= |s| && ms == s[..t] + x + s[t..]
    ensures 0 <= |a| + t <= |a + s + b|
    ensures a + ms + b == (a + s + b)[..|a| + t] + x + (a + s + b)[|a| + t..]
  {
    assert (a + s + b)[..|a| + t] == a + s[..t];
    assert (a + s + b)[|a| + t..] == s[t..] + b;
  }

  /** Cutting units out of the middle part cuts them |a| + t units into the whole. */
  lemma {:induction false} CutOut(a: QString, s: QString, b: QString, t: int, length: int, ms: QString)
    requires 0 <= t && 0 <= length && t + length <= |s| && ms == s[..t] + s[t + length..]
    ensures 0 <= |a| + t && |a| + t + length <= |a + s + b|
    ensures a + ms + b == (a + s + b)[..|a| + t] + (a + s + b)[|a| + t + length..]
  {
    assert (a + s + b)[..|a| + t] == a + s[..t];
    assert (a + s + b)[|a| + t + length..] == s[t + length..] + b;
  }

  /** Cutting the middle part at t cuts the whole at |a| + t. */
  lemma {:induction false} CutAt(a: QString, s: QString, b: QString, t: int)
    requires 0 <= t <= |s|
    ensures 0 <= |a| + t <= |a + s + b|
    ensures (a + s + b)[..|a| + t] == a + s[..t]
    ensures (a + s + b)[|a| + t..] == s[t..] + b
  {
  }

  /**
   * Replacing span i by spans that read as its string with x put t units
   * in puts x at Start(items, i) + t of the text.
   */
  lemma {:induction false} SpliceInsert(items: Items, i: nat, t: int, m: Items, x: QString, read: PieceTableItem -> QString)
    requires Measured(items, read) && i < |items| && 0 <= t <= items[i].length
    requires Concat(m, read) == read(items[i])[..t] + x + read(items[i])[t..]
    ensures 0 <= Start(items, i) + t <= |Concat(items, read)|
    ensures Concat(items[..i] + m + items[i + 1..], read)
         == Concat(items, read)[..Start(items, i) + t] + x + Concat(items, read)[Start(items, i) + t..]
  {
    var a, b := Around(items, i, m, read);
    PutIn(a, read(items[i]), b, t, x, Concat(m, read));
  }

  /**
   * Replacing span i by spans that read as its string less `length` units
   * from t removes those units at Start(items, i) + t of the text.
   */
  lemma {:induction false} SpliceRemove(items: Items, i: nat, t: int, length: int, m: Items, read: PieceTableItem -> QString)
    requires Measured(items, read) && i < |items|
    requires 0 <= t && 0 <= length && t + length <= items[i].length
    requires Concat(m, read) == read(items[i])[..t] + read(items[i])[t + length..]
    ensures 0 <= Start(items, i) + t && Start(items, i) + t + length <= |Concat(items, read)|
    ensures Concat(items[..i] + m + items[i + 1..], read)
         == Concat(items, read)[..Start(items, i) + t] + Concat(items, read)[Start(items, i) + t + length..]
  {
    var a, b := Around(items, i, m, read);
    CutOut(a, read(items[i]), b, t, length, Concat(m, read));
  }

  /**
   * Sharing span i between two halves as l and r, where l reads as its
   * first t units and r as the rest, cuts the text at Start(items, i) + t.
   */
  lemma {:induction false} SpliceSplit(items: Items, i: nat, t: int, l: Items, r: Items, read: PieceTableItem -> QString)
    requires Measured(items, read) && i < |items| && 0 <= t <= items[i].length
    requires Concat(l, read) == read(items[i])[..t] && Concat(r, read) == read(items[i])[t..]
    ensures 0 <= Start(items, i) + t <= |Concat(items, read)|
    ensures Concat(items[..i] + l, read) == Concat(items, read)[..Start(items, i) + t]
    ensures Concat(r + items[i + 1..], read) == Concat(items, read)[Start(items, i) + t..]
  {
    var a, b := Concat(items[..i], read), Concat(items[i + 1..], read);
    ConcatAt(items, i, read);
    ConcatAppend(items[..i], l, read);
    ConcatAppend(r, items[i + 1..], read);
    CutAt(a, read(items[i]), b, t);
  }

  lemma {:induction false} StartStep(items: Items, i: nat)
    requires i < |items|
    ensures Start(items, i + 1) == Start(items, i) + items[i].length
  {
    assert items[..i + 1][..i] == items[..i];
  }

  /** The total of two runs of spans is the sum of their totals. */
  lemma {:induction false} TotalAppend(a: Items, b: Items)
    ensures Total(a + b) == Total(a) + Total(b)
    decreases |b|
  {
    if |b| == 0 {
      assert a + b == a;
    } else {
      assert (a + b)[..|a + b| - 1] == a + b[..|b| - 1];
      TotalAppend(a, b[..|b| - 1]);
    }
  }

  /** Replacing span i by m changes the total by the difference of their lengths. */
  lemma {:induction false} TotalSplice(items: Items, i: nat, m: Items)
    requires i < |items|
    ensures Total(items[..i] + m + items[i + 1..]) == Total(items) - items[i].length + Total(m)
  {
    TotalAppend(items[..i] + m, items[i + 1..]);
    TotalAppend(items[..i], m);
    assert items == items[..i] + [items[i]] + items[i + 1..];
    TotalAppend(items[..i] + [items[i]], items[i + 1..]);
    TotalAppend(items[..i], [items[i]]);
    assert [items[i]][..0] == [];
  }

  lemma {:induction false} TotalNonNegative(items: Items)
    requires NonNegative(items)
    ensures Total(items) >= 0
    decreases |items|
  {
    if |items| > 0 {
      TotalNonNegative(items[..|items| - 1]);
    }
  }

  /** With non-negative lengths, every span starts between 0 and the total. */
  lemma {:induction false} StartBound(items: Items, n: nat)
    requires NonNegative(items) && n <= |items|
    ensures 0 <= Start(items, n) <= Total(items)
    decreases |items|
  {
    assert items[..|items|] == items;
    if n < |items| {
      var init := items[..|items| - 1];
      StartBound(init, n);
      assert init[..n] == items[..n];
    } else {
      TotalNonNegative(items);
    }
  }

  /** Replacing span i by spans that lie in their buffers keeps every span in its buffer. */
  lemma {:induction false} ValidSplice(items: Items, i: nat, m: Items, bufs: Buffers)
    requires i < |items| && ValidItems(items, bufs) && ValidItems(m, bufs)
    ensures ValidItems(items[..i] + m + items[i + 1..], bufs)
  {
    var r := items[..i] + m + items[i + 1..];
    forall j | 0 <= j < |r|
      ensures InBounds(r[j], bufs)
    {
      if j >= i + |m| {
        assert r[j] == items[j - |m| + 1];
      }
    }
  }

  /** Putting spans that lie in their buffers after the spans before i, or before those after i, keeps them all in their buffers. */
  lemma {:induction false} ValidHalves(items: Items, i: nat, l: Items, r: Items, bufs: Buffers)
    requires i < |items| && ValidItems(items, bufs) && ValidItems(l, bufs) && ValidItems(r, bufs)
    ensures ValidItems(items[..i] + l, bufs) && ValidItems(r + items[i + 1..], bufs)
  {
    var a, b := items[..i] + l, r + items[i + 1..];
    forall j | 0 <= j < |a|
      ensures InBounds(a[j], bufs)
    {
      if j < i {
        assert a[j] == items[j];
      }
    }
    forall j | 0 <= j < |b|
      ensures InBounds(b[j], bufs)
    {
      if j >= |r| {
        assert b[j] == items[j - |r| + i + 1];
      }
    }
  }

  // ---------------------------------------------------------------- findItem

  /** Span i contains position k (up to its right end when includeRight). */
  predicate Hits(items: Items, k: int, includeRight: bool, i: nat)
    requires i < |items|
  {
    Start(items, i) <= k
    && (if includeRight then k <= Start(items, i) + items[i].length else k < Start(items, i) + items[i].length)
  }

  /** findItem's scan from span i, whose start is cur. */
  function LocateFrom(items: Items, k: int, includeRight: bool, i: nat, cur: int): (r: Option<(nat, int)>)
    requires i <= |items| && cur == Start(items, i)
    ensures r.Some? ==> i <= r.value.0 < |items| && r.value.1 <= k
                        && (if includeRight then k <= r.value.1 + items[r.value.0].length else k < r.value.1 + items[r.value.0].length)
    decreases |items| - i
  {
    if i == |items| then None
    else if cur <= k && (if includeRight then k <= cur + items[i].length else k < cur + items[i].length) then Some((i, cur))
    else
      StartStep(items, i);
      LocateFrom(items, k, includeRight, i + 1, cur + items[i].length)
  }

  /**
   * Text::findItem: the first span containing position k and where it
   * starts, or None where the source reaches its failed assertion.
   */
  function Locate(items: Items, k: int, includeRight: bool): (r: Option<(nat, int)>)
    ensures r.Some? ==> r.value.0 < |items| && r.value.1 <= k
                        && (if includeRight then k <= r.value.1 + items[r.value.0].length else k < r.value.1 + items[r.value.0].length)
  {
    LocateFrom(items, k, includeRight, 0, 0)
  }

  /** The scan from span i finds the first span from i on that contains k, and where it starts. */
  lemma {:induction false} LocateFromSpec(items: Items, k: int, includeRight: bool, i: nat)
    requires i <= |items|
    ensures var r := LocateFrom(items, k, includeRight, i, Start(items, i));
            && (r.Some? ==> i <= r.value.0 < |items| && r.value.1 == Start(items, r.value.0)
                            && Hits(items, k, includeRight, r.value.0)
                            && forall j :: i <= j < r.value.0 ==> !Hits(items, k, includeRight, j))
            && (r.None? ==> forall j :: i <= j < |items| ==> !Hits(items, k, includeRight, j))
    decreases |items| - i
  {
    if i < |items| {
      StartStep(items, i);
      LocateFromSpec(items, k, includeRight, i + 1);
    }
  }

  /** findItem returns the first span that contains k, and where it starts; None when no span does. */
  lemma {:induction false} LocateSpec(items: Items, k: int, includeRight: bool)
    ensures var r := Locate(items, k, includeRight);
            && (r.Some? ==> r.value.0 < |items| && r.value.1 == Start(items, r.value.0)
                            && Hits(items, k, includeRight, r.value.0)
                            && forall j :: 0 <= j < r.value.0 ==> !Hits(items, k, includeRight, j))
            && (r.None? ==> forall j :: 0 <= j < |items| ==> !Hits(items, k, includeRight, j))
  {
    LocateFromSpec(items, k, includeRight, 0);
  }

  lemma {:induction false} MissedBound(items: Items, k: int, includeRight: bool, n: nat)
    requires 0 <= k && n <= |items|
    requires forall j :: 0 <= j < n ==> !Hits(items, k, includeRight, j)
    ensures Start(items, n) <= k
    ensures includeRight && n > 0 ==> Start(items, n) < k
    decreases n
  {
    if n > 0 {
      MissedBound(items, k, includeRight, n - 1);
      assert !Hits(items, k, includeRight, n - 1);
      StartStep(items, n - 1);
    }
  }

  /** Inside the text, findItem always succeeds. */
  lemma {:induction false} LocateSucceeds(items: Items, k: int, includeRight: bool)
    requires |items| > 0 && 0 <= k
    requires if includeRight then k <= Total(items) else k < Total(items)
    ensures Locate(items, k, includeRight).Some?
  {
    assert items[..|items|] == items;
    LocateSpec(items, k, includeRight);
    if Locate(items, k, includeRight).None? {
      MissedBound(items, k, includeRight, |items|);
    }
  }

  /** Whatever findItem returns lies inside the text. */
  lemma {:induction false} LocateInside(items: Items, k: int, includeRight: bool)
    requires NonNegative(items) && Locate(items, k, includeRight).Some?
    ensures 0 <= k <= Total(items)
  {
    LocateSpec(items, k, includeRight);
    var (i, cur) := Locate(items, k, includeRight).value;
    StartBound(items, i);
    StartBound(items, i + 1);
    StartStep(items, i);
  }

  /** The scan from span j reaches span i when i is the first span from j on that contains k. */
  lemma {:induction false} LocateFromReaches(items: Items, k: int, includeRight: bool, j: nat, i: nat)
    requires j <= i < |items| && Hits(items, k, includeRight, i)
    requires forall m :: j <= m < i ==> !Hits(items, k, includeRight, m)
    ensures LocateFrom(items, k, includeRight, j, Start(items, j)) == Some((i, Start(items, i)))
    decreases i - j
  {
    if j < i {
      StartStep(items, j);
      assert !Hits(items, k, includeRight, j);
      LocateFromReaches(items, k, includeRight, j + 1, i);
    } else {
      assert Hits(items, k, includeRight, i);
    }
  }

  /** The first span that contains k is what findItem returns. */
  lemma {:induction false} LocateIsFirst(items: Items, k: int, includeRight: bool, i: nat)
    requires i < |items| && Hits(items, k, includeRight, i)
    requires forall j :: 0 <= j < i ==> !Hits(items, k, includeRight, j)
    ensures Locate(items, k, includeRight) == Some((i, Start(items, i)))
  {
    LocateFromReaches(items, k, includeRight, 0, i);
  }

  // ---------------------------------------------------------------- insert

  /**
   * What replaces the span `it` when `item` is inserted t units into it: the
   * item before it at its head; at its tail the span extended when the item
   * continues it, else the span then the item; strictly inside, the span cut
   * in two around the item.
   */
  function InsertPiece(it: PieceTableItem, t: int, item: PieceTableItem): Items
  {
    if t == 0 then [item, it]
    else if t == it.length then
      if Continues(it, item) then [Extended(it, item)] else [it, item]
    else [Head(it, t), item, Tail(it, t)]
  }

  /**
   * The spans after Text::insert(k, item): the first span whose closed range
   * contains k is replaced as InsertPiece says; no such span, no change.
   */
  function InsertItems(items: Items, k: int, item: PieceTableItem): Items
  {
    match Locate(items, k, true)
    case None => items
    case Some((i, cur)) => items[..i] + InsertPiece(items[i], k - cur, item) + items[i + 1..]
  }

  /** The pieces that replace a span read as its string with the item's string put t units in. */
  lemma {:induction false} InsertPieceConcat(it: PieceTableItem, t: int, item: PieceTableItem, read: PieceTableItem -> QString)
    requires |read(it)| == it.length && CutsAt(read, it, t)
    requires Continues(it, item) ==> read(Extended(it, item)) == read(it) + read(item)
    ensures Concat(InsertPiece(it, t, item), read) == read(it)[..t] + read(item) + read(it)[t..]
  {
    var s, x := read(it), read(item);
    if t == 0 {
      ConcatTwo(item, it, read);
      assert s[..0] + x + s[0..] == x + s;
    } else if t == it.length {
      if Continues(it, item) {
        ConcatOne(Extended(it, item), read);
      } else {
        ConcatTwo(it, item, read);
      }
      assert s[..t] + x + s[t..] == s + x;
    } else {
      ConcatThree(Head(it, t), item, Tail(it, t), read);
    }
  }

  /** The pieces that replace a span lie in their buffers. */
  lemma {:induction false} InsertPieceValid(it: PieceTableItem, t: int, item: PieceTableItem, bufs: Buffers)
    requires InBounds(it, bufs) && InBounds(item, bufs) && 0 <= t <= it.length
    ensures ValidItems(InsertPiece(it, t, item), bufs)
  {
    CutSpan(it, t, bufs);
    if Continues(it, item) {
      MergedSpan(it, item, bufs);
    }
  }

  /** Replacing span i by the pieces of an insert t units into it puts the item at Start(items, i) + t. */
  lemma {:induction false} InsertAt(items: Items, i: nat, t: int, item: PieceTableItem, bufs: Buffers)
    requires ValidItems(items, bufs) && InBounds(item, bufs)
    requires i < |items| && 0 <= t <= items[i].length
    ensures ValidItems(items[..i] + InsertPiece(items[i], t, item) + items[i + 1..], bufs)
    ensures 0 <= Start(items, i) + t <= |Content(items, bufs)|
    ensures Content(items[..i] + InsertPiece(items[i], t, item) + items[i + 1..], bufs)
         == Content(items, bufs)[..Start(items, i) + t] + ItemString(item, bufs) + Content(items, bufs)[Start(items, i) + t..]
  {
    var it := items[i];
    CutSpan(it, t, bufs);
    if Continues(it, item) {
      MergedSpan(it, item, bufs);
    }
    InsertPieceConcat(it, t, item, Reader(bufs));
    InsertPieceValid(it, t, item, bufs);
    ValidSplice(items, i, InsertPiece(it, t, item), bufs);
    Measure(items, bufs);
    SpliceInsert(items, i, t, InsertPiece(it, t, item), ItemString(item, bufs), Reader(bufs));
  }

  /** Inside a non-empty text, insert replaces the span findItem returns, cut where k falls in it. */
  lemma {:induction false} InsertSite(items: Items, k: int, item: PieceTableItem) returns (i: nat, t: int)
    requires |items| > 0 && 0 <= k <= Total(items)
    ensures i < |items| && 0 <= t <= items[i].length && k == Start(items, i) + t
    ensures InsertItems(items, k, item) == items[..i] + InsertPiece(items[i], t, item) + items[i + 1..]
    ensures |items| <= |InsertItems(items, k, item)| <= |items| + 2
  {
    LocateSucceeds(items, k, true);
    LocateSpec(items, k, true);
    var p := Locate(items, k, true).value;
    i, t := p.0, k - p.1;
  }

  /**
   * Inserting at a position k inside a non-empty text places the item's
   * string at k, and every span stays in its buffer.
   */
  lemma {:induction false} InsertContent(items: Items, k: int, item: PieceTableItem, bufs: Buffers)
    requires ValidItems(items, bufs) && InBounds(item, bufs)
    requires |items| > 0 && 0 <= k <= Total(items)
    ensures |Content(items, bufs)| == Total(items)
    ensures ValidItems(InsertItems(items, k, item), bufs)
    ensures Content(InsertItems(items, k, item), bufs)
         == Content(items, bufs)[..k] + ItemString(item, bufs) + Content(items, bufs)[k..]
  {
    ContentLength(items, bufs);
    var i, t := InsertSite(items, k, item);
    InsertAt(items, i, t, item, bufs);
  }

  /** An insert position outside the text leaves the spans unchanged. */
  lemma {:induction false} InsertOutside(items: Items, k: int, item: PieceTableItem)
    requires NonNegative(items)
    requires k < 0 || k > Total(items)
    ensures InsertItems(items, k, item) == items
  {
    if Locate(items, k, true).Some? {
      LocateInside(items, k, true);
    }
  }

  // ---------------------------------------------------------------- remove

  /**
   * What replaces the span `it` when `length` units are removed t units into
   * it, the removal ending inside the span. At the head the span is dropped
   * when it is removed whole, else it starts `length` later and is that much
   * shorter; at the tail it is shortened; strictly inside, it is cut in two.
   */
  function RemovePiece(it: PieceTableItem, t: int, length: int): Items
  {
    if t == 0 then
      if it.length == length then [] else [Tail(it, length)]
    else if t + length == it.length then [Head(it, it.length - length)]
    else [Head(it, t), Tail(it, t + length)]
  }

  /** RemovePiece as written: a removal at the head moves the offset but keeps the length. */
  function RemovePieceAsWritten(it: PieceTableItem, t: int, length: int): Items
  {
    if t == 0 then
      if it.length == length then [] else [it.(offset := it.offset + length)]
    else if t + length == it.length then [Head(it, it.length - length)]
    else [Head(it, t), Tail(it, t + length)]
  }

  /**
   * Text::remove(k, length) as written. A removal that runs past the span
   * containing k drops that whole span and removes `length` minus the span's
   * length from k in what is left, whatever part of the span lay before k.
   * None where findItem reaches its failed assertion.
   */
  function RemoveItemsAsWritten(items: Items, k: int, length: int): Option<Items>
    decreases |items|
  {
    match Locate(items, k, false)
    case None => None
    case Some((i, cur)) =>
      var it := items[i];
      if k - cur + length > it.length then
        RemoveItemsAsWritten(items[..i] + items[i + 1..], k, length - it.length)
      else Some(items[..i] + RemovePieceAsWritten(it, k - cur, length) + items[i + 1..])
  }

  /** What a removal running past its span keeps of it: the part before the removal. */
  function Kept(it: PieceTableItem, t: int): Items
  {
    if t == 0 then [] else [Head(it, t)]
  }

  /**
   * Text::remove with both defects repaired: a removal running past its span
   * keeps the part of the span before k and goes on with what is left to
   * remove, and a removal at a span's head also shortens the span.
   */
  function RemoveItems(items: Items, k: int, length: int): Option<Items>
    decreases if length > 0 then length else 0
  {
    match Locate(items, k, false)
    case None => None
    case Some((i, cur)) =>
      var it := items[i];
      var t := k - cur;
      if t + length > it.length then
        RemoveItems(items[..i] + Kept(it, t) + items[i + 1..], k, length - (it.length - t))
      else Some(items[..i] + RemovePiece(it, t, length) + items[i + 1..])
  }

  /** The pieces left by a removal inside a span read as its string less the removed units. */
  lemma {:induction false} RemovePieceConcat(it: PieceTableItem, t: int, length: int, read: PieceTableItem -> QString)
    requires |read(it)| == it.length && 0 <= t && 0 <= length && t + length <= it.length
    requires CutsAt(read, it, t) && CutsAt(read, it, length) && CutsAt(read, it, t + length)
    ensures Concat(RemovePiece(it, t, length), read) == read(it)[..t] + read(it)[t + length..]
  {
    var s := read(it);
    if t == 0 {
      if it.length == length {
        assert s[length..] == [];
      } else {
        ConcatOne(Tail(it, length), read);
      }
      assert s[..0] + s[length..] == s[length..];
    } else if t + length == it.length {
      ConcatOne(Head(it, t), read);
      assert s[t + length..] == [];
    } else {
      ConcatTwo(Head(it, t), Tail(it, t + length), read);
    }
  }

  /** The part a spanning removal keeps reads as the span's string up to t. */
  lemma {:induction false} KeptConcat(it: PieceTableItem, t: int, read: PieceTableItem -> QString)
    requires CutsAt(read, it, t)
    ensures Concat(Kept(it, t), read) == read(it)[..t]
  {
    if t > 0 {
      ConcatOne(Head(it, t), read);
    }
  }

  /** The pieces a removal leaves lie in their buffers. */
  lemma {:induction false} RemovePieceValid(it: PieceTableItem, t: int, length: int, bufs: Buffers)
    requires InBounds(it, bufs) && 0 <= t && 0 <= length && t + length <= it.length
    ensures ValidItems(RemovePiece(it, t, length), bufs) && ValidItems(Kept(it, t), bufs)
  {
    CutSpan(it, t, bufs);
    CutSpan(it, length, bufs);
    CutSpan(it, t + length, bufs);
  }

  /** Replacing span i by what a removal inside it leaves removes those units from the text. */
  lemma {:induction false} RemoveAt(items: Items, i: nat, t: int, length: int, bufs: Buffers)
    requires ValidItems(items, bufs) && i < |items|
    requires 0 <= t && 0 <= length && t + length <= items[i].length
    ensures ValidItems(items[..i] + RemovePiece(items[i], t, length) + items[i + 1..], bufs)
    ensures 0 <= Start(items, i) + t && Start(items, i) + t + length <= |Content(items, bufs)|
    ensures Content(items[..i] + RemovePiece(items[i], t, length) + items[i + 1..], bufs)
         == Content(items, bufs)[..Start(items, i) + t] + Content(items, bufs)[Start(items, i) + t + length..]
  {
    var it := items[i];
    var m := RemovePiece(it, t, length);
    CutSpan(it, t, bufs);
    CutSpan(it, length, bufs);
    CutSpan(it, t + length, bufs);
    RemovePieceConcat(it, t, length, Reader(bufs));
    RemovePieceValid(it, t, length, bufs);
    ValidSplice(items, i, m, bufs);
    Measure(items, bufs);
    SpliceRemove(items, i, t, length, m, Reader(bufs));
  }

  /**
   * A removal that runs past span i, starting t units into it, first cuts the
   * span to its first t units: the text loses the rest of the span.
   */
  lemma {:induction false} RemoveSpanTail(items: Items, i: nat, t: int, bufs: Buffers)
    requires ValidItems(items, bufs) && i < |items| && 0 <= t < items[i].length
    ensures ValidItems(items[..i] + Kept(items[i], t) + items[i + 1..], bufs)
    ensures 0 <= Start(items, i) + t && Start(items, i) + items[i].length <= |Content(items, bufs)|
    ensures Content(items[..i] + Kept(items[i], t) + items[i + 1..], bufs)
         == Content(items, bufs)[..Start(items, i) + t] + Content(items, bufs)[Start(items, i) + items[i].length..]
  {
    var it := items[i];
    var m := Kept(it, t);
    CutSpan(it, t, bufs);
    KeptConcat(it, t, Reader(bufs));
    RemovePieceValid(it, t, it.length - t, bufs);
    ValidSplice(items, i, m, bufs);
    Measure(items, bufs);
    assert ItemString(it, bufs)[t + (it.length - t)..] == [];
    SpliceRemove(items, i, t, it.length - t, m, Reader(bufs));
  }

  /**
   * Where findItem succeeds, remove works on the span it returns (the one
   * holding unit k), t units into it: it either runs past that span and goes
   * on with its start cut off, or ends inside it.
   */
  lemma {:induction false} RemoveSite(items: Items, k: int) returns (i: nat, t: int)
    requires Locate(items, k, false).Some?
    ensures i < |items| && 0 <= t < items[i].length && k == Start(items, i) + t
    ensures Locate(items, k, false) == Some((i, Start(items, i)))
  {
    LocateSpec(items, k, false);
    var p := Locate(items, k, false).value;
    i, t := p.0, k - p.1;
  }

  /** A removal that runs past the span it starts in goes on from the same position once that span is cut short. */
  lemma {:induction false} RemoveGoesOn(items: Items, k: int, length: int, i: nat, t: int)
    requires i < |items| && Locate(items, k, false) == Some((i, Start(items, i))) && k == Start(items, i) + t
    requires t + length > items[i].length
    ensures RemoveItems(items, k, length)
         == RemoveItems(items[..i] + Kept(items[i], t) + items[i + 1..], k, length - (items[i].length - t))
  {
  }

  /** A removal that ends inside the span it starts in replaces that span by what is left of it. */
  lemma {:induction false} RemoveEndsIn(items: Items, k: int, length: int, i: nat, t: int)
    requires i < |items| && Locate(items, k, false) == Some((i, Start(items, i))) && k == Start(items, i) + t
    requires t + length <= items[i].length
    ensures RemoveItems(items, k, length) == Some(items[..i] + RemovePiece(items[i], t, length) + items[i + 1..])
  {
  }

  /**
   * The step of a removal that runs past span i: what is left to remove,
   * from the same position, lies inside the shortened text, and cutting
   * that text where the removal ends cuts the old text where it ends.
   */
  lemma {:induction false} RemoveSpanningValid(items: Items, i: nat, t: int, length: int, bufs: Buffers)
    requires ValidItems(items, bufs) && i < |items| && 0 <= t < items[i].length
    requires items[i].length < t + length && Start(items, i) + t + length <= Total(items)
    ensures var next := items[..i] + Kept(items[i], t) + items[i + 1..];
            var k, rest := Start(items, i) + t, length - (items[i].length - t);
            && ValidItems(next, bufs) && 0 <= k < Total(next) && k + rest <= Total(next)
  {
    RemovePieceValid(items[i], t, items[i].length - t, bufs);
    ValidSplice(items, i, Kept(items[i], t), bufs);
    TotalSplice(items, i, Kept(items[i], t));
    assert NonNegative(items);
    StartBound(items, i);
  }

  /**
   * The same step, on the text: remove goes on, from the same position, in
   * a text `next` that lacks the rest of span i, and cutting `next` where the
   * removal ends cuts the old text where it ends.
   */
  lemma {:induction false} RemoveSpanning(items: Items, k: int, length: int, i: nat, t: int, bufs: Buffers) returns (next: Items, rest: int)
    requires ValidItems(items, bufs) && i < |items| && 0 <= t < items[i].length && k == Start(items, i) + t
    requires items[i].length < t + length && k + length <= Total(items)
    requires Locate(items, k, false) == Some((i, Start(items, i)))
    ensures ValidItems(next, bufs) && 0 <= k < Total(next) && 0 <= rest < length && k + rest <= Total(next)
    ensures RemoveItems(items, k, length) == RemoveItems(next, k, rest)
    ensures |Content(items, bufs)| == Total(items) && |Content(next, bufs)| == Total(next)
    ensures Content(next, bufs)[..k] == Content(items, bufs)[..k]
    ensures Content(next, bufs)[k + rest..] == Content(items, bufs)[k + length..]
  {
    next := items[..i] + Kept(items[i], t) + items[i + 1..];
    rest := length - (items[i].length - t);
    RemoveGoesOn(items, k, length, i, t);
    RemoveSpanningValid(items, i, t, length, bufs);
    RemoveSpanTail(items, i, t, bufs);
    ContentLength(items, bufs);
    ContentLength(next, bufs);
    SpliceSlices(Content(items, bufs), Content(next, bufs), k, Start(items, i) + items[i].length, rest);
  }

  /** Cutting the same string at the same places gives the same pieces. */
  lemma {:induction false} SpliceSlices(c: QString, d: QString, p: int, q: int, rest: int)
    requires 0 <= p <= q <= |c| && d == c[..p] + c[q..] && 0 <= rest <= |c| - q
    ensures d[..p] == c[..p] && d[p + rest..] == c[q + rest..]
  {
  }

  /** Removing from inside the text succeeds and leaves every span in its buffer. */
  lemma {:induction false} RemoveValid(items: Items, k: int, length: int, bufs: Buffers)
    requires ValidItems(items, bufs)
    requires 0 <= k < Total(items) && 0 <= length && k + length <= Total(items)
    ensures RemoveItems(items, k, length).Some?
    ensures ValidItems(RemoveItems(items, k, length).value, bufs)
    decreases length
  {
    LocateSucceeds(items, k, false);
    var i, t := RemoveSite(items, k);
    if t + length > items[i].length {
      RemoveGoesOn(items, k, length, i, t);
      RemoveSpanningValid(items, i, t, length, bufs);
      RemoveValid(items[..i] + Kept(items[i], t) + items[i + 1..], k, length - (items[i].length - t), bufs);
    } else {
      RemoveEndsIn(items, k, length, i, t);
      RemovePieceValid(items[i], t, length, bufs);
      ValidSplice(items, i, RemovePiece(items[i], t, length), bufs);
    }
  }

  /**
   * Removing [k, k + length) from inside the text deletes exactly those
   * units.
   */
  lemma {:induction false} RemoveContent(items: Items, k: int, length: int, bufs: Buffers)
    requires ValidItems(items, bufs)
    requires 0 <= k < Total(items) && 0 <= length && k + length <= Total(items)
    ensures |Content(items, bufs)| == Total(items)
    ensures RemoveItems(items, k, length).Some?
    ensures Content(RemoveItems(items, k, length).value, bufs)
         == Content(items, bufs)[..k] + Content(items, bufs)[k + length..]
    decreases length
  {
    ContentLength(items, bufs);
    LocateSucceeds(items, k, false);
    var i, t := RemoveSite(items, k);
    if t + length > items[i].length {
      var next, rest := RemoveSpanning(items, k, length, i, t, bufs);
      RemoveContent(next, k, rest, bufs);
    } else {
      RemoveEndsIn(items, k, length, i, t);
      RemoveAt(items, i, t, length, bufs);
    }
  }

  /**
   * Over two spans of three, removing the three units from position 1: the
   * code as written drops the whole first span and then one unit of the
   * second; the repaired removal keeps the first span's first unit.
   */
  lemma {:induction false} RemoveSpanningAsWritten()
    ensures var items := [PieceTableItem(original, 0, 3), PieceTableItem(original, 3, 3)];
            && RemoveItemsAsWritten(items, 1, 3) == Some([PieceTableItem(original, 3, 1), PieceTableItem(original, 4, 2)])
            && RemoveItems(items, 1, 3) == Some([PieceTableItem(original, 0, 1), PieceTableItem(original, 4, 2)])
  {
    var items := [PieceTableItem(original, 0, 3), PieceTableItem(original, 3, 3)];
    StartStep(items, 0);
    LocateIsFirst(items, 1, false, 0);
    var dropped := [PieceTableItem(original, 3, 3)];
    assert items[..0] + items[1..] == dropped;
    LocateIsFirst(dropped, 1, false, 0);
    assert dropped[..0] + RemovePieceAsWritten(dropped[0], 1, 0) + dropped[1..]
        == [PieceTableItem(original, 3, 1), PieceTableItem(original, 4, 2)];
    var kept := [PieceTableItem(original, 0, 1), PieceTableItem(original, 3, 3)];
    assert items[..0] + Kept(items[0], 1) + items[1..] == kept;
    StartStep(kept, 0);
    assert !Hits(kept, 1, false, 0);
    LocateIsFirst(kept, 1, false, 1);
    assert kept[..1] + RemovePiece(kept[1], 0, 1) + kept[2..]
        == [PieceTableItem(original, 0, 1), PieceTableItem(original, 4, 2)];
  }

  /** Over "abcdef" the two results of RemoveSpanningAsWritten read "def" and "aef". */
  lemma {:induction false} RemoveSpanningTexts()
    ensures var bufs := Buffers(Lit("abcdef"), []);
            && Content([PieceTableItem(original, 3, 1), PieceTableItem(original, 4, 2)], bufs) == Lit("def")
            && Content([PieceTableItem(original, 0, 1), PieceTableItem(original, 4, 2)], bufs) == Lit("aef")
  {
    var read := Reader(Buffers(Lit("abcdef"), []));
    ConcatTwo(PieceTableItem(original, 3, 1), PieceTableItem(original, 4, 2), read);
    ConcatTwo(PieceTableItem(original, 0, 1), PieceTableItem(original, 4, 2), read);
    assert Lit("abcdef")[3..4] + Lit("abcdef")[4..6] == Lit("def");
    assert Lit("abcdef")[0..1] + Lit("abcdef")[4..6] == Lit("aef");
  }

  /**
   * Over the one span of two, removing the first unit: the code as written
   * moves the span on without shortening it, so it still covers two units.
   */
  lemma {:induction false} RemoveHeadAsWritten()
    ensures var items := [PieceTableItem(original, 0, 2)];
            && RemoveItemsAsWritten(items, 0, 1) == Some([PieceTableItem(original, 1, 2)])
            && RemoveItems(items, 0, 1) == Some([PieceTableItem(original, 1, 1)])
  {
    var items := [PieceTableItem(original, 0, 2)];
    LocateIsFirst(items, 0, false, 0);
    assert items[..0] + RemovePieceAsWritten(items[0], 0, 1) + items[1..] == [PieceTableItem(original, 1, 2)];
    assert items[..0] + RemovePiece(items[0], 0, 1) + items[1..] == [PieceTableItem(original, 1, 1)];
  }

  /** Over "abc" the two results of RemoveHeadAsWritten read "bc" and "b". */
  lemma {:induction false} RemoveHeadTexts()
    ensures var bufs := Buffers(Lit("abc"), []);
            && Content([PieceTableItem(original, 1, 2)], bufs) == Lit("bc")
            && Content([PieceTableItem(original, 1, 1)], bufs) == Lit("b")
  {
    var read := Reader(Buffers(Lit("abc"), []));
    ConcatOne(PieceTableItem(original, 1, 2), read);
    ConcatOne(PieceTableItem(original, 1, 1), read);
    assert Lit("abc")[1..3] == Lit("bc");
    assert Lit("abc")[1..2] == Lit("b");
  }

  // ---------------------------------------------------------------- split

  /**
   * How the split span `it`, cut t units in, is shared: at its head it goes
   * right, at its tail it goes left, strictly inside the left part goes left
   * and the rest right.
   */
  function SplitPiece(it: PieceTableItem, t: int): (Items, Items)
  {
    if t == 0 then ([], [it])
    else if t == it.length then ([it], [])
    else ([Head(it, t)], [Tail(it, t)])
  }

  /** The receiver after split: its split span is truncated in place when cut strictly inside. */
  function SplitReceiver(items: Items, i: nat, t: int): Items
    requires i < |items|
  {
    if t == 0 || t == items[i].length then items else items[i := Head(items[i], t)]
  }

  /**
   * Text::split(k) as written: (left, right, receiver afterwards). The copy
   * loop runs to one below the split index, so the span just before the
   * split span is in neither half.
   */
  function SplitItemsAsWritten(items: Items, k: int): Option<(Items, Items, Items)>
  {
    match Locate(items, k, true)
    case None => None
    case Some((i, cur)) =>
      var (l, r) := SplitPiece(items[i], k - cur);
      Some((items[..if i >= 1 then i - 1 else 0] + l, r + items[i + 1..], SplitReceiver(items, i, k - cur)))
  }

  /** Text::split with every span before the split span copied to the left half. */
  function SplitItems(items: Items, k: int): Option<(Items, Items, Items)>
  {
    match Locate(items, k, true)
    case None => None
    case Some((i, cur)) =>
      var (l, r) := SplitPiece(items[i], k - cur);
      Some((items[..i] + l, r + items[i + 1..], SplitReceiver(items, i, k - cur)))
  }

  /** The two shares of a split span read as its string before and after the cut. */
  lemma {:induction false} SplitPieceConcat(it: PieceTableItem, t: int, read: PieceTableItem -> QString)
    requires |read(it)| == it.length && CutsAt(read, it, t)
    ensures Concat(SplitPiece(it, t).0, read) == read(it)[..t]
    ensures Concat(SplitPiece(it, t).1, read) == read(it)[t..]
  {
    ConcatOne(it, read);
    ConcatOne(Head(it, t), read);
    ConcatOne(Tail(it, t), read);
  }

  /** Cutting at t units into span i: the spans up to the cut hold the text before Start(items, i) + t. */
  lemma {:induction false} SplitAt(items: Items, i: nat, t: int, bufs: Buffers)
    requires ValidItems(items, bufs) && i < |items| && 0 <= t <= items[i].length
    ensures ValidItems(items[..i] + SplitPiece(items[i], t).0, bufs)
    ensures ValidItems(SplitPiece(items[i], t).1 + items[i + 1..], bufs)
    ensures 0 <= Start(items, i) + t <= |Content(items, bufs)|
    ensures Content(items[..i] + SplitPiece(items[i], t).0, bufs) == Content(items, bufs)[..Start(items, i) + t]
    ensures Content(SplitPiece(items[i], t).1 + items[i + 1..], bufs) == Content(items, bufs)[Start(items, i) + t..]
  {
    var (l, r) := SplitPiece(items[i], t);
    CutSpan(items[i], t, bufs);
    SplitPieceConcat(items[i], t, Reader(bufs));
    Measure(items, bufs);
    SpliceSplit(items, i, t, l, r, Reader(bufs));
    ValidHalves(items, i, l, r, bufs);
  }

  /** Inside a non-empty text, split cuts the span findItem returns, t units into it. */
  lemma {:induction false} SplitSite(items: Items, k: int) returns (i: nat, t: int)
    requires Locate(items, k, true).Some?
    ensures i < |items| && 0 <= t <= items[i].length && k == Start(items, i) + t
    ensures Locate(items, k, true) == Some((i, Start(items, i)))
    ensures SplitItems(items, k)
         == Some((items[..i] + SplitPiece(items[i], t).0, SplitPiece(items[i], t).1 + items[i + 1..], SplitReceiver(items, i, t)))
  {
    LocateSpec(items, k, true);
    var p := Locate(items, k, true).value;
    i, t := p.0, k - p.1;
  }

  /** Splitting at k: the left half holds the first k units and the right half the rest. */
  lemma {:induction false} SplitContent(items: Items, k: int, bufs: Buffers)
    requires ValidItems(items, bufs) && |items| > 0 && 0 <= k <= Total(items)
    ensures |Content(items, bufs)| == Total(items)
    ensures SplitItems(items, k).Some?
    ensures ValidItems(SplitItems(items, k).value.0, bufs) && ValidItems(SplitItems(items, k).value.1, bufs)
    ensures Content(SplitItems(items, k).value.0, bufs) == Content(items, bufs)[..k]
    ensures Content(SplitItems(items, k).value.1, bufs) == Content(items, bufs)[k..]
  {
    ContentLength(items, bufs);
    LocateSucceeds(items, k, true);
    var i, t := SplitSite(items, k);
    SplitAt(items, i, t, bufs);
  }

  /**
   * Over two spans of two, splitting at 3: the code as written leaves the
   * first span out of the left half; the repaired split keeps it.
   */
  lemma {:induction false} SplitAsWrittenDropsSpan()
    ensures var items := [PieceTableItem(original, 0, 2), PieceTableItem(original, 2, 2)];
            && SplitItemsAsWritten(items, 3).Some? && SplitItems(items, 3).Some?
            && SplitItemsAsWritten(items, 3).value.0 == [PieceTableItem(original, 2, 1)]
            && SplitItems(items, 3).value.0 == [PieceTableItem(original, 0, 2), PieceTableItem(original, 2, 1)]
  {
    var items := [PieceTableItem(original, 0, 2), PieceTableItem(original, 2, 2)];
    StartStep(items, 0);
    assert !Hits(items, 3, true, 0);
    LocateIsFirst(items, 3, true, 1);
  }

  /** Over "abcd" the two left halves of SplitAsWrittenDropsSpan read "c" and "abc". */
  lemma {:induction false} SplitTexts()
    ensures var bufs := Buffers(Lit("abcd"), []);
            && Content([PieceTableItem(original, 2, 1)], bufs) == Lit("c")
            && Content([PieceTableItem(original, 0, 2), PieceTableItem(original, 2, 1)], bufs) == Lit("abc")
  {
    var read := Reader(Buffers(Lit("abcd"), []));
    ConcatOne(PieceTableItem(original, 2, 1), read);
    ConcatTwo(PieceTableItem(original, 0, 2), PieceTableItem(original, 2, 1), read);
    assert Lit("abcd")[2..3] == Lit("c");
    assert Lit("abcd")[0..2] + Lit("abcd")[2..3] == Lit("abc");
  }

  // ---------------------------------------------------------------- empty

  /** With non-negative lengths, the total is zero exactly when no span is longer than zero. */
  lemma {:induction false} TotalZeroIff(items: Items)
    requires NonNegative(items)
    ensures Total(items) == 0 <==> forall i :: 0 <= i < |items| ==> items[i].length <= 0
    decreases |items|
  {
    if |items| > 0 {
      var init := items[..|items| - 1];
      TotalZeroIff(init);
      TotalNonNegative(init);
      assert forall i :: 0 <= i < |init| ==> init[i] == items[i];
    }
  }

  /** For spans inside their buffers, a text denotes nothing exactly when no span is longer than zero. */
  lemma {:induction false} EmptyIffNoContent(items: Items, bufs: Buffers)
    requires ValidItems(items, bufs)
    ensures Content(items, bufs) == [] <==> forall i :: 0 <= i < |items| ==> items[i].length <= 0
  {
    assert NonNegative(items);
    ContentLength(items, bufs);
    TotalZeroIff(items);
  }

  /** LatexBlock::toString: the strings of the Text children, in order; other children add nothing. */
  function LatexText(children: seq<Ast.Node>, bufs: Buffers): QString
  {
    if |children| == 0 then []
    else
      var last := children[|children| - 1];
      LatexText(children[..|children| - 1], bufs) + (if last.Text? then Content(last.items, bufs) else [])
  }

  /** The LaTeX source of two runs of children is the two sources concatenated. */
  lemma {:induction false} LatexTextAppend(a: seq<Ast.Node>, b: seq<Ast.Node>, bufs: Buffers)
    ensures LatexText(a + b, bufs) == LatexText(a, bufs) + LatexText(b, bufs)
    decreases |b|
  {
    if |b| == 0 {
      assert a + b == a;
    } else {
      assert (a + b)[..|a + b| - 1] == a + b[..|b| - 1];
      LatexTextAppend(a, b[..|b| - 1], bufs);
    }
  }

  /** A Text node: the piece table of one run of text, edited in place. */
  class Text {
    var items: Items

    /** Text(offset, length): one span of the original buffer. */
    constructor(offset: int, length: int)
      ensures items == [PieceTableItem(original, offset, length)]
    {
      items := [PieceTableItem(original, offset, length)];
    }

    /** Text(type, offset, length): one span of the given buffer. */
    constructor OfBuffer(t: BufferType, offset: int, length: int)
      ensures items == [PieceTableItem(t, offset, length)]
    {
      items := [PieceTableItem(t, offset, length)];
    }

    /** The private Text(): no spans. */
    constructor Blank()
      ensures items == []
    {
      items := [];
    }

    /** toString: the spans' strings concatenated in order. */
    method ToString(bufs: Buffers) returns (s: QString)
      ensures s == Content(items, bufs)
    {
      s := [];
      var j := 0;
      while j < |items|
        invariant 0 <= j <= |items|
        invariant s == Content(items[..j], bufs)
      {
        assert items[..j + 1][..j] == items[..j];
        s := s + ItemString(items[j], bufs);
        j := j + 1;
      }
      assert items[..j] == items;
    }

    /** findItem: the first span containing k, scanning with a running start offset. */
    method FindItem(k: int, includeRight: bool) returns (r: Option<(nat, int)>)
      ensures r == Locate(items, k, includeRight)
    {
      var cur := 0;
      var i := 0;
      while i < |items|
        invariant 0 <= i <= |items| && cur == Start(items, i)
        invariant forall j :: 0 <= j < i ==> !Hits(items, k, includeRight, j)
      {
        var hit := if includeRight then cur <= k <= cur + items[i].length else cur <= k < cur + items[i].length;
        if hit {
          LocateIsFirst(items, k, includeRight, i);
          return Some((i, cur));
        }
        StartStep(items, i);
        cur := cur + items[i].length;
        i := i + 1;
      }
      LocateSpec(items, k, includeRight);
      return None;
    }

    /** insert(k, item): see InsertItems. */
    method Insert(k: int, item: PieceTableItem)
      modifies this
      ensures items == InsertItems(old(items), k, item)
    {
      var i := 0;
      var cur := 0;
      while i < |items|
        invariant 0 <= i <= |items| && cur == Start(items, i)
        invariant forall j :: 0 <= j < i ==> !Hits(items, k, true, j)
        invariant items == old(items)
      {
        if cur <= k && k <= cur + items[i].length {
          LocateIsFirst(items, k, true, i);
          var it := items[i];
          if cur == k {
            items := items[..i] + [item] + items[i..];
            assert items == old(items)[..i] + [item, it] + old(items)[i + 1..];
          } else if cur + it.length == k {
            if item.bufferType == it.bufferType && it.offset + it.length == item.offset {
              items := items[i := it.(length := it.length + item.length)];
              assert items == old(items)[..i] + [it.(length := it.length + item.length)] + old(items)[i + 1..];
            } else {
              items := items[..i + 1] + [item] + items[i + 1..];
              assert items == old(items)[..i] + [it, item] + old(items)[i + 1..];
            }
          } else {
            var left := k - cur;
            var item2 := PieceTableItem(it.bufferType, it.offset + left, it.length - left);
            items := items[i := it.(length := left)];
            items := items[..i + 1] + [item] + items[i + 1..];
            items := items[..i + 2] + [item2] + items[i + 2..];
            assert items == old(items)[..i] + [it.(length := left), item, item2] + old(items)[i + 1..];
          }
          return;
        }
        StartStep(items, i);
        cur := cur + items[i].length;
        i := i + 1;
      }
      LocateSpec(items, k, true);
    }

    /**
     * remove(k, length), repaired as RemoveItems describes; the caller stays
     * inside the text, as the source asserts.
     */
    method Remove(k: int, length: int)
      requires RemoveItems(items, k, length).Some?
      modifies this
      ensures items == RemoveItems(old(items), k, length).value
      decreases if length > 0 then length else 0
    {
      var found := FindItem(k, false);
      var (i, cur) := found.value;
      ghost var gi, t := RemoveSite(items, k);
      var it := items[i];
      if k - cur + length > it.length {
        if cur == k {
          items := items[..i] + items[i + 1..];
        } else {
          items := items[i := it.(length := k - cur)];
        }
        assert items == old(items)[..i] + Kept(it, t) + old(items)[i + 1..];
        RemoveGoesOn(old(items), k, length, i, t);
        Remove(k, length - (it.length - (k - cur)));
      } else {
        if cur == k {
          if cur + it.length == k + length {
            items := items[..i] + items[i + 1..];
          } else {
            items := items[i := PieceTableItem(it.bufferType, it.offset + length, it.length - length)];
          }
        } else if cur + it.length == k + length {
          items := items[i := it.(length := it.length - length)];
        } else {
          var item2 := PieceTableItem(it.bufferType, it.offset + (k - cur) + length, it.length - (k - cur) - length);
          items := items[i := it.(length := k - cur)];
          items := items[..i + 1] + [item2] + items[i + 1..];
        }
        assert items == old(items)[..i] + RemovePiece(it, t, length) + old(items)[i + 1..];
        RemoveEndsIn(old(items), k, length, i, t);
      }
    }

    /**
     * split(k), with the copy loop repaired: two new texts holding the left
     * and right halves; the receiver's split span is cut in place.
     */
    method Split(k: int) returns (left: Text, right: Text)
      requires Locate(items, k, true).Some?
      modifies this
      ensures fresh(left) && fresh(right)
      ensures (left.items, right.items, items) == SplitItems(old(items), k).value
    {
      var found := FindItem(k, true);
      var (si, cur) := found.value;
      ghost var gi, t := SplitSite(items, k);
      left := new Text.Blank();
      right := new Text.Blank();
      var i := 0;
      while i < si
        invariant 0 <= i <= si < |items| && items == old(items)
        invariant left.items == items[..i] && right.items == []
      {
        assert items[..i + 1] == items[..i] + [items[i]];
        left.items := left.items + [items[i]];
        i := i + 1;
      }
      var it := items[si];
      if cur == k {
        right.items := right.items + [it];
      } else if cur + it.length == k {
        left.items := left.items + [it];
      } else {
        var oldLength := k - cur;
        items := items[si := it.(length := oldLength)];
        left.items := left.items + [items[si]];
        right.items := right.items + [PieceTableItem(it.bufferType, it.offset + oldLength, it.length - oldLength)];
      }
      assert left.items == old(items)[..si] + SplitPiece(it, t).0;
      assert right.items == SplitPiece(it, t).1;
      assert items == SplitReceiver(old(items), si, t);
      var j := si + 1;
      while j < |items|
        invariant si + 1 <= j <= |items| && |items| == |old(items)|
        invariant items == SplitReceiver(old(items), si, t)
        invariant right.items == SplitPiece(it, t).1 + old(items)[si + 1..j]
        invariant left.items == old(items)[..si] + SplitPiece(it, t).0
      {
        assert old(items)[si + 1..j + 1] == old(items)[si + 1..j] + [old(items)[j]];
        right.items := right.items + [items[j]];
        j := j + 1;
      }
      assert old(items)[si + 1..j] == old(items)[si + 1..];
      assert SplitItems(old(items), k).value == (old(items)[..si] + SplitPiece(it, t).0, SplitPiece(it, t).1 + old(items)[si + 1..], SplitReceiver(old(items), si, t));
    }

    /** empty(): true exactly when no span has a positive length. */
    method IsEmpty() returns (r: bool)
      ensures r <==> forall i :: 0 <= i < |items| ==> items[i].length <= 0
    {
      if |items| == 0 {
        return true;
      }
      var i := 0;
      while i < |items|
        invariant 0 <= i <= |items|
        invariant forall j :: 0 <= j < i ==> items[j].length <= 0
      {
        if items[i].length > 0 {
          return false;
        }
        i := i + 1;
      }
      return true;
    }

    /** merge(other): the other text's spans are appended in order. */
    method Merge(other: Text)
      modifies this
      ensures items == old(items) + old(other.items)
    {
      var src := other.items;
      var j := 0;
      while j < |src|
        invariant 0 <= j <= |src|
        invariant items == old(items) + src[..j]
      {
        assert src[..j + 1] == src[..j] + [src[j]];
        items := items + [src[j]];
        j := j + 1;
      }
      assert src[..j] == src;
    }
  }

  /** LatexBlock::toString: a loop over the children that keeps the Text ones. */
  method LatexBlockToString(children: seq<Ast.Node>, bufs: Buffers) returns (s: QString)
    ensures s == LatexText(children, bufs)
  {
    s := [];
    var j := 0;
    while j < |children|
      invariant 0 <= j <= |children|
      invariant s == LatexText(children[..j], bufs)
    {
      assert children[..j + 1][..j] == children[..j];
      if children[j].Text? {
        s := s + Content(children[j].items, bufs);
      }
      j := j + 1;
    }
    assert children[..j] == children;
  }
}
