// src/render/StringUtil.cpp: cutting a string into runs the renderer draws
// with different fonts (Latin text and spaces, emoji, everything else).

module StringUtil {
  import opened QStr
  import opened Sequences

  /** RenderString::Type. */
  datatype Kind = Chinese | English | Emoji

  /** RenderString: a run of `length` code units starting at `offset`. */
  datatype RenderString = RenderString(kind: Kind, offset: int, length: int)

  /** The units an English run is made of: ASCII, or anything QChar::isSpace accepts. */
  predicate IsEnglish(c: CodeUnit)
  {
    c < 128 || IsSpace(c)
  }

  /**
   * The two surrogate pairs recognised as an emoji: 0xD83D followed by
   * 0xDC00..0xDE4F, or 0xD83C followed by 0xDF00..0xDFFF.
   */
  predicate EmojiAt(text: QString, p: int)
  {
    0 <= p && p + 1 < |text|
    && ((text[p] == HighSurrogateSmileys && 0xDC00 <= text[p + 1] <= 0xDE4F)
        || (text[p] == HighSurrogateSymbols && 0xDF00 <= text[p + 1] <= 0xDFFF))
  }

  /** A unit that belongs to a Chinese run: not English and not the start of an emoji. */
  predicate IsChineseAt(text: QString, p: int)
    requires 0 <= p < |text|
  {
    !IsEnglish(text[p]) && !EmojiAt(text, p)
  }

  /** The end of the English run starting at `from`. */
  function EnglishEnd(text: QString, from: int): (e: int)
    requires 0 <= from <= |text|
    ensures from <= e <= |text|
    decreases |text| - from
  {
    if from == |text| || !IsEnglish(text[from]) then from else EnglishEnd(text, from + 1)
  }

  /** EnglishEnd stops at the first unit that is not English. */
  lemma {:induction false} EnglishEndSpec(text: QString, from: int)
    requires 0 <= from <= |text|
    ensures forall p :: from <= p < EnglishEnd(text, from) ==> IsEnglish(text[p])
    ensures EnglishEnd(text, from) < |text| ==> !IsEnglish(text[EnglishEnd(text, from)])
    decreases |text| - from
  {
    if from < |text| && IsEnglish(text[from]) {
      EnglishEndSpec(text, from + 1);
    }
  }

  /** The end of the Chinese run starting at `from`. */
  function ChineseEnd(text: QString, from: int): (e: int)
    requires 0 <= from <= |text|
    ensures from <= e <= |text|
    decreases |text| - from
  {
    if from == |text| || !IsChineseAt(text, from) then from else ChineseEnd(text, from + 1)
  }

  /** ChineseEnd stops at the first unit that is English or starts an emoji. */
  lemma {:induction false} ChineseEndSpec(text: QString, from: int)
    requires 0 <= from <= |text|
    ensures forall p :: from <= p < ChineseEnd(text, from) ==> IsChineseAt(text, p)
    ensures ChineseEnd(text, from) < |text| ==> !IsChineseAt(text, ChineseEnd(text, from))
    decreases |text| - from
  {
    if from < |text| && IsChineseAt(text, from) {
      ChineseEndSpec(text, from + 1);
    }
  }

  /** The kind of run that starts at a position. */
  function KindAt(text: QString, p: int): Kind
    requires 0 <= p < |text|
  {
    if IsEnglish(text[p]) then English else if EmojiAt(text, p) then Emoji else Chinese
  }

  /** A run that is what its kind claims, inside the text. */
  predicate WellFormed(text: QString, s: RenderString)
  {
    0 <= s.offset && 0 < s.length && s.offset + s.length <= |text|
    && match s.kind
       case English =>
         (forall p :: s.offset <= p < s.offset + s.length ==> IsEnglish(text[p]))
         && (s.offset + s.length == |text| || !IsEnglish(text[s.offset + s.length]))
       case Emoji => s.length == 2 && EmojiAt(text, s.offset)
       case Chinese => forall p :: s.offset <= p < s.offset + s.length ==> IsChineseAt(text, p)
  }

  /** The runs follow one another without gap or overlap, from `from` to `to`. */
  predicate Tiles(segs: seq<RenderString>, from: int, to: int)
    decreases |segs|
  {
    if |segs| == 0 then from == to
    else segs[0].offset == from && Tiles(segs[1..], from + segs[0].length, to)
  }

  /**
   * Where the run starting at `from` ends: after a maximal English run, after
   * the two units of an emoji, or after a maximal run of the remaining units.
   */
  function RunEnd(text: QString, from: int): (e: int)
    requires 0 <= from < |text|
    ensures from < e <= |text|
  {
    match KindAt(text, from)
    case English => EnglishEnd(text, from + 1)
    case Emoji => from + 2
    case Chinese => ChineseEnd(text, from + 1)
  }

  /** The run starting at `from`. */
  function RunAt(text: QString, from: int): RenderString
    requires 0 <= from < |text|
  {
    RenderString(KindAt(text, from), from, RunEnd(text, from) - from)
  }

  /** The segmentation of text[from..], run by run. */
  function Segments(text: QString, from: int): seq<RenderString>
    requires 0 <= from <= |text|
    decreases |text| - from
  {
    if from == |text| then [] else [RunAt(text, from)] + Segments(text, RunEnd(text, from))
  }

  /**
   * The run at `from` is what its kind claims, and the run after it (if any)
   * is of another kind unless both are emoji.
   */
  lemma {:induction false} RunWellFormed(text: QString, from: int)
    requires 0 <= from < |text|
    ensures WellFormed(text, RunAt(text, from))
    ensures RunEnd(text, from) < |text| ==>
      KindAt(text, RunEnd(text, from)) != KindAt(text, from) || KindAt(text, from) == Emoji
  {
    EnglishEndSpec(text, from + 1);
    ChineseEndSpec(text, from + 1);
  }

  /**
   * Every run of the segmentation is what its kind claims, the runs tile
   * text[from..], and no English or Chinese run is followed by one of its
   * own kind.
   */
  lemma {:induction false} SegmentsWellFormed(text: QString, from: int)
    requires 0 <= from <= |text|
    ensures Tiles(Segments(text, from), from, |text|)
    ensures forall k :: 0 <= k < |Segments(text, from)| ==> WellFormed(text, Segments(text, from)[k])
    ensures var r := Segments(text, from);
      forall k :: 0 <= k < |r| - 1 ==> r[k].kind != r[k + 1].kind || r[k].kind == Emoji
    decreases |text| - from
  {
    if from < |text| {
      var r := Segments(text, from);
      var next := RunEnd(text, from);
      RunWellFormed(text, from);
      SegmentsWellFormed(text, next);
      assert r[1..] == Segments(text, next);
      assert forall k :: 1 <= k < |r| ==> r[k] == Segments(text, next)[k - 1];
    }
  }

  /** A tiling ends where the last run ends. */
  lemma {:induction false} TilesEnd(segs: seq<RenderString>, from: int, to: int)
    requires Tiles(segs, from, to) && |segs| > 0
    ensures segs[|segs| - 1].offset + segs[|segs| - 1].length == to
    decreases |segs|
  {
    if |segs| > 1 {
      TilesEnd(segs[1..], from + segs[0].length, to);
    }
  }

  /** Each run begins where the one before it ends. */
  lemma {:induction false} TilesContiguous(segs: seq<RenderString>, from: int, to: int, k: int)
    requires Tiles(segs, from, to) && 0 <= k < |segs| - 1
    ensures segs[k + 1].offset == segs[k].offset + segs[k].length
    decreases k
  {
    if k > 0 {
      TilesContiguous(segs[1..], from + segs[0].length, to, k - 1);
    }
  }

  /**
   * StringUtil::split covers the whole string: the runs start at 0, follow
   * one another, are never empty and end at the string's end; the empty
   * string yields no run.
   */
  lemma {:induction false} SegmentsCover(text: QString)
    ensures |Segments(text, 0)| == 0 <==> |text| == 0
    ensures |text| > 0 ==> Segments(text, 0)[0].offset == 0
    ensures forall k :: 0 <= k < |Segments(text, 0)| ==> Segments(text, 0)[k].length > 0
    ensures |text| > 0 ==>
      var segs := Segments(text, 0);
      segs[|segs| - 1].offset + segs[|segs| - 1].length == |text|
      && forall k :: 0 <= k < |segs| - 1 ==> segs[k + 1].offset == segs[k].offset + segs[k].length
  {
    var segs := Segments(text, 0);
    SegmentsWellFormed(text, 0);
    if |text| > 0 {
      TilesEnd(segs, 0, |text|);
      forall k | 0 <= k < |segs| - 1
        ensures segs[k + 1].offset == segs[k].offset + segs[k].length
      {
        TilesContiguous(segs, 0, |text|, k);
      }
    }
  }

  /** An English run is maximal on both sides: the unit before it is not English either. */
  lemma {:induction false} EnglishMaximal(text: QString, k: int)
    requires 0 < k < |Segments(text, 0)| && Segments(text, 0)[k].kind == English
    ensures var s := Segments(text, 0)[k]; 0 < s.offset <= |text| && !IsEnglish(text[s.offset - 1])
  {
    var segs := Segments(text, 0);
    SegmentsWellFormed(text, 0);
    TilesContiguous(segs, 0, |text|, k - 1);
    var prev := segs[k - 1];
    assert WellFormed(text, prev);
    assert prev.kind != English;
    var last := prev.offset + prev.length - 1;
    if prev.kind == Emoji {
      assert 0xDC00 <= text[last];
    } else {
      assert IsChineseAt(text, last);
    }
  }

  /** StringUtil::split. */
  method Split(text: QString) returns (stringList: seq<RenderString>)
    ensures stringList == Segments(text, 0)
  {
    ghost var whole := Segments(text, 0);
    stringList := [];
    var i := 0;
    var offset := i;
    while i < |text|
      invariant 0 <= offset <= i <= |text|
      invariant forall p :: offset <= p < i ==> IsChineseAt(text, p)
      invariant stringList + Segments(text, offset) == whole
      decreases |text| - i
    {
      if IsEnglish(text[i]) {
        if i > offset {
          ChineseStep(text, offset, i);
          Shift(stringList, RenderString(Chinese, offset, i - offset), Segments(text, i), Segments(text, offset), whole);
          stringList := stringList + [RenderString(Chinese, offset, i - offset)];
          offset := i;
        }
        while i < |text| && IsEnglish(text[i])
          invariant offset <= i <= |text|
          invariant forall p :: offset <= p < i ==> IsEnglish(text[p])
          invariant offset < |text| && IsEnglish(text[offset])
          decreases |text| - i
        {
          i := i + 1;
        }
        EnglishStep(text, offset, i);
        Shift(stringList, RenderString(English, offset, i - offset), Segments(text, i), Segments(text, offset), whole);
        stringList := stringList + [RenderString(English, offset, i - offset)];
        offset := i;
        continue;
      }
      if i + 1 < |text| {
        var ch1 := text[i];
        var ch2 := text[i + 1];
        if ch1 == HighSurrogateSmileys && ch2 >= 0xDC00 && ch2 <= 0xDE4F {
          if i > offset {
            ChineseStep(text, offset, i);
            Shift(stringList, RenderString(Chinese, offset, i - offset), Segments(text, i), Segments(text, offset), whole);
            stringList := stringList + [RenderString(Chinese, offset, i - offset)];
            offset := i;
          }
          EmojiStep(text, i);
          Shift(stringList, RenderString(Emoji, i, 2), Segments(text, i + 2), Segments(text, i), whole);
          stringList := stringList + [RenderString(Emoji, i, 2)];
          i := i + 2;
          offset := i;
          continue;
        }
        if ch1 == HighSurrogateSymbols && ch2 >= 0xDF00 && ch2 <= 0xDFFF {
          if i > offset {
            ChineseStep(text, offset, i);
            Shift(stringList, RenderString(Chinese, offset, i - offset), Segments(text, i), Segments(text, offset), whole);
            stringList := stringList + [RenderString(Chinese, offset, i - offset)];
            offset := i;
          }
          EmojiStep(text, i);
          Shift(stringList, RenderString(Emoji, i, 2), Segments(text, i + 2), Segments(text, i), whole);
          stringList := stringList + [RenderString(Emoji, i, 2)];
          i := i + 2;
          offset := i;
          continue;
        }
      }
      i := i + 1;
    }
    if i > offset {
      ChineseStep(text, offset, i);
      Shift(stringList, RenderString(Chinese, offset, i - offset), Segments(text, i), Segments(text, offset), whole);
      stringList := stringList + [RenderString(Chinese, offset, i - offset)];
    }
  }

  /** A Chinese run [offset, i) that stops at a unit that is not Chinese is the next run of the segmentation. */
  lemma {:induction false} ChineseStep(text: QString, offset: int, i: int)
    requires 0 <= offset < i <= |text|
    requires forall p :: offset <= p < i ==> IsChineseAt(text, p)
    requires i < |text| ==> !IsChineseAt(text, i)
    ensures Segments(text, offset) == [RenderString(Chinese, offset, i - offset)] + Segments(text, i)
  {
    assert IsChineseAt(text, offset);
    ChineseRun(text, offset + 1, i);
    assert RunEnd(text, offset) == i;
  }

    /** An English run that ends at `e` is the one EnglishEnd finds. */
  lemma {:induction false} EnglishRun(text: QString, from: int, e: int)
    requires 0 <= from <= e <= |text|
    requires forall p :: from <= p < e ==> IsEnglish(text[p])
    requires e < |text| ==> !IsEnglish(text[e])
    ensures EnglishEnd(text, from) == e
    decreases e - from
  {
    if from < e {
      EnglishRun(text, from + 1, e);
    }
  }

  /** A Chinese run that ends at `e` is the one ChineseEnd finds. */
  lemma {:induction false} ChineseRun(text: QString, from: int, e: int)
    requires 0 <= from <= e <= |text|
    requires forall p :: from <= p < e ==> IsChineseAt(text, p)
    requires e < |text| ==> !IsChineseAt(text, e)
    ensures ChineseEnd(text, from) == e
    decreases e - from
  {
    if from < e {
      ChineseRun(text, from + 1, e);
    }
  }


  /** An English run [offset, i) that stops at a non-English unit is the next run of the segmentation. */
  lemma {:induction false} EnglishStep(text: QString, offset: int, i: int)
    requires 0 <= offset < i <= |text|
    requires forall p :: offset <= p < i ==> IsEnglish(text[p])
    requires i < |text| ==> !IsEnglish(text[i])
    ensures Segments(text, offset) == [RenderString(English, offset, i - offset)] + Segments(text, i)
  {
    EnglishRun(text, offset + 1, i);
  }

  /** An emoji at i is the next run of the segmentation. */
  lemma {:induction false} EmojiStep(text: QString, i: int)
    requires 0 <= i && EmojiAt(text, i)
    ensures Segments(text, i) == [RenderString(Emoji, i, 2)] + Segments(text, i + 2)
  {
    assert !IsEnglish(text[i]);
  }

  /**
   * Five CJK ideographs, a grinning-face emoji (0xD83D 0xDE01) and one more
   * ideograph split into a Chinese run, an emoji and a Chinese run.
   */
  lemma {:induction false} SplitMixedExample()
    ensures var text: QString := [0x6211, 0x975E, 0x5E38, 0x559C, 0x6B22, 0xD83D, 0xDE01, 0x7528];
      Segments(text, 0) == [RenderString(Chinese, 0, 5), RenderString(Emoji, 5, 2), RenderString(Chinese, 7, 1)]
  {
    var text: QString := [0x6211, 0x975E, 0x5E38, 0x559C, 0x6B22, 0xD83D, 0xDE01, 0x7528];
    assert IsChineseAt(text, 0) && IsChineseAt(text, 1) && IsChineseAt(text, 2);
    assert IsChineseAt(text, 3) && IsChineseAt(text, 4) && EmojiAt(text, 5) && IsChineseAt(text, 7);
    ChineseRun(text, 1, 5);
    ChineseRun(text, 8, 8);
    assert RunAt(text, 0) == RenderString(Chinese, 0, 5);
    assert RunAt(text, 5) == RenderString(Emoji, 5, 2);
    assert RunAt(text, 7) == RenderString(Chinese, 7, 1);
  }
}
