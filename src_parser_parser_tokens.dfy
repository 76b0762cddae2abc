// src/parser/Parser.cpp, second part: the special-character table ch2type,
// parseLine (a line into tokens) and mergeToText (tokens back into Text
// nodes). The token record is the one of src/parser/Token.h.

module ParserTokens {
  import opened Optional
  import opened QStr
  import opened PieceTable
  import opened Ast
  import opened ParserLines
  import opened Sequences

  /** TokenType of src/parser/Token.h. */
  datatype TokenType =
    | none | sharp | space | left_parenthesis | right_parenthesis | left_bracket
    | right_bracket | exclamation | gt | quotation_en | star | tilde | text
    | backquote | dollar

  /** Token: a span of the document text and its type; equality compares all three fields. */
  datatype Token = Token(offset: int, length: int, ty: TokenType)

  /** ch2type: the eleven characters that become tokens of their own. */
  function Ch2Type(c: CodeUnit): (r: Option<TokenType>)
    ensures r.Some? ==> r.value != TokenType.text && r.value != TokenType.none && r.value != TokenType.space
  {
    if c == 0x23 then Some(sharp)
    else if c == 0x3E then Some(gt)
    else if c == 0x21 then Some(exclamation)
    else if c == 0x2A then Some(star)
    else if c == 0x7E then Some(tilde)
    else if c == 0x5B then Some(left_bracket)
    else if c == 0x5D then Some(right_bracket)
    else if c == 0x28 then Some(left_parenthesis)
    else if c == 0x29 then Some(right_parenthesis)
    else if c == 0x60 then Some(backquote)
    else if c == 0x24 then Some(dollar)
    else None
  }

  predicate Special(c: CodeUnit)
  {
    Ch2Type(c).Some?
  }

  /** The table has exactly the keys # > ! * ~ [ ] ( ) ` $ and maps no two of them to the same type. */
  lemma {:induction false} Ch2TypeTable(c: CodeUnit, d: CodeUnit)
    ensures Special(c) <==> c in {0x23, 0x3E, 0x21, 0x2A, 0x7E, 0x5B, 0x5D, 0x28, 0x29, 0x60, 0x24}
    ensures Special(c) && Special(d) && Ch2Type(c) == Ch2Type(d) ==> c == d
  {
  }

  // ---------------------------------------------------------------------
  // parseLine

  /** The first special unit at or after `from` and before `end`, or `end`. */
  function RunEnd(text: QString, from: int, end: int): (r: int)
    requires 0 <= from <= end <= |text|
    ensures from <= r <= end
    decreases end - from
  {
    if from == end || Special(text[from]) then from else RunEnd(text, from + 1, end)
  }

  /** The run holds only ordinary units and stops at a special unit or at `end`. */
  lemma {:induction false} RunEndSpec(text: QString, from: int, end: int)
    requires 0 <= from <= end <= |text|
    ensures var r := RunEnd(text, from, end);
      (forall k :: from <= k < r ==> !Special(text[k])) && (r < end ==> Special(text[r]))
    decreases end - from
  {
    if from < end && !Special(text[from]) {
      RunEndSpec(text, from + 1, end);
    }
  }

  /**
   * The token that starts at `from`: a special unit is a token of length one
   * and of its mapped type; a maximal run of other units is one text token.
   */
  function TokenAt(text: QString, from: int, end: int): (r: Token)
    requires 0 <= from < end <= |text|
    ensures r.offset == from && 1 <= r.length && from + r.length <= end
  {
    if Special(text[from]) then Token(from, 1, Ch2Type(text[from]).value)
    else Token(from, RunEnd(text, from, end) - from, TokenType.text)
  }

  /** The tokens of text[from..end], in order. */
  function TokensFrom(text: QString, from: int, end: int): seq<Token>
    requires 0 <= from <= end <= |text|
    decreases end - from
  {
    if from == end then []
    else
      var t := TokenAt(text, from, end);
      [t] + TokensFrom(text, from + t.length, end)
  }

  /** The tokens of a line. */
  function LineTokens(text: QString, l: Line): seq<Token>
    requires InText(text, l)
  {
    TokensFrom(text, l.offset, End(l))
  }

  lemma {:induction false} RunEndIs(text: QString, from: int, i: int, end: int)
    requires 0 <= from <= i <= end <= |text|
    requires forall k :: from <= k < i ==> !Special(text[k])
    requires i == end || Special(text[i])
    ensures RunEnd(text, from, end) == i
    decreases i - from
  {
    if from < i {
      RunEndIs(text, from + 1, i, end);
    }
  }

  /** A run of ordinary units from `prev` that stops at `cur` is one text token. */
  lemma {:induction false} TextRunStep(text: QString, prev: int, cur: int, end: int)
    requires 0 <= prev < cur <= end <= |text|
    requires forall k :: prev <= k < cur ==> !Special(text[k])
    requires cur == end || Special(text[cur])
    ensures TokensFrom(text, prev, end) == [Token(prev, cur - prev, TokenType.text)] + TokensFrom(text, cur, end)
  {
    RunEndIs(text, prev, cur, end);
    assert TokenAt(text, prev, end) == Token(prev, cur - prev, TokenType.text);
  }

  /** A special unit is a token of its own. */
  lemma {:induction false} SpecialStep(text: QString, cur: int, end: int)
    requires 0 <= cur < end <= |text| && Special(text[cur])
    ensures TokensFrom(text, cur, end) == [Token(cur, 1, Ch2Type(text[cur]).value)] + TokensFrom(text, cur + 1, end)
  {
  }

  /** The run of ordinary units [prev, cur) not yet emitted, as parseLine flushes it. */
  function Pending(prev: int, cur: int): seq<Token>
  {
    if prev == cur then [] else [Token(prev, cur - prev, TokenType.text)]
  }

  /**
   * The tokens parseLine emits from position `cur` on, when the units
   * [prev, cur) are ordinary and not yet emitted.
   */
  function Scan(text: QString, prev: int, cur: int, end: int): seq<Token>
    requires 0 <= prev <= cur <= end <= |text|
    decreases end - cur
  {
    if cur == end then Pending(prev, cur)
    else if Special(text[cur]) then
      Pending(prev, cur) + [Token(cur, 1, Ch2Type(text[cur]).value)] + Scan(text, cur + 1, cur + 1, end)
    else Scan(text, prev, cur + 1, end)
  }

  /** One turn of parseLine's loop at a special unit: the pending run and the unit's token are emitted. */
  lemma {:induction false} ScanSpecialStep(text: QString, tokens: seq<Token>, prev: int, cur: int, end: int, whole: seq<Token>)
    requires 0 <= prev <= cur < end <= |text| && Special(text[cur])
    requires tokens + Scan(text, prev, cur, end) == whole
    ensures (tokens + Pending(prev, cur) + [Token(cur, 1, Ch2Type(text[cur]).value)]) + Scan(text, cur + 1, cur + 1, end) == whole
  {
    var special := Token(cur, 1, Ch2Type(text[cur]).value);
    var rest := Scan(text, cur + 1, cur + 1, end);
    assert Scan(text, prev, cur, end) == Pending(prev, cur) + [special] + rest;
    Append3(tokens, Pending(prev, cur), [special], rest);
  }

  /** One turn of parseLine's loop at an ordinary unit: the unit joins the pending run. */
  lemma {:induction false} ScanPlainStep(text: QString, tokens: seq<Token>, prev: int, cur: int, end: int, whole: seq<Token>)
    requires 0 <= prev <= cur < end <= |text| && !Special(text[cur])
    requires tokens + Scan(text, prev, cur, end) == whole
    ensures tokens + Scan(text, prev, cur + 1, end) == whole
  {
  }

  /** Scan step at a special unit with no pending run. */
  lemma {:induction false} ScanSpecialFresh(text: QString, cur: int, end: int)
    requires 0 <= cur < end <= |text| && Special(text[cur])
    requires Scan(text, cur + 1, cur + 1, end) == TokensFrom(text, cur + 1, end)
    ensures Scan(text, cur, cur, end) == TokensFrom(text, cur, end)
  {
    var tok := Token(cur, 1, Ch2Type(text[cur]).value);
    var rest := Scan(text, cur + 1, cur + 1, end);
    assert Scan(text, cur, cur, end) == [] + [tok] + rest;
    SpecialStep(text, cur, end);
    assert [] + [tok] + rest == [tok] + rest;
  }

  /** Scan step at a special unit that ends a pending run of ordinary units. */
  lemma {:induction false} ScanSpecialAfterRun(text: QString, prev: int, cur: int, end: int)
    requires 0 <= prev < cur < end <= |text| && Special(text[cur])
    requires forall k :: prev <= k < cur ==> !Special(text[k])
    requires Scan(text, cur, cur, end) == TokensFrom(text, cur, end)
    ensures Scan(text, prev, cur, end) == TokensFrom(text, prev, end)
  {
    var run := Token(prev, cur - prev, TokenType.text);
    var tok := Token(cur, 1, Ch2Type(text[cur]).value);
    var rest := Scan(text, cur + 1, cur + 1, end);
    assert Scan(text, prev, cur, end) == [run] + [tok] + rest;
    assert Scan(text, cur, cur, end) == [] + [tok] + rest;
    TextRunStep(text, prev, cur, end);
    assert [run] + [tok] + rest == [run] + ([] + [tok] + rest);
  }

  /** Scan at the end of the span: the pending run is the last token. */
  lemma {:induction false} ScanEndCase(text: QString, prev: int, end: int)
    requires 0 <= prev <= end <= |text|
    requires forall k :: prev <= k < end ==> !Special(text[k])
    ensures Scan(text, prev, end, end) == TokensFrom(text, prev, end)
  {
    if prev < end {
      TextRunStep(text, prev, end, end);
    }
  }

  /** The one-pass scan produces exactly the tokens of the span. */
  lemma {:induction false} ScanIsTokens(text: QString, prev: int, cur: int, end: int)
    requires 0 <= prev <= cur <= end <= |text|
    requires forall k :: prev <= k < cur ==> !Special(text[k])
    ensures Scan(text, prev, cur, end) == TokensFrom(text, prev, end)
    decreases end - cur
  {
    if cur == end {
      ScanEndCase(text, prev, end);
    } else if Special(text[cur]) {
      ScanIsTokens(text, cur + 1, cur + 1, end);
      ScanSpecialFresh(text, cur, end);
      if prev < cur {
        ScanSpecialAfterRun(text, prev, cur, end);
      }
    } else {
      assert Scan(text, prev, cur, end) == Scan(text, prev, cur + 1, end);
      ScanIsTokens(text, prev, cur + 1, end);
    }
  }

  /** The scan of a whole line is the line's tokens. */
  lemma {:induction false} LineScan(text: QString, l: Line)
    requires InText(text, l)
    ensures Scan(text, l.offset, l.offset, l.offset + l.length) == LineTokens(text, l)
  {
    ScanIsTokens(text, l.offset, l.offset, l.offset + l.length);
  }

  /** The loop body of parseLine at a special unit: the pending run, if any, and then the unit's own token. */
  method EmitSpecial(text: QString, l: Line, tokens: seq<Token>, prev: int, cur: int, ghost whole: seq<Token>)
    returns (r: seq<Token>)
    requires InText(text, l) && 0 <= prev <= cur < l.length && Special(text[l.offset + cur])
    requires tokens + Scan(text, l.offset + prev, l.offset + cur, l.offset + l.length) == whole
    ensures r + Scan(text, l.offset + cur + 1, l.offset + cur + 1, l.offset + l.length) == whole
  {
    ScanSpecialStep(text, tokens, l.offset + prev, l.offset + cur, l.offset + l.length, whole);
    r := Flush(tokens, l.offset + prev, l.offset + cur);
    r := r + [Token(l.offset + cur, 1, Ch2Type(text[l.offset + cur]).value)];
  }

  /** Emits the pending run of ordinary units, if there is one. */
  method Flush(tokens: seq<Token>, prev: int, cur: int) returns (r: seq<Token>)
    requires prev <= cur
    ensures r == tokens + Pending(prev, cur)
    ensures |r| == |tokens| + (if prev == cur then 0 else 1)
  {
    r := tokens;
    if prev != cur {
      r := r + [Token(prev, cur - prev, TokenType.text)];
    } else {
      assert r == tokens + [];
    }
  }

  /**
   * parseLine: one pass over the line; a special unit flushes the pending
   * run of ordinary units as a text token and then becomes a token itself.
   */
  method ParseLine(text: QString, l: Line) returns (tokens: seq<Token>)
    requires InText(text, l)
    ensures tokens == LineTokens(text, l)
  {
    ghost var end := l.offset + l.length;
    ghost var whole := Scan(text, l.offset, l.offset, end);
    tokens := [];
    var prev := 0;
    var cur := 0;
    while cur < l.length
      invariant 0 <= prev <= cur <= l.length
      invariant tokens + Scan(text, l.offset + prev, l.offset + cur, end) == whole
    {
      var ch := text[l.offset + cur];
      if Special(ch) {
        tokens := EmitSpecial(text, l, tokens, prev, cur, whole);
        prev := cur + 1;
      } else {
        ScanPlainStep(text, tokens, l.offset + prev, l.offset + cur, end, whole);
      }
      cur := cur + 1;
    }
    tokens := Flush(tokens, l.offset + prev, l.offset + cur);
    LineScan(text, l);
  }

  /**
   * The tokens tile text[from..end]: the first starts at `from`, each starts
   * where the one before it ends, the last ends at `end`, none is empty.
   */
  predicate Tiles(ts: seq<Token>, from: int, end: int)
  {
    (|ts| == 0 ==> from == end)
    && (|ts| > 0 ==> ts[0].offset == from && ts[|ts| - 1].offset + ts[|ts| - 1].length == end)
    && (forall k :: 0 <= k < |ts| ==> ts[k].length >= 1)
    && (forall k :: 0 <= k < |ts| - 1 ==> ts[k].offset + ts[k].length == ts[k + 1].offset)
  }

  /** A token that ends where a tiling of the rest starts extends the tiling. */
  lemma {:induction false} TilesCons(t: Token, rest: seq<Token>, from: int, end: int)
    requires t.offset == from && t.length >= 1 && Tiles(rest, from + t.length, end)
    ensures Tiles([t] + rest, from, end)
  {
    var ts := [t] + rest;
    forall k | 1 <= k < |ts| - 1
      ensures ts[k].offset + ts[k].length == ts[k + 1].offset
    {
      assert ts[k] == rest[k - 1] && ts[k + 1] == rest[k];
    }
    if |rest| > 0 {
      assert ts[|ts| - 1] == rest[|rest| - 1];
    }
  }

  /** The tokens are in order, contiguous, non-empty and cover the span exactly. */
  lemma {:induction false} TokensTile(text: QString, from: int, end: int)
    requires 0 <= from <= end <= |text|
    ensures Tiles(TokensFrom(text, from, end), from, end)
    decreases end - from
  {
    if from < end {
      var t := TokenAt(text, from, end);
      TokensTile(text, from + t.length, end);
      TilesCons(t, TokensFrom(text, from + t.length, end), from, end);
    }
  }

  /**
   * What each token holds: a special token is one special unit and carries
   * its mapped type; a text token holds only ordinary units and ends at a
   * special unit or at the end of the span.
   */
  predicate Classified(text: QString, t: Token, end: int)
  {
    0 <= t.offset && 0 <= t.length && t.offset + t.length <= end <= |text|
    && (t.ty != TokenType.text ==> t.length == 1 && Ch2Type(text[t.offset]) == Some(t.ty))
    && (t.ty == TokenType.text ==>
          (forall k :: t.offset <= k < t.offset + t.length ==> !Special(text[k]))
          && (t.offset + t.length < end ==> Special(text[t.offset + t.length])))
  }

  lemma {:induction false} TokensClassified(text: QString, from: int, end: int)
    requires 0 <= from <= end <= |text|
    ensures forall t :: t in TokensFrom(text, from, end) ==> Classified(text, t, end)
    decreases end - from
  {
    if from < end {
      var t := TokenAt(text, from, end);
      TokensClassified(text, from + t.length, end);
      RunEndSpec(text, from, end);
      assert Classified(text, t, end);
    }
  }

  /** No text token is followed directly by another text token. */
  predicate NoAdjacentText(ts: seq<Token>)
  {
    forall k :: 0 <= k < |ts| - 1 && ts[k].ty == TokenType.text ==> ts[k + 1].ty != TokenType.text
  }

  /** Text runs are maximal: two text tokens are never neighbours. */
  lemma {:induction false} TextRunsMaximal(text: QString, from: int, end: int)
    requires 0 <= from <= end <= |text|
    ensures NoAdjacentText(TokensFrom(text, from, end))
    decreases end - from
  {
    if from < end {
      var e := from + TokenAt(text, from, end).length;
      TextRunsMaximal(text, e, end);
      var ts := TokensFrom(text, from, end);
      var rest := TokensFrom(text, e, end);
      assert ts == [ts[0]] + rest;
      if |rest| > 0 && ts[0].ty == TokenType.text {
        RunEndSpec(text, from, end);
        assert e < end && Special(text[e]);
        assert rest[0] == TokenAt(text, e, end);
      }
      forall k | 1 <= k < |ts| - 1 && ts[k].ty == TokenType.text
        ensures ts[k + 1].ty != TokenType.text
      {
        assert ts[k] == rest[k - 1] && ts[k + 1] == rest[k];
        assert 0 <= k - 1 < |rest| - 1 && rest[k - 1].ty == TokenType.text;
      }
    }
  }

  /** A line without special characters is a single text token covering it. */
  lemma {:induction false} PlainLineIsOneToken(text: QString, l: Line)
    requires InText(text, l) && l.length > 0
    requires forall k :: l.offset <= k < End(l) ==> !Special(text[k])
    ensures LineTokens(text, l) == [Token(l.offset, l.length, TokenType.text)]
  {
    RunEndIs(text, l.offset, End(l), End(l));
    assert TokenAt(text, l.offset, End(l)) == Token(l.offset, l.length, TokenType.text);
    assert TokensFrom(text, End(l), End(l)) == [];
  }

  // ---------------------------------------------------------------------
  // mergeToText

  /** Text(offset, length): a Text node holding one span of the original buffer. */
  function NewText(offset: int, length: int): (r: Node)
    ensures r.Text? && |r.items| == 1
    ensures r.items[0].bufferType == original && r.items[0].offset == offset && r.items[0].length == length
  {
    Text([PieceTableItem(original, offset, length)])
  }

  /** A span of the text, as mergeToText accumulates it. */
  datatype Span = Span(offset: int, length: int)

  function SpanEnd(sp: Span): int
  {
    sp.offset + sp.length
  }

  /** The state of mergeToText's loop: the finished spans and the one being built. */
  datatype Acc = Acc(done: seq<Span>, last: Span)

  /**
   * The state after tokens[prev..cur]: a token that starts where the span
   * being built ends extends it; any other token finishes it and starts a
   * new one.
   */
  function Coalesce(tokens: seq<Token>, prev: int, cur: int): (r: Acc)
    requires 0 <= prev < cur <= |tokens|
    ensures SpanEnd(r.last) == tokens[cur - 1].offset + tokens[cur - 1].length
    decreases cur - prev
  {
    var t := tokens[cur - 1];
    if cur == prev + 1 then Acc([], Span(t.offset, t.length))
    else
      var a := Coalesce(tokens, prev, cur - 1);
      if t.offset == SpanEnd(a.last) then Acc(a.done, Span(a.last.offset, a.last.length + t.length))
      else Acc(a.done + [a.last], Span(t.offset, t.length))
  }

  /** All the spans of tokens[prev..cur], in order. */
  function Spans(tokens: seq<Token>, prev: int, cur: int): seq<Span>
    requires 0 <= prev < cur <= |tokens|
  {
    var a := Coalesce(tokens, prev, cur);
    a.done + [a.last]
  }

  /** The Text nodes mergeToText returns: none when prev >= cur. */
  function Merged(tokens: seq<Token>, prev: int, cur: int): seq<Node>
    requires 0 <= prev && cur <= |tokens|
  {
    if prev >= cur then [] else TextsOf(Spans(tokens, prev, cur))
  }

  /** One Text node per span, in order. */
  function TextsOf(spans: seq<Span>): (r: seq<Node>)
    ensures |r| == |spans|
    ensures forall k :: 0 <= k < |spans| ==> r[k] == NewText(spans[k].offset, spans[k].length)
  {
    if |spans| == 0 then [] else [NewText(spans[0].offset, spans[0].length)] + TextsOf(spans[1..])
  }

  lemma {:induction false} TextsOfAppend(spans: seq<Span>, sp: Span)
    ensures TextsOf(spans + [sp]) == TextsOf(spans) + [NewText(sp.offset, sp.length)]
  {
    assert TextsOf(spans + [sp]) == TextsOf(spans) + [NewText(sp.offset, sp.length)];
  }

  /**
   * mergeToText: one pass keeping the span being built (offset, length);
   * each finished span becomes a Text node.
   */
  method MergeToText(tokens: seq<Token>, prev: int, cur: int) returns (texts: seq<Node>)
    requires 0 <= prev && cur <= |tokens|
    ensures texts == Merged(tokens, prev, cur)
  {
    if prev >= cur {
      return [];
    }
    texts := [];
    ghost var done: seq<Span> := [];
    var hasVal := false;
    var offset := 0;
    var length := 0;
    var i := prev;
    while i < cur
      invariant prev <= i <= cur
      invariant hasVal <==> i > prev
      invariant !hasVal ==> done == []
      invariant hasVal ==> Coalesce(tokens, prev, i) == Acc(done, Span(offset, length))
      invariant texts == TextsOf(done)
    {
      if !hasVal {
        offset := tokens[i].offset;
        length := tokens[i].length;
        hasVal := true;
      } else {
        if tokens[i].offset == offset + length {
          length := length + tokens[i].length;
        } else {
          TextsOfAppend(done, Span(offset, length));
          texts := texts + [NewText(offset, length)];
          done := done + [Span(offset, length)];
          offset := tokens[i].offset;
          length := tokens[i].length;
        }
      }
      i := i + 1;
    }
    TextsOfAppend(done, Span(offset, length));
    texts := texts + [NewText(offset, length)];
  }

  function SumLengths(tokens: seq<Token>, prev: int, cur: int): int
    requires 0 <= prev <= cur <= |tokens|
    decreases cur - prev
  {
    if prev == cur then 0 else SumLengths(tokens, prev, cur - 1) + tokens[cur - 1].length
  }

  function SpanTotal(spans: seq<Span>): int
  {
    if |spans| == 0 then 0 else SpanTotal(spans[..|spans| - 1]) + spans[|spans| - 1].length
  }

  lemma {:induction false} SpanTotalAppend(spans: seq<Span>, sp: Span)
    ensures SpanTotal(spans + [sp]) == SpanTotal(spans) + sp.length
  {
    assert (spans + [sp])[..|spans|] == spans;
  }

  /** Coalescing loses no length: the spans together are as long as the tokens. */
  lemma {:induction false} CoalesceTotal(tokens: seq<Token>, prev: int, cur: int)
    requires 0 <= prev < cur <= |tokens|
    ensures SpanTotal(Spans(tokens, prev, cur)) == SumLengths(tokens, prev, cur)
    decreases cur - prev
  {
    var a := Coalesce(tokens, prev, cur);
    var t := tokens[cur - 1];
    SpanTotalAppend(a.done, a.last);
    assert SumLengths(tokens, prev, cur) == SumLengths(tokens, prev, cur - 1) + t.length;
    if cur == prev + 1 {
      assert a == Acc([], Span(t.offset, t.length));
    } else {
      CoalesceTotal(tokens, prev, cur - 1);
      var b := Coalesce(tokens, prev, cur - 1);
      SpanTotalAppend(b.done, b.last);
      if t.offset == SpanEnd(b.last) {
        assert a == Acc(b.done, Span(b.last.offset, b.last.length + t.length));
      } else {
        assert a == Acc(b.done + [b.last], Span(t.offset, t.length));
      }
    }
  }

  /** The first span starts at the first token. */
  lemma {:induction false} CoalesceStart(tokens: seq<Token>, prev: int, cur: int)
    requires 0 <= prev < cur <= |tokens|
    ensures Spans(tokens, prev, cur)[0].offset == tokens[prev].offset
    decreases cur - prev
  {
    if cur > prev + 1 {
      CoalesceStart(tokens, prev, cur - 1);
      var a := Coalesce(tokens, prev, cur);
      var b := Coalesce(tokens, prev, cur - 1);
      if a.done == b.done {
        if |b.done| == 0 {
          assert a.last.offset == b.last.offset;
        } else {
          assert (a.done + [a.last])[0] == b.done[0] == (b.done + [b.last])[0];
        }
      } else {
        assert (a.done + [a.last])[0] == (b.done + [b.last])[0];
      }
    }
  }

  /** No span ends where the next one starts. */
  predicate Separated(spans: seq<Span>)
  {
    forall k :: 0 <= k < |spans| - 1 ==> SpanEnd(spans[k]) != spans[k + 1].offset
  }

  /** The merge is maximal: two consecutive spans never touch. */
  lemma {:induction false} CoalesceMaximal(tokens: seq<Token>, prev: int, cur: int)
    requires 0 <= prev < cur <= |tokens|
    ensures Separated(Spans(tokens, prev, cur))
    decreases cur - prev
  {
    if cur > prev + 1 {
      CoalesceMaximal(tokens, prev, cur - 1);
      var a := Coalesce(tokens, prev, cur);
      var b := Coalesce(tokens, prev, cur - 1);
      var old_ := b.done + [b.last];
      var r := a.done + [a.last];
      if a.done == b.done {
        forall k | 0 <= k < |r| - 1
          ensures SpanEnd(r[k]) != r[k + 1].offset
        {
          assert r[k] == old_[k];
          if k + 1 < |r| - 1 {
            assert r[k + 1] == old_[k + 1];
          } else {
            assert r[k + 1].offset == old_[k + 1].offset;
          }
        }
      } else {
        assert r == old_ + [a.last];
        forall k | 0 <= k < |r| - 1
          ensures SpanEnd(r[k]) != r[k + 1].offset
        {
          if k + 1 < |r| - 1 {
            assert r[k] == old_[k] && r[k + 1] == old_[k + 1];
          }
        }
      }
    }
  }

  /** Tokens that follow one another without gaps merge into exactly one Text. */
  lemma {:induction false} ContiguousMergeToOne(tokens: seq<Token>, prev: int, cur: int)
    requires 0 <= prev < cur <= |tokens|
    requires forall k :: prev <= k < cur - 1 ==> tokens[k].offset + tokens[k].length == tokens[k + 1].offset
    ensures Coalesce(tokens, prev, cur) == Acc([], Span(tokens[prev].offset, SumLengths(tokens, prev, cur)))
    decreases cur - prev
  {
    if cur > prev + 1 {
      ContiguousMergeToOne(tokens, prev, cur - 1);
    }
  }

  /** The tokens of one line merge into exactly one Text, of their total length. */
  lemma {:induction false} LineMergesToOne(text: QString, l: Line, prev: int, cur: int)
    requires InText(text, l)
    requires 0 <= prev < cur <= |LineTokens(text, l)|
    ensures var ts := LineTokens(text, l);
      Merged(ts, prev, cur) == [NewText(ts[prev].offset, SumLengths(ts, prev, cur))]
  {
    TokensTile(text, l.offset, End(l));
    ContiguousMergeToOne(LineTokens(text, l), prev, cur);
  }
}
