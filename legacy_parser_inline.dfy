// Parser.cpp at the repository root, first part: parseLine (a line into
// string tokens), mergeToText, the inline recognisers tryParse*/parse* and
// parseParagraph, which turns one line into one paragraph. The tokens and the
// special-character table are those of parser/Token.cpp.

module LegacyInline {
  import opened Optional
  import opened QStr
  import opened Sequences
  import opened LegacyTokens
  import opened LegacyAst

  // ---------------------------------------------------------------------
  // parseLine

  /** The pending run text[prev..cur] as a token of type none, if it is not empty. */
  function Pending(text: QString, prev: int, cur: int): seq<Token>
    requires 0 <= prev <= cur <= |text|
  {
    if prev == cur then [] else [OfString(text[prev..cur])]
  }

  /** The tokens parseLine emits from position `cur` on while text[prev..cur] is pending. */
  function Scan(text: QString, prev: int, cur: int): seq<Token>
    requires 0 <= prev <= cur <= |text|
    decreases |text| - cur
  {
    if cur == |text| then Pending(text, prev, cur)
    else if text[cur] in SpMap then Pending(text, prev, cur) + [SpMap[text[cur]]] + Scan(text, cur + 1, cur + 1)
    else Scan(text, prev, cur + 1)
  }

  /** The tokens of a line. */
  function LineTokens(text: QString): seq<Token>
  {
    Scan(text, 0, 0)
  }

  /**
   * parseLine: one pass over the line; a unit of spMap flushes the pending
   * run of other units as a token of type none and then becomes its table token.
   */
  method ParseLine(text: QString) returns (tokens: seq<Token>)
    ensures tokens == LineTokens(text)
  {
    tokens := [];
    var prev := 0;
    var cur := 0;
    while cur < |text|
      invariant 0 <= prev <= cur <= |text|
      invariant tokens + Scan(text, prev, cur) == LineTokens(text)
    {
      var ch := text[cur];
      if ch in SpMap {
        ghost var run := Pending(text, prev, cur);
        ShiftRun(tokens, run, SpMap[ch], Scan(text, cur + 1, cur + 1), Scan(text, prev, cur), LineTokens(text));
        if prev != cur {
          tokens := tokens + [OfString(Mid(text, prev, cur - prev))];
        } else {
          assert tokens + run == tokens;
        }
        prev := cur + 1;
        tokens := tokens + [SpMap[ch]];
      }
      cur := cur + 1;
    }
    if prev != cur {
      tokens := tokens + [OfString(Mid(text, prev, cur - prev))];
    }
  }

  /** The token strings glued together. */
  function Spell(ts: seq<Token>): QString
  {
    if |ts| == 0 then [] else Spell(ts[..|ts| - 1]) + ts[|ts| - 1].str
  }

  lemma {:induction false} SpellAppend(a: seq<Token>, b: seq<Token>)
    ensures Spell(a + b) == Spell(a) + Spell(b)
    decreases |b|
  {
    if |b| == 0 {
      assert a + b == a;
    } else {
      SpellAppend(a, b[..|b| - 1]);
      assert (a + b)[..|a + b| - 1] == a + b[..|b| - 1];
    }
  }

  /** The pending run reads as the units from `prev` to `cur`. */
  lemma {:induction false} PendingSpells(text: QString, prev: int, cur: int)
    requires 0 <= prev <= cur <= |text|
    ensures Spell(Pending(text, prev, cur)) == text[prev..cur]
  {
    if prev < cur {
      assert Spell([OfString(text[prev..cur])]) == Spell([]) + text[prev..cur];
    }
  }

  /** A unit of spMap at `cur`: the pending run, the unit's token and the rest read as the text from `prev`. */
  lemma {:induction false} ScanSpellsAt(text: QString, prev: int, cur: int)
    requires 0 <= prev <= cur < |text| && text[cur] in SpMap
    requires Spell(Scan(text, cur + 1, cur + 1)) == text[cur + 1..]
    ensures Spell(Scan(text, prev, cur)) == text[prev..]
  {
    var p := Pending(text, prev, cur);
    var x := SpMap[text[cur]];
    var rest := Scan(text, cur + 1, cur + 1);
    assert Scan(text, prev, cur) == p + [x] + rest;
    SpMapEntries(text[cur]);
    SpellThree(p, x, rest);
    PendingSpells(text, prev, cur);
    assert text[prev..] == text[prev..cur] + [text[cur]] + text[cur + 1..];
  }

  /** The strings of a run, one token and another run, glued together. */
  lemma {:induction false} SpellThree(p: seq<Token>, x: Token, rest: seq<Token>)
    ensures Spell(p + [x] + rest) == Spell(p) + x.str + Spell(rest)
  {
    SpellAppend(p + [x], rest);
    SpellAppend(p, [x]);
    assert Spell([x]) == Spell([]) + x.str;
  }

  lemma {:induction false} ScanSpells(text: QString, prev: int, cur: int)
    requires 0 <= prev <= cur <= |text|
    ensures Spell(Scan(text, prev, cur)) == text[prev..]
    decreases |text| - cur
  {
    if cur == |text| {
      PendingSpells(text, prev, cur);
    } else if text[cur] in SpMap {
      ScanSpells(text, cur + 1, cur + 1);
      ScanSpellsAt(text, prev, cur);
    } else {
      ScanSpells(text, prev, cur + 1);
    }
  }

  /** parseLine loses nothing: the token strings glued together give back the line. */
  lemma {:induction false} LineTokensSpell(text: QString)
    ensures Spell(LineTokens(text)) == text
  {
    ScanSpells(text, 0, 0);
  }

  /**
   * What a token of parseLine holds: either one unit of spMap, as that
   * unit's table token, or a non-empty run of other units, with type none.
   */
  predicate Classified(t: Token)
  {
    if t.ty == none then |t.str| >= 1 && forall k :: 0 <= k < |t.str| ==> t.str[k] !in SpMap
    else |t.str| == 1 && t.str[0] in SpMap && SpMap[t.str[0]] == t
  }

  /** No two tokens of type none follow each other: each run of ordinary units is maximal. */
  predicate RunsMaximal(ts: seq<Token>)
  {
    forall k :: 0 <= k < |ts| - 1 ==> ts[k].ty != none || ts[k + 1].ty != none
  }

  lemma {:induction false} RunsMaximalJoin(a: seq<Token>, x: Token, b: seq<Token>)
    requires |a| <= 1 && x.ty != none && RunsMaximal(b)
    ensures RunsMaximal(a + [x] + b)
  {
    var ts := a + [x] + b;
    forall k | 0 <= k < |ts| - 1
      ensures ts[k].ty != none || ts[k + 1].ty != none
    {
      if k > |a| {
        assert ts[k] == b[k - |a| - 1] && ts[k + 1] == b[k - |a|];
      }
    }
  }

  /** The pending run, when there is one, is a classified token of type none. */
  lemma {:induction false} PendingClassified(text: QString, prev: int, cur: int)
    requires 0 <= prev <= cur <= |text|
    requires forall k :: prev <= k < cur ==> text[k] !in SpMap
    ensures forall t :: t in Pending(text, prev, cur) ==> Classified(t)
  {
    if prev < cur {
      assert forall k :: 0 <= k < cur - prev ==> text[prev..cur][k] == text[prev + k];
    }
  }

  /** Every token the scan emits is classified. */
  lemma {:induction false} ScanClassified(text: QString, prev: int, cur: int)
    requires 0 <= prev <= cur <= |text|
    requires forall k :: prev <= k < cur ==> text[k] !in SpMap
    ensures forall t :: t in Scan(text, prev, cur) ==> Classified(t)
    decreases |text| - cur
  {
    PendingClassified(text, prev, cur);
    if cur < |text| && text[cur] in SpMap {
      var p := Pending(text, prev, cur);
      var x := SpMap[text[cur]];
      var rest := Scan(text, cur + 1, cur + 1);
      ScanClassified(text, cur + 1, cur + 1);
      SpMapEntries(text[cur]);
      assert Scan(text, prev, cur) == p + [x] + rest;
    } else if cur < |text| {
      ScanClassified(text, prev, cur + 1);
    }
  }

  /** The scan never emits two runs of ordinary units in a row. */
  lemma {:induction false} ScanMaximal(text: QString, prev: int, cur: int)
    requires 0 <= prev <= cur <= |text|
    ensures RunsMaximal(Scan(text, prev, cur))
    decreases |text| - cur
  {
    if cur < |text| && text[cur] in SpMap {
      var p := Pending(text, prev, cur);
      var x := SpMap[text[cur]];
      ScanMaximal(text, cur + 1, cur + 1);
      SpMapEntries(text[cur]);
      RunsMaximalJoin(p, x, Scan(text, cur + 1, cur + 1));
    } else if cur < |text| {
      ScanMaximal(text, prev, cur + 1);
    }
  }

  /**
   * Each spMap unit of the line is a token of its own, of its mapped type;
   * the units between them form maximal runs, one token of type none each.
   */
  lemma {:induction false} LineTokensShape(text: QString)
    ensures forall t :: t in LineTokens(text) ==> Classified(t)
    ensures RunsMaximal(LineTokens(text))
  {
    ScanClassified(text, 0, 0);
    ScanMaximal(text, 0, 0);
  }

  // ---------------------------------------------------------------------
  // mergeToText

  /** mergeToText: nothing when prev >= cur, otherwise the token strings of [prev, cur) glued together. */
  function Merged(tokens: seq<Token>, prev: int, cur: int): Option<QString>
    requires 0 <= prev && (prev < cur ==> cur <= |tokens|)
  {
    if prev >= cur then None else Some(Spell(tokens[prev..cur]))
  }

  method MergeToText(tokens: seq<Token>, prev: int, cur: int) returns (r: Option<QString>)
    requires 0 <= prev && (prev < cur ==> cur <= |tokens|)
    ensures r == Merged(tokens, prev, cur)
  {
    if prev >= cur {
      return None;
    }
    var str: QString := [];
    var i := prev;
    while i < cur
      invariant prev <= i <= cur
      invariant str == Spell(tokens[prev..i])
    {
      assert tokens[prev..i + 1][..i - prev] == tokens[prev..i];
      str := str + tokens[i].str;
      i := i + 1;
    }
    return Some(str);
  }

  /** Merging all the tokens of a non-empty line gives back the line. */
  lemma {:induction false} MergeWholeLine(text: QString)
    requires |text| > 0
    ensures |LineTokens(text)| > 0
    ensures Merged(LineTokens(text), 0, |LineTokens(text)|) == Some(text)
  {
    var ts := LineTokens(text);
    LineTokensSpell(text);
    assert ts[0..|ts|] == ts;
  }

  // ---------------------------------------------------------------------
  // The inline recognisers

  /** The first index at or after `from` whose token has type `ty`, or |tokens| when there is none. */
  function NextOf(tokens: seq<Token>, ty: TokenType, from: int): (r: int)
    requires 0 <= from <= |tokens|
    ensures from <= r <= |tokens|
    decreases |tokens| - from
  {
    if from == |tokens| || tokens[from].ty == ty then from else NextOf(tokens, ty, from + 1)
  }

  lemma {:induction false} NextOfSpec(tokens: seq<Token>, ty: TokenType, from: int)
    requires 0 <= from <= |tokens|
    ensures forall k :: from <= k < NextOf(tokens, ty, from) ==> tokens[k].ty != ty
    ensures NextOf(tokens, ty, from) < |tokens| ==> tokens[NextOf(tokens, ty, from)].ty == ty
    decreases |tokens| - from
  {
    if from < |tokens| && tokens[from].ty != ty {
      NextOfSpec(tokens, ty, from + 1);
    }
  }

  /** An index with no `ty` before it that holds `ty` (or is the end) is NextOf. */
  lemma {:induction false} NextOfIs(tokens: seq<Token>, ty: TokenType, from: int, r: int)
    requires 0 <= from <= r <= |tokens|
    requires forall k :: from <= k < r ==> tokens[k].ty != ty
    requires r < |tokens| ==> tokens[r].ty == ty
    ensures NextOf(tokens, ty, from) == r
    decreases r - from
  {
    if from < r {
      NextOfIs(tokens, ty, from + 1, r);
    }
  }

  /** The loop `while (!isX(tokens[i])) i++`, which stops at the first token of the type. */
  method FindNext(tokens: seq<Token>, ty: TokenType, from: int) returns (j: int)
    requires 0 <= from <= |tokens|
    ensures j == NextOf(tokens, ty, from)
  {
    j := from;
    while j < |tokens| && tokens[j].ty != ty
      invariant from <= j <= |tokens|
      invariant NextOf(tokens, ty, j) == NextOf(tokens, ty, from)
    {
      j := j + 1;
    }
  }

  /** What one position of parseParagraph's loop does. */
  datatype Step =
    | Skip                        // no recogniser applies: step over the token
    | Emit(node: Node, next: int) // a recogniser consumed the tokens up to `next`
    | Overrun                     // the recogniser reads past the last token

  /** tryParseImage: `! [` alt `] (` url `)` with a non-empty url; the alt may be empty. */
  predicate TryImage(tokens: seq<Token>, i: int)
    requires 0 <= i
  {
    i + 1 < |tokens| && tokens[i].ty == exclamation && tokens[i + 1].ty == left_bracket
    && var rb := NextOf(tokens, right_bracket, i + 2);
       rb + 1 < |tokens| && tokens[rb + 1].ty == left_parenthesis
       && var rp := NextOf(tokens, right_parenthesis, rb + 2);
          rb + 2 < rp < |tokens|
  }

  /** parseImage: the alt and the url merged from the tokens between the brackets and the parentheses. */
  function ImageAt(tokens: seq<Token>, i: int): (r: Step)
    requires 0 <= i && TryImage(tokens, i)
    ensures r.Emit? && r.next > i
  {
    var rb := NextOf(tokens, right_bracket, i + 2);
    var rp := NextOf(tokens, right_parenthesis, rb + 2);
    Emit(Image(Merged(tokens, i + 2, rb), Merged(tokens, rb + 2, rp)), rp + 1)
  }

  /** tryParseLink: `[` text `] (` href `)` with a non-empty text; the href may be empty. */
  predicate TryLink(tokens: seq<Token>, i: int)
    requires 0 <= i
  {
    i < |tokens| && tokens[i].ty == left_bracket
    && var rb := NextOf(tokens, right_bracket, i + 1);
       i + 1 < rb && rb + 1 < |tokens| && tokens[rb + 1].ty == left_parenthesis
       && NextOf(tokens, right_parenthesis, rb + 2) < |tokens|
  }

  /** parseLink: the content and the href merged from the tokens between the brackets and the parentheses. */
  function LinkAt(tokens: seq<Token>, i: int): (r: Step)
    requires 0 <= i && TryLink(tokens, i)
    ensures r.Emit? && r.next > i
  {
    var rb := NextOf(tokens, right_bracket, i + 1);
    var rp := NextOf(tokens, right_parenthesis, rb + 2);
    Emit(Link(Merged(tokens, i + 1, rb), Merged(tokens, rb + 2, rp)), rp + 1)
  }

  /** tryParseInlineCode: some backquote follows position i. */
  predicate TryInlineCode(tokens: seq<Token>, i: int)
    requires 0 <= i < |tokens|
  {
    NextOf(tokens, backquote, i + 1) < |tokens|
  }

  /** parseInlineCode: the code up to the closing backquote; the index then skips one more token. */
  function InlineCodeAt(tokens: seq<Token>, i: int): (r: Step)
    requires 0 <= i < |tokens| && TryInlineCode(tokens, i)
    ensures r.Emit? && r.next > i
  {
    var close := NextOf(tokens, backquote, i + 1);
    Emit(InlineCode(Merged(tokens, i + 1, close)), close + 2)
  }

  /**
   * parseInlineLatex: the token strings up to the next dollar; when no dollar
   * follows, the loop reads past the last token.
   */
  function InlineLatexAt(tokens: seq<Token>, i: int): (r: Step)
    requires 0 <= i < |tokens|
    ensures r.Emit? ==> r.next > i
    ensures !r.Skip?
  {
    var d := NextOf(tokens, dollar, i + 1);
    if d == |tokens| then Overrun else Emit(InlineLatex(Spell(tokens[i + 1..d])), d + 1)
  }

  /** The number of consecutive star tokens from `from` on. */
  function StarRun(tokens: seq<Token>, from: int): (r: nat)
    requires 0 <= from <= |tokens|
    ensures from + r <= |tokens|
    decreases |tokens| - from
  {
    if from == |tokens| || tokens[from].ty != star then 0 else 1 + StarRun(tokens, from + 1)
  }

  /** tryParseItalic: exactly one star, one token, a star, and one more token after it. */
  predicate TryItalic(tokens: seq<Token>, i: int)
    requires 0 <= i <= |tokens|
  {
    StarRun(tokens, i) == 1 && i + 3 < |tokens| && tokens[i + 2].ty == star
  }

  /** tryParseBold: exactly two stars, one token, two stars, and one more token after them. */
  predicate TryBold(tokens: seq<Token>, i: int)
    requires 0 <= i <= |tokens|
  {
    StarRun(tokens, i) == 2 && i + 5 < |tokens| && tokens[i + 3].ty == star && tokens[i + 4].ty == star
  }

  /** tryParseItalicAndBold: exactly three stars, one token, three stars, and one more token after them. */
  predicate TryItalicAndBold(tokens: seq<Token>, i: int)
    requires 0 <= i <= |tokens|
  {
    StarRun(tokens, i) == 3 && i + 7 < |tokens|
    && tokens[i + 4].ty == star && tokens[i + 5].ty == star && tokens[i + 6].ty == star
  }

  /**
   * The step at token i, in the order of parseParagraph's branches. A dollar
   * is guarded by tryParseInlineCode, which looks for a backquote.
   */
  function StepAt(tokens: seq<Token>, i: int): (r: Step)
    requires 0 <= i < |tokens|
    ensures r.Emit? ==> r.next > i
  {
    var ty := tokens[i].ty;
    if ty == exclamation then (if TryImage(tokens, i) then ImageAt(tokens, i) else Skip)
    else if ty == left_bracket then (if TryLink(tokens, i) then LinkAt(tokens, i) else Skip)
    else if ty == backquote then (if TryInlineCode(tokens, i) then InlineCodeAt(tokens, i) else Skip)
    else if ty == dollar then (if TryInlineCode(tokens, i) then InlineLatexAt(tokens, i) else Skip)
    else if ty == star then
      if TryItalic(tokens, i) then Emit(ItalicText(tokens[i + 1].str), i + 3)
      else if TryBold(tokens, i) then Emit(BoldText(tokens[i + 2].str), i + 5)
      else if TryItalicAndBold(tokens, i) then Emit(BoldText(tokens[i + 3].str), i + 7)
      else Skip
    else Skip
  }

  method ParseImage(tokens: seq<Token>, i: int) returns (node: Node, next: int)
    requires 0 <= i && TryImage(tokens, i)
    ensures Emit(node, next) == ImageAt(tokens, i)
  {
    var j := i + 2;
    var prev := j;
    j := FindNext(tokens, right_bracket, j);
    var alt := MergeToText(tokens, prev, j);
    j := j + 2;
    prev := j;
    j := FindNext(tokens, right_parenthesis, j);
    var url := MergeToText(tokens, prev, j);
    next := j + 1;
    node := Image(alt, url);
  }

  method ParseLink(tokens: seq<Token>, i: int) returns (node: Node, next: int)
    requires 0 <= i && TryLink(tokens, i)
    ensures Emit(node, next) == LinkAt(tokens, i)
  {
    var j := i + 1;
    var prev := j;
    j := FindNext(tokens, right_bracket, j);
    var content := MergeToText(tokens, prev, j);
    j := j + 2;
    prev := j;
    j := FindNext(tokens, right_parenthesis, j);
    var href := MergeToText(tokens, prev, j);
    next := j + 1;
    node := Link(content, href);
  }

  method ParseInlineCode(tokens: seq<Token>, i: int) returns (node: Node, next: int)
    requires 0 <= i < |tokens| && TryInlineCode(tokens, i)
    ensures Emit(node, next) == InlineCodeAt(tokens, i)
  {
    var prev := i + 1;
    var j := FindNext(tokens, backquote, prev);
    var code := MergeToText(tokens, prev, j);
    next := j + 2;
    node := InlineCode(code);
  }

  method ParseInlineLatex(tokens: seq<Token>, i: int) returns (s: Step)
    requires 0 <= i < |tokens|
    ensures s == InlineLatexAt(tokens, i)
  {
    var j := i + 1;
    var latex: QString := [];
    while j < |tokens| && tokens[j].ty != dollar
      invariant i + 1 <= j <= |tokens|
      invariant NextOf(tokens, dollar, j) == NextOf(tokens, dollar, i + 1)
      invariant latex == Spell(tokens[i + 1..j])
    {
      assert tokens[i + 1..j + 1][..j - i - 1] == tokens[i + 1..j];
      latex := latex + tokens[j].str;
      j := j + 1;
    }
    if j == |tokens| {
      return Overrun;
    }
    return Emit(InlineLatex(latex), j + 1);
  }

  /** One position of parseParagraph's loop: the recogniser branch for the token's type. */
  method RunStep(tokens: seq<Token>, i: int) returns (s: Step)
    requires 0 <= i < |tokens|
    ensures s == StepAt(tokens, i)
  {
    var ty := tokens[i].ty;
    if ty == exclamation {
      if TryImage(tokens, i) {
        var node, next := ParseImage(tokens, i);
        return Emit(node, next);
      }
    } else if ty == left_bracket {
      if TryLink(tokens, i) {
        var node, next := ParseLink(tokens, i);
        return Emit(node, next);
      }
    } else if ty == backquote {
      if TryInlineCode(tokens, i) {
        var node, next := ParseInlineCode(tokens, i);
        return Emit(node, next);
      }
    } else if ty == dollar {
      if TryInlineCode(tokens, i) {
        s := ParseInlineLatex(tokens, i);
        return;
      }
    } else if ty == star {
      if TryItalic(tokens, i) {
        return Emit(ItalicText(tokens[i + 1].str), i + 3);
      } else if TryBold(tokens, i) {
        return Emit(BoldText(tokens[i + 2].str), i + 5);
      } else if TryItalicAndBold(tokens, i) {
        return Emit(BoldText(tokens[i + 3].str), i + 7);
      }
    }
    return Skip;
  }

  // ---------------------------------------------------------------------
  // parseParagraph

  /** The Text that mergeToText makes of [prev, i), if any. */
  function TextBefore(tokens: seq<Token>, prev: int, i: int): seq<Node>
    requires 0 <= prev && (prev < i ==> i <= |tokens|)
  {
    match Merged(tokens, prev, i)
    case None => []
    case Some(s) => [Text(s)]
  }

  /** Nodes put in front of a result that may have failed. */
  function Prepend(pre: seq<Node>, r: Option<seq<Node>>): (p: Option<seq<Node>>)
    ensures p.Some? <==> r.Some?
    ensures p.Some? ==> |p.value| == |pre| + |r.value|
  {
    if r.None? then None else Some(pre + r.value)
  }

  lemma {:induction false} PrependPrepend(a: seq<Node>, b: seq<Node>, r: Option<seq<Node>>)
    ensures Prepend(a, Prepend(b, r)) == Prepend(a + b, r)
  {
    if r.Some? {
      assert a + (b + r.value) == (a + b) + r.value;
    }
  }

  /**
   * The children parseParagraph appends from token i on, when the tokens
   * [prev, i) are not yet merged into a Text; None when a recogniser reads
   * past the last token.
   */
  function InlineFrom(tokens: seq<Token>, prev: int, i: int): Option<seq<Node>>
    requires 0 <= prev <= i && (prev < i ==> i <= |tokens|)
    decreases |tokens| - i
  {
    if i >= |tokens| then Some(TextBefore(tokens, prev, i))
    else match StepAt(tokens, i)
      case Skip => InlineFrom(tokens, prev, i + 1)
      case Overrun => None
      case Emit(node, next) => Prepend(TextBefore(tokens, prev, i) + [node], InlineFrom(tokens, next, next))
  }

  /** One step of InlineFrom, by what the recogniser at token i does. */
  lemma {:induction false} InlineStep(tokens: seq<Token>, prev: int, i: int)
    requires 0 <= prev <= i < |tokens|
    ensures StepAt(tokens, i).Skip? ==> InlineFrom(tokens, prev, i) == InlineFrom(tokens, prev, i + 1)
    ensures StepAt(tokens, i).Overrun? ==> InlineFrom(tokens, prev, i) == None
    ensures StepAt(tokens, i).Emit? ==>
      var next := StepAt(tokens, i).next;
      InlineFrom(tokens, prev, i)
      == Prepend(TextBefore(tokens, prev, i) + [StepAt(tokens, i).node], InlineFrom(tokens, next, next))
  {
  }

  /** The paragraph parseParagraph makes of one line. */
  function ParagraphOf(line: QString): Option<Node>
  {
    match InlineFrom(LineTokens(line), 0, 0)
    case None => None
    case Some(children) => Some(Paragraph(children))
  }

  /** Appends the Text merged from the tokens prev up to i, when there is one, to the paragraph's children. */
  method FlushText(children: seq<Node>, tokens: seq<Token>, prev: int, i: int) returns (out: seq<Node>)
    requires 0 <= prev && (prev < i ==> i <= |tokens|)
    ensures out == children + TextBefore(tokens, prev, i)
  {
    var text := MergeToText(tokens, prev, i);
    if text.Some? {
      out := children + [Text(text.value)];
    } else {
      out := children;
      assert out == children + [];
    }
  }

  /**
   * The loop of parseParagraph over the tokens of its line: text between
   * recognised spans is merged into Text nodes; None when a recogniser
   * reads past the last token.
   */
  method ParseInline(tokens: seq<Token>) returns (r: Option<seq<Node>>)
    ensures r == InlineFrom(tokens, 0, 0)
  {
    var children: seq<Node> := [];
    var i := 0;
    var prev := 0;
    assert Prepend(children, InlineFrom(tokens, prev, i)) == InlineFrom(tokens, 0, 0) by {
      var whole := InlineFrom(tokens, 0, 0);
      if whole.Some? {
        assert [] + whole.value == whole.value;
      }
    }
    while i < |tokens|
      invariant 0 <= prev <= i && (prev < i ==> i <= |tokens|)
      invariant Prepend(children, InlineFrom(tokens, prev, i)) == InlineFrom(tokens, 0, 0)
      decreases |tokens| - i
    {
      var s := RunStep(tokens, i);
      InlineStep(tokens, prev, i);
      match s
      case Skip =>
        i := i + 1;
      case Overrun =>
        return None;
      case Emit(node, j) =>
        ghost var before := TextBefore(tokens, prev, i);
        ghost var done := children;
        PrependPrepend(children, before + [node], InlineFrom(tokens, j, j));
        children := FlushText(children, tokens, prev, i);
        children := children + [node];
        assert children == done + (before + [node]);
        prev := j;
        i := j;
    }
    children := FlushText(children, tokens, prev, i);
    r := Some(children);
  }

  /** parseParagraph: the paragraph of line `lineIndex`, which is the only line it consumes. */
  method ParseParagraph(lines: seq<QString>, lineIndex: int) returns (r: Option<Node>, next: int)
    requires 0 <= lineIndex < |lines|
    ensures r == ParagraphOf(lines[lineIndex])
    ensures next == lineIndex + 1
  {
    var tokens := ParseLine(lines[lineIndex]);
    var children := ParseInline(tokens);
    if children.None? {
      return None, lineIndex + 1;
    }
    r := Some(Paragraph(children.value));
    next := lineIndex + 1;
  }

  // ---------------------------------------------------------------------
  // What the recognisers accept

  /**
   * At a star, the star count decides the recogniser: `*x*`, `**x**` and
   * `***x***` each need exactly one token in the middle and one more token
   * after the closing stars, and consume 3, 5 and 7 tokens; `***x***`
   * makes a BoldText.
   */
  lemma {:induction false} EmphasisShapes(tokens: seq<Token>, i: int)
    requires 0 <= i < |tokens| && tokens[i].ty == star
    ensures TryItalic(tokens, i) <==>
      i + 3 < |tokens| && tokens[i + 1].ty != star && tokens[i + 2].ty == star
    ensures TryBold(tokens, i) <==>
      i + 5 < |tokens| && tokens[i + 1].ty == star && tokens[i + 2].ty != star
      && tokens[i + 3].ty == star && tokens[i + 4].ty == star
    ensures TryItalicAndBold(tokens, i) <==>
      i + 7 < |tokens| && tokens[i + 1].ty == star && tokens[i + 2].ty == star && tokens[i + 3].ty != star
      && tokens[i + 4].ty == star && tokens[i + 5].ty == star && tokens[i + 6].ty == star
    ensures TryItalic(tokens, i) ==> StepAt(tokens, i) == Emit(ItalicText(tokens[i + 1].str), i + 3)
    ensures TryBold(tokens, i) ==> StepAt(tokens, i) == Emit(BoldText(tokens[i + 2].str), i + 5)
    ensures TryItalicAndBold(tokens, i) ==> StepAt(tokens, i) == Emit(BoldText(tokens[i + 3].str), i + 7)
  {
    if i + 1 < |tokens| && tokens[i + 1].ty == star {
      if i + 2 < |tokens| && tokens[i + 2].ty == star {
        if i + 3 < |tokens| && tokens[i + 3].ty == star {
          assert StarRun(tokens, i) >= 4 by {
            assert StarRun(tokens, i) == 3 + StarRun(tokens, i + 3);
          }
        } else {
          assert StarRun(tokens, i) == 3 + StarRun(tokens, i + 3);
        }
      } else {
        assert StarRun(tokens, i) == 2 + StarRun(tokens, i + 2);
      }
    } else {
      assert StarRun(tokens, i) == 1 + StarRun(tokens, i + 1);
    }
  }

  /**
   * tryParseImage holds exactly for `! [` tokens without `]` `] (` a
   * non-empty run without `)` and `)`; parseImage then consumes through
   * the `)`, and the alt is absent exactly when nothing stands between the
   * brackets.
   */
  lemma {:induction false} ImageIff(tokens: seq<Token>, i: int, rb: int, rp: int)
    requires 0 <= i && i + 2 <= rb && rb + 2 <= rp
    ensures (TryImage(tokens, i) && NextOf(tokens, right_bracket, i + 2) == rb
             && NextOf(tokens, right_parenthesis, rb + 2) == rp)
      <==>
      (rp < |tokens| && tokens[i].ty == exclamation && tokens[i + 1].ty == left_bracket
       && (forall k :: i + 2 <= k < rb ==> tokens[k].ty != right_bracket) && tokens[rb].ty == right_bracket
       && tokens[rb + 1].ty == left_parenthesis && rb + 2 < rp
       && (forall k :: rb + 2 <= k < rp ==> tokens[k].ty != right_parenthesis) && tokens[rp].ty == right_parenthesis)
    ensures TryImage(tokens, i) && NextOf(tokens, right_bracket, i + 2) == rb
            && NextOf(tokens, right_parenthesis, rb + 2) == rp
      ==> ImageAt(tokens, i).next == rp + 1
          && (ImageAt(tokens, i).node.alt.None? <==> rb == i + 2)
          && ImageAt(tokens, i).node.src == Some(Spell(tokens[rb + 2..rp]))
  {
    if rp < |tokens| && tokens[i].ty == exclamation && tokens[i + 1].ty == left_bracket
       && (forall k :: i + 2 <= k < rb ==> tokens[k].ty != right_bracket) && tokens[rb].ty == right_bracket
       && tokens[rb + 1].ty == left_parenthesis && rb + 2 < rp
       && (forall k :: rb + 2 <= k < rp ==> tokens[k].ty != right_parenthesis) && tokens[rp].ty == right_parenthesis
    {
      NextOfIs(tokens, right_bracket, i + 2, rb);
      NextOfIs(tokens, right_parenthesis, rb + 2, rp);
    }
    if i + 1 < |tokens| && rb <= |tokens| {
      NextOfSpec(tokens, right_bracket, i + 2);
      if rb + 2 <= |tokens| {
        NextOfSpec(tokens, right_parenthesis, rb + 2);
      }
    }
  }

  /**
   * tryParseLink holds exactly for `[` a non-empty run without `]` `] (`
   * tokens without `)` and `)`; the href is absent exactly when nothing
   * stands between the parentheses.
   */
  lemma {:induction false} LinkIff(tokens: seq<Token>, i: int, rb: int, rp: int)
    requires 0 <= i && i + 1 <= rb && rb + 2 <= rp
    ensures (TryLink(tokens, i) && NextOf(tokens, right_bracket, i + 1) == rb
             && NextOf(tokens, right_parenthesis, rb + 2) == rp)
      <==>
      (rp < |tokens| && tokens[i].ty == left_bracket && i + 1 < rb
       && (forall k :: i + 1 <= k < rb ==> tokens[k].ty != right_bracket) && tokens[rb].ty == right_bracket
       && tokens[rb + 1].ty == left_parenthesis
       && (forall k :: rb + 2 <= k < rp ==> tokens[k].ty != right_parenthesis) && tokens[rp].ty == right_parenthesis)
    ensures TryLink(tokens, i) && NextOf(tokens, right_bracket, i + 1) == rb
            && NextOf(tokens, right_parenthesis, rb + 2) == rp
      ==> LinkAt(tokens, i).next == rp + 1
          && LinkAt(tokens, i).node.content == Some(Spell(tokens[i + 1..rb]))
          && (LinkAt(tokens, i).node.href.None? <==> rp == rb + 2)
  {
    if rp < |tokens| && tokens[i].ty == left_bracket && i + 1 < rb
       && (forall k :: i + 1 <= k < rb ==> tokens[k].ty != right_bracket) && tokens[rb].ty == right_bracket
       && tokens[rb + 1].ty == left_parenthesis
       && (forall k :: rb + 2 <= k < rp ==> tokens[k].ty != right_parenthesis) && tokens[rp].ty == right_parenthesis
    {
      NextOfIs(tokens, right_bracket, i + 1, rb);
      NextOfIs(tokens, right_parenthesis, rb + 2, rp);
    }
    if i < |tokens| && rb <= |tokens| {
      NextOfSpec(tokens, right_bracket, i + 1);
      if rb + 2 <= |tokens| {
        NextOfSpec(tokens, right_parenthesis, rb + 2);
      }
    }
  }

  /**
   * parseInlineCode steps one token past the closing backquote: the token
   * right after it never reaches the paragraph.
   */
  lemma {:induction false} InlineCodeSkipsNextToken(tokens: seq<Token>, i: int)
    requires 0 <= i < |tokens| && tokens[i].ty == backquote && TryInlineCode(tokens, i)
    ensures var close := NextOf(tokens, backquote, i + 1);
      InlineFrom(tokens, i, i)
      == Prepend([InlineCode(Merged(tokens, i + 1, close))], InlineFrom(tokens, close + 2, close + 2))
  {
    var close := NextOf(tokens, backquote, i + 1);
    var node := InlineCode(Merged(tokens, i + 1, close));
    InlineStep(tokens, i, i);
    assert StepAt(tokens, i) == Emit(node, close + 2);
    assert TextBefore(tokens, i, i) + [node] == [node];
  }

  /**
   * A dollar is guarded by tryParseInlineCode, which looks for a backquote:
   * a dollar followed by a backquote but by no second dollar makes
   * parseInlineLatex read past the last token.
   */
  lemma {:induction false} InlineLatexOverrun(tokens: seq<Token>, prev: int, i: int)
    requires 0 <= prev <= i < |tokens| && tokens[i].ty == dollar
    requires exists k :: i < k < |tokens| && tokens[k].ty == backquote
    requires forall k :: i < k < |tokens| ==> tokens[k].ty != dollar
    ensures InlineFrom(tokens, prev, i) == None
  {
    var k :| i < k < |tokens| && tokens[k].ty == backquote;
    NextOfSpec(tokens, backquote, i + 1);
    NextOfIs(tokens, dollar, i + 1, |tokens|);
    InlineStep(tokens, prev, i);
  }

  /** The token types that start a recogniser in parseParagraph. */
  predicate Trigger(ty: TokenType)
  {
    ty == exclamation || ty == left_bracket || ty == backquote || ty == dollar || ty == star
  }

  /** The units whose spMap tokens start a recogniser: ! [ ` $ *. */
  predicate TriggerUnit(c: CodeUnit)
  {
    c == 0x21 || c == 0x5B || c == 0x60 || c == 0x24 || c == 0x2A
  }

  lemma {:induction false} QuietTail(tokens: seq<Token>, prev: int, i: int)
    requires 0 <= prev <= i <= |tokens|
    requires forall k :: i <= k < |tokens| ==> !Trigger(tokens[k].ty)
    ensures InlineFrom(tokens, prev, i) == Some(TextBefore(tokens, prev, |tokens|))
    decreases |tokens| - i
  {
    if i < |tokens| {
      InlineStep(tokens, prev, i);
      QuietTail(tokens, prev, i + 1);
    }
  }

  /** A non-empty line with none of ! [ ` $ * becomes a paragraph holding the whole line as one Text. */
  lemma {:induction false} PlainLineIsText(line: QString)
    requires |line| > 0
    requires forall k :: 0 <= k < |line| ==> !TriggerUnit(line[k])
    ensures ParagraphOf(line) == Some(Paragraph([Text(line)]))
  {
    MergeWholeLine(line);
    PlainTokensQuiet(line);
    QuietTail(LineTokens(line), 0, 0);
  }

  /** The tokens of a line with none of ! [ ` $ * include no token that starts an inline element. */
  lemma {:induction false} PlainTokensQuiet(line: QString)
    requires forall k :: 0 <= k < |line| ==> !TriggerUnit(line[k])
    ensures forall k :: 0 <= k < |LineTokens(line)| ==> !Trigger(LineTokens(line)[k].ty)
  {
    var tokens := LineTokens(line);
    LineTokensShape(line);
    LineTokensSpell(line);
    forall k | 0 <= k < |tokens|
      ensures !Trigger(tokens[k].ty)
    {
      var t := tokens[k];
      assert t in tokens;
      if t.ty != none {
        var c := t.str[0];
        SpellUnits(tokens, k);
        SpMapEntries(c);
      }
    }
  }

  /** The units of each token occur in the glued string. */
  lemma {:induction false} SpellUnits(ts: seq<Token>, k: int)
    requires 0 <= k < |ts| && |ts[k].str| > 0
    ensures ts[k].str[0] in Spell(ts)
    decreases |ts|
  {
    if k < |ts| - 1 {
      SpellUnits(ts[..|ts| - 1], k);
      assert ts[..|ts| - 1][k] == ts[k];
    } else {
      assert Spell(ts)[|Spell(ts[..|ts| - 1])|] == ts[k].str[0];
    }
  }

  /** "`x` y": the tokens `, x, `, y give only the inline code; y is lost. */
  lemma {:induction false} InlineCodeExample(x: Token, y: Token)
    requires x.ty == none && y.ty == none
    ensures InlineFrom([OfType(backquote), x, OfType(backquote), y], 0, 0) == Some([InlineCode(Some(x.str))])
  {
    var tokens := [OfType(backquote), x, OfType(backquote), y];
    NextOfIs(tokens, backquote, 1, 2);
    InlineCodeSkipsNextToken(tokens, 0);
    assert Merged(tokens, 1, 2) == Some(x.str) by {
      assert tokens[1..2] == [x];
      assert [x][..0] == [];
      assert Spell([x]) == [] + x.str == x.str;
    }
    assert InlineFrom(tokens, 4, 4) == Some([]);
    assert [InlineCode(Some(x.str))] + [] == [InlineCode(Some(x.str))];
  }
}
