// src/parser/Parser.cpp, third part: the inline recognisers (ImageParser,
// LinkParser, InlineCodeParser, InlineLatexParser, SemanticTextParser), the
// ParseResult record and BlockParser::_parseLine, which runs the recognisers
// over the tokens of one line and fills a container.

module InlineParsers {
  import opened Optional
  import opened Sequences
  import opened QStr
  import opened PieceTable
  import opened Ast
  import opened ParserLines
  import opened ParserTokens

  /** ParseResult: a failure, or the number of tokens (or lines) consumed and the node built. */
  datatype ParseResult = Fail | Success(offset: int, node: Node)

  /** The first index at or after `i` whose token has type `ty`, or |tokens| when there is none. */
  function NextOf(tokens: seq<Token>, i: int, ty: TokenType): (r: int)
    requires 0 <= i <= |tokens|
    ensures i <= r <= |tokens|
    decreases |tokens| - i
  {
    if i == |tokens| || tokens[i].ty == ty then i else NextOf(tokens, i + 1, ty)
  }

  /** NextOf skips only tokens of other types and stops on one of type `ty`. */
  lemma {:induction false} NextOfSpec(tokens: seq<Token>, i: int, ty: TokenType)
    requires 0 <= i <= |tokens|
    ensures var r := NextOf(tokens, i, ty);
      (forall k :: i <= k < r ==> tokens[k].ty != ty) && (r < |tokens| ==> tokens[r].ty == ty)
    decreases |tokens| - i
  {
    if i < |tokens| && tokens[i].ty != ty {
      NextOfSpec(tokens, i + 1, ty);
    }
  }

  /**
   * The spans a constructor receives from mergeToText: the items of the
   * first Text node, or none when the range is empty. The source indexes
   * the list with [0] unconditionally; see the *AsWritten functions.
   */
  function FirstItems(texts: seq<Node>): TextItems
  {
    if |texts| > 0 && texts[0].Text? then texts[0].items else []
  }

  /** The single-token Text the emphasis and formula recognisers wrap. */
  function TokenItems(t: Token): (r: TextItems)
    ensures r == [PieceTableItem(original, t.offset, t.length)]
  {
    NewText(t.offset, t.length).items
  }

  // ---------------------------------------------------------------------
  // ImageParser: ! [ alt ] ( url )

  /** ImageParser::tryParse. The alt text may be empty; the url may not. */
  predicate ImageMatches(tokens: seq<Token>, s: int)
    requires 0 <= s
  {
    s + 1 < |tokens| && tokens[s].ty == exclamation && tokens[s + 1].ty == left_bracket
    && var rb := NextOf(tokens, s + 2, right_bracket);
    rb + 1 < |tokens| && tokens[rb + 1].ty == left_parenthesis
    && var rp := NextOf(tokens, rb + 2, right_parenthesis);
    rb + 2 < rp < |tokens|
  }

  /** ImageParser::parse, with an empty alt text giving an Image with no alt spans. */
  function ImageParse(tokens: seq<Token>, s: int): (r: ParseResult)
    requires 0 <= s
    ensures r.Success? <==> ImageMatches(tokens, s)
    ensures r.Success? ==> 4 <= r.offset && s + r.offset <= |tokens| && r.node.Image?
  {
    if !ImageMatches(tokens, s) then Fail
    else
      var rb := NextOf(tokens, s + 2, right_bracket);
      var rp := NextOf(tokens, rb + 2, right_parenthesis);
      Success(rp + 1 - s, Image(FirstItems(Merged(tokens, s + 2, rb)), FirstItems(Merged(tokens, rb + 2, rp))))
  }

  /**
   * ImageParser::parse as written: `alt[0]` and `url[0]` read the first
   * element of mergeToText's list, which is empty when nothing lies between
   * the brackets; None stands for that out-of-range read.
   */
  function ImageParseAsWritten(tokens: seq<Token>, s: int): Option<ParseResult>
    requires 0 <= s
  {
    if !ImageMatches(tokens, s) then Some(Fail)
    else
      var rb := NextOf(tokens, s + 2, right_bracket);
      var rp := NextOf(tokens, rb + 2, right_parenthesis);
      var alt := Merged(tokens, s + 2, rb);
      var url := Merged(tokens, rb + 2, rp);
      if |alt| == 0 || |url| == 0 then None
      else Some(Success(rp + 1 - s, Image(alt[0].items, url[0].items)))
  }

  // ---------------------------------------------------------------------
  // LinkParser: [ content ] ( href )

  /** LinkParser::tryParse. The link text may not be empty; the url may. */
  predicate LinkMatches(tokens: seq<Token>, s: int)
    requires 0 <= s
  {
    s < |tokens| && tokens[s].ty == left_bracket
    && var rb := NextOf(tokens, s + 1, right_bracket);
    s + 1 < rb && rb + 1 < |tokens| && tokens[rb + 1].ty == left_parenthesis
    && NextOf(tokens, rb + 2, right_parenthesis) < |tokens|
  }

  /** LinkParser::parse, with an empty url giving a Link with no href spans. */
  function LinkParse(tokens: seq<Token>, s: int): (r: ParseResult)
    requires 0 <= s
    ensures r.Success? <==> LinkMatches(tokens, s)
    ensures r.Success? ==> 4 <= r.offset && s + r.offset <= |tokens| && r.node.Link?
  {
    if !LinkMatches(tokens, s) then Fail
    else
      var rb := NextOf(tokens, s + 1, right_bracket);
      var rp := NextOf(tokens, rb + 2, right_parenthesis);
      Success(rp + 1 - s, Link(FirstItems(Merged(tokens, s + 1, rb)), FirstItems(Merged(tokens, rb + 2, rp))))
  }

  /** LinkParser::parse as written: `href[0]` on an empty list is the out-of-range read None stands for. */
  function LinkParseAsWritten(tokens: seq<Token>, s: int): Option<ParseResult>
    requires 0 <= s
  {
    if !LinkMatches(tokens, s) then Some(Fail)
    else
      var rb := NextOf(tokens, s + 1, right_bracket);
      var rp := NextOf(tokens, rb + 2, right_parenthesis);
      var content := Merged(tokens, s + 1, rb);
      var href := Merged(tokens, rb + 2, rp);
      if |content| == 0 || |href| == 0 then None
      else Some(Success(rp + 1 - s, Link(content[0].items, href[0].items)))
  }

  // ---------------------------------------------------------------------
  // InlineCodeParser: ` code `

  /** InlineCodeParser::tryParse: a backquote with another backquote later on the line. */
  predicate InlineCodeMatches(tokens: seq<Token>, s: int)
    requires 0 <= s
  {
    s < |tokens| && tokens[s].ty == backquote && NextOf(tokens, s + 1, backquote) < |tokens|
  }

  /** InlineCodeParser::parse, with an empty code span giving InlineCode with no spans. */
  function InlineCodeParse(tokens: seq<Token>, s: int): (r: ParseResult)
    requires 0 <= s
    ensures r.Success? <==> InlineCodeMatches(tokens, s)
    ensures r.Success? ==> 2 <= r.offset && s + r.offset <= |tokens| && r.node.InlineCode?
  {
    if !InlineCodeMatches(tokens, s) then Fail
    else
      var close := NextOf(tokens, s + 1, backquote);
      Success(close + 1 - s, InlineCode(FirstItems(Merged(tokens, s + 1, close))))
  }

  /** InlineCodeParser::parse as written: `code[0]` on an empty list is the out-of-range read None stands for. */
  function InlineCodeParseAsWritten(tokens: seq<Token>, s: int): Option<ParseResult>
    requires 0 <= s
  {
    if !InlineCodeMatches(tokens, s) then Some(Fail)
    else
      var close := NextOf(tokens, s + 1, backquote);
      var code := Merged(tokens, s + 1, close);
      if |code| == 0 then None else Some(Success(close + 1 - s, InlineCode(code[0].items)))
  }

  // ---------------------------------------------------------------------
  // InlineLatexParser: $ text $

  /** InlineLatexParser::parse: exactly a dollar, one text token and a dollar. */
  function InlineLatexParse(tokens: seq<Token>, s: int): (r: ParseResult)
    requires 0 <= s
    ensures r.Success? <==> s + 2 < |tokens| && tokens[s].ty == dollar && tokens[s + 1].ty == TokenType.text && tokens[s + 2].ty == dollar
    ensures r.Success? ==> r.offset == 3 && r.node == InlineLatex([PieceTableItem(original, tokens[s + 1].offset, tokens[s + 1].length)])
  {
    if s + 2 >= |tokens| || tokens[s].ty != dollar || tokens[s + 1].ty != TokenType.text || tokens[s + 2].ty != dollar then Fail
    else Success(3, InlineLatex(TokenItems(tokens[s + 1])))
  }

  // ---------------------------------------------------------------------
  // SemanticTextParser: ***t***, **t**, *t*, ~~t~~

  /**
   * The shape every emphasis test checks: `n` tokens from `s`, the middle
   * one text and every other one of type `mark`.
   */
  predicate Framed(tokens: seq<Token>, s: int, n: int, mark: TokenType)
    requires 0 <= s && 0 < n
  {
    s + n <= |tokens|
    && (forall j :: s <= j < s + n && j != s + n / 2 ==> tokens[j].ty == mark)
    && tokens[s + n / 2].ty == TokenType.text
  }

  /** tryParseItalicAndBold, tryParseBold, tryParseItalic and tryParseStrickout. */
  predicate ItalicBoldAt(tokens: seq<Token>, s: int) requires 0 <= s { Framed(tokens, s, 7, star) }
  predicate BoldAt(tokens: seq<Token>, s: int) requires 0 <= s { Framed(tokens, s, 5, star) }
  predicate ItalicAt(tokens: seq<Token>, s: int) requires 0 <= s { Framed(tokens, s, 3, star) }
  predicate StrickoutAt(tokens: seq<Token>, s: int) requires 0 <= s { Framed(tokens, s, 5, tilde) }

  /** SemanticTextParser::parse: the four shapes, tried in that order. */
  function SemanticParse(tokens: seq<Token>, s: int): (r: ParseResult)
    requires 0 <= s
    ensures r.Success? <==> ItalicBoldAt(tokens, s) || BoldAt(tokens, s) || ItalicAt(tokens, s) || StrickoutAt(tokens, s)
    ensures r.Success? ==> 3 <= r.offset && s + r.offset <= |tokens|
  {
    if ItalicBoldAt(tokens, s) then Success(7, ItalicBoldText(TokenItems(tokens[s + 3])))
    else if BoldAt(tokens, s) then Success(5, BoldText(TokenItems(tokens[s + 2])))
    else if ItalicAt(tokens, s) then Success(3, ItalicText(TokenItems(tokens[s + 1])))
    else if StrickoutAt(tokens, s) then Success(5, StrickoutText(TokenItems(tokens[s + 2])))
    else Fail
  }

  /**
   * At most one emphasis shape matches at a position, so the order in which
   * they are tried never decides between two candidates.
   */
  lemma {:induction false} EmphasisExclusive(tokens: seq<Token>, s: int)
    requires 0 <= s
    ensures ItalicBoldAt(tokens, s) ==> !BoldAt(tokens, s) && !ItalicAt(tokens, s) && !StrickoutAt(tokens, s)
    ensures BoldAt(tokens, s) ==> !ItalicAt(tokens, s) && !StrickoutAt(tokens, s)
    ensures ItalicAt(tokens, s) ==> !StrickoutAt(tokens, s)
  {
    if ItalicBoldAt(tokens, s) {
      assert tokens[s + 2].ty == star;
      assert tokens[s + 1].ty == star;
    }
    if BoldAt(tokens, s) {
      assert tokens[s + 1].ty == star;
      assert tokens[s].ty == star;
    }
    if ItalicAt(tokens, s) {
      assert tokens[s].ty == star;
    }
  }

  /** What each emphasis result holds: the node kind for the shape and the middle token's span. */
  lemma {:induction false} SemanticNodes(tokens: seq<Token>, s: int)
    requires 0 <= s
    ensures var r := SemanticParse(tokens, s);
      r.Success? ==>
        var t := tokens[s + r.offset / 2];
        (r.offset == 7 <==> r.node.ItalicBoldText?)
        && (r.offset == 3 <==> r.node.ItalicText?)
        && (r.node.ItalicBoldText? || r.node.BoldText? || r.node.ItalicText? || r.node.StrickoutText?)
        && r.node.text == [PieceTableItem(original, t.offset, t.length)]
        && t.ty == TokenType.text
  {
  }

  // ---------------------------------------------------------------------
  // The recogniser lists and _parseLine

  /** The concrete LineParser classes. */
  datatype InlineKind = ImageKind | LinkKind | InlineCodeKind | InlineLatexKind | SemanticKind

  /** LineParser::parse, dispatched on the recogniser. */
  function Apply(kind: InlineKind, tokens: seq<Token>, s: int): (r: ParseResult)
    requires 0 <= s
    ensures r.Success? ==> 1 <= r.offset && s + r.offset <= |tokens|
  {
    match kind
    case ImageKind => ImageParse(tokens, s)
    case LinkKind => LinkParse(tokens, s)
    case InlineCodeKind => InlineCodeParse(tokens, s)
    case InlineLatexKind => InlineLatexParse(tokens, s)
    case SemanticKind => SemanticParse(tokens, s)
  }

  /** The result of the first recogniser in `parsers` that succeeds at `s`, or Fail. */
  function FirstSuccess(parsers: seq<InlineKind>, tokens: seq<Token>, s: int): (r: ParseResult)
    requires 0 <= s
    ensures r.Success? ==> 1 <= r.offset && s + r.offset <= |tokens|
  {
    if |parsers| == 0 then Fail
    else
      var r := Apply(parsers[0], tokens, s);
      if r.Success? then r else FirstSuccess(parsers[1..], tokens, s)
  }

  /** FirstSuccess fails exactly when every recogniser in the list fails. */
  lemma {:induction false} FirstSuccessFails(parsers: seq<InlineKind>, tokens: seq<Token>, s: int)
    requires 0 <= s
    ensures FirstSuccess(parsers, tokens, s).Fail? <==> forall k :: 0 <= k < |parsers| ==> Apply(parsers[k], tokens, s).Fail?
  {
    if |parsers| > 0 {
      FirstSuccessFails(parsers[1..], tokens, s);
      assert forall k :: 1 <= k < |parsers| ==> parsers[k] == parsers[1..][k - 1];
    }
  }

  /** The recognisers a paragraph line uses (ParagraphParser::parse). */
  const ParagraphInline: seq<InlineKind> := [ImageKind, LinkKind, InlineCodeKind, InlineLatexKind, SemanticKind]
  /** The recognisers a header uses (HeaderParser::parseHeader). */
  const HeaderInline: seq<InlineKind> := [LinkKind, InlineCodeKind, InlineLatexKind]
  /** The recognisers a checkbox item uses (CheckboxListParser::parse). */
  const CheckboxInline: seq<InlineKind> := [LinkKind, InlineLatexKind, InlineCodeKind, SemanticKind]

  /**
   * The nodes _parseLine appends from token `i` on, when tokens[prev..i]
   * are not yet emitted: unrecognised tokens are merged into Text nodes
   * and flushed before each recognised node.
   */
  function InlineFrom(parsers: seq<InlineKind>, tokens: seq<Token>, prev: int, i: int): seq<Node>
    requires 0 <= prev <= i <= |tokens|
    decreases |tokens| - i
  {
    if i == |tokens| then Merged(tokens, prev, i)
    else
      var r := FirstSuccess(parsers, tokens, i);
      if r.Success? then Merged(tokens, prev, i) + [r.node] + InlineFrom(parsers, tokens, i + r.offset, i + r.offset)
      else InlineFrom(parsers, tokens, prev, i + 1)
  }

  /** The nodes _parseLine appends for the tokens of one line. */
  function InlineNodes(parsers: seq<InlineKind>, text: QString, l: Line): seq<Node>
    requires InText(text, l)
  {
    InlineFrom(parsers, LineTokens(text, l), 0, 0)
  }

  /** The inner loop of _parseLine: the recognisers are tried in order until one succeeds. */
  method TryParsers(parsers: seq<InlineKind>, tokens: seq<Token>, i: int) returns (r: ParseResult)
    requires 0 <= i
    ensures r == FirstSuccess(parsers, tokens, i)
  {
    var j := 0;
    while j < |parsers|
      invariant 0 <= j <= |parsers|
      invariant FirstSuccess(parsers[j..], tokens, i) == FirstSuccess(parsers, tokens, i)
    {
      assert parsers[j..][1..] == parsers[j + 1..];
      var res := Apply(parsers[j], tokens, i);
      if res.Success? {
        return res;
      }
      j := j + 1;
    }
    r := Fail;
  }

  /**
   * BlockParser::_parseLine: tokenise the line, then scan it, appending the
   * merged plain tokens and each recognised node to `c` in order.
   */
  method ParseLineInto(c: Container, parsers: seq<InlineKind>, text: QString, l: Line)
    requires InText(text, l)
    modifies c
    ensures c.children == old(c.children) + InlineNodes(parsers, text, l)
  {
    var tokens := ParseLine(text, l);
    ghost var whole := old(c.children) + InlineFrom(parsers, tokens, 0, 0);
    var i := 0;
    var prev := 0;
    while i < |tokens|
      invariant 0 <= prev <= i <= |tokens|
      invariant c.children + InlineFrom(parsers, tokens, prev, i) == whole
      decreases |tokens| - i
    {
      var r := TryParsers(parsers, tokens, i);
      if r.Success? {
        ghost var rest := InlineFrom(parsers, tokens, i + r.offset, i + r.offset);
        var texts := MergeToText(tokens, prev, i);
        ShiftRun(c.children, texts, r.node, rest, InlineFrom(parsers, tokens, prev, i), whole);
        c.AppendChildren(texts);
        c.AppendChild(r.node);
        prev := i + r.offset;
        i := prev;
      } else {
        i := i + 1;
      }
    }
    var texts := MergeToText(tokens, prev, i);
    c.AppendChildren(texts);
  }
}

module InlineParserFacts {
  import opened Optional
  import opened QStr
  import opened PieceTable
  import opened Ast
  import opened ParserLines
  import opened ParserTokens
  import opened InlineParsers

  /** Over tiling tokens, the lengths of tokens[a..b] add up to the distance they span. */
  lemma {:induction false} TiledSum(ts: seq<Token>, from: int, end: int, a: int, b: int)
    requires Tiles(ts, from, end) && 0 <= a < b <= |ts|
    ensures SumLengths(ts, a, b) == ts[b - 1].offset + ts[b - 1].length - ts[a].offset
    decreases b - a
  {
    if b > a + 1 {
      TiledSum(ts, from, end, a, b - 1);
      assert ts[b - 2].offset + ts[b - 2].length == ts[b - 1].offset;
    }
  }

  /**
   * Between two token positions of one line, mergeToText yields at most one
   * Text, and its span is exactly the text those tokens cover. So taking
   * the first element loses nothing, and the only failure is an empty range.
   */
  lemma {:induction false} LineRangeItems(text: QString, l: Line, a: int, b: int)
    requires InText(text, l)
    requires 0 <= a <= b <= |LineTokens(text, l)|
    ensures var ts := LineTokens(text, l);
      |Merged(ts, a, b)| <= 1
      && FirstItems(Merged(ts, a, b))
         == if a == b then [] else [PieceTableItem(original, ts[a].offset, ts[b - 1].offset + ts[b - 1].length - ts[a].offset)]
  {
    var ts := LineTokens(text, l);
    if a < b {
      TokensTile(text, l.offset, End(l));
      LineMergesToOne(text, l, a, b);
      TiledSum(ts, l.offset, End(l), a, b);
    }
  }

  /**
   * What a recognised image is: `!` `[`, then the first `]`, then `(`, then
   * at least one token, then the first `)` after it, which is the last
   * token consumed.
   */
  lemma {:induction false} ImageShape(tokens: seq<Token>, s: int)
    requires 0 <= s
    requires ImageParse(tokens, s).Success?
    ensures var r := ImageParse(tokens, s);
      var rb := NextOf(tokens, s + 2, right_bracket);
      var last := s + r.offset - 1;
      tokens[s].ty == exclamation && tokens[s + 1].ty == left_bracket
      && s + 2 <= rb && tokens[rb].ty == right_bracket && tokens[rb + 1].ty == left_parenthesis
      && rb + 2 < last && tokens[last].ty == right_parenthesis
      && (forall k :: s + 2 <= k < rb ==> tokens[k].ty != right_bracket)
      && (forall k :: rb + 2 <= k < last ==> tokens[k].ty != right_parenthesis)
  {
    var rb := NextOf(tokens, s + 2, right_bracket);
    NextOfSpec(tokens, s + 2, right_bracket);
    NextOfSpec(tokens, rb + 2, right_parenthesis);
  }

  /**
   * What a recognised link is: `[`, at least one token, the first `]`, `(`,
   * then the first `)` after it, which is the last token consumed.
   */
  lemma {:induction false} LinkShape(tokens: seq<Token>, s: int)
    requires 0 <= s
    requires LinkParse(tokens, s).Success?
    ensures var r := LinkParse(tokens, s);
      var rb := NextOf(tokens, s + 1, right_bracket);
      var last := s + r.offset - 1;
      tokens[s].ty == left_bracket
      && s + 1 < rb && tokens[rb].ty == right_bracket && tokens[rb + 1].ty == left_parenthesis
      && rb + 2 <= last && tokens[last].ty == right_parenthesis
      && (forall k :: s + 1 <= k < rb ==> tokens[k].ty != right_bracket)
      && (forall k :: rb + 2 <= k < last ==> tokens[k].ty != right_parenthesis)
  {
    LinkOffset(tokens, s);
    var rb := NextOf(tokens, s + 1, right_bracket);
    NextOfSpec(tokens, s + 1, right_bracket);
    NextOfSpec(tokens, rb + 2, right_parenthesis);
  }

  /** A link needs its text: `[` directly followed by `]` is never a link. */
  lemma {:induction false} LinkNeedsText(tokens: seq<Token>, s: int)
    requires 0 <= s && s + 1 < |tokens| && tokens[s + 1].ty == right_bracket
    ensures LinkParse(tokens, s).Fail?
  {
  }

  /** An image needs its url: `(` directly followed by `)` is never an image. */
  lemma {:induction false} ImageNeedsUrl(tokens: seq<Token>, s: int)
    requires 0 <= s && s + 2 <= |tokens|
    requires var rb := NextOf(tokens, s + 2, right_bracket);
      rb + 2 < |tokens| && tokens[rb + 2].ty == right_parenthesis
    ensures ImageParse(tokens, s).Fail?
  {
  }

  /** A link or image whose closing `)` is missing from the line is not recognised. */
  lemma {:induction false} UnclosedFails(tokens: seq<Token>, s: int)
    requires 0 <= s
    requires forall k :: s <= k < |tokens| ==> tokens[k].ty != right_parenthesis
    ensures ImageParse(tokens, s).Fail? && LinkParse(tokens, s).Fail?
  {
    if s + 2 <= |tokens| {
      var rb := NextOf(tokens, s + 2, right_bracket);
      if rb + 2 <= |tokens| {
        NextOfSpec(tokens, rb + 2, right_parenthesis);
      }
    }
    assert !ImageMatches(tokens, s);
    if s + 1 <= |tokens| {
      var rb := NextOf(tokens, s + 1, right_bracket);
      if rb + 2 <= |tokens| {
        NextOfSpec(tokens, rb + 2, right_parenthesis);
      }
    }
    assert !LinkMatches(tokens, s);
  }

  /** Inline code runs from a backquote to the next backquote, both consumed. */
  lemma {:induction false} InlineCodeShape(tokens: seq<Token>, s: int)
    requires 0 <= s
    requires InlineCodeParse(tokens, s).Success?
    ensures var r := InlineCodeParse(tokens, s);
      var last := s + r.offset - 1;
      tokens[s].ty == backquote && tokens[last].ty == backquote
      && (forall k :: s < k < last ==> tokens[k].ty != backquote)
  {
    InlineCodeOffset(tokens, s);
    NextOfSpec(tokens, s + 1, backquote);
  }

  /** A recognised inline code span ends just after the next backquote. */
  lemma {:induction false} InlineCodeOffset(tokens: seq<Token>, s: int)
    requires 0 <= s && InlineCodeParse(tokens, s).Success?
    ensures InlineCodeMatches(tokens, s)
    ensures InlineCodeParse(tokens, s).offset == NextOf(tokens, s + 1, backquote) + 1 - s
  {
  }

  /** A recognised link ends at the first `)` after the `](`. */
  lemma {:induction false} LinkOffset(tokens: seq<Token>, s: int)
    requires 0 <= s && LinkParse(tokens, s).Success?
    ensures LinkMatches(tokens, s)
    ensures var rb := NextOf(tokens, s + 1, right_bracket);
      LinkParse(tokens, s).offset == NextOf(tokens, rb + 2, right_parenthesis) + 1 - s
  {
  }

  /** Where the as-written image parser reads inside its lists, it agrees with the corrected one. */
  lemma {:induction false} ImageAsWrittenAgrees(tokens: seq<Token>, s: int)
    requires 0 <= s && ImageParseAsWritten(tokens, s).Some?
    ensures ImageParseAsWritten(tokens, s).value == ImageParse(tokens, s)
  {
  }

  /** Where the as-written link parser reads inside its lists, it agrees with the corrected one. */
  lemma {:induction false} LinkAsWrittenAgrees(tokens: seq<Token>, s: int)
    requires 0 <= s && LinkParseAsWritten(tokens, s).Some?
    ensures LinkParseAsWritten(tokens, s).value == LinkParse(tokens, s)
  {
  }

  /** Where the as-written inline-code parser reads inside its list, it agrees with the corrected one. */
  lemma {:induction false} InlineCodeAsWrittenAgrees(tokens: seq<Token>, s: int)
    requires 0 <= s && InlineCodeParseAsWritten(tokens, s).Some?
    ensures InlineCodeParseAsWritten(tokens, s).value == InlineCodeParse(tokens, s)
  {
  }

  /** The tokens of `![](u)`: the alt text is empty. */
  function EmptyAltTokens(): seq<Token>
  {
    [Token(0, 1, exclamation), Token(1, 1, left_bracket), Token(2, 1, right_bracket),
     Token(3, 1, left_parenthesis), Token(4, 1, TokenType.text), Token(5, 1, right_parenthesis)]
  }

  /** `![](u)` is recognised as an image, and the as-written parser then reads alt[0] of an empty list. */
  lemma {:induction false} ImageEmptyAltExample()
    ensures ImageMatches(EmptyAltTokens(), 0)
    ensures ImageParseAsWritten(EmptyAltTokens(), 0) == None
    ensures ImageParse(EmptyAltTokens(), 0) == Success(6, Image([], [PieceTableItem(original, 4, 1)]))
  {
    var ts := EmptyAltTokens();
    assert NextOf(ts, 2, right_bracket) == 2;
    assert NextOf(ts, 5, right_parenthesis) == 5;
    assert NextOf(ts, 4, right_parenthesis) == 5;
    assert Merged(ts, 2, 2) == [];
    assert Coalesce(ts, 4, 5) == Acc([], Span(4, 1));
  }

  /** The tokens of `[a]()`: the url is empty. */
  function EmptyHrefTokens(): seq<Token>
  {
    [Token(0, 1, left_bracket), Token(1, 1, TokenType.text), Token(2, 1, right_bracket),
     Token(3, 1, left_parenthesis), Token(4, 1, right_parenthesis)]
  }

  /** `[a]()` is recognised as a link, and the as-written parser then reads href[0] of an empty list. */
  lemma {:induction false} LinkEmptyHrefExample()
    ensures LinkMatches(EmptyHrefTokens(), 0)
    ensures LinkParseAsWritten(EmptyHrefTokens(), 0) == None
    ensures LinkParse(EmptyHrefTokens(), 0) == Success(5, Link([PieceTableItem(original, 1, 1)], []))
  {
    var ts := EmptyHrefTokens();
    assert NextOf(ts, 2, right_bracket) == 2;
    assert NextOf(ts, 1, right_bracket) == 2;
    assert NextOf(ts, 4, right_parenthesis) == 4;
    assert Coalesce(ts, 1, 2) == Acc([], Span(1, 1));
  }

  /** The tokens of two backquotes with nothing between them. */
  function EmptyCodeTokens(): seq<Token>
  {
    [Token(0, 1, backquote), Token(1, 1, backquote)]
  }

  /** Two adjacent backquotes are recognised as inline code, and the as-written parser reads code[0] of an empty list. */
  lemma {:induction false} InlineCodeEmptyExample()
    ensures InlineCodeMatches(EmptyCodeTokens(), 0)
    ensures InlineCodeParseAsWritten(EmptyCodeTokens(), 0) == None
    ensures InlineCodeParse(EmptyCodeTokens(), 0) == Success(2, InlineCode([]))
  {
    assert NextOf(EmptyCodeTokens(), 1, backquote) == 1;
  }

  /**
   * When no recogniser succeeds anywhere on a non-empty line, _parseLine
   * appends a single Text spanning the whole line.
   */
  lemma {:induction false} PlainLineInline(parsers: seq<InlineKind>, text: QString, l: Line)
    requires InText(text, l) && l.length > 0
    requires forall i :: 0 <= i < |LineTokens(text, l)| ==> FirstSuccess(parsers, LineTokens(text, l), i).Fail?
    ensures InlineNodes(parsers, text, l) == [NewText(l.offset, l.length)]
  {
    var ts := LineTokens(text, l);
    NoMatchMerges(parsers, ts, 0, 0);
    TokensTile(text, l.offset, End(l));
    LineMergesToOne(text, l, 0, |ts|);
    TiledSum(ts, l.offset, End(l), 0, |ts|);
  }

  /** With no recogniser succeeding from `i` on, the rest is one merge of tokens[prev..]. */
  lemma {:induction false} NoMatchMerges(parsers: seq<InlineKind>, tokens: seq<Token>, prev: int, i: int)
    requires 0 <= prev <= i <= |tokens|
    requires forall j :: i <= j < |tokens| ==> FirstSuccess(parsers, tokens, j).Fail?
    ensures InlineFrom(parsers, tokens, prev, i) == Merged(tokens, prev, |tokens|)
    decreases |tokens| - i
  {
    if i < |tokens| {
      NoMatchMerges(parsers, tokens, prev, i + 1);
    }
  }
}
