// src/parser/Parser.cpp, last part: ParserPrivate::parse, which splits the
// text into lines and runs the block recognisers in a fixed order, and
// Parser::parse; with the Document constructor of src/parser/Document.cpp
// that stores the text and the tree parsed from it.

module DocumentParser {
  import opened QStr
  import opened Sequences
  import opened Ast
  import opened ParserLines
  import opened InlineParsers
  import opened BlockParsers
  import BlockParserFacts

  /** The block recognisers of ParserPrivate::parse. */
  datatype BlockKind =
    | HeaderKind | CodeBlockKind | CheckboxListKind | UnorderedListKind | OrderedListKind
    | QuoteBlockKind | TableKind | LatexBlockKind | ParagraphKind

  /** The order in which ParserPrivate::parse tries them; the paragraph comes last. */
  const BlockOrder: seq<BlockKind> := [
    HeaderKind, CodeBlockKind, CheckboxListKind, UnorderedListKind, OrderedListKind,
    QuoteBlockKind, TableKind, LatexBlockKind, ParagraphKind]

  /** One recogniser, with the quote and paragraph recognisers as corrected. */
  function ApplyBlock(k: BlockKind, text: QString, lines: seq<Line>, i: int): (r: ParseResult)
    requires LinesIn(text, lines) && 0 <= i
    ensures r.Success? && i < |lines| ==> 1 <= r.offset && i + r.offset <= |lines|
    ensures k == ParagraphKind ==> r.Success?
  {
    match k
    case HeaderKind => HeaderParse(text, lines, i)
    case CodeBlockKind => CodeBlockParse(text, lines, i)
    case CheckboxListKind => CheckboxListParse(text, lines, i)
    case UnorderedListKind => UnorderedListParse(text, lines, i)
    case OrderedListKind =>
      BlockParserFacts.OrderedListConsumesRun(text, lines, i);
      OrderedListParse(text, lines, i)
    case QuoteBlockKind => QuoteBlockParse(text, lines, i)
    case TableKind => TableParse(lines, i)
    case LatexBlockKind => LatexBlockParse(text, lines, i)
    case ParagraphKind => ParagraphParse(text, lines, i)
  }

  /** One recogniser as written: the quote and paragraph recognisers consume the wrong number of lines. */
  function ApplyBlockAsWritten(k: BlockKind, text: QString, lines: seq<Line>, i: int): ParseResult
    requires LinesIn(text, lines) && 0 <= i
  {
    match k
    case QuoteBlockKind => QuoteBlockParseAsWritten(text, lines, i)
    case ParagraphKind => ParagraphParseAsWritten(text, lines, i)
    case _ => ApplyBlock(k, text, lines, i)
  }

  /** The result of the first recogniser in `kinds` that succeeds, or Fail when none does. */
  function FirstBlock(kinds: seq<BlockKind>, text: QString, lines: seq<Line>, i: int): (r: ParseResult)
    requires LinesIn(text, lines) && 0 <= i
    ensures r.Success? && i < |lines| ==> 1 <= r.offset && i + r.offset <= |lines|
    ensures ParagraphKind in kinds ==> r.Success?
    decreases |kinds|
  {
    if |kinds| == 0 then Fail
    else
      var r := ApplyBlock(kinds[0], text, lines, i);
      if r.Success? then r else FirstBlock(kinds[1..], text, lines, i)
  }

  /** The same search over the recognisers as written. */
  function FirstBlockAsWritten(kinds: seq<BlockKind>, text: QString, lines: seq<Line>, i: int): ParseResult
    requires LinesIn(text, lines) && 0 <= i
    decreases |kinds|
  {
    if |kinds| == 0 then Fail
    else
      var r := ApplyBlockAsWritten(kinds[0], text, lines, i);
      if r.Success? then r else FirstBlockAsWritten(kinds[1..], text, lines, i)
  }

  /**
   * The blocks of lines i.. : the first recogniser that succeeds builds one
   * block and the rest of the lines follow from where it stopped.
   */
  function Blocks(order: seq<BlockKind>, text: QString, lines: seq<Line>, i: int): seq<Node>
    requires LinesIn(text, lines) && 0 <= i && ParagraphKind in order
    decreases |lines| - i
  {
    if i >= |lines| then []
    else
      var r := FirstBlock(order, text, lines, i);
      [r.node] + Blocks(order, text, lines, i + r.offset)
  }

  /** One block taken from the front of the lines; the paragraph recogniser makes sure one always is. */
  lemma {:induction false} BlocksStep(order: seq<BlockKind>, text: QString, lines: seq<Line>, i: int)
    requires LinesIn(text, lines) && 0 <= i < |lines| && ParagraphKind in order
    ensures FirstBlock(order, text, lines, i).Success?
    ensures Blocks(order, text, lines, i)
      == [FirstBlock(order, text, lines, i).node] + Blocks(order, text, lines, i + FirstBlock(order, text, lines, i).offset)
  {
  }

  /** Every line of the text lies inside it. */
  lemma {:induction false} LinesOfInText(text: QString)
    ensures LinesIn(text, LinesOf(text))
  {
    LinesInside(text, 0);
    var ls := LinesOf(text);
    forall k | 0 <= k < |ls|
      ensures InText(text, ls[k])
    {
      assert ls[k] in ls;
    }
  }

  /** The top-level nodes Parser::parse builds for a text. */
  function DocumentBlocks(text: QString): seq<Node>
  {
    LinesOfInText(text);
    assert ParagraphKind in BlockOrder;
    Blocks(BlockOrder, text, LinesOf(text), 0)
  }

  // ---------------------------------------------------------------------
  // The loops

  /** One recogniser's parse method. */
  method RunBlock(k: BlockKind, text: QString, lines: seq<Line>, i: int) returns (r: ParseResult)
    requires LinesIn(text, lines) && 0 <= i
    ensures r == ApplyBlock(k, text, lines, i)
  {
    match k
    case HeaderKind => r := ParseHeader(text, lines, i);
    case CodeBlockKind => r := ParseCodeBlock(text, lines, i);
    case CheckboxListKind => r := ParseCheckboxList(text, lines, i);
    case UnorderedListKind => r := ParseUnorderedList(text, lines, i);
    case OrderedListKind => r := ParseOrderedList(text, lines, i);
    case QuoteBlockKind => r := ParseQuoteBlock(text, lines, i);
    case TableKind => r := TableParse(lines, i);
    case LatexBlockKind => r := ParseLatexBlock(text, lines, i);
    case ParagraphKind => r := ParseParagraph(text, lines, i);
  }

  /** The inner loop of ParserPrivate::parse: the recognisers in order until one succeeds. */
  method TryBlocks(order: seq<BlockKind>, text: QString, lines: seq<Line>, i: int) returns (r: ParseResult)
    requires LinesIn(text, lines) && 0 <= i
    ensures r == FirstBlock(order, text, lines, i)
  {
    var j := 0;
    r := Fail;
    while j < |order|
      invariant 0 <= j <= |order|
      invariant r.Fail?
      invariant FirstBlock(order[j..], text, lines, i) == FirstBlock(order, text, lines, i)
      decreases |order| - j
    {
      r := RunBlock(order[j], text, lines, i);
      assert order[j..][1..] == order[j + 1..];
      if r.Success? {
        return;
      }
      j := j + 1;
    }
  }

  /**
   * The outer loop of ParserPrivate::parse: one block at a time, each
   * advancing past at least one line, so the loop ends.
   */
  method ParseBlocks(order: seq<BlockKind>, text: QString, lines: seq<Line>, root: Container)
    requires LinesIn(text, lines) && ParagraphKind in order
    modifies root
    ensures root.children == old(root.children) + Blocks(order, text, lines, 0)
  {
    var i := 0;
    while i < |lines|
      invariant 0 <= i
      invariant root.children + Blocks(order, text, lines, i) == old(root.children) + Blocks(order, text, lines, 0)
      decreases |lines| - i
    {
      ghost var done := root.children;
      var r := TryBlocks(order, text, lines, i);
      BlocksStep(order, text, lines, i);
      root.AppendChild(r.node);
      Shift(done, r.node, Blocks(order, text, lines, i + r.offset), Blocks(order, text, lines, i),
        old(root.children) + Blocks(order, text, lines, 0));
      i := i + r.offset;
    }
  }

  /** ParserPrivate::parse with the corrected recognisers: split the text into lines, then parse the blocks. */
  method Parse(text: QString) returns (root: Container)
    ensures fresh(root)
    ensures root.children == DocumentBlocks(text)
  {
    var lines := SplitTextToLines(text);
    LinesOfInText(text);
    root := new Container();
    ParseBlocks(BlockOrder, text, lines, root);
  }

  /** Document(str): the original buffer is the text and the root holds the parsed blocks. */
  class Document {
    const originalBuffer: QString
    const root: Container

    constructor(str: QString)
      ensures originalBuffer == str
      ensures root.children == DocumentBlocks(str)
    {
      originalBuffer := str;
      var parsed := Parse(str);
      root := parsed;
    }
  }

  // ---------------------------------------------------------------------
  // Properties

  /** A block-level node: what the block recognisers build. */
  predicate IsBlock(n: Node)
  {
    n.Header? || n.CodeBlock? || n.CheckboxList? || n.UnorderedList? || n.OrderedList?
    || n.QuoteBlock? || n.LatexBlock? || n.Paragraph?
  }

  /** Every recogniser builds a block-level node when it succeeds. */
  lemma {:induction false} FirstBlockIsBlock(kinds: seq<BlockKind>, text: QString, lines: seq<Line>, i: int)
    requires LinesIn(text, lines) && 0 <= i
    ensures FirstBlock(kinds, text, lines, i).Success? ==> IsBlock(FirstBlock(kinds, text, lines, i).node)
    decreases |kinds|
  {
    if |kinds| > 0 && ApplyBlock(kinds[0], text, lines, i).Fail? {
      FirstBlockIsBlock(kinds[1..], text, lines, i);
    }
  }

  /** The document is a sequence of block-level nodes, at most one per line. */
  lemma {:induction false} BlocksAreBlocks(order: seq<BlockKind>, text: QString, lines: seq<Line>, i: int)
    requires LinesIn(text, lines) && 0 <= i && ParagraphKind in order
    ensures forall k :: 0 <= k < |Blocks(order, text, lines, i)| ==> IsBlock(Blocks(order, text, lines, i)[k])
    ensures |Blocks(order, text, lines, i)| <= if i < |lines| then |lines| - i else 0
    decreases |lines| - i
  {
    if i < |lines| {
      var r := FirstBlock(order, text, lines, i);
      FirstBlockIsBlock(order, text, lines, i);
      BlocksAreBlocks(order, text, lines, i + r.offset);
    }
  }

  /** An empty text has no blocks; a non-empty one has at least one. */
  lemma {:induction false} DocumentEmptyIff(text: QString)
    ensures |DocumentBlocks(text)| == 0 <==> |text| == 0
  {
    LinesEnd(text, 0);
  }

  /** A line such as `#abc`: a `#` followed by neither `#` nor a blank. */
  predicate HashWordLine(text: QString, l: Line)
    requires InText(text, l)
  {
    2 <= l.length && text[l.offset] == Hash && text[l.offset + 1] != Hash && text[l.offset + 1] != Blank
  }

  /**
   * On a `#abc` line every recogniser as written declines, except the
   * paragraph recogniser, which reports success without consuming a line.
   */
  lemma {:induction false} HashWordDeclines(k: BlockKind, text: QString, lines: seq<Line>, i: int)
    requires LinesIn(text, lines) && 0 <= i < |lines| && HashWordLine(text, lines[i])
    ensures k != ParagraphKind ==> ApplyBlockAsWritten(k, text, lines, i).Fail?
    ensures k == ParagraphKind ==> ApplyBlockAsWritten(k, text, lines, i) == Success(0, Paragraph([]))
  {
    var l := lines[i];
    match k
    case HeaderKind =>
      assert BlanksFrom(text, l, 0) == 0;
      assert CountLeading(text, TrimLeft(text, l), Hash, 1) == 1;
    case CodeBlockKind =>
      assert !LineStartsWith(text, l, FencePrefix) by {
        assert text[l.offset] != FencePrefix[0];
      }
    case CheckboxListKind =>
      assert !CheckboxLine(text, l) by {
        assert text[l.offset] != UncheckedPrefix[0] && text[l.offset] != CheckedPrefix[0];
      }
    case UnorderedListKind =>
      assert !ListLine(text, l) by {
        assert text[l.offset] != DashPrefix[0];
      }
    case OrderedListKind =>
      assert !LineStartsWith(text, l, OnePrefix) by {
        assert text[l.offset] != OnePrefix[0];
      }
    case QuoteBlockKind =>
      assert !LineStartsWith(text, l, QuotePrefix) by {
        assert text[l.offset] != QuotePrefix[0];
      }
    case TableKind =>
    case LatexBlockKind =>
      assert !LineStartsWith(text, l, LatexPrefix) by {
        assert text[l.offset] != LatexPrefix[0];
      }
    case ParagraphKind =>
      assert LineStartsWith(text, l, HashPrefix);
  }

  /**
   * As written, ParserPrivate::parse can stop making progress: on a `#abc`
   * line, whatever the order of the recognisers, the search ends at the
   * paragraph recogniser with no line consumed, so the index never moves and
   * the loop does not end; the corrected recognisers always move on.
   */
  lemma {:induction false} ParseAsWrittenStalls(order: seq<BlockKind>, text: QString, lines: seq<Line>, i: int)
    requires LinesIn(text, lines) && 0 <= i < |lines| && HashWordLine(text, lines[i])
    requires ParagraphKind in order
    ensures FirstBlockAsWritten(order, text, lines, i) == Success(0, Paragraph([]))
    ensures FirstBlock(order, text, lines, i).offset >= 1
    decreases |order|
  {
    HashWordDeclines(order[0], text, lines, i);
    if order[0] != ParagraphKind {
      ParseAsWrittenStalls(order[1..], text, lines, i);
    }
  }
}
