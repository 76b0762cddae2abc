// src/parser/Parser.cpp, fourth part: the block recognisers (HeaderParser,
// CodeBlockParser, CheckboxListParser, UnorderedListParser,
// OrderedListParser, QuoteBlockParser, TableParser, LatexBlockParser and
// ParagraphParser). Each is a specification function over the list of
// lines and a method with the source's loops proved equal to it.

module BlockParsers {
  import opened QStr
  import opened Sequences
  import opened PieceTable
  import opened Ast
  import opened ParserLines
  import opened ParserTokens
  import opened InlineParsers

  const Hash: CodeUnit := 0x23
  const Dot: CodeUnit := 0x2E
  /** The prefixes the block recognisers test with Line::startsWith. */
  const HashPrefix: QString := [0x23]
  const FencePrefix: QString := [0x60, 0x60, 0x60]
  const LatexPrefix: QString := [0x24, 0x24]
  const DashPrefix: QString := [0x2D, 0x20]
  const OnePrefix: QString := [0x31, 0x2E, 0x20]
  const QuotePrefix: QString := [0x3E, 0x20]
  const UncheckedPrefix: QString := [0x2D, 0x20, 0x5B, 0x20, 0x5D, 0x20]
  const CheckedPrefix: QString := [0x2D, 0x20, 0x5B, 0x78, 0x5D, 0x20]

  /** The recognisers every list item uses. */
  const ListInline: seq<InlineKind> := [LinkKind, InlineLatexKind, InlineCodeKind, SemanticKind]

  /** Every line lies inside the document text. */
  predicate LinesIn(text: QString, lines: seq<Line>)
  {
    forall k :: 0 <= k < |lines| ==> InText(text, lines[k])
  }

  /** A Text node for a whole line, as `new Text(line.offset, line.length)`. */
  function LineText(l: Line): Node
  {
    NewText(l.offset, l.length)
  }

  // ---------------------------------------------------------------------
  // HeaderParser

  /** The number of `c` units at the start of the line, counting from position i (the counting loops). */
  function CountLeading(text: QString, l: Line, c: CodeUnit, i: int): (r: int)
    requires InText(text, l) && 0 <= i <= l.length
    ensures i <= r <= l.length
    decreases l.length - i
  {
    if i == l.length || text[l.offset + i] != c then i else CountLeading(text, l, c, i + 1)
  }

  /** tryParseHeader on the trimmed line: one to six `#`, then a blank. */
  predicate HeaderLine(text: QString, t: Line)
    requires InText(text, t)
  {
    var n := CountLeading(text, t, Hash, 0);
    1 <= n <= 6 && n < t.length && text[t.offset + n] == Blank
  }

  /** HeaderParser::parse: one line; the level is the number of `#`, the content what follows the blank. */
  function HeaderParse(text: QString, lines: seq<Line>, s: int): (r: ParseResult)
    requires LinesIn(text, lines) && 0 <= s
    ensures r.Success? ==> r.offset == 1 && s < |lines| && r.node.Header?
  {
    if s >= |lines| then Fail
    else
      var t := TrimLeft(text, lines[s]);
      if !HeaderLine(text, t) then Fail
      else
        var n := CountLeading(text, t, Hash, 0);
        Success(1, Header(n, InlineNodes(HeaderInline, text, LineMid(t, n + 1))))
  }

  /** parseHeader's counting loop: the number of leading `#`. */
  method CountHashes(text: QString, line: Line) returns (level: int)
    requires InText(text, line)
    ensures level == CountLeading(text, line, Hash, 0)
  {
    var i := 0;
    while i < line.length && text[line.offset + i] == Hash
      invariant 0 <= i <= line.length
      invariant CountLeading(text, line, Hash, i) == CountLeading(text, line, Hash, 0)
    {
      i := i + 1;
    }
    level := i;
  }

  /** HeaderParser::parse with parseHeader's loops; the inline loop is _parseLine's. */
  method ParseHeader(text: QString, lines: seq<Line>, s: int) returns (r: ParseResult)
    requires LinesIn(text, lines) && 0 <= s
    ensures r == HeaderParse(text, lines, s)
  {
    if s >= |lines| {
      return Fail;
    }
    var line := TrimLeft(text, lines[s]);
    if !HeaderLine(text, line) {
      return Fail;
    }
    var level := CountHashes(text, line);
    var header := new Container();
    ParseLineInto(header, HeaderInline, text, LineMid(line, level + 1));
    r := Success(1, Header(level, header.children));
  }

  // ---------------------------------------------------------------------
  // CodeBlockParser and LatexBlockParser

  /** The first line at or after i that starts with `p`, or |lines|. */
  function NextStarting(text: QString, lines: seq<Line>, p: QString, i: int): (r: int)
    requires LinesIn(text, lines) && 0 <= i <= |lines|
    ensures i <= r <= |lines|
    decreases |lines| - i
  {
    if i == |lines| || LineStartsWith(text, lines[i], p) then i else NextStarting(text, lines, p, i + 1)
  }

  /** The body of a code or formula block: each line as a Text followed by an Lf. */
  function BodyNodes(lines: seq<Line>, a: int, b: int): (r: seq<Node>)
    requires 0 <= a <= b <= |lines|
    ensures |r| == 2 * (b - a)
    decreases b - a
  {
    if a == b then [] else BodyNodes(lines, a, b - 1) + [LineText(lines[b - 1]), Lf]
  }

  /**
   * CodeBlockParser::parse: an opening fence, and a later fence that closes
   * it; the name is what follows the opening ``` and the fences are consumed.
   */
  function CodeBlockParse(text: QString, lines: seq<Line>, s: int): (r: ParseResult)
    requires LinesIn(text, lines) && 0 <= s
    ensures r.Success? ==> 2 <= r.offset && s + r.offset <= |lines| && r.node.CodeBlock?
  {
    if s >= |lines| || !LineStartsWith(text, lines[s], FencePrefix) then Fail
    else
      var close := NextStarting(text, lines, FencePrefix, s + 1);
      if close == |lines| then Fail
      else
        var name := LineMid(lines[s], 3);
        Success(close + 1 - s, CodeBlock(NewText(name.offset, name.length).items, BodyNodes(lines, s + 1, close)))
  }

  /** CodeBlockParser::parse: tryParseCodeBlock's search, then parseCodeBlock's copy loop. */
  method ParseCodeBlock(text: QString, lines: seq<Line>, s: int) returns (r: ParseResult)
    requires LinesIn(text, lines) && 0 <= s
    ensures r == CodeBlockParse(text, lines, s)
  {
    if s >= |lines| || !LineStartsWith(text, lines[s], FencePrefix) {
      return Fail;
    }
    var i := s + 1;
    while i < |lines| && !LineStartsWith(text, lines[i], FencePrefix)
      invariant s + 1 <= i <= |lines|
      invariant NextStarting(text, lines, FencePrefix, i) == NextStarting(text, lines, FencePrefix, s + 1)
    {
      i := i + 1;
    }
    if i >= |lines| {
      return Fail;
    }
    var name := LineMid(lines[s], 3);
    var codeBlock := new Container();
    i := s + 1;
    while i < |lines| && !LineStartsWith(text, lines[i], FencePrefix)
      invariant s + 1 <= i <= NextStarting(text, lines, FencePrefix, s + 1)
      invariant NextStarting(text, lines, FencePrefix, i) == NextStarting(text, lines, FencePrefix, s + 1)
      invariant codeBlock.children == BodyNodes(lines, s + 1, i)
    {
      codeBlock.AppendChild(LineText(lines[i]));
      codeBlock.AppendChild(Lf);
      i := i + 1;
    }
    i := i + 1;
    r := Success(i - s, CodeBlock(NewText(name.offset, name.length).items, codeBlock.children));
  }

  /**
   * LatexBlockParser::parse: an opening `$$`, at least one body line and a
   * closing `$$`; otherwise the recogniser fails.
   */
  function LatexBlockParse(text: QString, lines: seq<Line>, s: int): (r: ParseResult)
    requires LinesIn(text, lines) && 0 <= s
    ensures r.Success? ==> 3 <= r.offset && s + r.offset <= |lines| && r.node.LatexBlock?
  {
    if s >= |lines| || !LineStartsWith(text, lines[s], LatexPrefix) then Fail
    else
      var close := NextStarting(text, lines, LatexPrefix, s + 1);
      if close == s + 1 || close == |lines| then Fail
      else Success(close + 1 - s, LatexBlock(BodyNodes(lines, s + 1, close)))
  }

  /** LatexBlockParser::parse: the search for the closing line, then the copy loop. */
  method ParseLatexBlock(text: QString, lines: seq<Line>, s: int) returns (r: ParseResult)
    requires LinesIn(text, lines) && 0 <= s
    ensures r == LatexBlockParse(text, lines, s)
  {
    if s >= |lines| || !LineStartsWith(text, lines[s], LatexPrefix) {
      return Fail;
    }
    var i := s + 1;
    while i < |lines|
      invariant s + 1 <= i <= |lines|
      invariant NextStarting(text, lines, LatexPrefix, i) == NextStarting(text, lines, LatexPrefix, s + 1)
    {
      if LineStartsWith(text, lines[i], LatexPrefix) {
        break;
      }
      i := i + 1;
    }
    if i == s + 1 || i == |lines| {
      return Fail;
    }
    var latexBlock := new Container();
    var j := s + 1;
    while j < i
      invariant s + 1 <= j <= i
      invariant latexBlock.children == BodyNodes(lines, s + 1, j)
    {
      latexBlock.AppendChild(LineText(lines[j]));
      latexBlock.AppendChild(Lf);
      j := j + 1;
    }
    i := i + 1;
    r := Success(i - s, LatexBlock(latexBlock.children));
  }

  // ---------------------------------------------------------------------
  // CheckboxListParser

  /** A checkbox line: `- [ ] ` or `- [x] `. */
  predicate CheckboxLine(text: QString, l: Line)
    requires InText(text, l)
  {
    LineStartsWith(text, l, UncheckedPrefix) || LineStartsWith(text, l, CheckedPrefix)
  }

  /** The first line at or after i that is not a checkbox line, or |lines|. */
  function CheckboxEnd(text: QString, lines: seq<Line>, i: int): (r: int)
    requires LinesIn(text, lines) && 0 <= i <= |lines|
    ensures i <= r <= |lines|
    decreases |lines| - i
  {
    if i == |lines| || !CheckboxLine(text, lines[i]) then i else CheckboxEnd(text, lines, i + 1)
  }

  /** The item of a checkbox line: checked unless it has the unchecked prefix; the rest after the six-unit prefix. */
  function CheckboxItemOf(text: QString, l: Line): Node
    requires InText(text, l) && CheckboxLine(text, l)
  {
    CheckboxItem(!LineStartsWith(text, l, UncheckedPrefix), InlineNodes(CheckboxInline, text, LineRight(l, l.length - 6)))
  }

  /** The items of the checkbox lines a..b, in order. */
  function CheckboxItems(text: QString, lines: seq<Line>, a: int, b: int): (r: seq<Node>)
    requires LinesIn(text, lines) && 0 <= a <= |lines| && a <= b <= CheckboxEnd(text, lines, a)
    ensures |r| == b - a
    decreases b - a
  {
    if a == b then []
    else
      CheckboxRun(text, lines, a);
      CheckboxItems(text, lines, a, b - 1) + [CheckboxItemOf(text, lines[b - 1])]
  }

  /** CheckboxListParser::parse: the run of checkbox lines from s, one item each. */
  function CheckboxListParse(text: QString, lines: seq<Line>, s: int): (r: ParseResult)
    requires LinesIn(text, lines) && 0 <= s
    ensures r.Success? ==> 1 <= r.offset && s + r.offset <= |lines| && r.node.CheckboxList?
  {
    if s >= |lines| || !CheckboxLine(text, lines[s]) then Fail
    else
      var e := CheckboxEnd(text, lines, s);
      Success(e - s, CheckboxList(CheckboxItems(text, lines, s, e)))
  }

  /** Every line before CheckboxEnd is a checkbox line, and the one at it is not. */
  lemma {:induction false} CheckboxRun(text: QString, lines: seq<Line>, i: int)
    requires LinesIn(text, lines) && 0 <= i <= |lines|
    ensures forall k :: i <= k < CheckboxEnd(text, lines, i) ==> CheckboxLine(text, lines[k])
    ensures CheckboxEnd(text, lines, i) < |lines| ==> !CheckboxLine(text, lines[CheckboxEnd(text, lines, i)])
    decreases |lines| - i
  {
    if i < |lines| && CheckboxLine(text, lines[i]) {
      CheckboxRun(text, lines, i + 1);
    }
  }

  /** One turn of parseCheckboxList's loop: a checkbox line adds its item and the run goes on. */
  lemma {:induction false} CheckboxStep(text: QString, lines: seq<Line>, s: int, i: int)
    requires LinesIn(text, lines) && 0 <= s <= i < |lines|
    requires CheckboxEnd(text, lines, i) == CheckboxEnd(text, lines, s)
    requires CheckboxLine(text, lines[i])
    ensures CheckboxEnd(text, lines, i + 1) == CheckboxEnd(text, lines, s)
    ensures CheckboxItems(text, lines, s, i + 1) == CheckboxItems(text, lines, s, i) + [CheckboxItemOf(text, lines[i])]
  {
  }

  /** The body of parseCheckboxList's loop for one checkbox line: the item, parsed inline after its prefix. */
  method ParseCheckboxItem(text: QString, line: Line) returns (node: Node)
    requires InText(text, line) && CheckboxLine(text, line)
    ensures node == CheckboxItemOf(text, line)
  {
    var checked := !LineStartsWith(text, line, UncheckedPrefix);
    var item := new Container();
    ParseLineInto(item, CheckboxInline, text, LineRight(line, line.length - 6));
    node := CheckboxItem(checked, item.children);
  }

  /** One turn of parseCheckboxList's loop: the item of line i joins the list. */
  method AppendCheckboxItem(list: Container, text: QString, lines: seq<Line>, s: int, i: int)
    requires LinesIn(text, lines) && 0 <= s <= i < |lines|
    requires CheckboxEnd(text, lines, i) == CheckboxEnd(text, lines, s) && CheckboxLine(text, lines[i])
    requires list.children == CheckboxItems(text, lines, s, i)
    modifies list
    ensures CheckboxEnd(text, lines, i + 1) == CheckboxEnd(text, lines, s)
    ensures list.children == CheckboxItems(text, lines, s, i + 1)
  {
    CheckboxStep(text, lines, s, i);
    var node := ParseCheckboxItem(text, lines[i]);
    list.AppendChild(node);
  }

  /** CheckboxListParser::parse with parseCheckboxList's loop. */
  method ParseCheckboxList(text: QString, lines: seq<Line>, s: int) returns (r: ParseResult)
    requires LinesIn(text, lines) && 0 <= s
    ensures r == CheckboxListParse(text, lines, s)
  {
    if s >= |lines| || !CheckboxLine(text, lines[s]) {
      return Fail;
    }
    var list := new Container();
    var i := s;
    while i < |lines| && CheckboxLine(text, lines[i])
      invariant s <= i <= |lines|
      invariant CheckboxEnd(text, lines, i) == CheckboxEnd(text, lines, s)
      invariant list.children == CheckboxItems(text, lines, s, i)
    {
      AppendCheckboxItem(list, text, lines, s, i);
      i := i + 1;
    }
    r := Success(i - s, CheckboxList(list.children));
  }

  // ---------------------------------------------------------------------
  // UnorderedListParser

  /** An unordered-list line: `- ` after the leading blanks. */
  predicate ListLine(text: QString, l: Line)
    requires InText(text, l)
  {
    LineStartsWith(text, TrimLeft(text, l), DashPrefix)
  }

  /** The first line at or after i that is not an unordered-list line, or |lines|. */
  function ListEnd(text: QString, lines: seq<Line>, i: int): (r: int)
    requires LinesIn(text, lines) && 0 <= i <= |lines|
    ensures i <= r <= |lines|
    decreases |lines| - i
  {
    if i == |lines| || !ListLine(text, lines[i]) then i else ListEnd(text, lines, i + 1)
  }

  /** The item of a list line: what follows `- ` in the trimmed line. */
  function ListItemOf(text: QString, l: Line): Node
    requires InText(text, l) && ListLine(text, l)
  {
    UnorderedListItem(InlineNodes(ListInline, text, LineMid(TrimLeft(text, l), 2)))
  }

  /** The items of the list lines a..b, in order. */
  function ListItems(text: QString, lines: seq<Line>, a: int, b: int): (r: seq<Node>)
    requires LinesIn(text, lines) && 0 <= a <= |lines| && a <= b <= ListEnd(text, lines, a)
    ensures |r| == b - a
    decreases b - a
  {
    if a == b then []
    else
      ListRun(text, lines, a);
      ListItems(text, lines, a, b - 1) + [ListItemOf(text, lines[b - 1])]
  }

  /** Every line before ListEnd is a list line, and the one at it is not. */
  lemma {:induction false} ListRun(text: QString, lines: seq<Line>, i: int)
    requires LinesIn(text, lines) && 0 <= i <= |lines|
    ensures forall k :: i <= k < ListEnd(text, lines, i) ==> ListLine(text, lines[k])
    ensures ListEnd(text, lines, i) < |lines| ==> !ListLine(text, lines[ListEnd(text, lines, i)])
    decreases |lines| - i
  {
    if i < |lines| && ListLine(text, lines[i]) {
      ListRun(text, lines, i + 1);
    }
  }

  /** UnorderedListParser::parse: the run of `- ` lines from s (leading blanks ignored), one item each. */
  function UnorderedListParse(text: QString, lines: seq<Line>, s: int): (r: ParseResult)
    requires LinesIn(text, lines) && 0 <= s
    ensures r.Success? ==> 1 <= r.offset && s + r.offset <= |lines| && r.node.UnorderedList?
  {
    if s >= |lines| || !ListLine(text, lines[s]) then Fail
    else
      var e := ListEnd(text, lines, s);
      Success(e - s, UnorderedList(ListItems(text, lines, s, e)))
  }

  /** One turn of parseUnorderedList's loop. */
  lemma {:induction false} ListStep(text: QString, lines: seq<Line>, s: int, i: int)
    requires LinesIn(text, lines) && 0 <= s <= i < |lines|
    requires ListEnd(text, lines, i) == ListEnd(text, lines, s)
    requires ListLine(text, lines[i])
    ensures ListEnd(text, lines, i + 1) == ListEnd(text, lines, s)
    ensures ListItems(text, lines, s, i + 1) == ListItems(text, lines, s, i) + [ListItemOf(text, lines[i])]
  {
  }

  /** One turn of parseUnorderedList's loop: the item of line i joins the list. */
  method AppendListItem(ul: Container, text: QString, lines: seq<Line>, s: int, i: int)
    requires LinesIn(text, lines) && 0 <= s <= i < |lines|
    requires ListEnd(text, lines, i) == ListEnd(text, lines, s) && ListLine(text, lines[i])
    requires ul.children == ListItems(text, lines, s, i)
    modifies ul
    ensures ListEnd(text, lines, i + 1) == ListEnd(text, lines, s)
    ensures ul.children == ListItems(text, lines, s, i + 1)
  {
    ListStep(text, lines, s, i);
    var node := ParseListItem(text, lines[i]);
    ul.AppendChild(node);
  }

  /** The body of parseUnorderedList's loop for one list line. */
  method ParseListItem(text: QString, line: Line) returns (node: Node)
    requires InText(text, line) && ListLine(text, line)
    ensures node == ListItemOf(text, line)
  {
    var item := new Container();
    ParseLineInto(item, ListInline, text, LineMid(TrimLeft(text, line), 2));
    node := UnorderedListItem(item.children);
  }

  /** UnorderedListParser::parse with parseUnorderedList's loop. */
  method ParseUnorderedList(text: QString, lines: seq<Line>, s: int) returns (r: ParseResult)
    requires LinesIn(text, lines) && 0 <= s
    ensures r == UnorderedListParse(text, lines, s)
  {
    if s >= |lines| || !ListLine(text, lines[s]) {
      return Fail;
    }
    var ul := new Container();
    var i := s;
    while i < |lines| && ListLine(text, lines[i])
      invariant s <= i <= |lines|
      invariant ListEnd(text, lines, i) == ListEnd(text, lines, s)
      invariant ul.children == ListItems(text, lines, s, i)
    {
      AppendListItem(ul, text, lines, s, i);
      i := i + 1;
    }
    assert ListEnd(text, lines, i) == i;
    r := Success(i - s, UnorderedList(ul.children));
  }

  // ---------------------------------------------------------------------
  // OrderedListParser

  /** The number of leading decimal digits from position i (QChar::isDigit on ASCII digits). */
  function CountDigits(text: QString, l: Line, i: int): (r: int)
    requires InText(text, l) && 0 <= i <= l.length
    ensures i <= r <= l.length
    decreases l.length - i
  {
    if i == l.length || !IsAsciiDigit(text[l.offset + i]) then i else CountDigits(text, l, i + 1)
  }

  /** An ordered-list line: digits, then `.`, then a blank. */
  predicate NumberedLine(text: QString, l: Line)
    requires InText(text, l)
  {
    var j := CountDigits(text, l, 0);
    0 < j && j + 1 < l.length && text[l.offset + j] == Dot && text[l.offset + j + 1] == Blank
  }

  /** The first line at or after i that is not a numbered line, or |lines|. */
  function NumberedEnd(text: QString, lines: seq<Line>, i: int): (r: int)
    requires LinesIn(text, lines) && 0 <= i <= |lines|
    ensures i <= r <= |lines|
    decreases |lines| - i
  {
    if i == |lines| || !NumberedLine(text, lines[i]) then i else NumberedEnd(text, lines, i + 1)
  }

  /** The item of a numbered line: what follows the digits, the dot and the blank. */
  function NumberedItemOf(text: QString, l: Line): Node
    requires InText(text, l) && NumberedLine(text, l)
  {
    OrderedListItem(InlineNodes(ListInline, text, LineMid(l, CountDigits(text, l, 0) + 2)))
  }

  /** The items of the numbered lines a..b, in order. */
  function NumberedItems(text: QString, lines: seq<Line>, a: int, b: int): (r: seq<Node>)
    requires LinesIn(text, lines) && 0 <= a <= |lines| && a <= b <= NumberedEnd(text, lines, a)
    ensures |r| == b - a
    decreases b - a
  {
    if a == b then []
    else
      NumberedRun(text, lines, a);
      NumberedItems(text, lines, a, b - 1) + [NumberedItemOf(text, lines[b - 1])]
  }

  /** Every line before NumberedEnd is a numbered line, and the one at it is not. */
  lemma {:induction false} NumberedRun(text: QString, lines: seq<Line>, i: int)
    requires LinesIn(text, lines) && 0 <= i <= |lines|
    ensures forall k :: i <= k < NumberedEnd(text, lines, i) ==> NumberedLine(text, lines[k])
    ensures NumberedEnd(text, lines, i) < |lines| ==> !NumberedLine(text, lines[NumberedEnd(text, lines, i)])
    decreases |lines| - i
  {
    if i < |lines| && NumberedLine(text, lines[i]) {
      NumberedRun(text, lines, i + 1);
    }
  }

  /** OrderedListParser::parse: starts at a `1. ` line and takes the run of numbered lines. */
  function OrderedListParse(text: QString, lines: seq<Line>, s: int): (r: ParseResult)
    requires LinesIn(text, lines) && 0 <= s
    ensures r.Success? ==> s < |lines| && s + r.offset <= |lines| && r.node.OrderedList?
  {
    if s >= |lines| || !LineStartsWith(text, lines[s], OnePrefix) then Fail
    else
      var e := NumberedEnd(text, lines, s);
      Success(e - s, OrderedList(NumberedItems(text, lines, s, e)))
  }

  /** One turn of parseOrderedList's outer loop. */
  lemma {:induction false} NumberedStep(text: QString, lines: seq<Line>, s: int, i: int)
    requires LinesIn(text, lines) && 0 <= s <= i < |lines|
    requires NumberedEnd(text, lines, i) == NumberedEnd(text, lines, s)
    requires NumberedLine(text, lines[i])
    ensures NumberedEnd(text, lines, i + 1) == NumberedEnd(text, lines, s)
    ensures NumberedItems(text, lines, s, i + 1) == NumberedItems(text, lines, s, i) + [NumberedItemOf(text, lines[i])]
  {
  }

  /**
   * The digit scan of parseOrderedList on one line: the position after
   * `digits. ` when the line is numbered, or -1 when it is not.
   */
  method NumberedPrefix(text: QString, line: Line) returns (j: int)
    requires InText(text, line)
    ensures NumberedLine(text, line) ==> j == CountDigits(text, line, 0) + 2
    ensures !NumberedLine(text, line) ==> j == -1
  {
    var hasDigit := false;
    j := 0;
    while j < line.length && IsAsciiDigit(text[line.offset + j])
      invariant 0 <= j <= line.length
      invariant hasDigit <==> j > 0
      invariant CountDigits(text, line, j) == CountDigits(text, line, 0)
    {
      hasDigit := true;
      j := j + 1;
    }
    if !hasDigit || j >= line.length || text[line.offset + j] != Dot {
      return -1;
    }
    j := j + 1;
    if j >= line.length || text[line.offset + j] != Blank {
      return -1;
    }
    j := j + 1;
  }

  /** The rest of parseOrderedList's loop body: the item, parsed inline from position j. */
  method ParseNumberedItem(text: QString, line: Line, j: int) returns (node: Node)
    requires InText(text, line) && NumberedLine(text, line) && j == CountDigits(text, line, 0) + 2
    ensures node == NumberedItemOf(text, line)
  {
    var item := new Container();
    ParseLineInto(item, ListInline, text, LineMid(line, j));
    node := OrderedListItem(item.children);
  }

  /** OrderedListParser::parse with parseOrderedList's loops; each exit returns the list so far. */
  method ParseOrderedList(text: QString, lines: seq<Line>, s: int) returns (r: ParseResult)
    requires LinesIn(text, lines) && 0 <= s
    ensures r == OrderedListParse(text, lines, s)
  {
    if s >= |lines| || !LineStartsWith(text, lines[s], OnePrefix) {
      return Fail;
    }
    var ol := new Container();
    var i := s;
    while i < |lines|
      invariant s <= i <= |lines|
      invariant NumberedEnd(text, lines, i) == NumberedEnd(text, lines, s)
      invariant ol.children == NumberedItems(text, lines, s, i)
    {
      var line := lines[i];
      var j := NumberedPrefix(text, line);
      if j < 0 {
        return Success(i - s, OrderedList(ol.children));
      }
      NumberedStep(text, lines, s, i);
      var node := ParseNumberedItem(text, line, j);
      ol.AppendChild(node);
      i := i + 1;
    }
    r := Success(i - s, OrderedList(ol.children));
  }

  // ---------------------------------------------------------------------
  // QuoteBlockParser

  function QuoteEnd(text: QString, lines: seq<Line>, i: int): (r: int)
    requires LinesIn(text, lines) && 0 <= i <= |lines|
    ensures i <= r <= |lines|
    decreases |lines| - i
  {
    if i == |lines| || !LineStartsWith(text, lines[i], QuotePrefix) then i else QuoteEnd(text, lines, i + 1)
  }

  /** One Text per quote line: the line without its `> `. */
  function QuoteItems(lines: seq<Line>, a: int, b: int): (r: seq<Node>)
    requires 0 <= a <= b <= |lines|
    ensures |r| == b - a
    decreases b - a
  {
    if a == b then [] else QuoteItems(lines, a, b - 1) + [NewText(lines[b - 1].offset + 2, lines[b - 1].length - 2)]
  }

  /**
   * QuoteBlockParser::parse as written: after the run of `> ` lines the
   * index is advanced once more, so one line past the quote is consumed too.
   */
  function QuoteBlockParseAsWritten(text: QString, lines: seq<Line>, s: int): (r: ParseResult)
    requires LinesIn(text, lines) && 0 <= s
    ensures r.Success? ==> s < |lines| && r.offset == QuoteEnd(text, lines, s) + 1 - s
  {
    if s >= |lines| || !LineStartsWith(text, lines[s], QuotePrefix) then Fail
    else
      var e := QuoteEnd(text, lines, s);
      Success(e + 1 - s, QuoteBlock(QuoteItems(lines, s, e)))
  }

  /** QuoteBlockParser::parse as evidently intended: exactly the run of `> ` lines is consumed. */
  function QuoteBlockParse(text: QString, lines: seq<Line>, s: int): (r: ParseResult)
    requires LinesIn(text, lines) && 0 <= s
    ensures r.Success? ==> 1 <= r.offset && s + r.offset <= |lines| && r.node.QuoteBlock?
  {
    if s >= |lines| || !LineStartsWith(text, lines[s], QuotePrefix) then Fail
    else
      var e := QuoteEnd(text, lines, s);
      Success(e - s, QuoteBlock(QuoteItems(lines, s, e)))
  }

  /** QuoteBlockParser::parse with parseQuoteBlock's loop, without the extra step past the quote. */
  method ParseQuoteBlock(text: QString, lines: seq<Line>, s: int) returns (r: ParseResult)
    requires LinesIn(text, lines) && 0 <= s
    ensures r == QuoteBlockParse(text, lines, s)
  {
    if s >= |lines| || !LineStartsWith(text, lines[s], QuotePrefix) {
      return Fail;
    }
    var quoteBlock := new Container();
    var i := s;
    while i < |lines| && LineStartsWith(text, lines[i], QuotePrefix)
      invariant s <= i <= QuoteEnd(text, lines, s)
      invariant QuoteEnd(text, lines, i) == QuoteEnd(text, lines, s)
      invariant quoteBlock.children == QuoteItems(lines, s, i)
    {
      quoteBlock.AppendChild(NewText(lines[i].offset + 2, lines[i].length - 2));
      i := i + 1;
    }
    r := Success(i - s, QuoteBlock(quoteBlock.children));
  }

  // ---------------------------------------------------------------------
  // TableParser

  /** TableParser::parse: the table grammar is compiled out, so the recogniser always fails. */
  function TableParse(lines: seq<Line>, s: int): (r: ParseResult)
    ensures r.Fail?
  {
    Fail
  }

  // ---------------------------------------------------------------------
  // ParagraphParser

  /** A line that starts another kind of block: `#`, `- `, `1. `, ``` or `$$`. */
  predicate OtherBlockStart(text: QString, l: Line)
    requires InText(text, l)
  {
    LineStartsWith(text, l, HashPrefix) || LineStartsWith(text, l, DashPrefix) || LineStartsWith(text, l, OnePrefix)
    || LineStartsWith(text, l, FencePrefix) || LineStartsWith(text, l, LatexPrefix)
  }

  /** What parseParagraph appends for a line it keeps: an Lf unless it is the first, then the line's inline nodes. */
  function ParagraphLine(text: QString, l: Line, first: bool): seq<Node>
    requires InText(text, l)
  {
    (if first then [] else [Lf]) + InlineNodes(ParagraphInline, text, l)
  }

  /** Where a paragraph scan stops and the children it collected. */
  datatype Para = Para(end: int, children: seq<Node>)

  /**
   * The loop of parseParagraph from line i: a blank line is consumed and
   * ends the paragraph; a line starting another block ends it without
   * being consumed; every other line is taken as ParagraphLine.
   * `checkFirst` says whether the first line is tested for
   * another block's start, as the source does.
   */
  function ParagraphScan(text: QString, lines: seq<Line>, i: int, first: bool, checkFirst: bool): (r: Para)
    requires LinesIn(text, lines) && 0 <= i <= |lines|
    ensures i <= r.end <= |lines|
    decreases |lines| - i
  {
    if i == |lines| then Para(i, [])
    else if lines[i].length == 0 then Para(i + 1, [])
    else if (checkFirst || !first) && OtherBlockStart(text, lines[i]) then Para(i, [])
    else
      var rest := ParagraphScan(text, lines, i + 1, false, checkFirst);
      Para(rest.end, ParagraphLine(text, lines[i], first) + rest.children)
  }

  /** ParagraphParser::parse as written: it always succeeds, possibly consuming no line. */
  function ParagraphParseAsWritten(text: QString, lines: seq<Line>, s: int): (r: ParseResult)
    requires LinesIn(text, lines) && 0 <= s
    ensures r.Success? && 0 <= r.offset
  {
    if s >= |lines| then Success(0, Paragraph([]))
    else
      var p := ParagraphScan(text, lines, s, true, true);
      Success(p.end - s, Paragraph(p.children))
  }

  /**
   * ParagraphParser::parse as evidently intended: the first line is the
   * paragraph's whatever it starts with (every other recogniser has already
   * declined it), so at least one line is consumed.
   */
  function ParagraphParse(text: QString, lines: seq<Line>, s: int): (r: ParseResult)
    requires LinesIn(text, lines) && 0 <= s
    ensures r.Success? && r.node.Paragraph?
    ensures s < |lines| ==> 1 <= r.offset && s + r.offset <= |lines|
  {
    if s >= |lines| then Success(0, Paragraph([]))
    else
      var p := ParagraphScan(text, lines, s, true, false);
      Success(p.end - s, Paragraph(p.children))
  }

  /** One line taken into the paragraph: the scan continues after it. */
  lemma {:induction false} ParagraphStep(text: QString, lines: seq<Line>, i: int, first: bool)
    requires LinesIn(text, lines) && 0 <= i < |lines|
    requires lines[i].length != 0 && (first || !OtherBlockStart(text, lines[i]))
    ensures ParagraphScan(text, lines, i, first, false)
      == Para(ParagraphScan(text, lines, i + 1, false, false).end,
              ParagraphLine(text, lines[i], first) + ParagraphScan(text, lines, i + 1, false, false).children)
  {
  }

  /** The body of parseParagraph's loop for a line it keeps. */
  method AppendParagraphLine(paragraph: Container, text: QString, line: Line, first: bool)
    requires InText(text, line)
    modifies paragraph
    ensures paragraph.children == old(paragraph.children) + ParagraphLine(text, line, first)
  {
    if !first {
      paragraph.AppendChild(Lf);
    }
    ParseLineInto(paragraph, ParagraphInline, text, line);
    assert old(paragraph.children) + ParagraphLine(text, line, first)
      == old(paragraph.children) + (if first then [] else [Lf]) + InlineNodes(ParagraphInline, text, line);
  }

  /** One kept line of parseParagraph's loop: the children so far and the rest of the scan still make up the whole. */
  method KeepParagraphLine(paragraph: Container, text: QString, lines: seq<Line>, i: int, first: bool, ghost whole: seq<Node>)
    requires LinesIn(text, lines) && 0 <= i < |lines|
    requires lines[i].length != 0 && (first || !OtherBlockStart(text, lines[i]))
    requires paragraph.children + ParagraphScan(text, lines, i, first, false).children == whole
    modifies paragraph
    ensures paragraph.children + ParagraphScan(text, lines, i + 1, false, false).children == whole
    ensures ParagraphScan(text, lines, i + 1, false, false).end == ParagraphScan(text, lines, i, first, false).end
  {
    ParagraphStep(text, lines, i, first);
    ghost var done := paragraph.children;
    ghost var rest := ParagraphScan(text, lines, i + 1, false, false).children;
    AppendParagraphLine(paragraph, text, lines[i], first);
    ShiftAll(done, ParagraphLine(text, lines[i], first), rest, ParagraphScan(text, lines, i, first, false).children, whole);
  }

  /** ParagraphParser::parse with parseParagraph's loop, the first line exempt from the prefix test. */
  method ParseParagraph(text: QString, lines: seq<Line>, s: int) returns (r: ParseResult)
    requires LinesIn(text, lines) && 0 <= s
    ensures r == ParagraphParse(text, lines, s)
  {
    if s >= |lines| {
      return Success(0, Paragraph([]));
    }
    var paragraph := new Container();
    ghost var whole := ParagraphScan(text, lines, s, true, false);
    assert ParagraphParse(text, lines, s) == Success(whole.end - s, Paragraph(whole.children));
    var i := s;
    var first := true;
    while i < |lines|
      invariant s <= i <= |lines|
      invariant first <==> i == s
      invariant ParagraphScan(text, lines, i, first, false).end == whole.end
      invariant paragraph.children + ParagraphScan(text, lines, i, first, false).children == whole.children
      decreases |lines| - i
    {
      var line := lines[i];
      if line.length == 0 {
        assert ParagraphScan(text, lines, i, first, false) == Para(i + 1, []);
        i := i + 1;
        break;
      }
      if !first && OtherBlockStart(text, line) {
        assert ParagraphScan(text, lines, i, first, false) == Para(i, []);
        break;
      }
      KeepParagraphLine(paragraph, text, lines, i, first, whole.children);
      i := i + 1;
      first := false;
    }
    assert i == whole.end;
    assert paragraph.children == whole.children;
    r := Success(i - s, Paragraph(paragraph.children));
  }
}
