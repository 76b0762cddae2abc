// Parser.cpp at the repository root, second part: the split of the text into
// lines, the line-level recognisers (header, fenced code, lists, quote, table,
// $$ block) and Parser::parse, which dispatches on each line's prefix.

module LegacyParser {
  import opened Optional
  import opened QStr
  import opened Sequences
  import opened LegacyAst
  import opened LegacyInline

  const CR: CodeUnit := 0x0D
  const LF: CodeUnit := 0x0A
  const Hash: CodeUnit := 0x23
  const Blank: CodeUnit := 0x20
  const Bar: CodeUnit := 0x7C
  const Dot: CodeUnit := 0x2E

  const HashPrefix: QString := [0x23]
  const FencePrefix: QString := [0x60, 0x60, 0x60]
  const DashPrefix: QString := [0x2D, 0x20]
  const OnePrefix: QString := [0x31, 0x2E, 0x20]
  const RuleLine: QString := [0x2D, 0x2D, 0x2D]
  const QuotePrefix: QString := [0x3E, 0x20]
  const BarPrefix: QString := [0x7C]
  const LatexPrefix: QString := [0x24, 0x24]

  // ---------------------------------------------------------------------
  // text.split(QRegularExpression("(\r\n|\r|\n)"))

  /**
   * The parts of text[start..] when text[start..cur] holds no break: each
   * CRLF, CR or LF ends one part (CRLF counts once) and the rest after the
   * last break is the last part, even when it is empty.
   */
  function SplitFrom(text: QString, start: int, cur: int): (lines: seq<QString>)
    requires 0 <= start <= cur <= |text|
    ensures |lines| >= 1
    decreases |text| - cur
  {
    if cur == |text| then [text[start..]]
    else if text[cur] == CR && cur + 1 < |text| && text[cur + 1] == LF then
      [text[start..cur]] + SplitFrom(text, cur + 2, cur + 2)
    else if text[cur] == CR || text[cur] == LF then [text[start..cur]] + SplitFrom(text, cur + 1, cur + 1)
    else SplitFrom(text, start, cur + 1)
  }

  /** The lines of a text; an empty text is one empty line. */
  function SplitLines(text: QString): (lines: seq<QString>)
    ensures |lines| >= 1
  {
    SplitFrom(text, 0, 0)
  }

  /** The text with every CRLF and every lone CR turned into LF. */
  function Normalized(text: QString): QString
    decreases |text|
  {
    if |text| == 0 then []
    else if text[0] == CR && 1 < |text| && text[1] == LF then [LF] + Normalized(text[2..])
    else if text[0] == CR then [LF] + Normalized(text[1..])
    else [text[0]] + Normalized(text[1..])
  }

  predicate BreakFree(s: QString)
  {
    forall k :: 0 <= k < |s| ==> s[k] != CR && s[k] != LF
  }

  lemma {:induction false} SplitFromJoin(text: QString, start: int, cur: int)
    requires 0 <= start <= cur <= |text|
    ensures Join(SplitFrom(text, start, cur), LF) == text[start..cur] + Normalized(text[cur..])
    decreases |text| - cur
  {
    if cur == |text| {
      assert text[start..] == text[start..cur];
      assert text[start..cur] + [] == text[start..cur];
    } else if text[cur] == CR && cur + 1 < |text| && text[cur + 1] == LF {
      SplitFromJoin(text, cur + 2, cur + 2);
      BreakStep(text, start, cur, cur + 2);
    } else if text[cur] == CR || text[cur] == LF {
      SplitFromJoin(text, cur + 1, cur + 1);
      BreakStep(text, start, cur, cur + 1);
    } else {
      SplitFromJoin(text, start, cur + 1);
      assert text[start..cur + 1] == text[start..cur] + [text[cur]];
      assert text[cur..][1..] == text[cur + 1..];
    }
  }

  /** One break of the split: the part before it, LF, and the rest after it. */
  lemma BreakStep(text: QString, start: int, cur: int, next: int)
    requires 0 <= start <= cur < next <= |text|
    requires next == cur + 2 ==> text[cur] == CR && text[cur + 1] == LF
    requires next == cur + 1 ==> text[cur] == CR || text[cur] == LF
    requires next == cur + 1 ==> !(text[cur] == CR && cur + 1 < |text| && text[cur + 1] == LF)
    requires next <= cur + 2
    requires Join(SplitFrom(text, next, next), LF) == text[next..next] + Normalized(text[next..])
    ensures Join(SplitFrom(text, start, cur), LF) == text[start..cur] + Normalized(text[cur..])
  {
    var rest := text[cur..];
    var tail := SplitFrom(text, next, next);
    assert SplitFrom(text, start, cur) == [text[start..cur]] + tail;
    assert ([text[start..cur]] + tail)[1..] == tail;
    assert text[next..next] == [];
    assert rest[next - cur..] == text[next..];
    assert Normalized(rest) == [LF] + Normalized(text[next..]);
  }

  lemma {:induction false} SplitFromBreakFree(text: QString, start: int, cur: int)
    requires 0 <= start <= cur <= |text|
    requires forall k :: start <= k < cur ==> text[k] != CR && text[k] != LF
    ensures forall k :: 0 <= k < |SplitFrom(text, start, cur)| ==> BreakFree(SplitFrom(text, start, cur)[k])
    decreases |text| - cur
  {
    var lines := SplitFrom(text, start, cur);
    if cur == |text| {
      assert lines == [text[start..]];
    } else if text[cur] == CR && cur + 1 < |text| && text[cur + 1] == LF {
      SplitFromBreakFree(text, cur + 2, cur + 2);
      assert lines == [text[start..cur]] + SplitFrom(text, cur + 2, cur + 2);
    } else if text[cur] == CR || text[cur] == LF {
      SplitFromBreakFree(text, cur + 1, cur + 1);
      assert lines == [text[start..cur]] + SplitFrom(text, cur + 1, cur + 1);
    } else {
      SplitFromBreakFree(text, start, cur + 1);
    }
  }

  /**
   * The split loses only the kind of each break: the lines glued back with
   * LF give the text with its breaks normalised to LF, and no line holds a
   * CR or an LF.
   */
  lemma {:induction false} SplitLinesJoin(text: QString)
    ensures Join(SplitLines(text), LF) == Normalized(text)
    ensures forall k :: 0 <= k < |SplitLines(text)| ==> BreakFree(SplitLines(text)[k])
  {
    SplitFromJoin(text, 0, 0);
    SplitFromBreakFree(text, 0, 0);
    assert text[0..] == text;
  }

  // ---------------------------------------------------------------------
  // Headers

  /** The index of the first unit at or after `from` that is not '#'. */
  function HashesFrom(line: QString, from: int): (r: int)
    requires 0 <= from <= |line|
    ensures from <= r <= |line|
    decreases |line| - from
  {
    if from == |line| || line[from] != Hash then from else HashesFrom(line, from + 1)
  }

  lemma {:induction false} HashesFromSpec(line: QString, from: int)
    requires 0 <= from <= |line|
    ensures forall k :: from <= k < HashesFrom(line, from) ==> line[k] == Hash
    ensures HashesFrom(line, from) < |line| ==> line[HashesFrom(line, from)] != Hash
    decreases |line| - from
  {
    if from < |line| && line[from] == Hash {
      HashesFromSpec(line, from + 1);
    }
  }

  lemma {:induction false} HashesFromIs(line: QString, from: int, n: int)
    requires 0 <= from <= n <= |line|
    requires forall k :: from <= k < n ==> line[k] == Hash
    requires n < |line| ==> line[n] != Hash
    ensures HashesFrom(line, from) == n
    decreases n - from
  {
    if from < n {
      HashesFromIs(line, from + 1, n);
    }
  }

  /** tryParseHeader: one to six '#' and then a space. */
  predicate TryHeader(line: QString)
  {
    var n := HashesFrom(line, 0);
    1 <= n <= 6 && n < |line| && line[n] == Blank
  }

  /** parseHeader: the level is the number of '#'; the content is what follows the next unit. */
  function HeaderOf(line: QString): Node
  {
    var n := HashesFrom(line, 0);
    Header(n, [Text(Mid(line, n + 1, -1))])
  }

  method ParseHeader(line: QString) returns (node: Node)
    ensures node == HeaderOf(line)
  {
    var i := 0;
    while i < |line| && line[i] == Hash
      invariant 0 <= i <= |line|
      invariant HashesFrom(line, i) == HashesFrom(line, 0)
    {
      i := i + 1;
    }
    var level := i;
    i := i + 1;
    var str := Mid(line, i, -1);
    node := Header(level, [Text(str)]);
  }

  /** n copies of '#'. */
  function Hashes(n: nat): QString
  {
    seq(n, k => Hash)
  }

  /**
   * A line is a header line of level n exactly when it is n '#' (1 <= n <= 6),
   * a space and some content; the header then keeps the level and the
   * content, and the line is rebuilt from them.
   */
  lemma {:induction false} HeaderRoundTrip(line: QString, n: int)
    requires 1 <= n <= 6
    ensures (TryHeader(line) && HashesFrom(line, 0) == n)
      <==> (n < |line| && line[..n] == Hashes(n) && line[n] == Blank)
    ensures TryHeader(line) && HashesFrom(line, 0) == n ==>
      HeaderOf(line) == Header(n, [Text(line[n + 1..])])
      && Hashes(n) + [Blank] + line[n + 1..] == line
  {
    HashesFromSpec(line, 0);
    if n < |line| && line[..n] == Hashes(n) && line[n] == Blank {
      assert forall k :: 0 <= k < n ==> line[k] == line[..n][k];
      HashesFromIs(line, 0, n);
    }
    if TryHeader(line) && HashesFrom(line, 0) == n {
      assert line[..n] == Hashes(n);
      assert line == line[..n] + [line[n]] + line[n + 1..];
    }
  }

  // ---------------------------------------------------------------------
  // Fenced code and $$ blocks

  /** The first line at or after `from` that starts with `prefix`, or |lines|. */
  function NextStarting(lines: seq<QString>, prefix: QString, from: int): (r: int)
    requires 0 <= from <= |lines|
    ensures from <= r <= |lines|
    decreases |lines| - from
  {
    if from == |lines| || StartsWith(lines[from], prefix) then from else NextStarting(lines, prefix, from + 1)
  }

  lemma {:induction false} NextStartingSpec(lines: seq<QString>, prefix: QString, from: int)
    requires 0 <= from <= |lines|
    ensures forall k :: from <= k < NextStarting(lines, prefix, from) ==> !StartsWith(lines[k], prefix)
    ensures NextStarting(lines, prefix, from) < |lines| ==> StartsWith(lines[NextStarting(lines, prefix, from)], prefix)
    decreases |lines| - from
  {
    if from < |lines| && !StartsWith(lines[from], prefix) {
      NextStartingSpec(lines, prefix, from + 1);
    }
  }

  /** Lines each followed by '\n', glued together. */
  function Body(ls: seq<QString>): QString
  {
    if |ls| == 0 then [] else Body(ls[..|ls| - 1]) + ls[|ls| - 1] + [LF]
  }

  /** tryParseCodeBlock: the line opens a fence and a later line closes it. */
  predicate TryCodeBlock(i: int, lines: seq<QString>)
  {
    0 <= i < |lines| && StartsWith(lines[i], FencePrefix) && NextStarting(lines, FencePrefix, i + 1) < |lines|
  }

  /** What parseLine-level recognisers return: a node and the next line, or no node. */
  datatype Parsed = Block(node: Node, next: int) | Declined | OutOfRange

  /**
   * parseCodeBlock: the name is the opening line after its three backquotes;
   * the code is each line up to the closing fence followed by '\n'.
   */
  function CodeBlockAt(lines: seq<QString>, i: int): (r: Parsed)
    requires 0 <= i < |lines|
    ensures r.Block? && r.next > i
  {
    var close := NextStarting(lines, FencePrefix, i + 1);
    Block(CodeBlock(Mid(lines[i], 3, -1), Body(lines[i + 1..close])), close + 1)
  }

  method ParseCodeBlock(i: int, lines: seq<QString>) returns (node: Node, next: int)
    requires 0 <= i < |lines|
    ensures Block(node, next) == CodeBlockAt(lines, i)
  {
    var line := lines[i];
    var j := i + 1;
    var name := Mid(line, 3, -1);
    var str: QString := [];
    while j < |lines| && !StartsWith(lines[j], FencePrefix)
      invariant i + 1 <= j <= |lines|
      invariant NextStarting(lines, FencePrefix, j) == NextStarting(lines, FencePrefix, i + 1)
      invariant str == Body(lines[i + 1..j])
    {
      assert lines[i + 1..j + 1][..j - i - 1] == lines[i + 1..j];
      str := str + lines[j];
      str := str + [LF];
      j := j + 1;
    }
    next := j + 1;
    node := CodeBlock(name, str);
  }

  /**
   * An accepted fence: the closing line is the first later line starting
   * with three backquotes, the parse resumes after it, and the code keeps
   * every line in between, in order, each ended by '\n'.
   */
  lemma {:induction false} CodeBlockSpan(i: int, lines: seq<QString>)
    requires TryCodeBlock(i, lines)
    ensures var close := NextStarting(lines, FencePrefix, i + 1);
      i < close < |lines| && StartsWith(lines[close], FencePrefix)
      && (forall k :: i < k < close ==> !StartsWith(lines[k], FencePrefix))
      && CodeBlockAt(lines, i).next == close + 1
      && CodeBlockAt(lines, i).node.code == Body(lines[i + 1..close])
      && |CodeBlockAt(lines, i).node.code| == |Body(lines[i + 1..close])|
  {
    NextStartingSpec(lines, FencePrefix, i + 1);
  }

  /** The body is the lines glued with '\n' and one more '\n' at the end. */
  lemma {:induction false} BodyJoin(ls: seq<QString>)
    ensures Body(ls) == Join(ls + [[]], LF)
    decreases |ls|
  {
    if |ls| > 0 {
      var init := ls[..|ls| - 1];
      BodyJoin(init);
      JoinSnoc(init, ls[|ls| - 1]);
      assert init + [ls[|ls| - 1]] == ls;
    }
  }

  /** Gluing one more part to the front of a trailing empty part. */
  lemma {:induction false} JoinSnoc(init: seq<QString>, x: QString)
    ensures Join(init + [x] + [[]], LF) == Join(init + [[]], LF) + x + [LF]
    decreases |init|
  {
    if |init| == 0 {
      assert init + [x] + [[]] == [x, []];
      assert [x, []][1..] == [[]];
      assert init + [[]] == [[]];
    } else {
      var tail := init[1..];
      JoinSnoc(tail, x);
      assert (init + [x] + [[]])[1..] == tail + [x] + [[]];
      assert (init + [[]])[1..] == tail + [[]];
      assert (init + [x] + [[]])[0] == init[0];
      assert (init + [[]])[0] == init[0];
    }
  }

  /**
   * parseLatexBlock: nothing when no line follows before a closing `$$`
   * line or when there is no closing line; otherwise each line in between
   * followed by '\n', and the parse resumes after the closing line.
   */
  function LatexBlockAt(lines: seq<QString>, start: int): (r: Parsed)
    requires 0 <= start < |lines|
    ensures r.Block? || r.Declined?
    ensures r.Block? ==> r.next > start + 2
  {
    var close := NextStarting(lines, LatexPrefix, start + 1);
    if close == start + 1 || close == |lines| then Declined
    else Block(LatexBlock(Body(lines[start + 1..close])), close + 1)
  }

  method ParseLatexBlock(start: int, lines: seq<QString>) returns (r: Parsed)
    requires 0 <= start < |lines|
    ensures r == LatexBlockAt(lines, start)
  {
    var i := start + 1;
    while i < |lines|
      invariant start + 1 <= i <= |lines|
      invariant NextStarting(lines, LatexPrefix, i) == NextStarting(lines, LatexPrefix, start + 1)
    {
      if StartsWith(lines[i], LatexPrefix) {
        break;
      }
      i := i + 1;
    }
    if i == start + 1 || i == |lines| {
      return Declined;
    }
    var latexCode: QString := [];
    var j := start + 1;
    while j < i
      invariant start + 1 <= j <= i
      invariant latexCode == Body(lines[start + 1..j])
    {
      assert lines[start + 1..j + 1][..j - start - 1] == lines[start + 1..j];
      latexCode := latexCode + lines[j] + [LF];
      j := j + 1;
    }
    return Block(LatexBlock(latexCode), i + 1);
  }

  // ---------------------------------------------------------------------
  // Unordered lists, quotes and ordered lists

  /** The first line at or after `from` that does not start with `prefix`, or |lines|. */
  function RunEnd(lines: seq<QString>, prefix: QString, from: int): (r: int)
    requires 0 <= from <= |lines|
    ensures from <= r <= |lines|
    decreases |lines| - from
  {
    if from == |lines| || !StartsWith(lines[from], prefix) then from else RunEnd(lines, prefix, from + 1)
  }

  lemma {:induction false} RunEndSpec(lines: seq<QString>, prefix: QString, from: int)
    requires 0 <= from <= |lines|
    ensures forall k :: from <= k < RunEnd(lines, prefix, from) ==> StartsWith(lines[k], prefix)
    ensures RunEnd(lines, prefix, from) < |lines| ==> !StartsWith(lines[RunEnd(lines, prefix, from)], prefix)
    decreases |lines| - from
  {
    if from < |lines| && StartsWith(lines[from], prefix) {
      RunEndSpec(lines, prefix, from + 1);
    }
  }

  /** The items of lines [a, b): each line after its first two units, as a Text. */
  function Items(lines: seq<QString>, a: int, b: int): (r: seq<Node>)
    requires 0 <= a <= b <= |lines|
    ensures |r| == b - a
    decreases b - a
  {
    if a == b then [] else Items(lines, a, b - 1) + [Text(Mid(lines[b - 1], 2, -1))]
  }

  lemma {:induction false} ItemsAt(lines: seq<QString>, a: int, b: int, k: int)
    requires 0 <= a <= k < b <= |lines|
    ensures Items(lines, a, b)[k - a] == Text(Mid(lines[k], 2, -1))
    decreases b - a
  {
    if k < b - 1 {
      ItemsAt(lines, a, b - 1, k);
    }
  }

  /**
   * parseUnorderedList: one Text per line starting with "- ", and then one
   * more step, past the line that ended the list.
   */
  function UnorderedListAt(lines: seq<QString>, i: int): (r: Parsed)
    requires 0 <= i <= |lines|
    ensures r.Block? && r.next > i
  {
    var e := RunEnd(lines, DashPrefix, i);
    Block(UnorderedList(Items(lines, i, e)), e + 1)
  }

  /** parseQuoteBlock: one Text per line starting with "> ", and then one more step. */
  function QuoteBlockAt(lines: seq<QString>, i: int): (r: Parsed)
    requires 0 <= i <= |lines|
    ensures r.Block? && r.next > i
  {
    var e := RunEnd(lines, QuotePrefix, i);
    Block(QuoteBlock(Items(lines, i, e)), e + 1)
  }

  /** The loop shared by parseUnorderedList and parseQuoteBlock: the prefixed run and its items. */
  method CollectPrefixed(i: int, lines: seq<QString>, prefix: QString) returns (items: seq<Node>, e: int)
    requires 0 <= i <= |lines|
    ensures e == RunEnd(lines, prefix, i) && items == Items(lines, i, e)
  {
    items := [];
    e := i;
    while e < |lines| && StartsWith(lines[e], prefix)
      invariant i <= e <= |lines|
      invariant RunEnd(lines, prefix, e) == RunEnd(lines, prefix, i)
      invariant items == Items(lines, i, e)
    {
      items := items + [Text(Mid(lines[e], 2, -1))];
      e := e + 1;
    }
  }

  method ParseUnorderedList(i: int, lines: seq<QString>) returns (node: Node, next: int)
    requires 0 <= i <= |lines|
    ensures Block(node, next) == UnorderedListAt(lines, i)
  {
    var items, e := CollectPrefixed(i, lines, DashPrefix);
    node := UnorderedList(items);
    next := e + 1;
  }

  method ParseQuoteBlock(i: int, lines: seq<QString>) returns (node: Node, next: int)
    requires 0 <= i <= |lines|
    ensures Block(node, next) == QuoteBlockAt(lines, i)
  {
    var items, e := CollectPrefixed(i, lines, QuotePrefix);
    node := QuoteBlock(items);
    next := e + 1;
  }

  /** The run of lines with a two-unit prefix: each of them, and the text after the prefix of each. */
  lemma {:induction false} PrefixedRun(lines: seq<QString>, prefix: QString, i: int)
    requires 0 <= i < |lines| && |prefix| == 2 && StartsWith(lines[i], prefix)
    ensures i < RunEnd(lines, prefix, i)
    ensures forall k :: i <= k < RunEnd(lines, prefix, i) ==>
      StartsWith(lines[k], prefix) && Items(lines, i, RunEnd(lines, prefix, i))[k - i] == Text(lines[k][2..])
    ensures RunEnd(lines, prefix, i) < |lines| ==> !StartsWith(lines[RunEnd(lines, prefix, i)], prefix)
  {
    var e := RunEnd(lines, prefix, i);
    RunEndSpec(lines, prefix, i);
    forall k | i <= k < e
      ensures Items(lines, i, e)[k - i] == Text(lines[k][2..])
    {
      ItemsAt(lines, i, e, k);
    }
  }

  /**
   * A list of "- " lines keeps each line's text after the prefix, in order,
   * and the parse resumes two lines past the last item: the line that
   * ended the list is skipped.
   */
  lemma {:induction false} UnorderedListSpan(lines: seq<QString>, i: int)
    requires 0 <= i < |lines| && StartsWith(lines[i], DashPrefix)
    ensures var e := RunEnd(lines, DashPrefix, i);
      i < e && UnorderedListAt(lines, i).next == e + 1
      && |UnorderedListAt(lines, i).node.children| == e - i
      && (forall k :: i <= k < e ==>
            StartsWith(lines[k], DashPrefix) && UnorderedListAt(lines, i).node.children[k - i] == Text(lines[k][2..]))
      && (e < |lines| ==> !StartsWith(lines[e], DashPrefix))
  {
    PrefixedRun(lines, DashPrefix, i);
  }

  /**
   * A quote of "> " lines keeps each line's text after the prefix, in
   * order, and like the unordered list it skips the line that ended it.
   */
  lemma {:induction false} QuoteBlockSpan(lines: seq<QString>, i: int)
    requires 0 <= i < |lines| && StartsWith(lines[i], QuotePrefix)
    ensures var e := RunEnd(lines, QuotePrefix, i);
      i < e && QuoteBlockAt(lines, i).next == e + 1
      && |QuoteBlockAt(lines, i).node.children| == e - i
      && (forall k :: i <= k < e ==>
            StartsWith(lines[k], QuotePrefix) && QuoteBlockAt(lines, i).node.children[k - i] == Text(lines[k][2..]))
      && (e < |lines| ==> !StartsWith(lines[e], QuotePrefix))
  {
    PrefixedRun(lines, QuotePrefix, i);
  }

  /** The index of the first unit at or after `from` that is not an ASCII digit. */
  function DigitsEnd(line: QString, from: int): (r: int)
    requires 0 <= from <= |line|
    ensures from <= r <= |line|
    decreases |line| - from
  {
    if from == |line| || !IsAsciiDigit(line[from]) then from else DigitsEnd(line, from + 1)
  }

  /** An ordered-list line: at least one digit, then ". ". */
  predicate OrderedItem(line: QString)
  {
    var d := DigitsEnd(line, 0);
    0 < d && d + 1 < |line| && line[d] == Dot && line[d + 1] == Blank
  }

  /** The first line at or after `from` that is not an ordered-list line, or |lines|. */
  function OrderedEnd(lines: seq<QString>, from: int): (r: int)
    requires 0 <= from <= |lines|
    ensures from <= r <= |lines|
    decreases |lines| - from
  {
    if from == |lines| || !OrderedItem(lines[from]) then from else OrderedEnd(lines, from + 1)
  }

  /** The items of ordered-list lines [a, b): each line after its digits and ". ", as a Text. */
  function OrderedItems(lines: seq<QString>, a: int, b: int): (r: seq<Node>)
    requires 0 <= a <= b <= |lines|
    ensures |r| == b - a
    decreases b - a
  {
    if a == b then []
    else OrderedItems(lines, a, b - 1) + [Text(Mid(lines[b - 1], DigitsEnd(lines[b - 1], 0) + 2, -1))]
  }

  /**
   * parseOrderedList: one Text per ordered-list line; at the first other
   * line it returns without the extra step, which it takes only when the
   * lines run out.
   */
  function OrderedListAt(lines: seq<QString>, i: int): (r: Parsed)
    requires 0 <= i <= |lines|
    ensures r.Block?
  {
    var e := OrderedEnd(lines, i);
    Block(OrderedList(OrderedItems(lines, i, e)), if e < |lines| then e else e + 1)
  }

  method ParseOrderedList(i: int, lines: seq<QString>) returns (node: Node, next: int)
    requires 0 <= i <= |lines|
    ensures Block(node, next) == OrderedListAt(lines, i)
  {
    var items: seq<Node> := [];
    next := i;
    while next < |lines|
      invariant i <= next <= |lines|
      invariant OrderedEnd(lines, next) == OrderedEnd(lines, i)
      invariant items == OrderedItems(lines, i, next)
    {
      var line := lines[next];
      var hasDigit := false;
      var j := 0;
      while j < |line| && IsAsciiDigit(line[j])
        invariant 0 <= j <= |line|
        invariant DigitsEnd(line, j) == DigitsEnd(line, 0)
        invariant hasDigit <==> j > 0
      {
        hasDigit := true;
        j := j + 1;
      }
      if !hasDigit {
        return OrderedList(items), next;
      }
      if j >= |line| || line[j] != Dot {
        return OrderedList(items), next;
      }
      j := j + 1;
      if j >= |line| || line[j] != Blank {
        return OrderedList(items), next;
      }
      j := j + 1;
      items := items + [Text(Mid(line, j, -1))];
      next := next + 1;
    }
    node := OrderedList(items);
    next := next + 1;
  }

  /** A line starting with "1. " is an ordered-list line. */
  lemma {:induction false} OnePrefixIsItem(line: QString)
    requires StartsWith(line, OnePrefix)
    ensures OrderedItem(line)
  {
    assert line[..3] == OnePrefix;
    assert line[0] == 0x31 && line[1] == Dot && line[2] == Blank;
    assert DigitsEnd(line, 1) == 1;
  }

  lemma {:induction false} OrderedEndSpec(lines: seq<QString>, from: int)
    requires 0 <= from <= |lines|
    ensures forall k :: from <= k < OrderedEnd(lines, from) ==> OrderedItem(lines[k])
    ensures OrderedEnd(lines, from) < |lines| ==> !OrderedItem(lines[OrderedEnd(lines, from)])
    decreases |lines| - from
  {
    if from < |lines| && OrderedItem(lines[from]) {
      OrderedEndSpec(lines, from + 1);
    }
  }

  lemma {:induction false} OrderedItemsAt(lines: seq<QString>, a: int, b: int, k: int)
    requires 0 <= a <= k < b <= |lines|
    ensures OrderedItems(lines, a, b)[k - a] == Text(Mid(lines[k], DigitsEnd(lines[k], 0) + 2, -1))
    decreases b - a
  {
    if k < b - 1 {
      OrderedItemsAt(lines, a, b - 1, k);
    }
  }

  /**
   * An ordered list keeps, in order, each line of its run after the digits
   * and ". ", and, unlike the unordered list, the parse resumes at the line
   * that ended the run; only when the lines run out does it step one past.
   */
  lemma {:induction false} OrderedListSpan(lines: seq<QString>, i: int)
    requires 0 <= i < |lines| && StartsWith(lines[i], OnePrefix)
    ensures var e := OrderedEnd(lines, i);
      i < e
      && OrderedListAt(lines, i).next == (if e < |lines| then e else |lines| + 1)
      && |OrderedListAt(lines, i).node.children| == e - i
      && (forall k :: i <= k < e ==>
            OrderedItem(lines[k]) && OrderedListAt(lines, i).node.children[k - i] == Text(lines[k][DigitsEnd(lines[k], 0) + 2..]))
      && (e < |lines| ==> !OrderedItem(lines[e]))
  {
    OnePrefixIsItem(lines[i]);
    var e := OrderedEnd(lines, i);
    OrderedEndSpec(lines, i);
    forall k | i <= k < e
      ensures OrderedListAt(lines, i).node.children[k - i] == Text(lines[k][DigitsEnd(lines[k], 0) + 2..])
    {
      OrderedItemsAt(lines, i, e, k);
    }
  }

  // ---------------------------------------------------------------------
  // Tables

  /** The number of units equal to c. */
  function Occurrences(s: QString, c: CodeUnit): nat
  {
    if |s| == 0 then 0 else Occurrences(s[..|s| - 1], c) + (if s[|s| - 1] == c then 1 else 0)
  }

  /** countColumn: the number of '|' minus one. */
  function ColumnCount(row: QString): int
  {
    Occurrences(row, Bar) - 1
  }

  method CountColumn(row: QString) returns (colNum: int)
    ensures colNum == ColumnCount(row)
  {
    colNum := -1;
    var k := 0;
    while k < |row|
      invariant 0 <= k <= |row|
      invariant colNum == Occurrences(row[..k], Bar) - 1
    {
      assert row[..k + 1][..k] == row[..k];
      if row[k] == Bar {
        colNum := colNum + 1;
      }
      k := k + 1;
    }
    assert row[..|row|] == row;
  }

  /** The cells cutColumn finds from `index` on, the last '|' seen being at `last`. */
  function CutFrom(row: QString, last: int, index: int): seq<QString>
    requires 0 <= last < index <= |row|
    decreases |row| - index
  {
    if index == |row| then []
    else if row[index] == Bar then [row[last + 1..index]] + CutFrom(row, index, index + 1)
    else CutFrom(row, last, index + 1)
  }

  /** cutColumn: the text between each pair of consecutive '|', the first unit standing for a '|'. */
  function Cells(row: QString): seq<QString>
  {
    if |row| == 0 then [] else CutFrom(row, 0, 1)
  }

  method CutColumn(row: QString) returns (cells: seq<QString>)
    ensures cells == Cells(row)
  {
    cells := [];
    if |row| == 0 {
      return;
    }
    var last := 0;
    var index := 1;
    while index < |row|
      invariant 0 <= last < index <= |row|
      invariant cells + CutFrom(row, last, index) == Cells(row)
    {
      if row[index] == Bar {
        ghost var rest := CutFrom(row, index, index + 1);
        assert cells + ([row[last + 1..index]] + rest) == (cells + [row[last + 1..index]]) + rest;
        cells := cells + [Mid(row, last + 1, index - (last + 1))];
        last := index;
      }
      index := index + 1;
    }
    assert cells + [] == cells;
  }

  lemma {:induction false} OccurrencesAppend(a: QString, b: QString, c: CodeUnit)
    ensures Occurrences(a + b, c) == Occurrences(a, c) + Occurrences(b, c)
    decreases |b|
  {
    if |b| == 0 {
      assert a + b == a;
    } else {
      OccurrencesAppend(a, b[..|b| - 1], c);
      assert (a + b)[..|a + b| - 1] == a + b[..|b| - 1];
    }
  }

  lemma {:induction false} CutFromCount(row: QString, last: int, index: int)
    requires 0 <= last < index <= |row|
    ensures |CutFrom(row, last, index)| == Occurrences(row[index..], Bar)
    decreases |row| - index
  {
    if index < |row| {
      CutFromCount(row, if row[index] == Bar then index else last, index + 1);
      OccurrencesAppend([row[index]], row[index + 1..], Bar);
      assert row[index..] == [row[index]] + row[index + 1..];
      assert Occurrences([row[index]], Bar) == Occurrences([], Bar) + (if row[index] == Bar then 1 else 0) by {
        assert [row[index]][..0] == [];
      }
    }
  }

  /** For a row opening with '|', cutColumn finds exactly countColumn cells. */
  lemma {:induction false} CellsCount(row: QString)
    requires |row| > 0 && row[0] == Bar
    ensures |Cells(row)| == ColumnCount(row)
  {
    CutFromCount(row, 0, 1);
    OccurrencesAppend([row[0]], row[1..], Bar);
    assert row == [row[0]] + row[1..];
    assert [row[0]][..0] == [];
  }

  /** The cells each followed by '|'. */
  function Barred(cells: seq<QString>): QString
  {
    if |cells| == 0 then [] else cells[0] + [Bar] + Barred(cells[1..])
  }

  lemma {:induction false} CutFromBarred(row: QString, last: int, index: int)
    requires 0 <= last < index <= |row| && row[|row| - 1] == Bar
    requires forall k :: last < k < index ==> row[k] != Bar
    ensures Barred(CutFrom(row, last, index)) == row[last + 1..]
    decreases |row| - index
  {
    if index == |row| {
      assert last == |row| - 1;
    } else if row[index] == Bar {
      CutFromBarred(row, index, index + 1);
      BarredCell(row, last, index);
    } else {
      CutFromBarred(row, last, index + 1);
    }
  }

  /** At a '|', the cell before it, the '|' and the cells after it rebuild the row from `last`. */
  lemma {:induction false} BarredCell(row: QString, last: int, index: int)
    requires 0 <= last < index < |row| && row[index] == Bar
    requires Barred(CutFrom(row, index, index + 1)) == row[index + 1..]
    ensures Barred(CutFrom(row, last, index)) == row[last + 1..]
  {
    var cell := row[last + 1..index];
    var rest := CutFrom(row, index, index + 1);
    assert CutFrom(row, last, index) == [cell] + rest;
    assert ([cell] + rest)[1..] == rest;
    assert Barred([cell] + rest) == cell + [Bar] + Barred(rest);
    assert row[last + 1..] == cell + [Bar] + row[index + 1..];
  }

  /**
   * A row that opens and closes with '|' is rebuilt from its cells: '|'
   * followed by each cell and a '|'.
   */
  lemma {:induction false} CellsRoundTrip(row: QString)
    requires |row| > 0 && row[0] == Bar && row[|row| - 1] == Bar
    ensures [Bar] + Barred(Cells(row)) == row
  {
    CutFromBarred(row, 0, 1);
    assert row == [row[0]] + row[1..];
  }

  /** A body row: a non-empty line starting with '|'. */
  predicate RowLine(line: QString)
  {
    |line| > 0 && line[0] == Bar
  }

  /** The first line at or after `from` that is not a body row, or |lines|. */
  function RowsEnd(lines: seq<QString>, from: int): (r: int)
    requires 0 <= from <= |lines|
    ensures from <= r <= |lines|
    decreases |lines| - from
  {
    if from == |lines| || !RowLine(lines[from]) then from else RowsEnd(lines, from + 1)
  }

  lemma {:induction false} RowsEndSpec(lines: seq<QString>, from: int)
    requires 0 <= from <= |lines|
    ensures forall k :: from <= k < RowsEnd(lines, from) ==> RowLine(lines[k])
    ensures RowsEnd(lines, from) < |lines| ==> !RowLine(lines[RowsEnd(lines, from)])
    decreases |lines| - from
  {
    if from < |lines| && RowLine(lines[from]) {
      RowsEndSpec(lines, from + 1);
    }
  }

  /** The lines [a, b), each trimmed. */
  function TrimmedRows(lines: seq<QString>, a: int, b: int): (r: seq<QString>)
    requires 0 <= a <= b <= |lines|
    ensures |r| == b - a
    decreases b - a
  {
    if a == b then [] else TrimmedRows(lines, a, b - 1) + [Trimmed(lines[b - 1])]
  }

  lemma {:induction false} TrimmedRowsAt(lines: seq<QString>, a: int, b: int, k: int)
    requires 0 <= a <= k < b <= |lines|
    ensures TrimmedRows(lines, a, b)[k - a] == Trimmed(lines[k])
    decreases b - a
  {
    if k < b - 1 {
      TrimmedRowsAt(lines, a, b - 1, k);
    }
  }

  /** The cells of each row. */
  function AllCells(rows: seq<QString>): (r: seq<seq<QString>>)
    ensures |r| == |rows|
  {
    if |rows| == 0 then [] else AllCells(rows[..|rows| - 1]) + [Cells(rows[|rows| - 1])]
  }

  lemma {:induction false} AllCellsAt(rows: seq<QString>, k: int)
    requires 0 <= k < |rows|
    ensures AllCells(rows)[k] == Cells(rows[k])
    decreases |rows|
  {
    if k < |rows| - 1 {
      AllCellsAt(rows[..|rows| - 1], k);
    }
  }

  /** Every row has `col` columns. */
  predicate RowsFit(rows: seq<QString>, col: int)
  {
    forall k :: 0 <= k < |rows| ==> ColumnCount(rows[k]) == col
  }

  /**
   * parseTable: the trimmed header row must end with '|', a second line
   * must follow with the same column count, and every body row (the lines
   * starting with '|' after it), trimmed, must have that count too;
   * otherwise there is no table and the index is left alone.
   */
  function TableAt(lines: seq<QString>, i: int): (r: Parsed)
    requires 0 <= i < |lines| && StartsWith(lines[i], BarPrefix)
    ensures r.Block? || r.Declined?
    ensures r.Block? ==> r.next >= i + 2
  {
    var header := Trimmed(lines[i]);
    if |header| == 0 || header[|header| - 1] != Bar || i + 1 >= |lines| then Declined
    else
      var col := ColumnCount(lines[i]);
      if ColumnCount(lines[i + 1]) != col then Declined
      else
        var e := RowsEnd(lines, i + 2);
        var rows := TrimmedRows(lines, i + 2, e);
        if !RowsFit(rows, col) then Declined
        else Block(Table(Cells(header), AllCells(rows)), e)
  }

  /** Trimming cuts the leading and the trailing spaces, and keeps something when there is a non-space. */
  lemma {:induction false} TrimmedSlice(s: QString)
    requires LeadingSpaces(s) < |s|
    ensures LeadingSpaces(s) < |s| - TrailingSpaces(s)
    ensures Trimmed(s) == s[LeadingSpaces(s)..|s| - TrailingSpaces(s)]
  {
    TrimmedBounds(s);
  }

  /** A non-space unit lies between the leading and the trailing spaces. */
  lemma {:induction false} TrimmedBounds(s: QString)
    requires LeadingSpaces(s) < |s|
    ensures LeadingSpaces(s) < |s| - TrailingSpaces(s)
  {
    var a := LeadingSpaces(s);
    var b := TrailingSpaces(s);
    assert !IsSpace(s[a]);
  }

  /** A line starting with '|' trims to a non-empty row that still starts with '|'. */
  lemma {:induction false} TrimmedBarRow(line: QString)
    requires StartsWith(line, BarPrefix)
    ensures |Trimmed(line)| > 0 && Trimmed(line)[0] == Bar
  {
    assert line[..1] == BarPrefix;
    assert !IsSpace(line[0]);
    TrimmedSlice(line);
  }

  /** The trimmed row of a line has as many units c as the line when c is not a space. */
  lemma {:induction false} OccurrencesTrimmed(s: QString, c: CodeUnit)
    requires !IsSpace(c)
    ensures Occurrences(Trimmed(s), c) == Occurrences(s, c)
  {
    var a := LeadingSpaces(s);
    if a == |s| {
      NoOccurrences(s, 0, |s|, c);
      assert s[0..|s|] == s;
    } else {
      TrimmedSlice(s);
      var e := |s| - TrailingSpaces(s);
      OccurrencesSlices(s, a, e, c);
      NoOccurrences(s, 0, a, c);
      NoOccurrences(s, e, |s|, c);
      assert s[0..a] == s[..a];
      assert s[e..|s|] == s[e..];
    }
  }

  /** Cutting a string in three parts splits its count of c. */
  lemma {:induction false} OccurrencesSlices(s: QString, a: int, e: int, c: CodeUnit)
    requires 0 <= a <= e <= |s|
    ensures Occurrences(s, c) == Occurrences(s[..a], c) + Occurrences(s[a..e], c) + Occurrences(s[e..], c)
  {
    assert s == s[..a] + s[a..];
    assert s[a..] == s[a..e] + s[e..];
    OccurrencesAppend(s[..a], s[a..], c);
    OccurrencesAppend(s[a..e], s[e..], c);
  }

  /** A run of spaces holds no unit c that is not a space. */
  lemma {:induction false} NoOccurrences(s: QString, lo: int, hi: int, c: CodeUnit)
    requires 0 <= lo <= hi <= |s|
    requires !IsSpace(c) && forall k :: lo <= k < hi ==> IsSpace(s[k])
    ensures Occurrences(s[lo..hi], c) == 0
    decreases hi - lo
  {
    if lo < hi {
      NoOccurrences(s, lo, hi - 1, c);
      assert s[lo..hi][..hi - 1 - lo] == s[lo..hi - 1];
    }
  }

  /**
   * A parsed table is rectangular: its header and every body row have
   * exactly the column count of the header line, one cell per column.
   */
  lemma {:induction false} TableRectangular(lines: seq<QString>, i: int)
    requires 0 <= i < |lines| && StartsWith(lines[i], BarPrefix)
    requires TableAt(lines, i).Block?
    ensures var t := TableAt(lines, i).node;
      |t.header| == ColumnCount(lines[i])
      && forall k :: 0 <= k < |t.rows| ==> |t.rows[k]| == ColumnCount(lines[i])
  {
    var e := RowsEnd(lines, i + 2);
    var rows := TrimmedRows(lines, i + 2, e);
    TrimmedBarRow(lines[i]);
    CellsCount(Trimmed(lines[i]));
    OccurrencesTrimmed(lines[i], Bar);
    RowsEndSpec(lines, i + 2);
    TrimmedRowsBar(lines, i + 2, e);
    AllCellsCount(rows, ColumnCount(lines[i]));
  }

  /** Body rows trim to rows that still start with '|'. */
  lemma {:induction false} TrimmedRowsBar(lines: seq<QString>, a: int, b: int)
    requires 0 <= a <= b <= |lines|
    requires forall k :: a <= k < b ==> RowLine(lines[k])
    ensures forall k :: 0 <= k < b - a ==> RowLine(TrimmedRows(lines, a, b)[k])
  {
    forall k | 0 <= k < b - a
      ensures RowLine(TrimmedRows(lines, a, b)[k])
    {
      TrimmedRowsAt(lines, a, b, a + k);
      RowBarRow(lines[a + k]);
    }
  }

  /** Rows that start with '|' and have `col` columns each give `col` cells each. */
  lemma {:induction false} AllCellsCount(rows: seq<QString>, col: int)
    requires forall k :: 0 <= k < |rows| ==> RowLine(rows[k])
    requires RowsFit(rows, col)
    ensures forall k :: 0 <= k < |rows| ==> |AllCells(rows)[k]| == col
  {
    forall k | 0 <= k < |rows|
      ensures |AllCells(rows)[k]| == col
    {
      AllCellsAt(rows, k);
      CellsCount(rows[k]);
    }
  }

  /** A body row trims to a row that still starts with '|'. */
  lemma {:induction false} RowBarRow(line: QString)
    requires RowLine(line)
    ensures |Trimmed(line)| > 0 && Trimmed(line)[0] == Bar
  {
    assert line[..1] == BarPrefix;
    TrimmedBarRow(line);
  }

  method ParseTable(startIndex: int, lines: seq<QString>) returns (r: Parsed)
    requires 0 <= startIndex < |lines| && StartsWith(lines[startIndex], BarPrefix)
    ensures r == TableAt(lines, startIndex)
  {
    var i := startIndex;
    var headerRow := Trimmed(lines[i]);
    if |headerRow| == 0 || headerRow[|headerRow| - 1] != Bar {
      return Declined;
    }
    var colNum := CountColumn(lines[i]);
    var header := CutColumn(headerRow);
    i := i + 1;
    if i >= |lines| {
      return Declined;
    }
    var secondColNum := CountColumn(lines[i]);
    if secondColNum != colNum {
      return Declined;
    }
    i := i + 1;
    var fits, rows, end := CollectRows(lines, i, colNum);
    if !fits {
      return Declined;
    }
    return Block(Table(header, rows), end);
  }

  /**
   * The body loop of parseTable: the body rows from `start` on, trimmed and
   * cut into cells, as long as each has `col` columns.
   */
  method CollectRows(lines: seq<QString>, start: int, col: int) returns (fits: bool, rows: seq<seq<QString>>, end: int)
    requires 0 <= start <= |lines|
    ensures fits == RowsFit(TrimmedRows(lines, start, RowsEnd(lines, start)), col)
    ensures fits ==> end == RowsEnd(lines, start) && rows == AllCells(TrimmedRows(lines, start, end))
  {
    var i := start;
    rows := [];
    while i < |lines| && |lines[i]| > 0 && lines[i][0] == Bar
      invariant start <= i <= |lines|
      invariant RowsEnd(lines, i) == RowsEnd(lines, start)
      invariant RowsFit(TrimmedRows(lines, start, i), col)
      invariant rows == AllCells(TrimmedRows(lines, start, i))
    {
      var curRow := Trimmed(lines[i]);
      var curColNum := CountColumn(curRow);
      if curColNum != col {
        TableDeclines(lines, start, i, col);
        return false, rows, i;
      }
      var rowContent := CutColumn(curRow);
      TableRowStep(lines, start, i, col);
      rows := rows + [rowContent];
      i := i + 1;
    }
    return true, rows, i;
  }

  /** One more body row that fits: the run, its trimmed rows and their cells grow by that row. */
  lemma {:induction false} TableRowStep(lines: seq<QString>, a: int, i: int, col: int)
    requires 0 <= a <= i < |lines| && RowLine(lines[i])
    requires RowsFit(TrimmedRows(lines, a, i), col) && ColumnCount(Trimmed(lines[i])) == col
    ensures RowsEnd(lines, i + 1) == RowsEnd(lines, i)
    ensures TrimmedRows(lines, a, i + 1) == TrimmedRows(lines, a, i) + [Trimmed(lines[i])]
    ensures RowsFit(TrimmedRows(lines, a, i + 1), col)
    ensures AllCells(TrimmedRows(lines, a, i + 1)) == AllCells(TrimmedRows(lines, a, i)) + [Cells(Trimmed(lines[i]))]
  {
    var next := TrimmedRows(lines, a, i + 1);
    assert next[..|next| - 1] == TrimmedRows(lines, a, i);
  }

  /** A body row with the wrong column count makes the whole table fail. */
  lemma {:induction false} TableDeclines(lines: seq<QString>, start: int, i: int, col: int)
    requires 0 <= start <= i < |lines| && RowLine(lines[i])
    requires RowsEnd(lines, i) == RowsEnd(lines, start)
    requires ColumnCount(Trimmed(lines[i])) != col
    ensures !RowsFit(TrimmedRows(lines, start, RowsEnd(lines, start)), col)
  {
    var e := RowsEnd(lines, start);
    assert i < e;
    TrimmedRowsAt(lines, start, e, i);
  }

  // ---------------------------------------------------------------------
  // Parser::parse

  /** parseParagraph as a block: the paragraph of the line, which consumes exactly that line. */
  function ParagraphAt(lines: seq<QString>, i: int): (r: Parsed)
    requires 0 <= i < |lines|
    ensures r.Block? || r.OutOfRange?
    ensures r.Block? ==> r.next == i + 1
  {
    match ParagraphOf(lines[i])
    case None => OutOfRange
    case Some(p) => Block(p, i + 1)
  }

  /**
   * One round of Parser::parse on a non-empty line, by its prefix: header,
   * fence, "- ", "1. ", exactly "---", "> ", '|', "$$", and a paragraph for
   * anything else or when the header, fence, table or $$ recogniser declines.
   */
  function Dispatch(lines: seq<QString>, i: int): (r: Parsed)
    requires 0 <= i < |lines| && |lines[i]| > 0
    ensures r.Block? || r.OutOfRange?
    ensures r.Block? ==> r.next > i
  {
    var line := lines[i];
    if StartsWith(line, HashPrefix) then
      if TryHeader(line) then Block(HeaderOf(line), i + 1) else ParagraphAt(lines, i)
    else if StartsWith(line, FencePrefix) then
      if TryCodeBlock(i, lines) then CodeBlockAt(lines, i) else ParagraphAt(lines, i)
    else if StartsWith(line, DashPrefix) then UnorderedListAt(lines, i)
    else if StartsWith(line, OnePrefix) then
      OnePrefixIsItem(line);
      OrderedListAt(lines, i)
    else if line == RuleLine then Block(Hr, i + 1)
    else if StartsWith(line, QuotePrefix) then QuoteBlockAt(lines, i)
    else if StartsWith(line, BarPrefix) then
      var t := TableAt(lines, i);
      if t.Declined? then ParagraphAt(lines, i) else t
    else if StartsWith(line, LatexPrefix) then
      var l := LatexBlockAt(lines, i);
      if l.Declined? then ParagraphAt(lines, i) else l
    else ParagraphAt(lines, i)
  }

  /** The nodes Parser::parse produces from line i on; None when a paragraph reads past its tokens. */
  function ParseFrom(lines: seq<QString>, i: int): Option<seq<Node>>
    requires 0 <= i
    decreases |lines| - i
  {
    if i >= |lines| then Some([])
    else if |lines[i]| == 0 then ParseFrom(lines, i + 1)
    else
      var r := Dispatch(lines, i);
      if r.OutOfRange? then None else Prepend([r.node], ParseFrom(lines, r.next))
  }

  /** Parser::parse. */
  function Parse(text: QString): Option<seq<Node>>
  {
    ParseFrom(SplitLines(text), 0)
  }

  /** One round of Parser::parse's dispatch, calling the recognisers in the source's order. */
  method RunBlock(lines: seq<QString>, i: int) returns (r: Parsed)
    requires 0 <= i < |lines| && |lines[i]| > 0
    ensures r == Dispatch(lines, i)
  {
    var line := lines[i];
    if StartsWith(line, HashPrefix) {
      if TryHeader(line) {
        var header := ParseHeader(line);
        return Block(header, i + 1);
      }
      var paragraph, next := ParseParagraph(lines, i);
      return if paragraph.None? then OutOfRange else Block(paragraph.value, next);
    } else if StartsWith(line, FencePrefix) {
      if TryCodeBlock(i, lines) {
        var codeBlock, next := ParseCodeBlock(i, lines);
        return Block(codeBlock, next);
      }
      var paragraph, next := ParseParagraph(lines, i);
      return if paragraph.None? then OutOfRange else Block(paragraph.value, next);
    } else if StartsWith(line, DashPrefix) {
      var ul, next := ParseUnorderedList(i, lines);
      return Block(ul, next);
    } else if StartsWith(line, OnePrefix) {
      OnePrefixIsItem(line);
      var ol, next := ParseOrderedList(i, lines);
      return Block(ol, next);
    } else if line == RuleLine {
      return Block(Hr, i + 1);
    } else if StartsWith(line, QuotePrefix) {
      var quoteBlock, next := ParseQuoteBlock(i, lines);
      return Block(quoteBlock, next);
    } else if StartsWith(line, BarPrefix) {
      var node := ParseTable(i, lines);
      if node.Declined? {
        var paragraph, next := ParseParagraph(lines, i);
        return if paragraph.None? then OutOfRange else Block(paragraph.value, next);
      }
      return node;
    } else if StartsWith(line, LatexPrefix) {
      var node := ParseLatexBlock(i, lines);
      if node.Declined? {
        var paragraph, next := ParseParagraph(lines, i);
        return if paragraph.None? then OutOfRange else Block(paragraph.value, next);
      }
      return node;
    }
    var paragraph, next := ParseParagraph(lines, i);
    return if paragraph.None? then OutOfRange else Block(paragraph.value, next);
  }

  /**
   * Parser::parse: split the text into lines, skip empty lines, and append
   * the node of each round; every round consumes at least one line.
   */
  method ParseText(text: QString) returns (r: Option<seq<Node>>)
    ensures r == Parse(text)
  {
    var lines := SplitLines(text);
    var ret: seq<Node> := [];
    var i := 0;
    assert Prepend(ret, ParseFrom(lines, i)) == ParseFrom(lines, 0) by {
      if ParseFrom(lines, 0).Some? {
        assert [] + ParseFrom(lines, 0).value == ParseFrom(lines, 0).value;
      }
    }
    while i < |lines|
      invariant 0 <= i
      invariant Prepend(ret, ParseFrom(lines, i)) == ParseFrom(lines, 0)
      decreases |lines| - i
    {
      var line := lines[i];
      if |line| == 0 {
        i := i + 1;
        continue;
      }
      var step := RunBlock(lines, i);
      if step.OutOfRange? {
        return None;
      }
      PrependPrepend(ret, [step.node], ParseFrom(lines, step.next));
      ret := ret + [step.node];
      i := step.next;
    }
    assert ret + [] == ret;
    return Some(ret);
  }

  /** Every round of Parser::parse consumes at least one line, so it yields at most one node per line. */
  lemma {:induction false} ParseFromCount(lines: seq<QString>, i: int)
    requires 0 <= i
    ensures ParseFrom(lines, i).Some? && i <= |lines| ==> |ParseFrom(lines, i).value| <= |lines| - i
    ensures i >= |lines| ==> ParseFrom(lines, i) == Some([])
    decreases |lines| - i
  {
    if i < |lines| {
      if |lines[i]| == 0 {
        ParseFromCount(lines, i + 1);
      } else {
        var r := Dispatch(lines, i);
        if r.Block? {
          ParseFromCount(lines, r.next);
        }
      }
    }
  }

  /** Empty lines produce nothing. */
  lemma {:induction false} EmptyLinesParse(lines: seq<QString>, i: int)
    requires 0 <= i
    requires forall k :: i <= k < |lines| ==> |lines[k]| == 0
    ensures ParseFrom(lines, i) == Some([])
    decreases |lines| - i
  {
    if i < |lines| {
      EmptyLinesParse(lines, i + 1);
    }
  }

  /** A text without CR or LF is one line. */
  lemma {:induction false} SplitFromUnbroken(text: QString, cur: int)
    requires 0 <= cur <= |text|
    requires forall k :: 0 <= k < |text| ==> text[k] != CR && text[k] != LF
    ensures SplitFrom(text, 0, cur) == [text]
    decreases |text| - cur
  {
    if cur == |text| {
      assert text[0..] == text;
    } else {
      SplitFromUnbroken(text, cur + 1);
    }
  }

  /**
   * A one-line text that opens no block (no header, no "- ", "1. ", "> "
   * or '|' at its start, not exactly "---") and holds none of ! [ ` $ *
   * parses to a single paragraph holding the whole text.
   */
  lemma {:induction false} PlainTextIsParagraph(text: QString)
    requires |text| > 0
    requires forall k :: 0 <= k < |text| ==> text[k] != CR && text[k] != LF && !TriggerUnit(text[k])
    requires !TryHeader(text)
    requires !StartsWith(text, DashPrefix) && !StartsWith(text, OnePrefix) && text != RuleLine
    requires !StartsWith(text, QuotePrefix) && !StartsWith(text, BarPrefix)
    ensures Parse(text) == Some([Paragraph([Text(text)])])
  {
    SplitFromUnbroken(text, 0);
    var lines := [text];
    PlainLineIsText(text);
    assert ParagraphAt(lines, 0) == Block(Paragraph([Text(text)]), 1);
    assert !StartsWith(text, FencePrefix) && !StartsWith(text, LatexPrefix);
    assert Dispatch(lines, 0) == ParagraphAt(lines, 0);
    assert ParseFrom(lines, 1) == Some([]);
    assert [Paragraph([Text(text)])] + [] == [Paragraph([Text(text)])];
  }
}
