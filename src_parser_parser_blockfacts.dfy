// Properties of the block recognisers of src/parser/Parser.cpp: what each
// one accepts, what it consumes and what it builds, and the two places
// where the code as written consumes the wrong number of lines.

module BlockParserFacts {
  import opened QStr
  import opened PieceTable
  import opened Ast
  import opened ParserLines
  import opened InlineParsers
  import opened ParserTokens
  import opened BlockParsers

  // ---------------------------------------------------------------------
  // HeaderParser

  /** CountLeading counts a run of `c` and stops before a unit that is not `c`. */
  lemma {:induction false} CountLeadingSpec(text: QString, l: Line, c: CodeUnit, i: int)
    requires InText(text, l) && 0 <= i <= l.length
    ensures var r := CountLeading(text, l, c, i);
      (forall k :: l.offset + i <= k < l.offset + r ==> text[k] == c) && (r < l.length ==> text[l.offset + r] != c)
    decreases l.length - i
  {
    if i < l.length && text[l.offset + i] == c {
      CountLeadingSpec(text, l, c, i + 1);
    }
  }

  /**
   * A line is a header of level n exactly when, after its leading blanks,
   * it has n `#` (1 <= n <= 6) and then a blank.
   */
  lemma {:induction false} HeaderIff(text: QString, lines: seq<Line>, s: int, n: int)
    requires LinesIn(text, lines) && 0 <= s < |lines| && 1 <= n <= 6
    ensures var u := Units(text, TrimLeft(text, lines[s]));
      var r := HeaderParse(text, lines, s);
      (r.Success? && r.node.level == n)
      <==> (n < |u| && (forall k :: 0 <= k < n ==> u[k] == Hash) && u[n] == Blank)
  {
    var t := TrimLeft(text, lines[s]);
    var u := Units(text, t);
    CountLeadingSpec(text, t, Hash, 0);
    var count := CountLeading(text, t, Hash, 0);
    assert |u| == t.length && forall k :: 0 <= k < |u| ==> u[k] == text[t.offset + k];
    if n < |u| && (forall k :: 0 <= k < n ==> u[k] == Hash) && u[n] == Blank {
      assert forall k :: t.offset <= k < t.offset + n ==> text[k] == Hash;
      assert text[t.offset + n] == Blank;
      assert count == n;
      assert HeaderLine(text, t);
    }
    var r := HeaderParse(text, lines, s);
    if r.Success? && r.node.level == n {
      assert HeaderLine(text, t) && count == n;
      assert forall k :: 0 <= k < n ==> u[k] == Hash;
    }
  }

  /** Seven `#` before the blank are too many for a header. */
  lemma {:induction false} SevenHashesNoHeader(text: QString, lines: seq<Line>, s: int)
    requires LinesIn(text, lines) && 0 <= s < |lines|
    requires var u := Units(text, TrimLeft(text, lines[s]));
      7 <= |u| && forall k :: 0 <= k < 7 ==> u[k] == Hash
    ensures HeaderParse(text, lines, s).Fail?
  {
    var t := TrimLeft(text, lines[s]);
    CountLeadingSpec(text, t, Hash, 0);
  }

  // ---------------------------------------------------------------------
  // CodeBlockParser and LatexBlockParser

  /** NextStarting skips only lines without the prefix and stops on one that has it. */
  lemma {:induction false} NextStartingSpec(text: QString, lines: seq<Line>, p: QString, i: int)
    requires LinesIn(text, lines) && 0 <= i <= |lines|
    ensures var r := NextStarting(text, lines, p, i);
      (forall k :: i <= k < r ==> !LineStartsWith(text, lines[k], p))
      && (r < |lines| ==> LineStartsWith(text, lines[r], p))
    decreases |lines| - i
  {
    if i < |lines| && !LineStartsWith(text, lines[i], p) {
      NextStartingSpec(text, lines, p, i + 1);
      var r := NextStarting(text, lines, p, i + 1);
      assert NextStarting(text, lines, p, i) == r;
      forall k | i <= k < r
        ensures !LineStartsWith(text, lines[k], p)
      {
        if k == i {
        } else {
          assert i + 1 <= k < r;
        }
      }
    }
  }

  /** The body of a block holds, for each of its lines in order, a Text of the whole line and an Lf. */
  lemma {:induction false} BodyNodesSpec(lines: seq<Line>, a: int, b: int)
    requires 0 <= a <= b <= |lines|
    ensures var r := BodyNodes(lines, a, b);
      forall k :: 0 <= k < b - a ==> r[2 * k] == LineText(lines[a + k]) && r[2 * k + 1] == Lf
    decreases b - a
  {
    if a < b {
      BodyNodesSpec(lines, a, b - 1);
      var r := BodyNodes(lines, a, b);
      var r0 := BodyNodes(lines, a, b - 1);
      assert r == r0 + [LineText(lines[b - 1]), Lf];
      forall k | 0 <= k < b - a
        ensures r[2 * k] == LineText(lines[a + k]) && r[2 * k + 1] == Lf
      {
        if k < b - 1 - a {
          assert r[2 * k] == r0[2 * k] && r[2 * k + 1] == r0[2 * k + 1];
        }
      }
    }
  }

  /**
   * A code block is recognised exactly when the line starts with ``` and a
   * later line does too; it then runs to the first such line, which it
   * consumes, and nothing in between closes it.
   */
  lemma {:induction false} CodeBlockIff(text: QString, lines: seq<Line>, s: int)
    requires LinesIn(text, lines) && 0 <= s < |lines|
    ensures CodeBlockParse(text, lines, s).Success?
      <==> LineStartsWith(text, lines[s], FencePrefix)
           && exists j :: s < j < |lines| && LineStartsWith(text, lines[j], FencePrefix)
    ensures var r := CodeBlockParse(text, lines, s);
      r.Success? ==>
        var close := s + r.offset - 1;
        LineStartsWith(text, lines[close], FencePrefix)
        && (forall k :: s < k < close ==> !LineStartsWith(text, lines[k], FencePrefix))
        && r.node.children == BodyNodes(lines, s + 1, close)
  {
    NextStartingSpec(text, lines, FencePrefix, s + 1);
    var close := NextStarting(text, lines, FencePrefix, s + 1);
    if LineStartsWith(text, lines[s], FencePrefix) && exists j :: s < j < |lines| && LineStartsWith(text, lines[j], FencePrefix) {
      var j :| s < j < |lines| && LineStartsWith(text, lines[j], FencePrefix);
      assert close <= j;
    }
  }

  /**
   * A formula block needs an opening `$$`, at least one line and a closing
   * `$$`: with no body or no closing line it is not recognised.
   */
  lemma {:induction false} LatexBlockIff(text: QString, lines: seq<Line>, s: int)
    requires LinesIn(text, lines) && 0 <= s < |lines|
    ensures LatexBlockParse(text, lines, s).Success?
      <==> LineStartsWith(text, lines[s], LatexPrefix)
           && s + 1 < |lines| && !LineStartsWith(text, lines[s + 1], LatexPrefix)
           && exists j :: s + 1 < j < |lines| && LineStartsWith(text, lines[j], LatexPrefix)
    ensures var r := LatexBlockParse(text, lines, s);
      r.Success? ==>
        var close := s + r.offset - 1;
        LineStartsWith(text, lines[close], LatexPrefix)
        && (forall k :: s < k < close ==> !LineStartsWith(text, lines[k], LatexPrefix))
        && r.node.children == BodyNodes(lines, s + 1, close)
  {
    NextStartingSpec(text, lines, LatexPrefix, s + 1);
    var close := NextStarting(text, lines, LatexPrefix, s + 1);
    if LineStartsWith(text, lines[s], LatexPrefix) && s + 1 < |lines| && !LineStartsWith(text, lines[s + 1], LatexPrefix)
       && exists j :: s + 1 < j < |lines| && LineStartsWith(text, lines[j], LatexPrefix) {
      var j :| s + 1 < j < |lines| && LineStartsWith(text, lines[j], LatexPrefix);
      assert close <= j;
    }
  }

  // ---------------------------------------------------------------------
  // The list recognisers

  /** A checkbox list consumes exactly the run of checkbox lines that starts at s. */
  lemma {:induction false} CheckboxListConsumesRun(text: QString, lines: seq<Line>, s: int)
    requires LinesIn(text, lines) && 0 <= s
    ensures var r := CheckboxListParse(text, lines, s);
      r.Success? ==>
        (forall k :: s <= k < s + r.offset ==> CheckboxLine(text, lines[k]))
        && (s + r.offset < |lines| ==> !CheckboxLine(text, lines[s + r.offset]))
        && |r.node.children| == r.offset
  {
    if s < |lines| {
      CheckboxRun(text, lines, s);
    }
  }

  /** An item is checked exactly when its line starts with `- [x] `. */
  lemma {:induction false} CheckboxChecked(text: QString, l: Line)
    requires InText(text, l) && CheckboxLine(text, l)
    ensures CheckboxItemOf(text, l).checked <==> LineStartsWith(text, l, CheckedPrefix)
  {
    if LineStartsWith(text, l, CheckedPrefix) {
      assert text[l.offset + 3] == CheckedPrefix[3] == 0x78 && UncheckedPrefix[3] == 0x20;
    }

  }

  /** An unordered list consumes exactly the run of `- ` lines that starts at s. */
  lemma {:induction false} UnorderedListConsumesRun(text: QString, lines: seq<Line>, s: int)
    requires LinesIn(text, lines) && 0 <= s
    ensures var r := UnorderedListParse(text, lines, s);
      r.Success? ==>
        (forall k :: s <= k < s + r.offset ==> ListLine(text, lines[k]))
        && (s + r.offset < |lines| ==> !ListLine(text, lines[s + r.offset]))
        && |r.node.children| == r.offset
  {
    if s < |lines| {
      ListRun(text, lines, s);
    }
  }

  /** Leading blanks do not matter: an indented `- ` line is a list line. */
  lemma {:induction false} IndentedListLine(text: QString, l: Line, n: int)
    requires InText(text, l) && 0 <= n && n + 2 <= l.length
    requires forall k :: l.offset <= k < l.offset + n ==> text[k] == Blank
    requires text[l.offset + n] == 0x2D && text[l.offset + n + 1] == Blank
    ensures ListLine(text, l)
  {
    BlanksFromSpec(text, l, 0);
  }

  /** CountDigits counts a run of decimal digits and stops before a non-digit. */
  lemma {:induction false} CountDigitsSpec(text: QString, l: Line, i: int)
    requires InText(text, l) && 0 <= i <= l.length
    ensures var r := CountDigits(text, l, i);
      (forall k :: l.offset + i <= k < l.offset + r ==> IsAsciiDigit(text[k])) && (r < l.length ==> !IsAsciiDigit(text[l.offset + r]))
    decreases l.length - i
  {
    if i < l.length && IsAsciiDigit(text[l.offset + i]) {
      CountDigitsSpec(text, l, i + 1);
    }
  }

  /** The units of the line at positions i..j are decimal digits. */
  predicate DigitsBetween(text: QString, l: Line, i: int, j: int)
    requires InText(text, l) && 0 <= i <= j <= l.length
  {
    forall k :: l.offset + i <= k < l.offset + j ==> IsAsciiDigit(text[k])
  }

  /**
   * A numbered line is one or more digits, a dot and a blank; the numbers
   * themselves are not checked, only the first line must be `1. `.
   */
  lemma {:induction false} NumberedLineIff(text: QString, l: Line, j: int)
    requires InText(text, l) && 0 < j && j + 1 < l.length
    ensures (NumberedLine(text, l) && CountDigits(text, l, 0) == j)
      <==> DigitsBetween(text, l, 0, j) && text[l.offset + j] == Dot && text[l.offset + j + 1] == Blank
  {
    CountDigitsSpec(text, l, 0);
    var c := CountDigits(text, l, 0);
  }

  /**
   * An ordered list starts at a `1. ` line, which is itself numbered, so it
   * consumes at least that line and then the whole run of numbered lines.
   */
  lemma {:induction false} OrderedListConsumesRun(text: QString, lines: seq<Line>, s: int)
    requires LinesIn(text, lines) && 0 <= s
    ensures var r := OrderedListParse(text, lines, s);
      r.Success? ==>
        1 <= r.offset
        && (forall k :: s <= k < s + r.offset ==> NumberedLine(text, lines[k]))
        && (s + r.offset < |lines| ==> !NumberedLine(text, lines[s + r.offset]))
        && |r.node.children| == r.offset
  {
    if s < |lines| && LineStartsWith(text, lines[s], OnePrefix) {
      var l := lines[s];
      assert text[l.offset] == OnePrefix[0] && text[l.offset + 1] == OnePrefix[1] && text[l.offset + 2] == OnePrefix[2];
      assert CountDigits(text, l, 1) == 1;
      assert NumberedLine(text, l);
      NumberedRun(text, lines, s);
    }
  }

  /** `2. a` is a numbered line but does not start an ordered list. */
  lemma {:induction false} OrderedListNeedsOne()
    ensures var text: QString := [0x32, 0x2E, 0x20, 0x61];
      NumberedLine(text, Line(0, 4)) && OrderedListParse(text, [Line(0, 4)], 0).Fail?
  {
    var text: QString := [0x32, 0x2E, 0x20, 0x61];
    var l := Line(0, 4);
    assert CountDigits(text, l, 1) == 1;
    assert !LineStartsWith(text, l, OnePrefix) by {
      assert text[0] != OnePrefix[0];
    }
  }

  // ---------------------------------------------------------------------
  // QuoteBlockParser

  /** Every line before QuoteEnd starts with `> `, and the one at it does not. */
  lemma {:induction false} QuoteRun(text: QString, lines: seq<Line>, i: int)
    requires LinesIn(text, lines) && 0 <= i <= |lines|
    ensures forall k :: i <= k < QuoteEnd(text, lines, i) ==> LineStartsWith(text, lines[k], QuotePrefix)
    ensures QuoteEnd(text, lines, i) < |lines| ==> !LineStartsWith(text, lines[QuoteEnd(text, lines, i)], QuotePrefix)
    decreases |lines| - i
  {
    if i < |lines| && LineStartsWith(text, lines[i], QuotePrefix) {
      QuoteRun(text, lines, i + 1);
    }
  }

  /** The corrected quote consumes exactly its run of `> ` lines, one Text each. */
  lemma {:induction false} QuoteConsumesRun(text: QString, lines: seq<Line>, s: int)
    requires LinesIn(text, lines) && 0 <= s
    ensures var r := QuoteBlockParse(text, lines, s);
      r.Success? ==>
        (forall k :: s <= k < s + r.offset ==> LineStartsWith(text, lines[k], QuotePrefix))
        && (s + r.offset < |lines| ==> !LineStartsWith(text, lines[s + r.offset], QuotePrefix))
        && |r.node.children| == r.offset
  {
    if s < |lines| {
      QuoteRun(text, lines, s);
    }
  }

  /** The quote's Texts are its lines without the two-unit `> ` prefix. */
  lemma {:induction false} QuoteItemsSpec(lines: seq<Line>, a: int, b: int)
    requires 0 <= a <= b <= |lines|
    ensures forall k :: 0 <= k < b - a ==> QuoteItems(lines, a, b)[k] == NewText(lines[a + k].offset + 2, lines[a + k].length - 2)
    decreases b - a
  {
    if a < b {
      QuoteItemsSpec(lines, a, b - 1);
      var r := QuoteItems(lines, a, b);
      var r0 := QuoteItems(lines, a, b - 1);
      assert r == r0 + [NewText(lines[b - 1].offset + 2, lines[b - 1].length - 2)];
      forall k | 0 <= k < b - a
        ensures r[k] == NewText(lines[a + k].offset + 2, lines[a + k].length - 2)
      {
        if k < b - 1 - a {
          assert r0[k] == NewText(lines[a + k].offset + 2, lines[a + k].length - 2);
          assert r[k] == r0[k];
        } else {
          assert a + k == b - 1 && r[k] == r[|r0|];
        }
      }
    }
  }

  /**
   * The quote `> a` followed by the paragraph line `b`: as written the
   * parser consumes both lines although only the first is a quote line, so
   * `b` appears nowhere in the tree; the corrected parser consumes one line.
   */
  lemma {:induction false} QuoteDropsNextLine()
    ensures var text: QString := [0x3E, 0x20, 0x61, 0x0A, 0x62];
      var lines := [Line(0, 3), Line(4, 1)];
      LinesOf(text) == lines
      && QuoteBlockParseAsWritten(text, lines, 0).Success?
      && QuoteBlockParseAsWritten(text, lines, 0).offset == 2
      && QuoteBlockParse(text, lines, 0) == Success(1, QuoteBlock([NewText(2, 1)]))
  {
    var text: QString := [0x3E, 0x20, 0x61, 0x0A, 0x62];
    var lines := [Line(0, 3), Line(4, 1)];
    assert BreakAt(text, 0) == 3;
    assert BreakAt(text, 4) == 5;
    assert LinesOf(text) == lines;
    assert LineStartsWith(text, lines[0], QuotePrefix);
    assert !LineStartsWith(text, lines[1], QuotePrefix);
    assert QuoteEnd(text, lines, 0) == 1;
    assert QuoteItems(lines, 0, 1) == [NewText(2, 1)];
  }

  /** At the end of the text the as-written quote reports one line more than there is. */
  lemma {:induction false} QuoteOverrunsEnd(text: QString, lines: seq<Line>, s: int)
    requires LinesIn(text, lines) && 0 <= s < |lines|
    requires forall k :: s <= k < |lines| ==> LineStartsWith(text, lines[k], QuotePrefix)
    ensures QuoteBlockParseAsWritten(text, lines, s).Success?
    ensures s + QuoteBlockParseAsWritten(text, lines, s).offset == |lines| + 1
  {
    QuoteRun(text, lines, s);
  }

  // ---------------------------------------------------------------------
  // ParagraphParser

  /** Where a paragraph scan ends, computed without building the children. */
  function ParagraphEnd(text: QString, lines: seq<Line>, i: int, first: bool, checkFirst: bool): (r: int)
    requires LinesIn(text, lines) && 0 <= i <= |lines|
    ensures i <= r <= |lines|
    decreases |lines| - i
  {
    if i == |lines| then i
    else if lines[i].length == 0 then i + 1
    else if (checkFirst || !first) && OtherBlockStart(text, lines[i]) then i
    else ParagraphEnd(text, lines, i + 1, false, checkFirst)
  }

  /** ParagraphEnd is where the scan ends. */
  lemma {:induction false} ParagraphEndIsScanEnd(text: QString, lines: seq<Line>, i: int, first: bool, checkFirst: bool)
    requires LinesIn(text, lines) && 0 <= i <= |lines|
    ensures ParagraphEnd(text, lines, i, first, checkFirst) == ParagraphScan(text, lines, i, first, checkFirst).end
    decreases |lines| - i
  {
    if i < |lines| && lines[i].length != 0 && !((checkFirst || !first) && OtherBlockStart(text, lines[i])) {
      ParagraphEndIsScanEnd(text, lines, i + 1, false, checkFirst);
    }
  }

  /** The end of the paragraph's own lines: the scan's end less the blank line it consumed, if any. */
  function ParagraphStop(text: QString, lines: seq<Line>, i: int, first: bool, checkFirst: bool): (r: int)
    requires LinesIn(text, lines) && 0 <= i <= |lines|
    ensures i <= r <= |lines|
  {
    var e := ParagraphEnd(text, lines, i, first, checkFirst);
    if e > i && lines[e - 1].length == 0 then e - 1 else e
  }

  /**
   * What a paragraph scan consumes: lines that are not blank and (but for
   * the first when it is exempt) start no other block, then at most one
   * blank line.
   */
  lemma ParagraphScanRun(text: QString, lines: seq<Line>, i: int, first: bool, checkFirst: bool)
    requires LinesIn(text, lines) && 0 <= i <= |lines|
    ensures var stop := ParagraphStop(text, lines, i, first, checkFirst);
      i <= stop
      && (forall k :: i <= k < stop ==> lines[k].length > 0)
      && (forall k :: i <= k < stop && (k > i || !first || checkFirst) ==> !OtherBlockStart(text, lines[k]))
      && (stop < |lines| && stop == ParagraphScan(text, lines, i, first, checkFirst).end && (stop > i || !first || checkFirst)
          ==> OtherBlockStart(text, lines[stop]))
  {
    ParagraphEndIsScanEnd(text, lines, i, first, checkFirst);
    ParagraphEndRun(text, lines, i, first, checkFirst);
  }

  /** ParagraphScanRun over ParagraphEnd. */
  lemma {:induction false} ParagraphEndRun(text: QString, lines: seq<Line>, i: int, first: bool, checkFirst: bool)
    requires LinesIn(text, lines) && 0 <= i <= |lines|
    ensures var stop := ParagraphStop(text, lines, i, first, checkFirst);
      i <= stop
      && (forall k :: i <= k < stop ==> lines[k].length > 0)
      && (forall k :: i <= k < stop && (k > i || !first || checkFirst) ==> !OtherBlockStart(text, lines[k]))
      && (stop < |lines| && stop == ParagraphEnd(text, lines, i, first, checkFirst) && (stop > i || !first || checkFirst)
          ==> OtherBlockStart(text, lines[stop]))
    decreases |lines| - i
  {
    if i < |lines| && lines[i].length != 0 && !((checkFirst || !first) && OtherBlockStart(text, lines[i])) {
      ParagraphEndRun(text, lines, i + 1, false, checkFirst);
      assert ParagraphEnd(text, lines, i, first, checkFirst) == ParagraphEnd(text, lines, i + 1, false, checkFirst);
    }
  }

  /**
   * As written, the paragraph recogniser tests its first line for another
   * block's start too, so on a non-blank line that starts with `#`, `- `,
   * `1. `, ``` or `$$` it reports success with no line consumed; the
   * corrected recogniser always consumes at least that line.
   */
  lemma {:induction false} ParagraphAsWrittenStalls(text: QString, lines: seq<Line>, s: int)
    requires LinesIn(text, lines) && 0 <= s < |lines|
    requires lines[s].length > 0 && OtherBlockStart(text, lines[s])
    ensures ParagraphParseAsWritten(text, lines, s) == Success(0, Paragraph([]))
    ensures ParagraphParse(text, lines, s).offset >= 1
  {
  }

  /**
   * A line such as `#abc`, a `#` followed by neither `#` nor a blank, is
   * such a line: it starts with `#` but is no header.
   */
  lemma {:induction false} HashWordIsNoHeader(text: QString, lines: seq<Line>, s: int)
    requires LinesIn(text, lines) && 0 <= s < |lines|
    requires var l := lines[s];
      2 <= l.length && text[l.offset] == Hash && text[l.offset + 1] != Hash && text[l.offset + 1] != Blank
    ensures lines[s].length > 0 && OtherBlockStart(text, lines[s])
    ensures HeaderParse(text, lines, s).Fail?
  {
    var l := lines[s];
    assert BlanksFrom(text, l, 0) == 0;
    assert CountLeading(text, TrimLeft(text, l), Hash, 1) == 1;
    assert LineStartsWith(text, l, HashPrefix);
  }
}
