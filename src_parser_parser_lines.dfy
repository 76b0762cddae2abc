// src/parser/Parser.cpp, first part: the Line view over the document text,
// trimLeft, the Line::mid/right slices and ParserPrivate::splitTextToLines.

module ParserLines {
  import opened QStr

  const CR: CodeUnit := 0x0D
  const LF: CodeUnit := 0x0A
  const Blank: CodeUnit := 0x20

  /**
   * Line: `length` code units of the document text starting at `offset`.
   * The text itself is not copied; every operation takes it as a parameter.
   */
  datatype Line = Line(offset: int, length: int)

  /** The end of a line's slice (one past its last unit). */
  function End(l: Line): int
  {
    l.offset + l.length
  }

  /** The line's slice lies inside the document text. */
  predicate InText(text: QString, l: Line)
  {
    0 <= l.offset && 0 <= l.length && End(l) <= |text|
  }

  /** The code units a line denotes. */
  function Units(text: QString, l: Line): QString
    requires InText(text, l)
  {
    text[l.offset..End(l)]
  }

  /**
   * Line::startsWith on a line inside the text: the line is at least as long
   * as the prefix and its first units are the prefix's.
   */
  predicate LineStartsWith(text: QString, l: Line, s: QString)
    requires InText(text, l)
  {
    |s| <= l.length && forall k :: 0 <= k < |s| ==> text[l.offset + k] == s[k]
  }

  /**
   * The source's formulation: a prefix test on QStringView(text).mid(offset,
   * length), which on a line inside the text is the line's own units.
   */
  lemma {:induction false} StartsWithUnits(text: QString, l: Line, s: QString)
    requires InText(text, l)
    ensures LineStartsWith(text, l, s) <==> StartsWith(Mid(text, l.offset, l.length), s)
    ensures LineStartsWith(text, l, s) <==> StartsWith(Units(text, l), s)
  {
    var u := Units(text, l);
    assert Mid(text, l.offset, l.length) == u;
    if StartsWith(u, s) {
      forall k | 0 <= k < |s| ensures text[l.offset + k] == s[k] {
        assert u[..|s|][k] == s[k];
      }
    }
    if LineStartsWith(text, l, s) {
      assert u[..|s|] == s;
    }
  }

  /** Line::mid(pos) (the default length -1 means "to the end"). */
  function LineMid(l: Line, pos: int): Line
  {
    Line(l.offset + pos, l.length - pos)
  }

  /** On a line inside the text, mid(pos) denotes the line's units from `pos` on. */
  lemma {:induction false} LineMidUnits(text: QString, l: Line, pos: int)
    requires InText(text, l) && 0 <= pos <= l.length
    ensures InText(text, LineMid(l, pos)) && Units(text, LineMid(l, pos)) == Units(text, l)[pos..]
  {
  }

  /** Line::right(n). */
  function LineRight(l: Line, n: int): Line
  {
    Line(l.offset + l.length - n, n)
  }

  /** On a line inside the text, right(n) denotes the line's last n units. */
  lemma {:induction false} LineRightUnits(text: QString, l: Line, n: int)
    requires InText(text, l) && 0 <= n <= l.length
    ensures InText(text, LineRight(l, n)) && Units(text, LineRight(l, n)) == Units(text, l)[l.length - n..]
  {
  }

  /**
   * The loop of trimLeft: the number of blanks (U+0020 only) counted from
   * position `count` of the line.
   */
  function BlanksFrom(text: QString, l: Line, count: int): (r: int)
    requires InText(text, l) && 0 <= count <= l.length
    ensures count <= r <= l.length
    decreases l.length - count
  {
    if count < l.length && text[l.offset + count] == Blank then BlanksFrom(text, l, count + 1) else count
  }

  /** The counted units are all blanks and the unit after them is not. */
  lemma {:induction false} BlanksFromSpec(text: QString, l: Line, count: int)
    requires InText(text, l) && 0 <= count <= l.length
    ensures forall k :: l.offset + count <= k < l.offset + BlanksFrom(text, l, count) ==> text[k] == Blank
    ensures BlanksFrom(text, l, count) < l.length ==> text[l.offset + BlanksFrom(text, l, count)] != Blank
    decreases l.length - count
  {
    if count < l.length && text[l.offset + count] == Blank {
      BlanksFromSpec(text, l, count + 1);
    }
  }

  /**
   * trimLeft as written: the offset moves past the leading blanks but the
   * length is left as it was, so the result runs past the end of the line
   * by the number of blanks removed.
   */
  function TrimLeftAsWritten(text: QString, l: Line): (r: Line)
    requires InText(text, l)
    ensures r.offset == l.offset + BlanksFrom(text, l, 0) && r.length == l.length
  {
    var count := BlanksFrom(text, l, 0);
    if count == 0 then l else Line(l.offset + count, l.length)
  }

  /**
   * trimLeft as evidently intended: the leading blanks are dropped and the
   * rest of the line is kept, nothing beyond it.
   */
  function TrimLeft(text: QString, l: Line): (r: Line)
    requires InText(text, l)
    ensures InText(text, r) && End(r) == End(l) && l.offset <= r.offset
  {
    var count := BlanksFrom(text, l, 0);
    Line(l.offset + count, l.length - count)
  }

  /**
   * The trimmed line is the line without its leading blanks: what was
   * dropped is all blanks and the trimmed line does not start with one.
   */
  lemma {:induction false} TrimLeftSpec(text: QString, l: Line)
    requires InText(text, l)
    ensures var r := TrimLeft(text, l);
      Units(text, l) == Units(text, l)[..r.offset - l.offset] + Units(text, r)
      && (forall k :: l.offset <= k < r.offset ==> text[k] == Blank)
      && (r.length > 0 ==> text[r.offset] != Blank)
  {
    BlanksFromSpec(text, l, 0);
  }

  /** Trimming an indented line as written reaches into whatever follows it. */
  lemma {:induction false} TrimLeftAsWrittenOverruns(text: QString, l: Line)
    requires InText(text, l)
    ensures End(TrimLeftAsWritten(text, l)) == End(l) + BlanksFrom(text, l, 0)
    ensures End(TrimLeftAsWritten(text, l)) == End(TrimLeft(text, l)) + BlanksFrom(text, l, 0)
  {
  }

  /**
   * The list item "  - a" followed by the line "bc": the as-written trim
   * covers "- a\nb", so the item text after "- " is "a\nb" instead of "a".
   */
  lemma {:induction false} TrimLeftAsWrittenExample()
    ensures var text := [0x20, 0x20, 0x2D, 0x20, 0x61, 0x0A, 0x62, 0x63];
      var l := Line(0, 5);
      Units(text, LineMid(TrimLeftAsWritten(text, l), 2)) == [0x61, 0x0A, 0x62]
      && Units(text, LineMid(TrimLeft(text, l), 2)) == [0x61]
  {
    var text: QString := [0x20, 0x20, 0x2D, 0x20, 0x61, 0x0A, 0x62, 0x63];
    var l := Line(0, 5);
    assert BlanksFrom(text, l, 2) == 2;
    assert BlanksFrom(text, l, 1) == 2;
    assert BlanksFrom(text, l, 0) == 2;
    assert TrimLeftAsWritten(text, l) == Line(2, 5);
    assert TrimLeft(text, l) == Line(2, 3);
    assert LineMid(Line(2, 5), 2) == Line(4, 3);
    assert LineMid(Line(2, 3), 2) == Line(4, 1);
    assert text[4..7] == [0x61, 0x0A, 0x62];
  }

  /** At the end of the text the as-written trim leaves the text altogether. */
  lemma {:induction false} TrimLeftAsWrittenLeavesText()
    ensures var text := [0x20, 0x23, 0x20, 0x61];
      !InText(text, TrimLeftAsWritten(text, Line(0, 4)))
  {
    var text: QString := [0x20, 0x23, 0x20, 0x61];
    assert BlanksFrom(text, Line(0, 4), 1) == 1;
  }

  // ---------------------------------------------------------------------
  // splitTextToLines

  predicate IsBreak(c: CodeUnit)
  {
    c == CR || c == LF
  }

  /** The first CR or LF at or after `from`, or |text| when there is none. */
  function BreakAt(text: QString, from: int): (r: int)
    requires 0 <= from <= |text|
    ensures from <= r <= |text|
    decreases |text| - from
  {
    if from == |text| || IsBreak(text[from]) then from else BreakAt(text, from + 1)
  }

  /** BreakAt skips no terminator and stops on one unless it reaches the end. */
  lemma {:induction false} BreakAtSpec(text: QString, from: int)
    requires 0 <= from <= |text|
    ensures var r := BreakAt(text, from);
      (forall k :: from <= k < r ==> !IsBreak(text[k])) && (r < |text| ==> IsBreak(text[r]))
    decreases |text| - from
  {
    if from < |text| && !IsBreak(text[from]) {
      BreakAtSpec(text, from + 1);
    }
  }

  /** Where the next line starts after the terminator at `e`: CR LF is one terminator. */
  function AfterBreak(text: QString, e: int): int
    requires 0 <= e < |text|
  {
    if text[e] == CR && e + 1 < |text| && text[e + 1] == LF then e + 2 else e + 1
  }

  /**
   * The lines of text[start..], as absolute slices: each ends at the next
   * terminator; a non-empty unterminated remainder is the last line.
   */
  function LinesFrom(text: QString, start: int): seq<Line>
    requires 0 <= start <= |text|
    decreases |text| - start
  {
    var e := BreakAt(text, start);
    if e == |text| then (if e == start then [] else [Line(start, e - start)])
    else [Line(start, e - start)] + LinesFrom(text, AfterBreak(text, e))
  }

  /** The lines of the whole text. */
  function LinesOf(text: QString): seq<Line>
  {
    LinesFrom(text, 0)
  }

  /** The first break at or after `from` is the one at `i` when none comes before it. */
  lemma {:induction false} BreakAtIs(text: QString, from: int, i: int)
    requires 0 <= from <= i <= |text|
    requires forall k :: from <= k < i ==> !IsBreak(text[k])
    requires i == |text| || IsBreak(text[i])
    ensures BreakAt(text, from) == i
    decreases i - from
  {
    if from < i {
      BreakAtIs(text, from + 1, i);
    }
  }

  /** A terminator at `i` closes the line that started at `from`. */
  lemma {:induction false} LinesStep(text: QString, from: int, i: int)
    requires 0 <= from <= i < |text| && IsBreak(text[i])
    requires forall k :: from <= k < i ==> !IsBreak(text[k])
    ensures LinesFrom(text, from) == [Line(from, i - from)] + LinesFrom(text, AfterBreak(text, i))
  {
    BreakAtIs(text, from, i);
  }

  /** At the end of the text the remainder is one line, or none when it is empty. */
  lemma {:induction false} LinesLast(text: QString, from: int)
    requires 0 <= from <= |text|
    requires forall k :: from <= k < |text| ==> !IsBreak(text[k])
    ensures LinesFrom(text, from) == if from == |text| then [] else [Line(from, |text| - from)]
  {
    BreakAtIs(text, from, |text|);
  }

  /** Appending the closed line keeps the invariant of the splitting loop. */
  lemma {:induction false} Advance(lines: seq<Line>, text: QString, from: int, i: int, whole: seq<Line>)
    requires 0 <= from <= i < |text| && IsBreak(text[i])
    requires forall k :: from <= k < i ==> !IsBreak(text[k])
    requires lines + LinesFrom(text, from) == whole
    ensures (lines + [Line(from, i - from)]) + LinesFrom(text, AfterBreak(text, i)) == whole
  {
    LinesStep(text, from, i);
    var rest := LinesFrom(text, AfterBreak(text, i));
    assert lines + ([Line(from, i - from)] + rest) == (lines + [Line(from, i - from)]) + rest;
  }

  /**
   * ParserPrivate::splitTextToLines: one pass over the text keeping the start
   * and length of the current line; CR, LF and CR LF each end one line.
   */
  method SplitTextToLines(text: QString) returns (lines: seq<Line>)
    ensures lines == LinesOf(text)
  {
    ghost var whole := LinesOf(text);
    lines := [];
    var i := 0;
    var offset := 0;
    var length := 0;
    while i < |text|
      invariant 0 <= offset && 0 <= length && offset + length == i <= |text|
      invariant forall k :: offset <= k < i ==> !IsBreak(text[k])
      invariant lines + LinesFrom(text, offset) == whole
    {
      if text[i] == CR {
        ghost var next := AfterBreak(text, i);
        Advance(lines, text, offset, i, whole);
        lines := lines + [Line(offset, length)];
        if i + 1 < |text| && text[i + 1] == LF {
          offset := offset + length + 2;
          i := i + 2;
        } else {
          offset := offset + length + 1;
          i := i + 1;
        }
        assert offset == next;
        length := 0;
      } else if text[i] == LF {
        assert AfterBreak(text, i) == i + 1;
        Advance(lines, text, offset, i, whole);
        i := i + 1;
        lines := lines + [Line(offset, length)];
        offset := offset + length + 1;
        length := 0;
      } else {
        i := i + 1;
        length := length + 1;
      }
    }
    LinesLast(text, offset);
    if length != 0 {
      lines := lines + [Line(offset, length)];
    }
  }

  /** The units from the end of `l` to `next` are exactly one terminator: LF, CR or CR LF. */
  predicate Terminated(text: QString, l: Line, next: int)
  {
    var e := End(l);
    0 <= e < |text|
    && ((text[e] == LF && next == e + 1)
        || (text[e] == CR && e + 1 < |text| && text[e + 1] == LF && next == e + 2)
        || (text[e] == CR && !(e + 1 < |text| && text[e + 1] == LF) && next == e + 1))
  }

  /** A line inside the text that holds no CR or LF. */
  predicate BreakFree(text: QString, l: Line)
  {
    InText(text, l) && forall j :: l.offset <= j < End(l) ==> !IsBreak(text[j])
  }

  /** Every line lies inside the text, after `start`, and holds no CR or LF. */
  lemma {:induction false} LinesInside(text: QString, start: int)
    requires 0 <= start <= |text|
    ensures forall l :: l in LinesFrom(text, start) ==> BreakFree(text, l) && start <= l.offset
    decreases |text| - start
  {
    var e := BreakAt(text, start);
    BreakAtSpec(text, start);
    if e < |text| {
      var next := AfterBreak(text, e);
      LinesInside(text, next);
      assert LinesFrom(text, start) == [Line(start, e - start)] + LinesFrom(text, next);
    }
  }

  /**
   * The lines follow one another: the first starts at `start` and between
   * two consecutive lines there is exactly one terminator.
   */
  lemma {:induction false} LinesChained(text: QString, start: int)
    requires 0 <= start <= |text|
    ensures var ls := LinesFrom(text, start);
      (|ls| > 0 ==> ls[0].offset == start)
      && forall k :: 0 <= k < |ls| - 1 ==> Terminated(text, ls[k], ls[k + 1].offset)
    decreases |text| - start
  {
    var e := BreakAt(text, start);
    BreakAtSpec(text, start);
    if e < |text| {
      var next := AfterBreak(text, e);
      LinesChained(text, next);
      var ls := LinesFrom(text, start);
      var rest := LinesFrom(text, next);
      assert ls == [Line(start, e - start)] + rest;
      if |rest| > 0 {
        assert Terminated(text, ls[0], ls[1].offset);
      }
      forall k | 1 <= k < |ls| - 1
        ensures Terminated(text, ls[k], ls[k + 1].offset)
      {
        assert ls[k] == rest[k - 1] && ls[k + 1] == rest[k];
      }
    }
  }

  /**
   * How the list ends: there are no lines only for an empty remainder, and
   * the last line either ends the text (and is then not empty) or is closed
   * by a terminator that ends the text, so a trailing terminator adds no
   * empty line.
   */
  lemma {:induction false} LinesEnd(text: QString, start: int)
    requires 0 <= start <= |text|
    ensures var ls := LinesFrom(text, start);
      (|ls| == 0 <==> start == |text|)
      && (|ls| > 0 ==> var last := ls[|ls| - 1];
            (End(last) == |text| && last.length > 0) || Terminated(text, last, |text|))
    decreases |text| - start
  {
    var e := BreakAt(text, start);
    BreakAtSpec(text, start);
    if e < |text| {
      var next := AfterBreak(text, e);
      LinesEnd(text, next);
      var ls := LinesFrom(text, start);
      var rest := LinesFrom(text, next);
      assert ls == [Line(start, e - start)] + rest;
      if |rest| > 0 {
        assert ls[|ls| - 1] == rest[|rest| - 1];
      }
    }
  }

  /** "a\r\nb\rc\n" has the three lines "a", "b" and "c". */
  lemma {:induction false} SplitExample()
    ensures LinesOf([0x61, 0x0D, 0x0A, 0x62, 0x0D, 0x63, 0x0A]) == [Line(0, 1), Line(3, 1), Line(5, 1)]
  {
    var text: QString := [0x61, 0x0D, 0x0A, 0x62, 0x0D, 0x63, 0x0A];
    assert BreakAt(text, 0) == 1;
    assert BreakAt(text, 3) == 4;
    assert BreakAt(text, 5) == 6;
    assert BreakAt(text, 7) == 7;
  }
}
