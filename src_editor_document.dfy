// src/editor/Document.cpp: the editable document. It keeps the node tree
// and one rendered block per top-level node side by side, moves the cursor
// over the rendered logical lines, and edits the tree block by block.

module Editing {
  import opened Optional
  import opened QStr
  import opened Coords
  import opened Geometry
  import Ast
  import Texts
  import PieceTable
  import EditorCommands
  import Sequences

  // ---------------------------------------------------------------------
  // the rendered blocks, as far as the cursor moves need them

  /** A logical line of a rendered block: the units it shows and its height in pixels. */
  datatype Line = Line(units: QString, height: int)

  /** A rendered block: its logical lines and its height in pixels. */
  datatype Block = Block(lines: seq<Line>, height: int)

  /** The unit that starts an emoji's surrogate pair in the code's test. */
  predicate High(u: CodeUnit)
  {
    u == HighSurrogateSmileys || u == HighSurrogateSymbols
  }

  /** A coordinate that names an existing logical line and a position in it. */
  predicate ValidCoord(blocks: seq<Block>, c: CursorCoord)
  {
    0 <= c.blockNo < |blocks| && 0 <= c.lineNo < |blocks[c.blockNo].lines|
    && 0 <= c.offset <= |blocks[c.blockNo].lines[c.lineNo].units|
  }

  /** The units of the line a valid coordinate names. */
  function LineOf(blocks: seq<Block>, c: CursorCoord): QString
    requires ValidCoord(blocks, c)
  {
    blocks[c.blockNo].lines[c.lineNo].units
  }

  /** Every high unit the code tests for is followed by another unit, as in well-formed UTF-16. */
  predicate Paired(s: QString)
  {
    forall i :: 0 <= i < |s| && High(s[i]) ==> i + 1 < |s|
  }

  /** Offset k does not split an emoji: the unit before it is not one the code reads as a pair's start. */
  predicate Boundary(s: QString, k: int)
    requires 0 <= k <= |s|
  {
    k == 0 || !High(s[k - 1])
  }

  /** The last position of a line: its last unit's end. */
  predicate AtLineEnd(blocks: seq<Block>, c: CursorCoord)
    requires ValidCoord(blocks, c)
  {
    c.offset == |LineOf(blocks, c)|
  }

  /**
   * moveCursorToRight: inside the line one unit, two when it starts an
   * emoji; at the line's end the next logical line, then the next block;
   * at the end of the document nothing moves.
   */
  function MoveRight(blocks: seq<Block>, c: CursorCoord): CursorCoord
    requires ValidCoord(blocks, c)
  {
    var line := LineOf(blocks, c);
    if |line| >= c.offset + 1 then
      var step := if High(line[c.offset]) then 2 else 1;
      c.(offset := c.offset + step)
    else if c.lineNo + 1 < |blocks[c.blockNo].lines| then
      c.(lineNo := c.lineNo + 1, offset := 0)
    else if c.blockNo + 1 < |blocks| then
      CursorCoord(c.blockNo + 1, 0, 0)
    else c
  }

  /**
   * moveCursorToLeft: inside the line one unit, two when the unit two back
   * starts an emoji; at a line's start the end of the line before, then the
   * end of the previous block's last line; at the origin nothing moves.
   */
  function MoveLeft(blocks: seq<Block>, c: CursorCoord): CursorCoord
    requires ValidCoord(blocks, c)
    requires c.offset == 0 && c.lineNo == 0 && c.blockNo > 0 ==> |blocks[c.blockNo - 1].lines| > 0
  {
    if c.offset > 0 then
      var line := LineOf(blocks, c);
      var step := if c.offset >= 2 && High(line[c.offset - 2]) then 2 else 1;
      c.(offset := c.offset - step)
    else if c.lineNo > 0 then
      c.(lineNo := c.lineNo - 1, offset := |blocks[c.blockNo].lines[c.lineNo - 1].units|)
    else if c.blockNo > 0 then
      var prev := blocks[c.blockNo - 1].lines;
      CursorCoord(c.blockNo - 1, |prev| - 1, |prev[|prev| - 1].units|)
    else c
  }

  /** Every block has at least one logical line, which leaving a block to the left relies on. */
  predicate WellFormed(blocks: seq<Block>)
  {
    forall b :: 0 <= b < |blocks| ==> |blocks[b].lines| > 0
  }

  /** moveCursorToBeginOfDocument. */
  function Begin(): CursorCoord
  {
    Origin
  }

  /** moveCursorToEndOfDocument: the end of the last block's last line; the code asserts both exist. */
  function End(blocks: seq<Block>): (r: CursorCoord)
    requires |blocks| > 0 && |blocks[|blocks| - 1].lines| > 0
    ensures ValidCoord(blocks, r) && AtLineEnd(blocks, r)
  {
    var b := |blocks| - 1;
    var l := |blocks[b].lines| - 1;
    CursorCoord(b, l, |blocks[b].lines[l].units|)
  }

  /** The end of the document is the greatest valid coordinate. */
  lemma {:induction false} EndIsGreatest(blocks: seq<Block>, c: CursorCoord)
    requires |blocks| > 0 && |blocks[|blocks| - 1].lines| > 0
    requires ValidCoord(blocks, c)
    ensures LessEq(c, End(blocks))
  {
  }

  /** In a line whose pairs are whole, a move to the right stays on a valid coordinate. */
  lemma {:induction false} MoveRightValid(blocks: seq<Block>, c: CursorCoord)
    requires ValidCoord(blocks, c) && WellFormed(blocks) && Paired(LineOf(blocks, c))
    ensures ValidCoord(blocks, MoveRight(blocks, c))
  {
  }

  /**
   * A move to the right goes strictly forward, except at the end of the
   * document, the only coordinate it leaves in place.
   */
  lemma {:induction false} MoveRightForward(blocks: seq<Block>, c: CursorCoord)
    requires ValidCoord(blocks, c) && WellFormed(blocks)
    ensures MoveRight(blocks, c) == c <==> c == End(blocks)
    ensures MoveRight(blocks, c) != c ==> Less(c, MoveRight(blocks, c))
  {
  }

  /** A move to the left stays on a valid coordinate when blocks have lines. */
  lemma {:induction false} MoveLeftValid(blocks: seq<Block>, c: CursorCoord)
    requires ValidCoord(blocks, c) && WellFormed(blocks)
    ensures ValidCoord(blocks, MoveLeft(blocks, c))
  {
  }

  /**
   * A move to the left goes strictly backward, except at the origin, the
   * only coordinate it leaves in place.
   */
  lemma {:induction false} MoveLeftBackward(blocks: seq<Block>, c: CursorCoord)
    requires ValidCoord(blocks, c) && WellFormed(blocks)
    ensures MoveLeft(blocks, c) == c <==> c == Begin()
    ensures MoveLeft(blocks, c) != c ==> Less(MoveLeft(blocks, c), c)
  {
  }

  /**
   * Right then left comes back to any position that does not split an
   * emoji, in lines whose pairs are whole: over one unit, over an emoji,
   * and across line and block boundaries.
   */
  lemma {:induction false} LeftUndoesRight(blocks: seq<Block>, c: CursorCoord)
    requires ValidCoord(blocks, c) && WellFormed(blocks)
    requires Paired(LineOf(blocks, c)) && Boundary(LineOf(blocks, c), c.offset)
    requires c != End(blocks)
    ensures ValidCoord(blocks, MoveRight(blocks, c))
    ensures MoveLeft(blocks, MoveRight(blocks, c)) == c
  {
    MoveRightValid(blocks, c);
    var line := LineOf(blocks, c);
    if |line| >= c.offset + 1 && !High(line[c.offset]) && c.offset >= 1 {
      assert !High(line[c.offset - 1]);
    }
  }

  /**
   * Left then right comes back to any position that does not split an
   * emoji: the two moves undo each other away from the origin.
   */
  lemma {:induction false} RightUndoesLeft(blocks: seq<Block>, c: CursorCoord)
    requires ValidCoord(blocks, c) && WellFormed(blocks)
    requires Boundary(LineOf(blocks, c), c.offset)
    requires c != Begin()
    ensures ValidCoord(blocks, MoveLeft(blocks, c))
    ensures MoveRight(blocks, MoveLeft(blocks, c)) == c
  {
    MoveLeftValid(blocks, c);
  }

  /** An emoji takes one move each way: from before it, right skips both units, and left comes back. */
  lemma {:induction false} EmojiIsOneStep(blocks: seq<Block>, c: CursorCoord)
    requires ValidCoord(blocks, c) && c.offset + 2 <= |LineOf(blocks, c)|
    requires LineOf(blocks, c)[c.offset] == HighSurrogateSmileys
    ensures MoveRight(blocks, c) == c.(offset := c.offset + 2)
    ensures MoveLeft(blocks, c.(offset := c.offset + 2)) == c
  {
  }

  // ---------------------------------------------------------------------
  // moveCursorToPos

  /** The top of block b: the top margin plus the heights of the blocks above. */
  function BlockTop(blocks: seq<Block>, top: int, b: nat): int
    requires b <= |blocks|
  {
    if b == 0 then top else BlockTop(blocks, top, b - 1) + blocks[b - 1].height
  }

  /** The top of logical line l, counted from the top y of its block. */
  function LineTop(lines: seq<Line>, y: int, l: nat): int
    requires l <= |lines|
  {
    if l == 0 then y else LineTop(lines, y, l - 1) + lines[l - 1].height
  }

  /** Block b spans the height y, both ends included. */
  predicate BlockHits(blocks: seq<Block>, top: int, b: nat, y: int)
    requires b < |blocks|
  {
    BlockTop(blocks, top, b) <= y <= BlockTop(blocks, top, b) + blocks[b].height
  }

  /** Line l spans the height y, both ends included. */
  predicate LineHits(lines: seq<Line>, y0: int, l: nat, y: int)
    requires l < |lines|
  {
    LineTop(lines, y0, l) <= y <= LineTop(lines, y0, l) + lines[l].height
  }

  /** The first block from b on that spans y. */
  function FirstBlock(blocks: seq<Block>, top: int, y: int, b: nat): (r: Option<nat>)
    requires b <= |blocks|
    ensures r.Some? ==> b <= r.value < |blocks| && BlockHits(blocks, top, r.value, y)
    decreases |blocks| - b
  {
    if b == |blocks| then None
    else if BlockHits(blocks, top, b, y) then Some(b)
    else FirstBlock(blocks, top, y, b + 1)
  }

  /** The first line from l on that spans y. */
  function FirstLine(lines: seq<Line>, y0: int, y: int, l: nat): (r: Option<nat>)
    requires l <= |lines|
    ensures r.Some? ==> l <= r.value < |lines| && LineHits(lines, y0, r.value, y)
    decreases |lines| - l
  {
    if l == |lines| then None
    else if LineHits(lines, y0, l, y) then Some(l)
    else FirstLine(lines, y0, y, l + 1)
  }

  /**
   * LogicalLine::offsetAt, which measures text with fonts, as a parameter:
   * the offset for the point (x, y) relative to the block's top.
   */
  type OffsetAt = (Line, int, int) -> int

  /**
   * moveCursorToPos: above the first block the origin; below every block
   * the end of the document; a block without lines its start; otherwise
   * the line under y and the offset the line reports. None stands for the
   * two assertions: no block at all, or no line of the block spans y.
   */
  function CoordAt(blocks: seq<Block>, top: int, pos: Point, offsetAt: OffsetAt): Option<CursorCoord>
  {
    if pos.y <= top then Some(Origin)
    else
      match FirstBlock(blocks, top, pos.y, 0)
      case None =>
        if |blocks| > 0 && |blocks[|blocks| - 1].lines| > 0 then Some(End(blocks)) else None
      case Some(b) =>
        var lines := blocks[b].lines;
        var y0 := BlockTop(blocks, top, b);
        if |lines| == 0 then Some(CursorCoord(b, 0, 0))
        else
          match FirstLine(lines, y0, pos.y, 0)
          case None => None
          case Some(l) => Some(CursorCoord(b, l, offsetAt(lines[l], pos.x, pos.y - y0)))
  }

  /** No block before the first hit spans y. */
  lemma {:induction false} FirstBlockIsFirst(blocks: seq<Block>, top: int, y: int, b: nat, j: nat)
    requires b <= j < |blocks| && !BlockHits(blocks, top, j, y)
    ensures FirstBlock(blocks, top, y, b) != Some(j)
  {
  }

  /** No block from b up to the first hit spans y. */
  lemma {:induction false} BlocksBeforeMiss(blocks: seq<Block>, top: int, y: int, b: nat, j: nat)
    requires b <= j <= |blocks|
    requires FirstBlock(blocks, top, y, b) == Some(j) || (j == |blocks| && FirstBlock(blocks, top, y, b) == None)
    ensures forall k :: b <= k < j ==> !BlockHits(blocks, top, k, y)
    decreases |blocks| - b
  {
    if b < j {
      assert !BlockHits(blocks, top, b, y);
      BlocksBeforeMiss(blocks, top, y, b + 1, j);
    }
  }

  /**
   * A click below the top margin lands in the first block that spans its
   * height: the block spans it and no block above does; when the block has
   * lines, the line spans it too.
   */
  lemma {:induction false} ClickLandsInFirstBlock(blocks: seq<Block>, top: int, pos: Point, offsetAt: OffsetAt)
    requires pos.y > top && FirstBlock(blocks, top, pos.y, 0).Some?
    requires CoordAt(blocks, top, pos, offsetAt).Some?
    ensures var c := CoordAt(blocks, top, pos, offsetAt).value;
            0 <= c.blockNo < |blocks| && BlockHits(blocks, top, c.blockNo, pos.y)
            && (forall k :: 0 <= k < c.blockNo ==> !BlockHits(blocks, top, k, pos.y))
            && (|blocks[c.blockNo].lines| > 0 ==>
                  c.lineNo < |blocks[c.blockNo].lines|
                  && LineHits(blocks[c.blockNo].lines, BlockTop(blocks, top, c.blockNo), c.lineNo, pos.y))
  {
    var b := FirstBlock(blocks, top, pos.y, 0).value;
    BlocksBeforeMiss(blocks, top, pos.y, 0, b);
  }

  /** A click below all blocks lands at the end of the document. */
  lemma {:induction false} ClickBelowGoesToEnd(blocks: seq<Block>, top: int, pos: Point, offsetAt: OffsetAt)
    requires pos.y > top && |blocks| > 0 && |blocks[|blocks| - 1].lines| > 0
    requires forall k :: 0 <= k < |blocks| ==> BlockTop(blocks, top, k) + blocks[k].height < pos.y
    ensures CoordAt(blocks, top, pos, offsetAt) == Some(End(blocks))
  {
    NoBlockHits(blocks, top, pos.y, 0);
  }

  /** When no block from b on spans y, the search from b finds nothing. */
  lemma {:induction false} NoBlockHits(blocks: seq<Block>, top: int, y: int, b: nat)
    requires b <= |blocks|
    requires forall k :: b <= k < |blocks| ==> BlockTop(blocks, top, k) + blocks[k].height < y
    ensures FirstBlock(blocks, top, y, b) == None
    decreases |blocks| - b
  {
    if b < |blocks| {
      NoBlockHits(blocks, top, y, b + 1);
    }
  }

  /** The loops of moveCursorToPos, proved to compute CoordAt. */
  method MoveCursorToPos(blocks: seq<Block>, top: int, pos: Point, offsetAt: OffsetAt) returns (r: Option<CursorCoord>)
    ensures r == CoordAt(blocks, top, pos, offsetAt)
  {
    var blockNo := 0;
    var y := top;
    if pos.y <= y {
      return Some(Origin);
    }
    var findBlock := false;
    while blockNo < |blocks|
      invariant 0 <= blockNo <= |blocks| && y == BlockTop(blocks, top, blockNo)
      invariant FirstBlock(blocks, top, pos.y, 0) == FirstBlock(blocks, top, pos.y, blockNo)
      invariant !findBlock
    {
      var h := blocks[blockNo].height;
      if pos.y >= y && y + h >= pos.y {
        findBlock := true;
        break;
      }
      y := y + h;
      blockNo := blockNo + 1;
    }
    if !findBlock {
      if |blocks| > 0 && |blocks[|blocks| - 1].lines| > 0 {
        return Some(End(blocks));
      }
      return None;
    }
    var lines := blocks[blockNo].lines;
    if |lines| == 0 {
      return Some(CursorCoord(blockNo, 0, 0));
    }
    var oldY := y;
    var lineNo := 0;
    while lineNo < |lines|
      invariant 0 <= lineNo <= |lines| && y == LineTop(lines, oldY, lineNo)
      invariant FirstLine(lines, oldY, pos.y, 0) == FirstLine(lines, oldY, pos.y, lineNo)
    {
      var line := lines[lineNo];
      if y <= pos.y && pos.y <= y + line.height {
        return Some(CursorCoord(blockNo, lineNo, offsetAt(line, pos.x, pos.y - oldY)));
      }
      y := y + line.height;
      lineNo := lineNo + 1;
    }
    return None;
  }

  // ---------------------------------------------------------------------
  // node2container and mergeBlock

  /** node2container: the children of the kinds of block that are containers; None is the assertion. */
  function ChildrenOf(n: Ast.Node): Option<seq<Ast.Node>>
  {
    match n
    case Header(_, children) => Some(children)
    case Paragraph(children) => Some(children)
    case OrderedList(children) => Some(children)
    case OrderedListItem(children) => Some(children)
    case UnorderedList(children) => Some(children)
    case UnorderedListItem(children) => Some(children)
    case CheckboxItem(_, children) => Some(children)
    case CheckboxList(children) => Some(children)
    case CodeBlock(_, children) => Some(children)
    case _ => None
  }

  /** The same container with other children. */
  function WithChildren(n: Ast.Node, children: seq<Ast.Node>): (r: Ast.Node)
    requires ChildrenOf(n).Some?
    ensures ChildrenOf(r) == Some(children) && Ast.Type(r) == Ast.Type(n)
  {
    n.(children := children)
  }

  /**
   * One step of mergeBlock's loop: the child goes at the end, except that
   * a Text following a Text is merged into it (Text::merge appends its
   * spans).
   */
  function MergeStep(acc: seq<Ast.Node>, child: Ast.Node): seq<Ast.Node>
  {
    if |acc| == 0 then [child]
    else if acc[|acc| - 1].Text? && child.Text? then
      acc[..|acc| - 1] + [Ast.Text(acc[|acc| - 1].items + child.items)]
    else acc + [child]
  }

  /** The children of the first block after mergeBlock's loop has taken in those of the second. */
  function MergeChildren(first: seq<Ast.Node>, second: seq<Ast.Node>): seq<Ast.Node>
  {
    if |second| == 0 then first
    else MergeStep(MergeChildren(first, second[..|second| - 1]), second[|second| - 1])
  }

  /** The children other than Text, in order. */
  function Others(children: seq<Ast.Node>): seq<Ast.Node>
  {
    if |children| == 0 then []
    else Others(children[..|children| - 1]) + (if children[|children| - 1].Text? then [] else [children[|children| - 1]])
  }

  lemma {:induction false} OthersAppend(a: seq<Ast.Node>, b: seq<Ast.Node>)
    ensures Others(a + b) == Others(a) + Others(b)
    decreases |b|
  {
    if |b| == 0 {
      assert a + b == a;
    } else {
      assert (a + b)[..|a + b| - 1] == a + b[..|b| - 1];
      OthersAppend(a, b[..|b| - 1]);
    }
  }

  /** A child's own text: a Text's string, nothing for any other node. */
  lemma {:induction false} OneText(x: Ast.Node, bufs: PieceTable.Buffers)
    ensures Texts.LatexText([x], bufs) == (if x.Text? then Texts.Content(x.items, bufs) else [])
  {
    assert [x][..0] == [];
  }

  /** Text nodes are not among the other children. */
  lemma {:induction false} OthersOfText(x: Ast.Node)
    requires x.Text?
    ensures Others([x]) == []
  {
    assert [x][..0] == [];
  }

  /** Merging a Text into a trailing Text adds the child's text and no other child. */
  lemma {:induction false} MergeTextStep(init: seq<Ast.Node>, last: Ast.Node, child: Ast.Node, bufs: PieceTable.Buffers)
    requires last.Text? && child.Text?
    ensures Texts.LatexText(init + [Ast.Text(last.items + child.items)], bufs)
         == Texts.LatexText(init + [last], bufs) + Texts.LatexText([child], bufs)
    ensures Others(init + [Ast.Text(last.items + child.items)]) == Others(init + [last]) + Others([child])
  {
    MergeTextLatex(init, last, child, bufs);
    MergeTextOthers(init, last, child);
  }

  /** The text half of MergeTextStep. */
  lemma {:induction false} MergeTextLatex(init: seq<Ast.Node>, last: Ast.Node, child: Ast.Node, bufs: PieceTable.Buffers)
    requires last.Text? && child.Text?
    ensures Texts.LatexText(init + [Ast.Text(last.items + child.items)], bufs)
         == Texts.LatexText(init + [last], bufs) + Texts.LatexText([child], bufs)
  {
    var joined := Ast.Text(last.items + child.items);
    var front := Texts.LatexText(init, bufs);
    var a, b := Texts.Content(last.items, bufs), Texts.Content(child.items, bufs);
    Texts.LatexTextAppend(init, [last], bufs);
    Texts.LatexTextAppend(init, [joined], bufs);
    OneText(last, bufs);
    OneText(child, bufs);
    OneText(joined, bufs);
    Texts.ConcatAppend(last.items, child.items, Texts.Reader(bufs));
    assert Texts.Content(joined.items, bufs) == a + b;
    Sequences.Assoc(front, a, b);
  }

  /** The other-children half of MergeTextStep. */
  lemma {:induction false} MergeTextOthers(init: seq<Ast.Node>, last: Ast.Node, child: Ast.Node)
    requires last.Text? && child.Text?
    ensures Others(init + [Ast.Text(last.items + child.items)]) == Others(init + [last]) + Others([child])
  {
    var joined := Ast.Text(last.items + child.items);
    OthersAppend(init, [last]);
    OthersAppend(init, [joined]);
    OthersOfText(child);
    OthersOfText(last);
    OthersOfText(joined);
  }

  /** One merge step adds exactly the child's text and keeps the other children in order. */
  lemma {:induction false} MergeStepKeeps(acc: seq<Ast.Node>, child: Ast.Node, bufs: PieceTable.Buffers)
    ensures Texts.LatexText(MergeStep(acc, child), bufs) == Texts.LatexText(acc, bufs) + Texts.LatexText([child], bufs)
    ensures Others(MergeStep(acc, child)) == Others(acc) + Others([child])
  {
    if |acc| == 0 {
      assert [] + [child] == [child];
    } else if acc[|acc| - 1].Text? && child.Text? {
      var init := acc[..|acc| - 1];
      assert acc == init + [acc[|acc| - 1]];
      MergeTextStep(init, acc[|acc| - 1], child, bufs);
    } else {
      Texts.LatexTextAppend(acc, [child], bufs);
      OthersAppend(acc, [child]);
    }
  }

  /**
   * Merging two blocks loses no text and no other child: the merged
   * children read as the first block's text followed by the second's, and
   * the non-Text children are those of both, in order.
   */
  lemma {:induction false} MergeKeepsContent(first: seq<Ast.Node>, second: seq<Ast.Node>, bufs: PieceTable.Buffers)
    ensures Texts.LatexText(MergeChildren(first, second), bufs) == Texts.LatexText(first, bufs) + Texts.LatexText(second, bufs)
    ensures Others(MergeChildren(first, second)) == Others(first) + Others(second)
    decreases |second|
  {
    if |second| > 0 {
      var init := second[..|second| - 1];
      var x := second[|second| - 1];
      assert second == init + [x];
      var m := MergeChildren(first, init);
      MergeKeepsContent(first, init, bufs);
      MergeStepKeeps(m, x, bufs);
      Texts.LatexTextAppend(init, [x], bufs);
      OthersAppend(init, [x]);
      Sequences.Assoc(Texts.LatexText(first, bufs), Texts.LatexText(init, bufs), Texts.LatexText([x], bufs));
      Sequences.Assoc(Others(first), Others(init), Others([x]));
    }
  }

  /** A block's text with child i written out: the children before it, its own text, the children after. */
  lemma {:induction false} TextAround(children: seq<Ast.Node>, i: nat, bufs: PieceTable.Buffers)
    requires i < |children| && children[i].Text?
    ensures Texts.LatexText(children, bufs)
         == Texts.LatexText(children[..i], bufs) + Texts.Content(children[i].items, bufs) + Texts.LatexText(children[i + 1..], bufs)
    ensures Others(children) == Others(children[..i]) + Others(children[i + 1..])
  {
    TextAroundLatex(children, i, bufs);
    TextAroundOthers(children, i);
  }

  /** The text half of TextAround. */
  lemma {:induction false} TextAroundLatex(children: seq<Ast.Node>, i: nat, bufs: PieceTable.Buffers)
    requires i < |children| && children[i].Text?
    ensures Texts.LatexText(children, bufs)
         == Texts.LatexText(children[..i], bufs) + Texts.Content(children[i].items, bufs) + Texts.LatexText(children[i + 1..], bufs)
  {
    Sequences.Around(children, i);
    Texts.LatexTextAppend(children[..i] + [children[i]], children[i + 1..], bufs);
    Texts.LatexTextAppend(children[..i], [children[i]], bufs);
    OneText(children[i], bufs);
  }

  /** The other-children half of TextAround. */
  lemma {:induction false} TextAroundOthers(children: seq<Ast.Node>, i: nat)
    requires i < |children| && children[i].Text?
    ensures Others(children) == Others(children[..i]) + Others(children[i + 1..])
  {
    var pre, x, post := children[..i], children[i], children[i + 1..];
    Sequences.Around(children, i);
    OthersAppend(pre + [x], post);
    OthersAppend(pre, [x]);
    OthersOfText(x);
    assert Others(pre) + [] == Others(pre);
  }

  /**
   * Return inside a paragraph's Text and then backspace at the start of the
   * new block (the undo of the return, which merges the two blocks) give
   * back the paragraph's text and its other children, in order.
   */
  lemma {:induction false} ReturnThenBackspace(children: seq<Ast.Node>, i: nat, left: Texts.Items, right: Texts.Items,
                            bufs: PieceTable.Buffers)
    requires i < |children| && children[i].Text?
    requires Texts.ValidItems(left, bufs) && Texts.ValidItems(right, bufs)
    requires Texts.Content(left, bufs) + Texts.Content(right, bufs) == Texts.Content(children[i].items, bufs)
    ensures var (o, n) := EditorCommands.SplitChildren(children, i, left, right);
            Texts.LatexText(MergeChildren(o, n), bufs) == Texts.LatexText(children, bufs)
            && Others(MergeChildren(o, n)) == Others(children)
  {
    var (o, n) := EditorCommands.SplitChildren(children, i, left, right);
    SplitMergeText(children, i, left, right, bufs, o, n);
    SplitMergeOthers(children, i, left, right, o, n);
  }

  /** The text half of ReturnThenBackspace, over the two split blocks o and n. */
  lemma {:induction false} SplitMergeText(children: seq<Ast.Node>, i: nat, left: Texts.Items, right: Texts.Items,
                       bufs: PieceTable.Buffers, o: seq<Ast.Node>, n: seq<Ast.Node>)
    requires i < |children| && children[i].Text?
    requires Texts.ValidItems(left, bufs) && Texts.ValidItems(right, bufs)
    requires Texts.Content(left, bufs) + Texts.Content(right, bufs) == Texts.Content(children[i].items, bufs)
    requires (o, n) == EditorCommands.SplitChildren(children, i, left, right)
    ensures Texts.LatexText(MergeChildren(o, n), bufs) == Texts.LatexText(children, bufs)
  {
    MergeKeepsContent(o, n, bufs);
    EditorCommands.SplitKeepsText(children, i, left, right, bufs);
    TextAround(children, i, bufs);
    Regroup(Texts.LatexText(children[..i], bufs), Texts.Content(left, bufs), Texts.Content(right, bufs),
            Texts.LatexText(children[i + 1..], bufs), Texts.Content(children[i].items, bufs));
  }

  lemma {:induction false} Regroup<T>(a: seq<T>, l: seq<T>, r: seq<T>, b: seq<T>, c: seq<T>)
    requires l + r == c
    ensures a + l + r + b == a + c + b
  {
    assert a + l + r == a + (l + r);
  }

  /** The other-children half of ReturnThenBackspace. */
  lemma {:induction false} SplitMergeOthers(children: seq<Ast.Node>, i: nat, left: Texts.Items, right: Texts.Items,
                         o: seq<Ast.Node>, n: seq<Ast.Node>)
    requires i < |children| && children[i].Text?
    requires (o, n) == EditorCommands.SplitChildren(children, i, left, right)
    ensures Others(MergeChildren(o, n)) == Others(children)
  {
    var bufs := PieceTable.Buffers([], []);
    MergeKeepsContent(o, n, bufs);
    TextAround(children, i, bufs);
    OthersAppend(children[..i], EditorCommands.TextPart(left));
    OthersAppend(EditorCommands.TextPart(right), children[i + 1..]);
    OthersOfParts(left);
    OthersOfParts(right);
  }

  /** A Text part, kept or dropped, adds no other child. */
  lemma {:induction false} OthersOfParts(items: Texts.Items)
    ensures Others(EditorCommands.TextPart(items)) == []
  {
    if |EditorCommands.TextPart(items)| == 1 {
      OthersOfText(Ast.Text(items));
    }
  }

  // ---------------------------------------------------------------------
  // the document

  /**
   * Render::render, which lays a node out with fonts, as a parameter: the
   * block a node renders to.
   */
  type Renderer = Ast.Node -> Block

  /**
   * The editor's Document: the node tree (the parser document's root), one
   * rendered block per top-level node, the add buffer typed text goes to,
   * and the command stack.
   */
  class Document {
    const root: Ast.Container
    var blocks: seq<Block>
    const render: Renderer
    const add: EditorCommands.AddBuffer
    const stack: EditorCommands.CommandStack

    /** Each block is the rendering of the node at its position. */
    ghost predicate Valid()
      reads this, root, stack
    {
      |blocks| == |root.children|
      && (forall i :: 0 <= i < |blocks| ==> blocks[i] == render(root.children[i]))
      && stack.Valid()
    }

    /**
     * Document(str, setting): the parser's top-level nodes become the tree,
     * and each is rendered in order.
     */
    constructor(nodes: seq<Ast.Node>, original: QString, render: Renderer)
      ensures Valid() && fresh(root) && fresh(add) && fresh(stack)
      ensures root.children == nodes && add.units == [] && stack.commands == [] && stack.top == 0
    {
      var r := new Ast.Container();
      r.AppendChildren(nodes);
      var bs: seq<Block> := [];
      var i := 0;
      while i < |nodes|
        invariant 0 <= i <= |nodes| && |bs| == i
        invariant forall j :: 0 <= j < i ==> bs[j] == render(nodes[j])
      {
        bs := bs + [render(nodes[i])];
        i := i + 1;
      }
      root := r;
      blocks := bs;
      this.render := render;
      add := new EditorCommands.AddBuffer([]);
      stack := new EditorCommands.CommandStack();
    }

    /** replaceBlock: node i of the tree is replaced and re-rendered; the rest stays. */
    method ReplaceBlock(i: int, node: Ast.Node)
      requires Valid() && 0 <= i < |root.children|
      modifies this, root
      ensures Valid()
      ensures root.children == old(root.children)[i := node]
      ensures blocks == old(blocks)[i := render(node)]
    {
      root.SetChild(i, node);
      blocks := blocks[i := render(node)];
    }

    /**
     * insertBlock: the node goes into the tree before position i and its
     * rendering into the blocks; i == size appends, as the split of the
     * last block needs.
     */
    method InsertBlock(i: int, node: Ast.Node)
      requires Valid() && 0 <= i <= |root.children|
      modifies this, root
      ensures Valid()
      ensures root.children == old(root.children)[..i] + [node] + old(root.children)[i..]
      ensures blocks == old(blocks)[..i] + [render(node)] + old(blocks)[i..]
    {
      root.InsertChild(i, node);
      blocks := blocks[..i] + [render(node)] + blocks[i..];
      assert forall j :: 0 <= j < |blocks| ==> blocks[j] == render(root.children[j]) by {
        forall j | 0 <= j < |blocks|
          ensures blocks[j] == render(root.children[j])
        {
          if j < i {
            assert blocks[j] == old(blocks)[j] && root.children[j] == old(root.children)[j];
          } else if j > i {
            assert blocks[j] == old(blocks)[j - 1] && root.children[j] == old(root.children)[j - 1];
          }
        }
      }
    }

    /** Every block but possibly i is the rendering of its node. */
    ghost predicate ValidExcept(i: int)
      reads this, root, stack
    {
      |blocks| == |root.children|
      && (forall j :: 0 <= j < |blocks| && j != i ==> blocks[j] == render(root.children[j]))
      && stack.Valid()
    }

    /**
     * renderBlock: after node i was edited in place, its block is rendered
     * again, which makes every block current again.
     */
    method RenderBlock(i: int)
      requires ValidExcept(i) && 0 <= i < |root.children|
      modifies this
      ensures Valid()
      ensures blocks == old(blocks)[i := render(root.children[i])]
    {
      blocks := blocks[i := render(root.children[i])];
    }

    /** An edit of node i in place, followed by renderBlock: only block i changes. */
    method EditBlock(i: int, node: Ast.Node)
      requires Valid() && 0 <= i < |root.children|
      modifies this, root
      ensures Valid()
      ensures root.children == old(root.children)[i := node]
      ensures blocks == old(blocks)[i := render(node)]
    {
      root.children := root.children[i := node];
      RenderBlock(i);
    }

    /** removeBlock: block i leaves the blocks and the tree together. */
    method RemoveBlock(i: int)
      requires Valid() && 0 <= i < |blocks|
      modifies this, root
      ensures Valid()
      ensures root.children == old(root.children)[..i] + old(root.children)[i + 1..]
      ensures blocks == old(blocks)[..i] + old(blocks)[i + 1..]
    {
      blocks := blocks[..i] + blocks[i + 1..];
      root.children := root.children[..i] + root.children[i + 1..];
      assert forall j :: 0 <= j < |blocks| ==> blocks[j] == render(root.children[j]) by {
        forall j | 0 <= j < |blocks|
          ensures blocks[j] == render(root.children[j])
        {
          if j >= i {
            assert blocks[j] == old(blocks)[j + 1] && root.children[j] == old(root.children)[j + 1];
          }
        }
      }
    }

    /**
     * mergeBlock(b1, b2): the second block's children move into the first
     * (a Text after a Text merging into it), the second block goes, and the
     * first is replaced by the merged container.
     */
    method MergeBlock(b1: int, b2: int)
      requires Valid() && 0 <= b1 < b2 < |root.children|
      requires ChildrenOf(root.children[b1]).Some? && ChildrenOf(root.children[b2]).Some?
      modifies this, root
      ensures Valid()
      ensures var n1 := old(root.children[b1]);
              var merged := WithChildren(n1, MergeChildren(ChildrenOf(n1).value, ChildrenOf(old(root.children[b2])).value));
              root.children == old(root.children)[..b2][b1 := merged] + old(root.children)[b2 + 1..]
    {
      var node1 := root.children[b1];
      var kids := ChildrenOf(node1).value;
      var others := ChildrenOf(root.children[b2]).value;
      ghost var first := kids;
      var k := 0;
      while k < |others|
        invariant 0 <= k <= |others|
        invariant kids == MergeChildren(first, others[..k])
      {
        var child := others[k];
        assert others[..k + 1][..k] == others[..k];
        if |kids| == 0 {
          kids := kids + [child];
        } else if kids[|kids| - 1].Text? && child.Text? {
          var last := kids[|kids| - 1];
          kids := kids[..|kids| - 1] + [Ast.Text(last.items + child.items)];
        } else {
          kids := kids + [child];
        }
        k := k + 1;
      }
      assert others[..k] == others;
      var merged := WithChildren(node1, kids);
      RemoveBlock(b2);
      ReplaceBlock(b1, merged);
    }

    /**
     * upgradeToHeader: a paragraph becomes a header of the given level with
     * the same children; any other block is left alone.
     */
    method UpgradeToHeader(at: CursorCoord, level: int)
      requires Valid() && 1 <= level <= 6 && 0 <= at.blockNo < |root.children|
      modifies this, root
      ensures Valid()
      ensures old(root.children[at.blockNo]).Paragraph? ==>
        root.children == old(root.children)[at.blockNo := Ast.Header(level, old(root.children[at.blockNo]).children)]
      ensures !old(root.children[at.blockNo]).Paragraph? ==>
        root.children == old(root.children) && blocks == old(blocks)
    {
      var node := root.children[at.blockNo];
      if !node.Paragraph? {
        return;
      }
      ReplaceBlock(at.blockNo, Ast.Header(level, node.children));
    }

    /**
     * insertText: empty text does nothing; otherwise a text command is made
     * (its text goes to the add buffer), executed, and pushed. The visitor's
     * edit of the tree is the EditorCommands rules; here the coordinate it
     * leaves the cursor at is given.
     */
    method InsertText(at: CursorCoord, text: QString, finishedAt: CursorCoord) returns (c: Option<EditorCommands.Command>)
      requires Valid()
      modifies add, stack, stack.commands
      ensures Valid()
      ensures |text| == 0 ==> c == None && add.units == old(add.units)
                              && stack.commands == old(stack.commands) && stack.top == old(stack.top)
      ensures |text| > 0 ==> c.Some? && fresh(c.value)
                             && add.units == old(add.units) + EditorCommands.TextToInsert(text)
                             && stack.top == |stack.commands| > 0
    {
      if |text| == 0 {
        return None;
      }
      var command := new EditorCommands.Command.OfInsertText(at, text, add);
      command.Finish(finishedAt);
      stack.Push(command);
      return Some(command);
    }

    /** removeText: a remove command is made, executed and pushed. */
    method RemoveText(at: CursorCoord, finishedAt: CursorCoord) returns (c: EditorCommands.Command)
      requires Valid()
      modifies stack, stack.commands
      ensures Valid() && fresh(c) && c.kind == EditorCommands.RemoveText && c.coord == at
      ensures stack.top == |stack.commands| > 0 && stack.commands[stack.top - 1] == c
    {
      c := new EditorCommands.Command.OfRemoveText(at);
      c.Finish(finishedAt);
      stack.Push(c);
    }

    /** insertReturn: a return command is made, executed and pushed. */
    method InsertReturn(at: CursorCoord, finishedAt: CursorCoord) returns (c: EditorCommands.Command)
      requires Valid()
      modifies stack, stack.commands
      ensures Valid() && fresh(c) && c.kind == EditorCommands.InsertReturn && c.coord == at
      ensures stack.top == |stack.commands| > 0 && stack.commands[stack.top - 1] == c
    {
      c := new EditorCommands.Command.OfInsertReturn(at);
      c.Finish(finishedAt);
      stack.Push(c);
    }

    /** undo: the command stack's undo. */
    method Undo() returns (undone: Option<EditorCommands.Command>)
      requires Valid()
      modifies stack
      ensures Valid() && stack.commands == old(stack.commands)
      ensures old(stack.top) == 0 ==> undone == None && stack.top == 0
      ensures old(stack.top) > 0 ==> undone == Some(old(stack.commands[stack.top - 1])) && stack.top == old(stack.top) - 1
    {
      undone := stack.Undo();
    }

    /** redo: does nothing in this generation of the editor. */
    method Redo()
      requires Valid()
      ensures Valid()
    {
    }
  }

  /**
   * The return on an empty line of the last block inserts a new block after
   * it, at the index equal to the number of children: the document accepts
   * that index, while Container::insertChild as written refuses it.
   */
  lemma {:induction false} ReturnAfterLastBlock(children: seq<Ast.Node>, node: Ast.Node)
    requires |children| > 0
    ensures var i := (|children| - 1) + 1;
            0 <= i <= |children| && Ast.InsertChildAsWritten(children, i, node) == None
  {
    Ast.AppendRefusedAsWritten(children, node);
  }
}
