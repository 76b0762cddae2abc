// src/editor/Editor.cpp: saving a document as Markdown
// (SimpleMarkdownVisitor), the click on a checkbox and on a code block
// (MousePressVisitor) and the note paths of loadFile and saveToFile.

module EditorMarkdown {
  import opened Optional
  import opened QStr
  import opened Sequences
  import opened PieceTable
  import opened Ast
  import Texts
  import BlockParsers
  import Editing

  // ---------------------------------------------------------------------
  // SimpleMarkdownVisitor, as a specification

  /** The header's level as `#` marks: one per level, none for a level below one. */
  function Hashes(level: int): (r: QString)
    ensures |r| == if level > 0 then level else 0
    ensures forall i :: 0 <= i < |r| ==> r[i] == Unit('#')
    decreases level
  {
    if level <= 0 then [] else Hashes(level - 1) + Lit("#")
  }

  /** CheckboxList's children()[k]->isChecked(). */
  predicate IsChecked(n: Node)
  {
    n.CheckboxItem? && n.checked
  }

  /** The start of a checkbox row: `- [x] ` for a checked item, `- [ ] ` otherwise. */
  function BoxMark(checked: bool): QString
  {
    Lit("- [") + (if checked then Lit("x") else Lit(" ")) + Lit("] ")
  }

  /** The start of the i-th row of an ordered list (`%1. ` with i). */
  function NumberMark(i: int): QString
  {
    Number(i) + Lit(". ")
  }

  /** What a Text writes: its spans read out of the buffers (Text::toString). */
  function Read(bufs: Buffers, items: TextItems): QString
  {
    Texts.Content(items, bufs)
  }

  /** A link with its content between the brackets and its href between the parentheses. */
  function LinkMarkdown(bufs: Buffers, content: TextItems, href: TextItems): QString
  {
    Lit("[") + Read(bufs, content) + Lit("](") + Read(bufs, href) + Lit(")")
  }

  /** The link visit as written: href between the brackets, content between the parentheses. */
  function LinkAsWritten(bufs: Buffers, content: TextItems, href: TextItems): QString
  {
    Lit("[") + Read(bufs, href) + Lit("](") + Read(bufs, content) + Lit(")")
  }

  /** The Markdown a node is saved as, with the link and quote visits as corrected. */
  function Markdown(bufs: Buffers, n: Node): QString
    decreases n, 2
  {
    match n
    case Text(items) => Read(bufs, items)
    case Header(level, children) => Hashes(level) + Lit(" ") + Each(bufs, children, [], []) + Lit("\n")
    case Paragraph(children) => if |children| == 0 then [] else Each(bufs, children, [], []) + Lit("\n")
    case CheckboxItem(_, children) => Each(bufs, children, [], [])
    case CheckboxList(children) => Boxes(bufs, children)
    case UnorderedList(children) => Each(bufs, children, Lit("- "), Lit("\n"))
    case UnorderedListItem(children) => Each(bufs, children, [], [])
    case OrderedList(children) => Numbered(bufs, children, 1)
    case OrderedListItem(children) => Each(bufs, children, [], [])
    case QuoteBlock(children) => Each(bufs, children, BlockParsers.QuotePrefix, Lit("\n"))
    case ItalicText(t) => Lit("*") + Read(bufs, t) + Lit("*")
    case BoldText(t) => Lit("**") + Read(bufs, t) + Lit("**")
    case ItalicBoldText(t) => Lit("***") + Read(bufs, t) + Lit("***")
    case StrickoutText(_) => []
    case Image(alt, src) => Lit("![") + Read(bufs, alt) + Lit("](") + Read(bufs, src) + Lit(")")
    case Link(content, href) => LinkMarkdown(bufs, content, href)
    case CodeBlock(name, children) =>
      Lit("```") + Read(bufs, name) + Lit("\n") + Each(bufs, children, [], Lit("\n")) + Lit("```\n")
    case Hr => Lit("---\n")
    case InlineCode(code) => Lit("`") + Read(bufs, code) + Lit("`")
    case InlineLatex(_) => []
    case Table(_, _) => []
    case Lf => Lit("\n")
    case LatexBlock(_) => []
  }

  /** Each node between `open` and `close`, in order. */
  function Each(bufs: Buffers, ns: seq<Node>, open: QString, close: QString): QString
    decreases ns, 3
  {
    if |ns| == 0 then [] else Each(bufs, ns[..|ns| - 1], open, close) + (open + Markdown(bufs, ns[|ns| - 1]) + close)
  }

  /** The rows of a checkbox list: the mark for the item's flag, the item, a line break. */
  function Boxes(bufs: Buffers, ns: seq<Node>): QString
    decreases ns, 3
  {
    if |ns| == 0 then []
    else
      var last := ns[|ns| - 1];
      Boxes(bufs, ns[..|ns| - 1]) + (BoxMark(IsChecked(last)) + Markdown(bufs, last) + Lit("\n"))
  }

  /** The rows of an ordered list whose first row is numbered `first`. */
  function Numbered(bufs: Buffers, ns: seq<Node>, first: int): QString
    decreases ns, 3
  {
    if |ns| == 0 then []
    else Numbered(bufs, ns[..|ns| - 1], first) + (NumberMark(first + |ns| - 1) + Markdown(bufs, ns[|ns| - 1]) + Lit("\n"))
  }

  /** The quote visit as written: one `>` and then every line followed by a line break. */
  function QuoteAsWritten(bufs: Buffers, children: seq<Node>): QString
  {
    Lit(">") + Each(bufs, children, [], Lit("\n"))
  }

  /** The nodes whose visit reads at most Texts and visits no other node. */
  predicate IsInline(n: Node)
  {
    n.Text? || n.ItalicText? || n.BoldText? || n.ItalicBoldText? || n.StrickoutText? || n.Image? || n.Link?
    || n.InlineCode? || n.InlineLatex? || n.Table? || n.Hr? || n.Lf? || n.LatexBlock?
  }

  /** The inline nodes whose visit reads a Text. */
  predicate IsReading(n: Node)
  {
    n.Text? || n.ItalicText? || n.BoldText? || n.ItalicBoldText? || n.Image? || n.Link? || n.InlineCode?
  }

  /** What saveToFile writes: every child of the root, in order (Document::accept). */
  function DocumentMarkdown(bufs: Buffers, nodes: seq<Node>): QString
  {
    Each(bufs, nodes, [], [])
  }

  // ---------------------------------------------------------------------
  // properties of the saved Markdown

  /** The node lists' Markdown distributes over concatenation. */
  lemma {:induction false} EachAppend(bufs: Buffers, a: seq<Node>, b: seq<Node>, open: QString, close: QString)
    ensures Each(bufs, a + b, open, close) == Each(bufs, a, open, close) + Each(bufs, b, open, close)
    decreases |b|
  {
    if |b| == 0 {
      assert a + b == a;
    } else {
      var init := b[..|b| - 1];
      var piece := open + Markdown(bufs, b[|b| - 1]) + close;
      EachAppend(bufs, a, init, open, close);
      assert (a + b)[..|a + b| - 1] == a + init;
      assert (a + b)[|a + b| - 1] == b[|b| - 1];
      assert Each(bufs, a + b, open, close) == Each(bufs, a + init, open, close) + piece;
      Assoc(Each(bufs, a, open, close), Each(bufs, init, open, close), piece);
    }
  }

  /** A one-node list is that node between `open` and `close`. */
  lemma {:induction false} EachOne(bufs: Buffers, n: Node, open: QString, close: QString)
    ensures Each(bufs, [n], open, close) == open + Markdown(bufs, n) + close
  {
    assert [n][..0] == [];
    assert Each(bufs, [n], open, close) == [] + (open + Markdown(bufs, n) + close);
  }

  /**
   * Node k of a list is written between `open` and `close`, after the nodes
   * before it and before the nodes after it.
   */
  lemma {:induction false} EachAt(bufs: Buffers, ns: seq<Node>, k: int, open: QString, close: QString)
    requires 0 <= k < |ns|
    ensures Each(bufs, ns, open, close)
         == Each(bufs, ns[..k], open, close) + (open + Markdown(bufs, ns[k]) + close) + Each(bufs, ns[k + 1..], open, close)
  {
    assert ns == ns[..k] + [ns[k]] + ns[k + 1..];
    EachAppend(bufs, ns[..k] + [ns[k]], ns[k + 1..], open, close);
    EachAppend(bufs, ns[..k], [ns[k]], open, close);
    EachOne(bufs, ns[k], open, close);
  }

  /** Checkbox rows distribute over concatenation. */
  lemma {:induction false} BoxesAppend(bufs: Buffers, a: seq<Node>, b: seq<Node>)
    ensures Boxes(bufs, a + b) == Boxes(bufs, a) + Boxes(bufs, b)
    decreases |b|
  {
    if |b| == 0 {
      assert a + b == a;
    } else {
      var init := b[..|b| - 1];
      var last := b[|b| - 1];
      var piece := BoxMark(IsChecked(last)) + Markdown(bufs, last) + Lit("\n");
      BoxesAppend(bufs, a, init);
      assert (a + b)[..|a + b| - 1] == a + init;
      assert (a + b)[|a + b| - 1] == last;
      assert Boxes(bufs, a + b) == Boxes(bufs, a + init) + piece;
      Assoc(Boxes(bufs, a), Boxes(bufs, init), piece);
    }
  }

  /**
   * Item k of a checkbox list is written as one row, `- [x] ` exactly when
   * it is checked, between the rows of the items around it.
   */
  lemma {:induction false} BoxesAt(bufs: Buffers, ns: seq<Node>, k: int)
    requires 0 <= k < |ns|
    ensures Boxes(bufs, ns)
         == Boxes(bufs, ns[..k]) + (BoxMark(IsChecked(ns[k])) + Markdown(bufs, ns[k]) + Lit("\n")) + Boxes(bufs, ns[k + 1..])
  {
    assert ns == ns[..k] + [ns[k]] + ns[k + 1..];
    BoxesAppend(bufs, ns[..k] + [ns[k]], ns[k + 1..]);
    BoxesAppend(bufs, ns[..k], [ns[k]]);
    assert [ns[k]][..0] == [];
  }

  /** The two row marks differ, and `- [x] ` is the mark of the checked rows only. */
  lemma {:induction false} BoxMarkChecked(checked: bool)
    ensures BoxMark(checked) == Lit("- [x] ") <==> checked
    ensures |BoxMark(checked)| == 6
  {
    if !checked {
      assert BoxMark(checked)[3] != Lit("- [x] ")[3];
    }
  }

  /** The last row of a numbered run, with its number given: `ns` is `init` and then `last`, numbered `k`. */
  lemma {:induction false} NumberedLast(bufs: Buffers, ns: seq<Node>, init: seq<Node>, last: Node, first: int, k: int)
    requires ns == init + [last] && k == first + |ns| - 1
    ensures Numbered(bufs, ns, first) == Numbered(bufs, init, first) + (NumberMark(k) + Markdown(bufs, last) + Lit("\n"))
  {
    assert ns[..|ns| - 1] == init;
  }

  /** The numbering continues across a split: the rows of `b` start at `first + |a|`. */
  lemma {:induction false} NumberedAppend(bufs: Buffers, a: seq<Node>, b: seq<Node>, first: int)
    ensures Numbered(bufs, a + b, first) == Numbered(bufs, a, first) + Numbered(bufs, b, first + |a|)
    decreases |b|
  {
    if |b| == 0 {
      assert a + b == a;
    } else {
      var init := b[..|b| - 1];
      var last := b[|b| - 1];
      var k := first + |a| + |b| - 1;
      var piece := NumberMark(k) + Markdown(bufs, last) + Lit("\n");
      NumberedAppend(bufs, a, init, first);
      InitLast(b);
      Assoc(a, init, [last]);
      NumberedLast(bufs, a + b, a + init, last, first, k);
      NumberedLast(bufs, b, init, last, first + |a|, k);
      Assoc(Numbered(bufs, a, first), Numbered(bufs, init, first + |a|), piece);
    }
  }

  /** Row k of a numbered run starting at `first` is numbered `first + k`. */
  lemma {:induction false} NumberedAt(bufs: Buffers, ns: seq<Node>, k: int, first: int)
    requires 0 <= k < |ns|
    ensures Numbered(bufs, ns, first)
         == Numbered(bufs, ns[..k], first) + (NumberMark(first + k) + Markdown(bufs, ns[k]) + Lit("\n"))
          + Numbered(bufs, ns[k + 1..], first + k + 1)
  {
    assert ns == ns[..k] + [ns[k]] + ns[k + 1..];
    NumberedAppend(bufs, ns[..k] + [ns[k]], ns[k + 1..], first);
    NumberedAppend(bufs, ns[..k], [ns[k]], first);
    assert [ns[k]][..0] == [];
    assert Numbered(bufs, [ns[k]], first + k) == [] + (NumberMark(first + k) + Markdown(bufs, ns[k]) + Lit("\n"));
  }

  /** Item k (from zero) of an ordered list is the row numbered k + 1. */
  lemma {:induction false} OrderedListRow(bufs: Buffers, ns: seq<Node>, k: int)
    requires 0 <= k < |ns|
    ensures Markdown(bufs, OrderedList(ns))
         == Numbered(bufs, ns[..k], 1) + (NumberMark(k + 1) + Markdown(bufs, ns[k]) + Lit("\n")) + Numbered(bufs, ns[k + 1..], k + 2)
  {
    NumberedAt(bufs, ns, k, 1);
  }

  /**
   * A header is its level in `#` marks, a space, its children and a line
   * break; the marks are all the `#` before the space.
   */
  lemma {:induction false} HeaderLine(bufs: Buffers, level: int, children: seq<Node>)
    requires level >= 0
    ensures var r := Markdown(bufs, Header(level, children));
      |r| == level + 2 + |Each(bufs, children, [], [])|
      && (forall i :: 0 <= i < level ==> r[i] == Unit('#'))
      && r[level] == Unit(' ') && r[|r| - 1] == Unit('\n')
  {
    var r := Markdown(bufs, Header(level, children));
    var hs := Hashes(level);
    assert r == hs + (Lit(" ") + Each(bufs, children, [], []) + Lit("\n"));
    assert forall i :: 0 <= i < level ==> r[i] == hs[i];
  }

  /** Bold italic is the italic text between the bold marks. */
  lemma {:induction false} BoldItalicNests(bufs: Buffers, t: TextItems)
    ensures Markdown(bufs, ItalicBoldText(t)) == Lit("**") + Markdown(bufs, ItalicText(t)) + Lit("**")
  {
    assert Lit("***") == Lit("**") + Lit("*");
    assert Lit("**") + (Lit("*") + Read(bufs, t) + Lit("*")) + Lit("**")
        == (Lit("**") + Lit("*")) + Read(bufs, t) + (Lit("*") + Lit("**"));
    assert Lit("*") + Lit("**") == Lit("***");
  }

  /** An empty paragraph writes nothing; any other ends with a line break. */
  lemma {:induction false} ParagraphLine(bufs: Buffers, children: seq<Node>)
    ensures |children| == 0 <==> Markdown(bufs, Paragraph(children)) == []
    ensures |children| > 0 ==> EndsWith(Markdown(bufs, Paragraph(children)), Lit("\n"))
  {
    if |children| > 0 {
      var r := Markdown(bufs, Paragraph(children));
      assert r == Each(bufs, children, [], []) + Lit("\n");
      assert r[|r| - 1..] == Lit("\n");
    }
  }

  /** The parts of a five-piece string with a one-unit opener, a two-unit middle and a one-unit closer. */
  lemma {:induction false} FiveParts(o: QString, c: QString, m: QString, h: QString, e: QString)
    requires |o| == 1 && |m| == 2 && |e| == 1
    ensures var r := o + c + m + h + e;
      |r| == |c| + |h| + 4
      && r[0] == o[0] && r[1..|c| + 1] == c && r[|c| + 1..|c| + 3] == m
      && r[|c| + 3..|r| - 1] == h && r[|r| - 1] == e[0]
  {
    var r := o + c + m + h + e;
    assert r == o + (c + (m + (h + e)));
    assert r[1..|c| + 1] == c;
    assert r[|c| + 1..|c| + 3] == m;
    assert r[|c| + 3..|r| - 1] == h;
  }

  /** The bracket part of a saved link is its content and the parenthesised part its href. */
  lemma {:induction false} LinkParts(bufs: Buffers, content: TextItems, href: TextItems)
    ensures var r := Markdown(bufs, Link(content, href));
      var c := Read(bufs, content);
      |r| == |c| + |Read(bufs, href)| + 4
      && r[0] == Unit('[') && r[1..|c| + 1] == c && r[|c| + 1..|c| + 3] == Lit("](")
      && r[|c| + 3..|r| - 1] == Read(bufs, href) && r[|r| - 1] == Unit(')')
  {
    var c := Read(bufs, content);
    var h := Read(bufs, href);
    assert Markdown(bufs, Link(content, href)) == Lit("[") + c + Lit("](") + h + Lit(")");
    FiveParts(Lit("["), c, Lit("]("), h, Lit(")"));
  }

  /** The link visit as written is the corrected one with content and href exchanged. */
  lemma {:induction false} LinkAsWrittenSwaps(bufs: Buffers, content: TextItems, href: TextItems)
    ensures LinkAsWritten(bufs, content, href) == Markdown(bufs, Link(href, content))
  {
  }

  /** A Text of one span writes that span's string. */
  lemma {:induction false} ReadOne(bufs: Buffers, it: PieceTableItem)
    ensures Read(bufs, [it]) == ItemString(it, bufs)
  {
    Texts.ConcatOne(it, Texts.Reader(bufs));
  }

  /**
   * A link to `b` whose text is `a` is saved as written with `b` between
   * the brackets, so it reads back as a link to `a` whose text is `b`.
   */
  lemma {:induction false} LinkSwapExample()
    ensures var bufs := Buffers(Lit("ab"), []);
      var content := [PieceTableItem(original, 0, 1)];
      var href := [PieceTableItem(original, 1, 1)];
      Read(bufs, content) == Lit("a") && Read(bufs, href) == Lit("b")
      && LinkAsWritten(bufs, content, href)[1..2] == Lit("b")
      && Markdown(bufs, Link(content, href))[1..2] == Lit("a")
      && LinkAsWritten(bufs, content, href) != Markdown(bufs, Link(content, href))
  {
    var bufs := Buffers(Lit("ab"), []);
    var content := [PieceTableItem(original, 0, 1)];
    var href := [PieceTableItem(original, 1, 1)];
    ReadOne(bufs, PieceTableItem(original, 0, 1));
    ReadOne(bufs, PieceTableItem(original, 1, 1));
    var a, b := Read(bufs, content), Read(bufs, href);
    assert a == Lit("a") && b == Lit("b");
    LinkAsWrittenSwaps(bufs, content, href);
    LinkParts(bufs, content, href);
    LinkParts(bufs, href, content);
    var m, w := Markdown(bufs, Link(content, href)), Markdown(bufs, Link(href, content));
    assert m[1..2] == a && w[1..2] == b;
    assert a[0] != b[0];
  }

  /** Line k of a saved quote is `> `, the line and a line break. */
  lemma {:induction false} QuoteLine(bufs: Buffers, children: seq<Node>, k: int)
    requires 0 <= k < |children|
    ensures Markdown(bufs, QuoteBlock(children))
         == Each(bufs, children[..k], BlockParsers.QuotePrefix, Lit("\n"))
          + (BlockParsers.QuotePrefix + Markdown(bufs, children[k]) + Lit("\n"))
          + Each(bufs, children[k + 1..], BlockParsers.QuotePrefix, Lit("\n"))
  {
    EachAt(bufs, children, k, BlockParsers.QuotePrefix, Lit("\n"));
  }

  /** A saved quote starts with the `> ` the quote recogniser looks for. */
  lemma {:induction false} QuoteStartsWithPrefix(bufs: Buffers, children: seq<Node>)
    requires |children| > 0
    ensures StartsWith(Markdown(bufs, QuoteBlock(children)), BlockParsers.QuotePrefix)
  {
    QuoteLine(bufs, children, 0);
    assert children[..0] == [];
    var r := Markdown(bufs, QuoteBlock(children));
    assert r == BlockParsers.QuotePrefix + (Markdown(bufs, children[0]) + Lit("\n") + Each(bufs, children[1..], BlockParsers.QuotePrefix, Lit("\n")));
  }

  /**
   * The quote visit as written loses the space after `>`: a one-line quote
   * whose line does not start with a space is not saved with the `> ` the
   * quote recogniser looks for, so it reads back as a paragraph.
   */
  lemma {:induction false} QuoteAsWrittenLosesPrefix(bufs: Buffers, items: TextItems)
    requires |Read(bufs, items)| == 0 || Read(bufs, items)[0] != Unit(' ')
    ensures !StartsWith(QuoteAsWritten(bufs, [Text(items)]), BlockParsers.QuotePrefix)
  {
    EachOne(bufs, Text(items), [], Lit("\n"));
    var r := QuoteAsWritten(bufs, [Text(items)]);
    assert r == Lit(">") + (Read(bufs, items) + Lit("\n"));
    assert r[1] != BlockParsers.QuotePrefix[1];
  }

  // ---------------------------------------------------------------------
  // the visitor

  /** SimpleMarkdownVisitor: `md` grows with every visit; Texts are read out of `bufs`. */
  class MarkdownVisitor {
    var md: QString
    const bufs: Buffers

    constructor(bufs: Buffers)
      ensures md == [] && this.bufs == bufs
    {
      md := [];
      this.bufs := bufs;
    }

    method Visit(n: Node)
      modifies this
      ensures md == old(md) + Markdown(bufs, n)
      decreases n, 4
    {
      if IsInline(n) {
        VisitInline(n);
        return;
      }
      match n
      case Header(level, children) =>
        VisitHeader(level, children, n);
      case Paragraph(children) =>
        if |children| == 0 {
          assert md == md + [];
          return;
        }
        VisitEach(children, [], [], n);
        md := md + Lit("\n");
        Assoc(old(md), Each(bufs, children, [], []), Lit("\n"));
      case CheckboxItem(_, children) =>
        VisitEach(children, [], [], n);
      case CheckboxList(children) =>
        VisitBoxes(children, n);
      case UnorderedList(children) =>
        VisitEach(children, Lit("- "), Lit("\n"), n);
      case UnorderedListItem(children) =>
        VisitEach(children, [], [], n);
      case OrderedList(children) =>
        VisitNumbered(children, n);
      case OrderedListItem(children) =>
        VisitEach(children, [], [], n);
      case QuoteBlock(children) =>
        VisitEach(children, BlockParsers.QuotePrefix, Lit("\n"), n);
      case CodeBlock(name, children) =>
        VisitCodeBlock(name, children, n);
    }

    /** The visits that read Texts and visit no other node; the node types the visitor skips write nothing. */
    method VisitInline(n: Node)
      requires IsInline(n)
      modifies this
      ensures md == old(md) + Markdown(bufs, n)
    {
      if !IsReading(n) {
        VisitPlain(n);
        return;
      }
      match n
      case Text(items) =>
        md := md + Read(bufs, items);
      case ItalicText(t) =>
        VisitAround(Lit("*"), t, Lit("*"));
      case BoldText(t) =>
        VisitAround(Lit("**"), t, Lit("**"));
      case ItalicBoldText(t) =>
        VisitAround(Lit("***"), t, Lit("***"));
      case Image(alt, src) =>
        VisitPair(Lit("!["), alt, src);
      case Link(content, href) =>
        VisitPair(Lit("["), content, href);
      case InlineCode(code) =>
        VisitAround(Lit("`"), code, Lit("`"));
    }

    /** The visits that read no Text: the rule, the line break and the node types the visitor skips. */
    method VisitPlain(n: Node)
      requires IsInline(n) && !IsReading(n)
      modifies this
      ensures md == old(md) + Markdown(bufs, n)
    {
      match n
      case Hr =>
        md := md + Lit("---\n");
      case Lf =>
        md := md + Lit("\n");
      case StrickoutText(_) =>
        assert md == md + [];
      case InlineLatex(_) =>
        assert md == md + [];
      case Table(_, _) =>
        assert md == md + [];
      case LatexBlock(_) =>
        assert md == md + [];
    }

    /** The emphasis and inline-code visits: a mark, the Text, a mark. */
    method VisitAround(before: QString, t: TextItems, after: QString)
      modifies this
      ensures md == old(md) + (before + Read(bufs, t) + after)
    {
      md := md + before;
      md := md + Read(bufs, t);
      md := md + after;
      Append3(old(md), before, Read(bufs, t), after);
    }

    /** The image and link visits: `open`, the first Text, `](`, the second, `)`. */
    method VisitPair(open: QString, first: TextItems, second: TextItems)
      modifies this
      ensures md == old(md) + (open + Read(bufs, first) + Lit("](") + Read(bufs, second) + Lit(")"))
    {
      md := md + open;
      md := md + Read(bufs, first);
      md := md + Lit("](");
      md := md + Read(bufs, second);
      md := md + Lit(")");
      Append5(old(md), open, Read(bufs, first), Lit("]("), Read(bufs, second), Lit(")"));
    }

    /** The header visit: a `#` per level, a space, the children, a line break. */
    method VisitHeader(level: int, children: seq<Node>, ghost parent: Node)
      requires forall k :: 0 <= k < |children| ==> children[k] < parent
      modifies this
      ensures md == old(md) + (Hashes(level) + Lit(" ") + Each(bufs, children, [], []) + Lit("\n"))
      decreases parent, 2
    {
      var i := 0;
      while i < level
        invariant 0 <= i && (level >= 0 ==> i <= level) && (level < 0 ==> i == 0)
        invariant md == old(md) + Hashes(i)
      {
        md := md + Lit("#");
        Assoc(old(md), Hashes(i), Lit("#"));
        i := i + 1;
      }
      assert Hashes(i) == Hashes(level);
      md := md + Lit(" ");
      VisitEach(children, [], [], parent);
      md := md + Lit("\n");
      Append4(old(md), Hashes(level), Lit(" "), Each(bufs, children, [], []), Lit("\n"));
    }

    /** The code block visit: the fence and name, each line and a line break, the closing fence. */
    method VisitCodeBlock(name: TextItems, children: seq<Node>, ghost parent: Node)
      requires forall k :: 0 <= k < |children| ==> children[k] < parent
      modifies this
      ensures md == old(md) + (Lit("```") + Read(bufs, name) + Lit("\n") + Each(bufs, children, [], Lit("\n")) + Lit("```\n"))
      decreases parent, 2
    {
      md := md + Lit("```");
      md := md + Read(bufs, name);
      md := md + Lit("\n");
      VisitEach(children, [], Lit("\n"), parent);
      md := md + Lit("```\n");
      Append5(old(md), Lit("```"), Read(bufs, name), Lit("\n"), Each(bufs, children, [], Lit("\n")), Lit("```\n"));
    }

    /** The children loop: `open`, the child, `close`, for each child in order. */
    method VisitEach(children: seq<Node>, open: QString, close: QString, ghost parent: Node)
      requires forall k :: 0 <= k < |children| ==> children[k] < parent
      modifies this
      ensures md == old(md) + Each(bufs, children, open, close)
      decreases parent, 1
    {
      var k := 0;
      while k < |children|
        invariant 0 <= k <= |children|
        invariant md == old(md) + Each(bufs, children[..k], open, close)
      {
        ghost var done := Each(bufs, children[..k], open, close);
        assert children[..k + 1][..k] == children[..k];
        md := md + open;
        Visit(children[k]);
        md := md + close;
        AppendPiece(old(md), done, open, Markdown(bufs, children[k]), close);
        k := k + 1;
      }
      assert children[..k] == children;
    }

    /** The checkbox list loop: `- [x] ` or `- [ ] ` by the item's flag, the item, a line break. */
    method VisitBoxes(children: seq<Node>, ghost parent: Node)
      requires forall k :: 0 <= k < |children| ==> children[k] < parent
      modifies this
      ensures md == old(md) + Boxes(bufs, children)
      decreases parent, 1
    {
      var k := 0;
      while k < |children|
        invariant 0 <= k <= |children|
        invariant md == old(md) + Boxes(bufs, children[..k])
      {
        ghost var done := Boxes(bufs, children[..k]);
        assert children[..k + 1][..k] == children[..k];
        var item := children[k];
        var mark := Lit("- [") + (if item.CheckboxItem? && item.checked then Lit("x") else Lit(" ")) + Lit("] ");
        md := md + mark;
        Visit(item);
        md := md + Lit("\n");
        AppendPiece(old(md), done, mark, Markdown(bufs, item), Lit("\n"));
        k := k + 1;
      }
      assert children[..k] == children;
    }

    /** The ordered list loop: the row number from 1, `. `, the item, a line break. */
    method VisitNumbered(children: seq<Node>, ghost parent: Node)
      requires forall k :: 0 <= k < |children| ==> children[k] < parent
      modifies this
      ensures md == old(md) + Numbered(bufs, children, 1)
      decreases parent, 1
    {
      var i := 1;
      var k := 0;
      while k < |children|
        invariant 0 <= k <= |children| && i == k + 1
        invariant md == old(md) + Numbered(bufs, children[..k], 1)
      {
        ghost var done := Numbered(bufs, children[..k], 1);
        assert children[..k + 1][..k] == children[..k];
        var mark := Number(i) + Lit(". ");
        md := md + mark;
        Visit(children[k]);
        md := md + Lit("\n");
        AppendPiece(old(md), done, mark, Markdown(bufs, children[k]), Lit("\n"));
        i := i + 1;
        k := k + 1;
      }
      assert children[..k] == children;
    }

    /** Document::accept: every child of the root, in order (the root is their ghost parent). */
    method VisitAll(nodes: seq<Node>)
      modifies this
      ensures md == old(md) + DocumentMarkdown(bufs, nodes)
    {
      ghost var root := Paragraph(nodes);
      VisitEach(nodes, [], [], root);
    }
  }

  // ---------------------------------------------------------------------
  // loadFile and saveToFile

  const FilePrefix: QString := Lit("file://")
  const MdSuffix: QString := Lit(".md")

  /** The file a note path names: a leading `file://` is dropped. */
  function NotePath(path: QString): QString
  {
    if StartsWith(path, FilePrefix) then Mid(path, |FilePrefix|, -1) else path
  }

  /** The file saveToFile writes: the note path, with `.md` added unless it ends with it. */
  function SavePath(path: QString): QString
  {
    var p := NotePath(path);
    if EndsWith(p, MdSuffix) then p else p + MdSuffix
  }

  /** Dropping the prefix undoes adding it; a path without it is kept as it is. */
  lemma {:induction false} NotePathOfUrl(p: QString)
    ensures NotePath(FilePrefix + p) == p
    ensures !StartsWith(p, FilePrefix) ==> NotePath(p) == p
  {
    assert (FilePrefix + p)[..|FilePrefix|] == FilePrefix;
    assert (FilePrefix + p)[|FilePrefix|..] == p;
  }

  /** The saved file always ends with `.md` and is the note path with at most that added. */
  lemma {:induction false} SavePathEndsWithMd(path: QString)
    ensures EndsWith(SavePath(path), MdSuffix)
    ensures SavePath(path) == NotePath(path) || SavePath(path) == NotePath(path) + MdSuffix
    ensures EndsWith(NotePath(path), MdSuffix) ==> SavePath(path) == NotePath(path)
  {
    var p := NotePath(path);
    if !EndsWith(p, MdSuffix) {
      assert (p + MdSuffix)[|p + MdSuffix| - |MdSuffix|..] == MdSuffix;
    }
  }

  /** Adding `.md` to a path that does not start with `file://` does not make it start with it. */
  lemma {:induction false} SuffixKeepsPlain(p: QString)
    requires !StartsWith(p, FilePrefix)
    ensures !StartsWith(p + MdSuffix, FilePrefix)
  {
    var q := p + MdSuffix;
    if |p| >= |FilePrefix| {
      assert q[..|FilePrefix|] == p[..|FilePrefix|];
    } else if |q| >= |FilePrefix| {
      assert q[|p|] == Unit('.');
      assert FilePrefix[|p|] != Unit('.');
    }
  }

  /** Saving to the path a save chose chooses it again, unless the note path itself starts with `file://`. */
  lemma {:induction false} SavePathIdempotent(path: QString)
    requires !StartsWith(NotePath(path), FilePrefix)
    ensures SavePath(SavePath(path)) == SavePath(path)
  {
    var p := NotePath(path);
    var q := SavePath(path);
    SavePathEndsWithMd(path);
    if q != p {
      SuffixKeepsPlain(p);
    }
    NotePathOfUrl(q);
    SavePathEndsWithMd(q);
  }

  /**
   * saveToFile without the file system: the file it writes and what it
   * writes there (the document's Markdown).
   */
  method SaveToFile(path: QString, bufs: Buffers, nodes: seq<Node>) returns (notePath: QString, text: QString)
    ensures notePath == SavePath(path) && text == DocumentMarkdown(bufs, nodes)
  {
    notePath := path;
    if StartsWith(path, FilePrefix) {
      notePath := Mid(path, |FilePrefix|, -1);
    }
    if !EndsWith(notePath, MdSuffix) {
      notePath := notePath + MdSuffix;
    }
    var visitor := new MarkdownVisitor(bufs);
    visitor.VisitAll(nodes);
    assert visitor.md == [] + DocumentMarkdown(bufs, nodes);
    text := visitor.md;
  }

  // ---------------------------------------------------------------------
  // MousePressVisitor

  /** A checkbox list with the flag of item i flipped. */
  function Toggled(list: Node, i: int): (r: Node)
    requires list.CheckboxList? && 0 <= i < |list.children| && list.children[i].CheckboxItem?
    ensures r.CheckboxList? && |r.children| == |list.children| && r.children[i].CheckboxItem?
    ensures IsChecked(r.children[i]) == !IsChecked(list.children[i])
    ensures forall j :: 0 <= j < |r.children| && j != i ==> r.children[j] == list.children[j]
  {
    var item := list.children[i];
    CheckboxList(list.children[i := SetChecked(item, !item.checked)])
  }

  /** Clicking the same box twice gives back the list as it was. */
  lemma {:induction false} ToggleTwice(list: Node, i: int)
    requires list.CheckboxList? && 0 <= i < |list.children| && list.children[i].CheckboxItem?
    ensures Toggled(Toggled(list, i), i) == list
  {
    var t := Toggled(Toggled(list, i), i);
    assert t.children[i] == list.children[i];
    assert t.children == list.children;
  }

  /**
   * A click changes only the row of the clicked item in the saved
   * Markdown, and there only the box: `- [x] ` and `- [ ] ` trade places.
   */
  lemma {:induction false} ToggleRewritesBox(bufs: Buffers, list: Node, i: int)
    requires list.CheckboxList? && 0 <= i < |list.children| && list.children[i].CheckboxItem?
    ensures var ns := list.children;
      Markdown(bufs, Toggled(list, i))
        == Boxes(bufs, ns[..i]) + (BoxMark(!IsChecked(ns[i])) + Markdown(bufs, ns[i]) + Lit("\n")) + Boxes(bufs, ns[i + 1..])
  {
    var ns := list.children;
    var ts := Toggled(list, i).children;
    BoxesAt(bufs, ts, i);
    assert ts[..i] == ns[..i];
    assert ts[i + 1..] == ns[i + 1..];
    assert Markdown(bufs, ts[i]) == Markdown(bufs, ns[i]);
  }

  /** The click on a checkbox item: its flag flips and its block is drawn again. */
  method PressCheckbox(doc: Editing.Document, b: int, i: int)
    requires doc.Valid() && 0 <= b < |doc.root.children|
    requires doc.root.children[b].CheckboxList? && 0 <= i < |doc.root.children[b].children|
    requires doc.root.children[b].children[i].CheckboxItem?
    modifies doc, doc.root
    ensures doc.Valid()
    ensures doc.root.children == old(doc.root.children)[b := Toggled(old(doc.root.children[b]), i)]
    ensures doc.blocks == old(doc.blocks)[b := doc.render(Toggled(old(doc.root.children[b]), i))]
  {
    var list := doc.root.children[b];
    doc.EditBlock(b, Toggled(list, i));
  }

  /** The code a click on a code block copies: each Text and a line break, a line break for an Lf, None for anything else. */
  function CopiedCode(bufs: Buffers, children: seq<Node>): Option<QString>
  {
    if |children| == 0 then Some([])
    else
      var last := children[|children| - 1];
      match CopiedCode(bufs, children[..|children| - 1])
      case None => None
      case Some(code) =>
        if last.Text? then Some(code + Read(bufs, last.items) + Lit("\n"))
        else if last.Lf? then Some(code + Lit("\n"))
        else None
  }

  /** The copy succeeds exactly when every line is a Text or an Lf. */
  lemma {:induction false} CopiedCodeDefined(bufs: Buffers, children: seq<Node>)
    ensures CopiedCode(bufs, children).Some? <==> forall k :: 0 <= k < |children| ==> children[k].Text? || children[k].Lf?
    decreases |children|
  {
    if |children| > 0 {
      var init := children[..|children| - 1];
      CopiedCodeDefined(bufs, init);
      assert forall k :: 0 <= k < |init| ==> init[k] == children[k];
    }
  }

  /** A code block of Texts copies exactly the lines its saved Markdown holds between the fences. */
  lemma {:induction false} CopiedCodeIsSavedBody(bufs: Buffers, children: seq<Node>)
    requires forall k :: 0 <= k < |children| ==> children[k].Text?
    ensures CopiedCode(bufs, children) == Some(Each(bufs, children, [], Lit("\n")))
    decreases |children|
  {
    if |children| > 0 {
      var init := children[..|children| - 1];
      CopiedCodeIsSavedBody(bufs, init);
      var last := children[|children| - 1];
      Assoc(Each(bufs, init, [], Lit("\n")), Read(bufs, last.items), Lit("\n"));
      assert [] + Markdown(bufs, last) + Lit("\n") == Read(bufs, last.items) + Lit("\n");
    }
  }

  /** The code block click's loop. */
  method CopyCode(bufs: Buffers, children: seq<Node>) returns (r: Option<QString>)
    ensures r == CopiedCode(bufs, children)
  {
    var code: QString := [];
    var k := 0;
    while k < |children|
      invariant 0 <= k <= |children|
      invariant CopiedCode(bufs, children[..k]) == Some(code)
    {
      assert children[..k + 1][..k] == children[..k];
      var child := children[k];
      if child.Text? {
        code := code + Read(bufs, child.items);
        code := code + Lit("\n");
      } else if child.Lf? {
        code := code + Lit("\n");
      } else {
        NoneStays(bufs, children, k + 1);
        return None;
      }
      k := k + 1;
    }
    assert children[..k] == children;
    r := Some(code);
  }

  /** Once a prefix fails to copy, every longer prefix does. */
  lemma {:induction false} NoneStays(bufs: Buffers, children: seq<Node>, k: int)
    requires 0 <= k <= |children| && CopiedCode(bufs, children[..k]).None?
    ensures CopiedCode(bufs, children).None?
    decreases |children| - k
  {
    if k < |children| {
      assert children[..k + 1][..k] == children[..k];
      NoneStays(bufs, children, k + 1);
    } else {
      assert children[..k] == children;
    }
  }
}
