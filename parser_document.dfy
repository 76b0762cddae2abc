// parser/Document.cpp (the middle generation): the HTML visitor that reads
// every Text node's string out of the document's text by offset and length,
// Document::toHtml, and Container::appendChildren.

module ParserDocument {
  import opened Optional
  import opened QStr
  import opened Sequences

  /**
   * The nodes the middle generation's visitor meets. A Text is a range of
   * the document's text; the inline wrappers hold the Text they wrap, and
   * the image, link and inline-code parts may be null (None). Node types
   * the visitor does not implement are `Unvisited`.
   */
  datatype Node =
    | Header(level: int, children: seq<Node>)
    | Text(offset: int, length: int)
    | ItalicText(text: Node)
    | BoldText(text: Node)
    | ItalicBoldText(text: Node)
    | Image(alt: Option<Node>, src: Option<Node>)
    | Link(href: Option<Node>, content: Option<Node>)
    | CodeBlock(children: seq<Node>)
    | InlineCode(code: Option<Node>)
    | Paragraph(children: seq<Node>)
    | CheckboxList(children: seq<Node>)
    | CheckboxItem(checked: bool, children: seq<Node>)
    | UnorderedList(children: seq<Node>)
    | OrderedList(children: seq<Node>)
    | UnorderedListItem(children: seq<Node>)
    | OrderedListItem(children: seq<Node>)
    | Hr
    | Lf
    | QuoteBlock(children: seq<Node>)
    | Table(header: seq<QString>, rows: seq<seq<QString>>)
    | Unvisited

  // ---------------------------------------------------------------------
  // DefaultHtmlVisitor

  /** The opening tag of a checkbox row: the `checked` attribute iff the item is checked. */
  function BoxOpen(checked: bool): QString
  {
    if checked then Lit("\t<div><input type=\"checkbox\" checked/>") else Lit("\t<div><input type=\"checkbox\"/>")
  }

  /** CheckboxList::children()[k]->isChecked(): the flag of a checkbox item. */
  predicate IsChecked(n: Node)
  {
    n.CheckboxItem? && n.checked
  }

  /** Each node wrapped in `open` and `close`, in order. */
  function Wrapped(text: QString, ns: seq<Node>, open: QString, close: QString): QString
    decreases ns, 3
  {
    if |ns| == 0 then [] else Wrapped(text, ns[..|ns| - 1], open, close) + (open + Html(text, ns[|ns| - 1]) + close)
  }

  /** The rows of a checkbox list: each item in its checkbox <div>. */
  function Boxes(text: QString, ns: seq<Node>): QString
    decreases ns, 3
  {
    if |ns| == 0 then []
    else
      var last := ns[|ns| - 1];
      Boxes(text, ns[..|ns| - 1]) + (BoxOpen(IsChecked(last)) + Html(text, last) + Lit("</div>\n"))
  }

  /** What an optional part writes: nothing when it is null. */
  function OptionHtml(text: QString, o: Option<Node>): QString
    decreases o, 3
  {
    match o
    case None => []
    case Some(n) => Html(text, n)
  }

  /** The cells of a table row, each as a <th> cell. */
  function Cells(cells: seq<QString>): QString
  {
    if |cells| == 0 then [] else Cells(cells[..|cells| - 1]) + (Lit("<th>") + cells[|cells| - 1] + Lit("</th>"))
  }

  /** The body rows of a table, each as a <tr> of <th> cells. */
  function Rows(rows: seq<seq<QString>>): QString
  {
    if |rows| == 0 then [] else Rows(rows[..|rows| - 1]) + (Lit("<tr>") + Cells(rows[|rows| - 1]) + Lit("</tr>"))
  }

  /** The tag name of a header: `h` and the level in decimal. */
  function HeaderTag(level: int): QString
  {
    Lit("h") + Number(level)
  }

  /** The HTML of a table: the header cells, then the body rows. */
  function TableHtml(header: seq<QString>, rows: seq<seq<QString>>): QString
  {
    (Lit("<table>\n") + Lit("<thead><tr>")) + Cells(header) + (Lit("</tr></thead>\n") + Lit("<tbody>\n")) + Rows(rows)
    + (Lit("</tbody>") + Lit("</table>\n"))
  }

  /** What DefaultHtmlVisitor appends for a node, a Text being read out of `text`. */
  function Html(text: QString, n: Node): QString
    decreases n, 2
  {
    match n
    case Header(_, _) => HeaderHtml(text, n)
    case Text(offset, length) => Mid(text, offset, length)
    case ItalicText(_) => EmphasisHtml(text, n)
    case BoldText(_) => EmphasisHtml(text, n)
    case ItalicBoldText(_) => EmphasisHtml(text, n)
    case Image(_, _) => PairHtml(text, n)
    case Link(_, _) => PairHtml(text, n)
    case CodeBlock(_) => BlockHtml(text, n)
    case InlineCode(_) => InlineCodeHtml(text, n)
    case Paragraph(_) => BlockHtml(text, n)
    case CheckboxList(children) => Boxes(text, children)
    case CheckboxItem(_, children) => Wrapped(text, children, [], [])
    case UnorderedList(_) => BlockHtml(text, n)
    case OrderedList(_) => BlockHtml(text, n)
    case UnorderedListItem(children) => Wrapped(text, children, [], [])
    case OrderedListItem(children) => Wrapped(text, children, [], [])
    case Hr => Lit("<hr/>\n")
    case Lf => Lit("\n")
    case QuoteBlock(_) => BlockHtml(text, n)
    case Table(header, rows) => TableHtml(header, rows)
    case Unvisited => []
  }

  /** A header: `<hN>`, the children, `</hN>` and a line break. */
  function HeaderHtml(text: QString, n: Node): QString
    requires n.Header?
    decreases n, 1
  {
    Lit("<") + HeaderTag(n.level) + Lit(">") + Wrapped(text, n.children, [], []) + (Lit("</") + HeaderTag(n.level) + Lit(">\n"))
  }

  /** Italic, bold and bold italic: the wrapped Text between the opening and closing tags. */
  function EmphasisHtml(text: QString, n: Node): QString
    requires n.ItalicText? || n.BoldText? || n.ItalicBoldText?
    decreases n, 1
  {
    match n
    case ItalicText(t) => Lit("<em>") + Html(text, t) + Lit("</em>")
    case BoldText(t) => Lit("<strong>") + Html(text, t) + Lit("</strong>")
    case ItalicBoldText(t) => Lit("<strong><em>") + Html(text, t) + Lit("</strong></em>")
  }

  /** Image and link: two optional parts, each written only when it is there. */
  function PairHtml(text: QString, n: Node): QString
    requires n.Image? || n.Link?
    decreases n, 1
  {
    match n
    case Image(alt, src) =>
      Lit("<img alt=\"") + OptionHtml(text, alt) + Lit("\" src=\"") + OptionHtml(text, src) + (Lit("\" />") + Lit("\n"))
    case Link(href, content) =>
      Lit("<a href=\"") + OptionHtml(text, href) + Lit("\">") + OptionHtml(text, content) + (Lit("</a>") + Lit("\n"))
  }

  /** Inline code: the optional code between <code> and </code>. */
  function InlineCodeHtml(text: QString, n: Node): QString
    requires n.InlineCode?
    decreases n, 1
  {
    Lit("<code>") + OptionHtml(text, n.code) + Lit("</code>\n")
  }

  /** The block containers: an opening tag, the children (list items in <li>), a closing tag. */
  function BlockHtml(text: QString, n: Node): QString
    requires n.CodeBlock? || n.Paragraph? || n.UnorderedList? || n.OrderedList? || n.QuoteBlock?
    decreases n, 1
  {
    match n
    case CodeBlock(children) => Lit("<pre><code>\n") + Wrapped(text, children, [], []) + Lit("</code></pre>\n")
    case Paragraph(children) =>
      if |children| == 0 then [] else Lit("<p>") + Wrapped(text, children, [], []) + Lit("</p>\n")
    case UnorderedList(children) => Lit("<ul>\n") + Wrapped(text, children, Lit("\t<li>"), Lit("</li>\n")) + Lit("</ul>\n")
    case OrderedList(children) => Lit("<ol>\n") + Wrapped(text, children, Lit("\t<li>"), Lit("</li>\n")) + Lit("</ol>\n")
    case QuoteBlock(children) => Lit("<blockquote>\n") + Wrapped(text, children, [], Lit("\n")) + Lit("</blockquote>\n")
  }

  /** The HTML of a node list: each node's HTML, in order. */
  function HtmlAll(text: QString, ns: seq<Node>): QString
  {
    Wrapped(text, ns, [], [])
  }

  /** The nodes whose visit appends text and visits no node. */
  predicate IsLeaf(n: Node)
  {
    n.Text? || n.Hr? || n.Lf? || n.Unvisited?
  }

  /** The nodes whose visit wraps one or two optional parts. */
  predicate IsWrapper(n: Node)
  {
    n.ItalicText? || n.BoldText? || n.ItalicBoldText? || n.Image? || n.Link? || n.InlineCode?
  }

  // ---------------------------------------------------------------------
  // properties

  /** Wrapping distributes over concatenation of node lists. */
  lemma {:induction false} WrappedAppend(text: QString, a: seq<Node>, b: seq<Node>, open: QString, close: QString)
    ensures Wrapped(text, a + b, open, close) == Wrapped(text, a, open, close) + Wrapped(text, b, open, close)
    decreases |b|
  {
    if |b| == 0 {
      assert a + b == a;
    } else {
      var init := b[..|b| - 1];
      var piece := open + Html(text, b[|b| - 1]) + close;
      WrappedAppend(text, a, init, open, close);
      assert (a + b)[..|a + b| - 1] == a + init;
      assert (a + b)[|a + b| - 1] == b[|b| - 1];
      assert Wrapped(text, a + b, open, close) == Wrapped(text, a + init, open, close) + piece;
      assert (Wrapped(text, a, open, close) + Wrapped(text, init, open, close)) + piece
        == Wrapped(text, a, open, close) + (Wrapped(text, init, open, close) + piece);
    }
  }

  /** A one-node list is that node between `open` and `close`. */
  lemma {:induction false} WrappedOne(text: QString, n: Node, open: QString, close: QString)
    ensures Wrapped(text, [n], open, close) == open + Html(text, n) + close
  {
    assert [n][..0] == [];
    assert Wrapped(text, [n], open, close) == [] + (open + Html(text, n) + close);
  }

  /** A node list's HTML is the HTML of its first node followed by the HTML of the rest. */
  lemma {:induction false} HtmlAllCons(text: QString, n: Node, rest: seq<Node>)
    ensures HtmlAll(text, [n] + rest) == Html(text, n) + HtmlAll(text, rest)
  {
    WrappedAppend(text, [n], rest, [], []);
    WrappedOne(text, n, [], []);
    assert [] + Html(text, n) + [] == Html(text, n);
  }

  /**
   * A Text writes exactly its range of the document's text when the range
   * lies inside it, unescaped, and never more units than its length.
   */
  lemma {:induction false} TextHtml(text: QString, offset: int, length: int)
    ensures 0 <= length ==> |Html(text, Text(offset, length))| <= length
    ensures 0 <= offset && 0 <= length && offset + length <= |text| ==>
      Html(text, Text(offset, length)) == text[offset..offset + length]
  {
  }

  /** A paragraph without children writes nothing, not even the <p> tags. */
  lemma {:induction false} EmptyParagraphSilent(text: QString)
    ensures Html(text, Paragraph([])) == []
  {
  }

  /** A paragraph of one node writes that node's HTML between <p> and </p>. */
  lemma {:induction false} ParagraphOne(text: QString, n: Node)
    ensures Html(text, Paragraph([n])) == Lit("<p>") + Html(text, n) + Lit("</p>\n")
  {
    WrappedOne(text, n, [], []);
    assert [] + Html(text, n) + [] == Html(text, n);
  }

  /** A paragraph holding a single Text writes the Text's range between <p> and </p>. */
  lemma {:induction false} ParagraphHtml(text: QString, offset: int, length: int)
    requires 0 <= offset && 0 <= length && offset + length <= |text|
    ensures Html(text, Paragraph([Text(offset, length)])) == Lit("<p>") + text[offset..offset + length] + Lit("</p>\n")
  {
    ParagraphOne(text, Text(offset, length));
  }

  /** The two opening tags of a checkbox row differ: one carries `checked`, the other does not. */
  lemma {:induction false} BoxOpenDistinct()
    ensures BoxOpen(true) != BoxOpen(false)
  {
    assert |BoxOpen(true)| != |BoxOpen(false)|;
  }

  /**
   * A one-item checkbox list writes the opening tag for the item's flag,
   * the item's children and the closing </div>.
   */
  lemma {:induction false} CheckboxHtml(text: QString, checked: bool, children: seq<Node>)
    ensures Html(text, CheckboxList([CheckboxItem(checked, children)]))
         == BoxOpen(checked) + Wrapped(text, children, [], []) + Lit("</div>\n")
  {
    var item := CheckboxItem(checked, children);
    assert [item][..0] == [];
    assert Html(text, item) == Wrapped(text, children, [], []);
    assert IsChecked(item) == checked;
    assert Boxes(text, [item]) == [] + (BoxOpen(checked) + Html(text, item) + Lit("</div>\n"));
  }

  /** A table's HTML depends only on its cells, never on the document's text. */
  lemma {:induction false} TableIgnoresText(t1: QString, t2: QString, header: seq<QString>, rows: seq<seq<QString>>)
    ensures Html(t1, Table(header, rows)) == Html(t2, Table(header, rows))
    ensures Html(t1, Table(header, rows)) == TableHtml(header, rows)
  {
  }

  /** Nodes of a type the visitor does not implement write nothing, wherever they sit in a list. */
  lemma {:induction false} UnvisitedSilent(text: QString, a: seq<Node>, b: seq<Node>)
    ensures HtmlAll(text, a + [Unvisited] + b) == HtmlAll(text, a + b)
  {
    WrappedAppend(text, a + [Unvisited], b, [], []);
    WrappedAppend(text, a, [Unvisited], [], []);
    WrappedAppend(text, a, b, [], []);
    WrappedOne(text, Unvisited, [], []);
  }

  // ---------------------------------------------------------------------
  // the visitor

  /**
   * DefaultHtmlVisitor: `html` grows with every visit; `text` is the
   * document's text the Text nodes are read from.
   */
  class HtmlVisitor {
    var html: QString
    const text: QString

    constructor(text: QString)
      ensures html == [] && this.text == text
    {
      html := [];
      this.text := text;
    }

    method Visit(n: Node)
      modifies this
      ensures html == old(html) + Html(text, n)
      decreases n, 4
    {
      if IsLeaf(n) {
        VisitLeaf(n);
      } else if n.Table? {
        VisitTable(n.header, n.rows);
      } else if IsWrapper(n) {
        VisitWrapper(n);
      } else {
        VisitContainer(n);
      }
    }

    /** The visits that append a single piece and visit no node. */
    method VisitLeaf(n: Node)
      requires IsLeaf(n)
      modifies this
      ensures html == old(html) + Html(text, n)
    {
      match n
      case Text(offset, length) =>
        html := html + Mid(text, offset, length);
      case Hr =>
        html := html + Lit("<hr/>\n");
      case Lf =>
        html := html + Lit("\n");
      case Unvisited =>
        assert html == html + [];
    }

    /** An optional part: visited when it is there, nothing when it is null. */
    method VisitOption(o: Option<Node>, ghost parent: Node)
      requires o.Some? ==> o.value < parent
      modifies this
      ensures html == old(html) + OptionHtml(text, o)
      decreases parent, 1
    {
      if o.Some? {
        Visit(o.value);
      } else {
        assert html == html + [];
      }
    }

    /** The visits of the inline wrappers: an opening piece, the wrapped part(s), a closing piece. */
    method VisitWrapper(n: Node)
      requires IsWrapper(n)
      modifies this
      ensures html == old(html) + Html(text, n)
      decreases n, 3
    {
      match n
      case ItalicText(t) =>
        VisitAround(Lit("<em>"), Some(t), Lit("</em>"), n);
      case BoldText(t) =>
        VisitAround(Lit("<strong>"), Some(t), Lit("</strong>"), n);
      case ItalicBoldText(t) =>
        VisitAround(Lit("<strong><em>"), Some(t), Lit("</strong></em>"), n);
      case Image(alt, src) =>
        VisitPair(Lit("<img alt=\""), alt, Lit("\" src=\""), src, Lit("\" />") + Lit("\n"), n);
      case Link(href, content) =>
        VisitPair(Lit("<a href=\""), href, Lit("\">"), content, Lit("</a>") + Lit("\n"), n);
      case InlineCode(code) =>
        VisitAround(Lit("<code>"), code, Lit("</code>\n"), n);
    }

    /** `before`, the optional part, `after`. */
    method VisitAround(before: QString, o: Option<Node>, after: QString, ghost parent: Node)
      requires o.Some? ==> o.value < parent
      modifies this
      ensures html == old(html) + (before + OptionHtml(text, o) + after)
      decreases parent, 2
    {
      html := html + before;
      VisitOption(o, parent);
      html := html + after;
      Append3(old(html), before, OptionHtml(text, o), after);
    }

    /** `before`, the first optional part, `middle`, the second, `after`: the image and link visits. */
    method VisitPair(before: QString, first: Option<Node>, middle: QString, second: Option<Node>, after: QString,
                     ghost parent: Node)
      requires first.Some? ==> first.value < parent
      requires second.Some? ==> second.value < parent
      modifies this
      ensures html == old(html) + (before + OptionHtml(text, first) + middle + OptionHtml(text, second) + after)
      decreases parent, 2
    {
      html := html + before;
      VisitOption(first, parent);
      html := html + middle;
      VisitOption(second, parent);
      html := html + after;
      Append5(old(html), before, OptionHtml(text, first), middle, OptionHtml(text, second), after);
    }

    /** The visits of the containers: their children in order. */
    method VisitContainer(n: Node)
      requires !IsLeaf(n) && !n.Table? && !IsWrapper(n)
      modifies this
      ensures html == old(html) + Html(text, n)
      decreases n, 3
    {
      match n
      case Header(level, children) =>
        VisitWrapped(Lit("<") + HeaderTag(level) + Lit(">"), children, [], [], Lit("</") + HeaderTag(level) + Lit(">\n"), n);
      case CodeBlock(children) =>
        VisitWrapped(Lit("<pre><code>\n"), children, [], [], Lit("</code></pre>\n"), n);
      case Paragraph(children) =>
        if |children| == 0 {
          assert html == html + [];
          return;
        }
        VisitWrapped(Lit("<p>"), children, [], [], Lit("</p>\n"), n);
      case CheckboxList(children) =>
        VisitBoxes(children, n);
      case CheckboxItem(_, children) =>
        VisitEach(children, [], [], n);
      case UnorderedList(children) =>
        VisitWrapped(Lit("<ul>\n"), children, Lit("\t<li>"), Lit("</li>\n"), Lit("</ul>\n"), n);
      case OrderedList(children) =>
        VisitWrapped(Lit("<ol>\n"), children, Lit("\t<li>"), Lit("</li>\n"), Lit("</ol>\n"), n);
      case UnorderedListItem(children) =>
        VisitEach(children, [], [], n);
      case OrderedListItem(children) =>
        VisitEach(children, [], [], n);
      case QuoteBlock(children) =>
        VisitWrapped(Lit("<blockquote>\n"), children, [], Lit("\n"), Lit("</blockquote>\n"), n);
    }

    /** A container visit: `before`, the children each between `open` and `close`, then `after`. */
    method VisitWrapped(before: QString, children: seq<Node>, open: QString, close: QString, after: QString,
                        ghost parent: Node)
      requires forall k :: 0 <= k < |children| ==> children[k] < parent
      modifies this
      ensures html == old(html) + (before + Wrapped(text, children, open, close) + after)
      decreases parent, 2
    {
      html := html + before;
      VisitEach(children, open, close, parent);
      html := html + after;
      Append3(old(html), before, Wrapped(text, children, open, close), after);
    }

    /** The children loop of a container visit: `open`, the child, `close`, for each child in order. */
    method VisitEach(children: seq<Node>, open: QString, close: QString, ghost parent: Node)
      requires forall k :: 0 <= k < |children| ==> children[k] < parent
      modifies this
      ensures html == old(html) + Wrapped(text, children, open, close)
      decreases parent, 1
    {
      var k := 0;
      while k < |children|
        invariant 0 <= k <= |children|
        invariant html == old(html) + Wrapped(text, children[..k], open, close)
      {
        ghost var done := Wrapped(text, children[..k], open, close);
        assert children[..k + 1][..k] == children[..k];
        html := html + open;
        Visit(children[k]);
        html := html + close;
        AppendPiece(old(html), done, open, Html(text, children[k]), close);
        k := k + 1;
      }
      assert children[..k] == children;
    }

    /** The checkbox list visit: each item in a <div> whose input is checked iff the item is. */
    method VisitBoxes(children: seq<Node>, ghost parent: Node)
      requires forall k :: 0 <= k < |children| ==> children[k] < parent
      modifies this
      ensures html == old(html) + Boxes(text, children)
      decreases parent, 1
    {
      var k := 0;
      while k < |children|
        invariant 0 <= k <= |children|
        invariant html == old(html) + Boxes(text, children[..k])
      {
        ghost var done := Boxes(text, children[..k]);
        assert children[..k + 1][..k] == children[..k];
        var it := children[k];
        var open := if it.CheckboxItem? && it.checked then Lit("\t<div><input type=\"checkbox\" checked/>")
                    else Lit("\t<div><input type=\"checkbox\"/>");
        html := html + open;
        Visit(it);
        html := html + Lit("</div>\n");
        AppendPiece(old(html), done, open, Html(text, it), Lit("</div>\n"));
        k := k + 1;
      }
      assert children[..k] == children;
    }

    /** The cells loop of the table visit: each cell as a <th> cell. */
    method VisitCells(cells: seq<QString>)
      modifies this
      ensures html == old(html) + Cells(cells)
    {
      var k := 0;
      while k < |cells|
        invariant 0 <= k <= |cells|
        invariant html == old(html) + Cells(cells[..k])
      {
        ghost var done := Cells(cells[..k]);
        assert cells[..k + 1][..k] == cells[..k];
        html := html + Lit("<th>");
        html := html + cells[k];
        html := html + Lit("</th>");
        AppendPiece(old(html), done, Lit("<th>"), cells[k], Lit("</th>"));
        k := k + 1;
      }
      assert cells[..k] == cells;
    }

    /** The body loop of the table visit: each row as a <tr> of <th> cells. */
    method VisitRows(rows: seq<seq<QString>>)
      modifies this
      ensures html == old(html) + Rows(rows)
    {
      var r := 0;
      while r < |rows|
        invariant 0 <= r <= |rows|
        invariant html == old(html) + Rows(rows[..r])
      {
        ghost var done := Rows(rows[..r]);
        assert rows[..r + 1][..r] == rows[..r];
        html := html + Lit("<tr>");
        VisitCells(rows[r]);
        html := html + Lit("</tr>");
        AppendPiece(old(html), done, Lit("<tr>"), Cells(rows[r]), Lit("</tr>"));
        r := r + 1;
      }
      assert rows[..r] == rows;
    }

    /** The table visit: the header cells, then each body row. */
    method VisitTable(header: seq<QString>, rows: seq<seq<QString>>)
      modifies this
      ensures html == old(html) + TableHtml(header, rows)
    {
      var head := Lit("<table>\n") + Lit("<thead><tr>");
      var middle := Lit("</tr></thead>\n") + Lit("<tbody>\n");
      var tail := Lit("</tbody>") + Lit("</table>\n");
      html := html + head;
      VisitCells(header);
      html := html + middle;
      VisitRows(rows);
      html := html + tail;
      Append5(old(html), head, Cells(header), middle, Rows(rows), tail);
    }

    /** Document::toHtml's loop: every node of the list, in order, as the children loop does it (the root is their ghost parent). */
    method VisitAll(ns: seq<Node>)
      modifies this
      ensures html == old(html) + HtmlAll(text, ns)
    {
      ghost var root := Paragraph(ns);
      VisitEach(ns, [], [], root);
    }
  }

  /**
   * Document: the text it was made from and the root's children, which
   * Parser::parse supplies (None until it has).
   */
  class Document {
    const text: QString
    var root: Option<seq<Node>>

    constructor(str: QString)
      ensures text == str && root == None
    {
      text := str;
      root := None;
    }

    /** toHtml: every child of the root visited in order by one visitor over the document's text. */
    method ToHtml() returns (r: QString)
      requires root.Some?
      ensures r == HtmlAll(text, root.value)
    {
      var visitor := new HtmlVisitor(text);
      visitor.VisitAll(root.value);
      assert visitor.html == [] + HtmlAll(text, root.value);
      r := visitor.html;
    }
  }

  /** Container, as far as appendChildren edits it: an ordered list of children. */
  class Container {
    var children: seq<Node>

    constructor()
      ensures children == []
    {
      children := [];
    }

    /** appendChildren: the Texts go at the end, in order; an empty list changes nothing. */
    method AppendChildren(texts: seq<Node>)
      requires forall k :: 0 <= k < |texts| ==> texts[k].Text?
      modifies this
      ensures children == old(children) + texts
    {
      if |texts| == 0 {
        return;
      }
      var k := 0;
      while k < |texts|
        invariant 0 <= k <= |texts|
        invariant children == old(children) + texts[..k]
      {
        assert texts[..k + 1] == texts[..k] + [texts[k]];
        children := children + [texts[k]];
        k := k + 1;
      }
      assert texts[..k] == texts;
    }
  }
}
