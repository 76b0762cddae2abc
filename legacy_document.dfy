// Document.cpp at the repository root: the HTML visitor over the node tree of
// Document.h and the Document that parses a text and renders it.

module LegacyDocument {
  import opened Optional
  import opened QStr
  import opened Sequences
  import opened LegacyAst
  import opened LegacyParser

  // ---------------------------------------------------------------------
  // QString::toHtmlEscaped

  /** The entity toHtmlEscaped writes for one unit: < > & " are replaced, the rest kept. */
  function EscapeUnit(c: CodeUnit): (r: QString)
    ensures |r| >= 1
  {
    if c == 0x3C then Lit("&lt;")
    else if c == 0x3E then Lit("&gt;")
    else if c == 0x26 then Lit("&amp;")
    else if c == 0x22 then Lit("&quot;")
    else [c]
  }

  /** QString::toHtmlEscaped. */
  function Escaped(s: QString): (r: QString)
    ensures |r| >= |s|
  {
    if |s| == 0 then [] else EscapeUnit(s[0]) + Escaped(s[1..])
  }

  /** Reading the entities back: each of the four entities becomes its unit again. */
  function Unescaped(s: QString): QString
    decreases |s|
  {
    if |s| == 0 then []
    else if StartsWith(s, Lit("&lt;")) then [0x3C] + Unescaped(s[4..])
    else if StartsWith(s, Lit("&gt;")) then [0x3E] + Unescaped(s[4..])
    else if StartsWith(s, Lit("&amp;")) then [0x26] + Unescaped(s[5..])
    else if StartsWith(s, Lit("&quot;")) then [0x22] + Unescaped(s[6..])
    else [s[0]] + Unescaped(s[1..])
  }

  /** One escaped unit is read back as that unit, whatever follows it. */
  lemma {:induction false} UnescapeUnit(c: CodeUnit, rest: QString)
    ensures Unescaped(EscapeUnit(c) + rest) == [c] + Unescaped(rest)
  {
    var e := EscapeUnit(c);
    var s := e + rest;
    assert s[..|e|] == e;
    assert s[|e|..] == rest;
    if c == 0x3C || c == 0x3E || c == 0x26 || c == 0x22 {
      assert s[0] == 0x26;
      if c != 0x3C {
        assert s[1] != 0x6C;
        assert Lit("&lt;")[1] == 0x6C;
        assert !StartsWith(s, Lit("&lt;"));
      }
      if c != 0x3C && c != 0x3E {
        assert Lit("&gt;")[1] == 0x67;
        assert !StartsWith(s, Lit("&gt;"));
      }
      if c == 0x22 {
        assert Lit("&amp;")[1] == 0x61;
        assert !StartsWith(s, Lit("&amp;"));
      }
    } else {
      assert s[0] == c && c != 0x26;
      assert !StartsWith(s, Lit("&lt;")) && !StartsWith(s, Lit("&gt;"));
      assert !StartsWith(s, Lit("&amp;")) && !StartsWith(s, Lit("&quot;"));
      assert s[1..] == rest;
    }
  }

  /** Escaping loses nothing: the entities read back give the original string. */
  lemma {:induction false} EscapeRoundTrip(s: QString)
    ensures Unescaped(Escaped(s)) == s
    decreases |s|
  {
    if |s| > 0 {
      UnescapeUnit(s[0], Escaped(s[1..]));
      EscapeRoundTrip(s[1..]);
      assert s == [s[0]] + s[1..];
    }
  }

  /** Escaped text holds no <, > or ". */
  lemma {:induction false} EscapedIsInert(s: QString)
    ensures forall k :: 0 <= k < |Escaped(s)| ==> Escaped(s)[k] != 0x3C && Escaped(s)[k] != 0x3E && Escaped(s)[k] != 0x22
    decreases |s|
  {
    if |s| > 0 {
      EscapedIsInert(s[1..]);
      var e := EscapeUnit(s[0]);
      var r := Escaped(s[1..]);
      assert forall k :: 0 <= k < |e| ==> e[k] != 0x3C && e[k] != 0x3E && e[k] != 0x22;
      forall k | 0 <= k < |e + r|
        ensures (e + r)[k] != 0x3C && (e + r)[k] != 0x3E && (e + r)[k] != 0x22
      {
        if k >= |e| {
          assert (e + r)[k] == r[k - |e|];
        }
      }
    }
  }

  // ---------------------------------------------------------------------
  // DefaultHtmlVisitor

  /** The string of an optional Text: a null Text writes nothing. */
  function TextOr(t: Option<QString>): QString
  {
    if t.Some? then t.value else []
  }

  /** Each node wrapped in `open` and `close`, in order. */
  function Wrapped(ns: seq<Node>, open: QString, close: QString): QString
    decreases ns, 1
  {
    if |ns| == 0 then [] else Wrapped(ns[..|ns| - 1], open, close) + (open + Html(ns[|ns| - 1]) + close)
  }

  /** The cells of a table row, each as a <th> cell. */
  function HeadCells(cells: seq<QString>): QString
  {
    if |cells| == 0 then [] else HeadCells(cells[..|cells| - 1]) + (Lit("<th>") + cells[|cells| - 1] + Lit("</th>"))
  }

  /** The body rows of a table, each as a <tr> of <th> cells. */
  function BodyRows(rows: seq<seq<QString>>): QString
  {
    if |rows| == 0 then [] else BodyRows(rows[..|rows| - 1]) + (Lit("<tr>") + HeadCells(rows[|rows| - 1]) + Lit("</tr>"))
  }

  /** The opening tag of a header: `<hN>`. */
  function HeaderOpen(level: int): QString
  {
    Lit("<h") + Number(level) + Lit(">")
  }

  /** The closing tag of a header and its line break: `</hN>` and '\n'. */
  function HeaderClose(level: int): QString
  {
    Lit("</h") + Number(level) + Lit(">\n")
  }

  /** What DefaultHtmlVisitor writes for an image: its alt and src between the attribute quotes. */
  function ImageHtml(alt: Option<QString>, src: Option<QString>): QString
  {
    Lit("<img alt=\"") + TextOr(alt) + Lit("\" src=\"") + TextOr(src) + Lit("\" />") + Lit("\n")
  }

  /** What DefaultHtmlVisitor writes for a link: the href as the attribute, the content as the text. */
  function LinkHtml(content: Option<QString>, href: Option<QString>): QString
  {
    Lit("<a href=\"") + TextOr(href) + Lit("\">") + TextOr(content) + Lit("</a>") + Lit("\n")
  }

  /** What DefaultHtmlVisitor appends for a node; the LaTeX nodes have no visit and write nothing. */
  function Html(n: Node): QString
    decreases n, 0
  {
    match n
    case Header(level, children) => HeaderOpen(level) + Wrapped(children, [], []) + HeaderClose(level)
    case Text(str) => str
    case ItalicText(str) => Lit("<em>") + str + Lit("</em>")
    case BoldText(str) => Lit("<strong>") + str + Lit("</strong>")
    case ItalicBoldText(str) => Lit("<strong><em>") + str + Lit("</strong></em>")
    case Image(alt, src) => ImageHtml(alt, src)
    case Link(content, href) => LinkHtml(content, href)
    case CodeBlock(_, code) => Lit("<pre><code>\n") + Escaped(code) + Lit("</code></pre>\n")
    case InlineCode(span) => Lit("<code>") + TextOr(span) + Lit("</code>\n")
    case Paragraph(children) => Lit("<p>") + Wrapped(children, [], []) + Lit("</p>\n")
    case CheckboxList(children) => Wrapped(children, Lit("\t<div><input type=\"checkbox\"/>"), Lit("</div>\n"))
    case UnorderedList(children) => Lit("<ul>\n") + Wrapped(children, Lit("\t<li>"), Lit("</li>\n")) + Lit("</ul>\n")
    case OrderedList(children) => Lit("<ol>\n") + Wrapped(children, Lit("\t<li>"), Lit("</li>\n")) + Lit("</ol>\n")
    case Hr => Lit("<hr/>\n")
    case QuoteBlock(children) => Lit("<blockquote>\n") + Wrapped(children, [], Lit("\n")) + Lit("</blockquote>\n")
    case Table(header, rows) =>
      Lit("<table>\n<thead><tr>") + HeadCells(header) + Lit("</tr></thead>\n<tbody>\n") + BodyRows(rows)
      + Lit("</tbody></table>\n")
    case InlineLatex(_) => []
    case LatexBlock(_) => []
  }

  /** The nodes whose visit writes a single piece of text and visits no children. */
  predicate IsInline(n: Node)
  {
    n.Text? || n.ItalicText? || n.BoldText? || n.ItalicBoldText? || n.Image? || n.Link? || n.InlineCode? || n.InlineLatex?
  }

  /** The HTML of a node list: each node's HTML, in order. */
  function HtmlAll(ns: seq<Node>): QString
  {
    Wrapped(ns, [], [])
  }

  /** The last node of a wrapped list: `ns` is `init` and then `last`. */
  lemma {:induction false} WrappedLast(ns: seq<Node>, init: seq<Node>, last: Node, open: QString, close: QString)
    requires ns == init + [last]
    ensures Wrapped(ns, open, close) == Wrapped(init, open, close) + (open + Html(last) + close)
  {
    assert ns[..|ns| - 1] == init;
  }

  /** Wrapping distributes over concatenation of node lists. */
  lemma {:induction false} WrappedAppend(a: seq<Node>, b: seq<Node>, open: QString, close: QString)
    ensures Wrapped(a + b, open, close) == Wrapped(a, open, close) + Wrapped(b, open, close)
    decreases |b|
  {
    if |b| == 0 {
      assert a + b == a;
    } else {
      var init := b[..|b| - 1];
      var last := b[|b| - 1];
      var piece := open + Html(last) + close;
      WrappedAppend(a, init, open, close);
      InitLast(b);
      Assoc(a, init, [last]);
      WrappedLast(a + b, a + init, last, open, close);
      WrappedLast(b, init, last, open, close);
      Assoc(Wrapped(a, open, close), Wrapped(init, open, close), piece);
    }
  }

  /** A node list's HTML is the HTML of its first node followed by the HTML of the rest. */
  lemma {:induction false} HtmlAllCons(n: Node, rest: seq<Node>)
    ensures HtmlAll([n] + rest) == Html(n) + HtmlAll(rest)
  {
    WrappedAppend([n], rest, [], []);
    assert [n][..0] == [];
    assert Wrapped([n], [], []) == [] + ([] + Html(n) + []);
    assert [] + ([] + Html(n) + []) == Html(n);
  }

  /**
   * The visitor of Document.cpp: every visit appends to `html`, and a node
   * with children visits them in order.
   */
  class HtmlVisitor {
    var html: QString

    constructor()
      ensures html == []
    {
      html := [];
    }

    method Visit(n: Node)
      modifies this
      ensures html == old(html) + Html(n)
      decreases n, 3
    {
      if IsInline(n) {
        VisitInline(n);
      } else {
        VisitBlock(n);
      }
    }

    /** The visits of the inline nodes, each a single append. */
    method VisitInline(n: Node)
      requires IsInline(n)
      modifies this
      ensures html == old(html) + Html(n)
    {
      match n
      case Text(str) =>
        html := html + str;
      case ItalicText(str) =>
        html := html + (Lit("<em>") + str + Lit("</em>"));
      case BoldText(str) =>
        html := html + (Lit("<strong>") + str + Lit("</strong>"));
      case ItalicBoldText(str) =>
        html := html + (Lit("<strong><em>") + str + Lit("</strong></em>"));
      case Image(alt, src) =>
        html := html + ImageHtml(alt, src);
      case Link(content, href) =>
        html := html + LinkHtml(content, href);
      case InlineCode(span) =>
        html := html + (Lit("<code>") + TextOr(span) + Lit("</code>\n"));
      case InlineLatex(_) =>
        assert html == html + [];
    }

    /** The visits of the block nodes; the containers visit their children. */
    method VisitBlock(n: Node)
      requires !IsInline(n)
      modifies this
      ensures html == old(html) + Html(n)
      decreases n, 2
    {
      match n
      case Header(level, children) =>
        VisitWrapped(HeaderOpen(level), children, [], [], HeaderClose(level), n);
      case CodeBlock(_, code) =>
        html := html + (Lit("<pre><code>\n") + Escaped(code) + Lit("</code></pre>\n"));
      case Paragraph(children) =>
        VisitWrapped(Lit("<p>"), children, [], [], Lit("</p>\n"), n);
      case CheckboxList(children) =>
        VisitEach(children, Lit("\t<div><input type=\"checkbox\"/>"), Lit("</div>\n"), n);
      case UnorderedList(children) =>
        VisitWrapped(Lit("<ul>\n"), children, Lit("\t<li>"), Lit("</li>\n"), Lit("</ul>\n"), n);
      case OrderedList(children) =>
        VisitWrapped(Lit("<ol>\n"), children, Lit("\t<li>"), Lit("</li>\n"), Lit("</ol>\n"), n);
      case Hr =>
        html := html + Lit("<hr/>\n");
      case QuoteBlock(children) =>
        VisitWrapped(Lit("<blockquote>\n"), children, [], Lit("\n"), Lit("</blockquote>\n"), n);
      case Table(header, rows) =>
        VisitTable(header, rows);
      case LatexBlock(_) =>
        assert html == html + [];
    }

    /** A container visit: `before`, the children each between `open` and `close`, then `after`. */
    method VisitWrapped(before: QString, children: seq<Node>, open: QString, close: QString, after: QString,
                        ghost parent: Node)
      requires forall k :: 0 <= k < |children| ==> children[k] < parent
      modifies this
      ensures html == old(html) + (before + Wrapped(children, open, close) + after)
      decreases parent, 1
    {
      html := html + before;
      VisitEach(children, open, close, parent);
      html := html + after;
      Append3(old(html), before, Wrapped(children, open, close), after);
    }

    /** The children loop of a container visit: `open`, the child, `close`, for each child in order. */
    method VisitEach(children: seq<Node>, open: QString, close: QString, ghost parent: Node)
      requires forall k :: 0 <= k < |children| ==> children[k] < parent
      modifies this
      ensures html == old(html) + Wrapped(children, open, close)
      decreases parent, 0
    {
      var k := 0;
      while k < |children|
        invariant 0 <= k <= |children|
        invariant html == old(html) + Wrapped(children[..k], open, close)
      {
        ghost var done := Wrapped(children[..k], open, close);
        assert children[..k + 1][..k] == children[..k];
        html := html + open;
        Visit(children[k]);
        html := html + close;
        AppendPiece(old(html), done, open, Html(children[k]), close);
        k := k + 1;
      }
      assert children[..k] == children;
    }

    /** The cells loop of the table visit: each cell as a <th> cell. */
    method VisitCells(cells: seq<QString>)
      modifies this
      ensures html == old(html) + HeadCells(cells)
    {
      var k := 0;
      while k < |cells|
        invariant 0 <= k <= |cells|
        invariant html == old(html) + HeadCells(cells[..k])
      {
        ghost var done := HeadCells(cells[..k]);
        assert cells[..k + 1][..k] == cells[..k];
        html := html + Lit("<th>");
        html := html + cells[k];
        html := html + Lit("</th>");
        AppendPiece(old(html), done, Lit("<th>"), cells[k], Lit("</th>"));
        k := k + 1;
      }
      assert cells[..k] == cells;
    }

    /** The body loop of the table visit: each row as a <tr>. */
    method VisitRows(rows: seq<seq<QString>>)
      modifies this
      ensures html == old(html) + BodyRows(rows)
    {
      var r := 0;
      while r < |rows|
        invariant 0 <= r <= |rows|
        invariant html == old(html) + BodyRows(rows[..r])
      {
        ghost var done := BodyRows(rows[..r]);
        assert rows[..r + 1][..r] == rows[..r];
        html := html + Lit("<tr>");
        VisitCells(rows[r]);
        html := html + Lit("</tr>");
        AppendPiece(old(html), done, Lit("<tr>"), HeadCells(rows[r]), Lit("</tr>"));
        r := r + 1;
      }
      assert rows[..r] == rows;
    }

    /** The table visit: the header cells, then each body row, all as <th> cells. */
    method VisitTable(header: seq<QString>, rows: seq<seq<QString>>)
      modifies this
      ensures html == old(html) + Html(Table(header, rows))
    {
      html := html + Lit("<table>\n<thead><tr>");
      VisitCells(header);
      html := html + Lit("</tr></thead>\n<tbody>\n");
      VisitRows(rows);
      html := html + Lit("</tbody></table>\n");
      Append5(old(html), Lit("<table>\n<thead><tr>"), HeadCells(header), Lit("</tr></thead>\n<tbody>\n"),
        BodyRows(rows), Lit("</tbody></table>\n"));
    }

    /** Document::toHtml's loop: every node of the list, in order. */
    method VisitAll(ns: seq<Node>)
      modifies this
      ensures html == old(html) + HtmlAll(ns)
    {
      var k := 0;
      while k < |ns|
        invariant 0 <= k <= |ns|
        invariant html == old(html) + HtmlAll(ns[..k])
      {
        ghost var done := HtmlAll(ns[..k]);
        assert ns[..k + 1][..k] == ns[..k];
        Visit(ns[k]);
        AppendPiece(old(html), done, [], Html(ns[k]), []);
        assert old(html) + done + Html(ns[k]) == (((old(html) + done) + []) + Html(ns[k])) + [];
        k := k + 1;
      }
      assert ns[..k] == ns;
    }
  }

  /**
   * Document: the constructor keeps what Parser::parse makes of the text
   * (None when a paragraph reads past its token list), and toHtml renders
   * the kept nodes.
   */
  class Document {
    var nodes: Option<seq<Node>>

    constructor(str: QString)
      ensures nodes == Parse(str)
    {
      var parsed := ParseText(str);
      nodes := parsed;
    }

    method ToHtml() returns (r: Option<QString>)
      ensures r == if nodes.Some? then Some(HtmlAll(nodes.value)) else None
    {
      if nodes.None? {
        return None;
      }
      var visitor := new HtmlVisitor();
      visitor.VisitAll(nodes.value);
      assert visitor.html == [] + HtmlAll(nodes.value);
      assert visitor.html == HtmlAll(nodes.value);
      assert nodes.Some?;
      r := Some(visitor.html);
    }
  }

  /** The HTML of a whole document: each parsed node's HTML in order. */
  function DocumentHtml(text: QString): Option<QString>
  {
    match Parse(text)
    case None => None
    case Some(ns) => Some(HtmlAll(ns))
  }

  /**
   * A one-line plain text renders as one paragraph holding the text
   * verbatim: a Text's string is written without escaping.
   */
  lemma {:induction false} PlainTextHtml(text: QString)
    requires |text| > 0
    requires forall k :: 0 <= k < |text| ==> text[k] != CR && text[k] != LF && !LegacyInline.TriggerUnit(text[k])
    requires !TryHeader(text)
    requires !StartsWith(text, DashPrefix) && !StartsWith(text, OnePrefix) && text != RuleLine
    requires !StartsWith(text, QuotePrefix) && !StartsWith(text, BarPrefix)
    ensures DocumentHtml(text) == Some(Lit("<p>") + text + Lit("</p>\n"))
  {
    PlainTextIsParagraph(text);
    var p := Paragraph([Text(text)]);
    assert [Text(text)][..0] == [];
    assert Wrapped([Text(text)], [], []) == text;
    assert HtmlAll([p]) == Html(p) by {
      assert [p][..0] == [];
    }
  }

  /**
   * A header renders as <hN>, its content, </hN> and a line break, N being
   * the number of '#' that opened the line.
   */
  lemma {:induction false} HeaderHtml(line: QString, n: int)
    requires 1 <= n <= 6 && n < |line| && line[..n] == Hashes(n) && line[n] == Blank
    ensures Html(HeaderOf(line)) == Lit("<h") + Digits(n) + Lit(">") + line[n + 1..] + Lit("</h") + Digits(n) + Lit(">\n")
  {
    HeaderRoundTrip(line, n);
    assert [Text(line[n + 1..])][..0] == [];
    assert Wrapped([Text(line[n + 1..])], [], []) == line[n + 1..];
  }
}
