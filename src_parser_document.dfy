// src/parser/Document.h and the Container/wrapper members of
// src/parser/Document.cpp: the node tree the parser builds.

module Ast {
  import opened Optional
  import opened QStr
  import opened PieceTable

  /** The type tag every node carries (NodeType). */
  datatype NodeType =
    | none | header | paragraph | text | image | link | code_block | inline_code
    | latex_block | inline_latex | checkbox | checkbox_item | ul | ul_item | ol
    | ol_item | hr | quote_block | italic | bold | italic_bold | strickout | table | lf

  /** The spans of a Text node (Text::m_items). */
  type TextItems = seq<PieceTableItem>

  /**
   * One node of the tree. Containers hold their children in order; the
   * inline wrappers hold the spans of the Text they wrap.
   */
  datatype Node =
    | Text(items: TextItems)
    | Header(level: int, children: seq<Node>)
    | Paragraph(children: seq<Node>)
    | CheckboxItem(checked: bool, children: seq<Node>)
    | CheckboxList(children: seq<Node>)
    | UnorderedList(children: seq<Node>)
    | UnorderedListItem(children: seq<Node>)
    | OrderedList(children: seq<Node>)
    | OrderedListItem(children: seq<Node>)
    | QuoteBlock(children: seq<Node>)
    | ItalicText(text: TextItems)
    | BoldText(text: TextItems)
    | ItalicBoldText(text: TextItems)
    | StrickoutText(text: TextItems)
    | Image(alt: TextItems, src: TextItems)
    | Link(content: TextItems, href: TextItems)
    | CodeBlock(name: TextItems, children: seq<Node>)
    | Hr
    | InlineCode(code: TextItems)
    | InlineLatex(code: TextItems)
    | Table(header: seq<QString>, rows: seq<seq<QString>>)
    | Lf
    | LatexBlock(children: seq<Node>)

  /** The tag each constructor stores in m_type. */
  function Type(n: Node): NodeType
  {
    match n
    case Text(_) => text
    case Header(_, _) => header
    case Paragraph(_) => paragraph
    case CheckboxItem(_, _) => checkbox_item
    case CheckboxList(_) => checkbox
    case UnorderedList(_) => ul
    case UnorderedListItem(_) => ul_item
    case OrderedList(_) => ol
    case OrderedListItem(_) => ol_item
    case QuoteBlock(_) => quote_block
    case ItalicText(_) => italic
    case BoldText(_) => bold
    case ItalicBoldText(_) => italic_bold
    case StrickoutText(_) => strickout
    case Image(_, _) => image
    case Link(_, _) => link
    case CodeBlock(_, _) => code_block
    case Hr => hr
    case InlineCode(_) => inline_code
    case InlineLatex(_) => inline_latex
    case Table(_, _) => table
    case Lf => lf
    case LatexBlock(_) => latex_block
  }

  /**
   * The nodes whose `visit` runs when `accept` is called on each of `nodes`
   * in turn, for a visitor that implements Visitor<T> exactly for the node
   * types in `handled`: a node of another type is skipped silently.
   */
  function Visited(handled: set<NodeType>, nodes: seq<Node>): (r: seq<Node>)
    ensures |r| <= |nodes|
    ensures forall n :: n in r <==> n in nodes && Type(n) in handled
  {
    if |nodes| == 0 then []
    else
      var rest := Visited(handled, nodes[1..]);
      assert forall n :: n in nodes <==> n == nodes[0] || n in nodes[1..];
      if Type(nodes[0]) in handled then [nodes[0]] + rest else rest
  }

  /** Visiting two runs of children one after the other is visiting the runs in that order. */
  lemma {:induction false} VisitedAppend(handled: set<NodeType>, a: seq<Node>, b: seq<Node>)
    ensures Visited(handled, a + b) == Visited(handled, a) + Visited(handled, b)
    decreases |a|
  {
    if |a| == 0 {
      assert a + b == b;
    } else {
      assert (a + b)[0] == a[0];
      assert (a + b)[1..] == a[1..] + b;
      VisitedAppend(handled, a[1..], b);
    }
  }

  /** A visitor that handles every type present visits all the children, in order. */
  lemma {:induction false} VisitedAll(handled: set<NodeType>, nodes: seq<Node>)
    requires forall i :: 0 <= i < |nodes| ==> Type(nodes[i]) in handled
    ensures Visited(handled, nodes) == nodes
    decreases |nodes|
  {
    if |nodes| > 0 {
      VisitedAll(handled, nodes[1..]);
      assert nodes == [nodes[0]] + nodes[1..];
    }
  }

  /** CheckboxItem::setChecked on a value: only the flag changes. */
  function SetChecked(item: Node, flag: bool): (r: Node)
    requires item.CheckboxItem?
    ensures r.CheckboxItem? && r.checked == flag && r.children == item.children
  {
    item.(checked := flag)
  }

  /**
   * Container::insertChild as written: the index must name an existing
   * child (None is the failed assertion), so it can never append.
   */
  function InsertChildAsWritten(children: seq<Node>, i: int, node: Node): Option<seq<Node>>
  {
    if 0 <= i < |children| then Some(children[..i] + [node] + children[i..]) else None
  }

  /** As written, inserting after the last child is refused for every list of children. */
  lemma {:induction false} AppendRefusedAsWritten(children: seq<Node>, node: Node)
    ensures InsertChildAsWritten(children, |children|, node) == None
  {
  }

  /**
   * Container: an ordered list of child nodes that is edited in place.
   * Parent back-pointers are not modelled.
   */
  class Container {
    var children: seq<Node>

    /** A new container has no children. */
    constructor()
      ensures children == []
    {
      children := [];
    }

    /** appendChild: the child goes at the end. */
    method AppendChild(child: Node)
      modifies this
      ensures children == old(children) + [child]
    {
      children := children + [child];
    }

    /** setChild: exactly position i is replaced; the size is unchanged. */
    method SetChild(i: int, node: Node)
      requires 0 <= i < |children|
      modifies this
      ensures |children| == |old(children)|
      ensures children[i] == node
      ensures forall j :: 0 <= j < |children| && j != i ==> children[j] == old(children)[j]
    {
      children := children[i := node];
    }

    /**
     * insertChild, with the guard its callers rely on: the node goes before
     * position i, and i == size appends it.
     */
    method InsertChild(i: int, node: Node)
      requires 0 <= i <= |children|
      modifies this
      ensures children == old(children)[..i] + [node] + old(children)[i..]
      ensures i == |old(children)| ==> children == old(children) + [node]
      ensures |children| == |old(children)| + 1 && children[i] == node
    {
      children := children[..i] + [node] + children[i..];
    }

    /** appendChildren: every node is appended, in order; an empty list changes nothing. */
    method AppendChildren(nodes: seq<Node>)
      modifies this
      ensures children == old(children) + nodes
    {
      if |nodes| == 0 {
        return;
      }
      var j := 0;
      while j < |nodes|
        invariant 0 <= j <= |nodes|
        invariant children == old(children) + nodes[..j]
      {
        children := children + [nodes[j]];
        j := j + 1;
      }
      assert nodes[..j] == nodes;
    }

    /** Container::accept: the children a visitor handling `handled` visits, in order. */
    function Accept(handled: set<NodeType>): (r: seq<Node>)
      reads this
      ensures forall n :: n in r <==> n in children && Type(n) in handled
    {
      Visited(handled, children)
    }
  }
}
