// Document.h at the repository root (the oldest generation): the node tree
// that the string-token parser of Parser.cpp builds and that the HTML visitor
// of Document.cpp walks. Every node keeps its own copy of its text.

module LegacyAst {
  import opened Optional
  import opened QStr

  /**
   * The nodes of the oldest generation. A `Text*` member that may be null
   * (the alt and src of an image, the content and href of a link, the code
   * of an inline code span) is an Option of the Text's string.
   */
  datatype Node =
    | Header(level: int, children: seq<Node>)
    | Paragraph(children: seq<Node>)
    | Text(str: QString)
    | ItalicText(str: QString)
    | BoldText(str: QString)
    | ItalicBoldText(str: QString)
    | Image(alt: Option<QString>, src: Option<QString>)
    | Link(content: Option<QString>, href: Option<QString>)
    | CodeBlock(name: QString, code: QString)
    | InlineCode(span: Option<QString>)
    | InlineLatex(latex: QString)
    | LatexBlock(latex: QString)
    | UnorderedList(children: seq<Node>)
    | OrderedList(children: seq<Node>)
    | QuoteBlock(children: seq<Node>)
    | CheckboxList(children: seq<Node>)
    | Hr
    | Table(header: seq<QString>, rows: seq<seq<QString>>)
}
