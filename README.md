# QtMarkdown in Dafny

A model of the core of QtMarkdown, a Markdown parser, renderer and WYSIWYG
editor written in C++ with Qt. The repository holds three generations of
that core, and they disagree with one another. Each source file is therefore
its own Dafny module, and no generation borrows a definition from another
beyond the shared Qt string helpers.

`QString` is a sequence of UTF-16 code units (`QStr.QString`). `mid`, `left`,
`right`, `trimmed`, `split` and `number` are written out with Qt's clamping
rules (qstring.dfy). Font metrics and `Render::render` are parameters: the
model never measures text. The pixel searches of the oldest cursor moves are
modelled over a character-advance parameter.

**Current generation (`src/`).**
- `Texts` (src_parser_text.dfy): the piece-table `Text`, a list of spans over the original and add buffers. It covers `toString`, `insert`, `remove`, `findItem`, `split`, `merge`, `empty` and `LatexBlock::toString`, each proved against the content equation over the concatenated spans.
- `PieceTable` (src_parser_piecetable.dfy): `PieceTableItem::toString` and its debug formatter.
- `Ast` (src_parser_document.dfy): the node tree, the `Container` class with `setChild`, `insertChild`, `appendChild` and `appendChildren`, and the checkbox item's state.
- The parser:
  - `ParserLines` (src_parser_parser_lines.dfy) holds `Line`, `trimLeft` and `splitTextToLines`.
  - `ParserTokens` (src_parser_parser_tokens.dfy) holds `parseLine` and `mergeToText`.
  - `InlineParsers` and `InlineParserFacts` (src_parser_parser_inline.dfy) hold the inline recognisers.
  - `BlockParsers` and `BlockParserFacts` (src_parser_parser_blocks.dfy, src_parser_parser_blockfacts.dfy) hold the block recognisers.
  - `DocumentParser` (src_parser_parser.dfy) holds `ParserPrivate::parse`, with its progress obligation.
- The editor:
  - `Coords` (src_editor_cursorcoord.dfy) holds the cursor coordinate order.
  - `Cursors` (src_editor_cursor.dfy) holds `Cursor` and `SelectionRange`.
  - `EditorCommands` (src_editor_command.dfy) holds the commands, the undo stack and the typing, return and backspace rules.
  - `Editing` (src_editor_document.dfy) holds the editor document's cursor moves and block list.
  - `EditorMarkdown` (src_editor_editor.dfy) holds the Markdown serialiser, the save path and the mouse-press actions.
- The render bookkeeping:
  - `StringUtil` (src_render_stringutil.dfy) holds the script segmentation.
  - `Instructions` (src_render_instruction.dfy) holds block and logical-line counters and line height.
  - `Cells` (src_render_cell.dfy) holds cell lengths.
  - `Geometry` (geometry.dfy) holds the points and rectangles they share.

**Middle generation (`parser/`, `editor/`).**
- `EditorPieceTable` (editor_piecetable.dfy): the editor's piece table.
- `EditorDocuments` (editor_editordocument.dfy): the editor document's cell grid, multi-step cursor moves, `insertText`, `removeText` and the piece-table memo.
- `ParserDocument` (parser_document.dfy): the offset-based HTML visitor.
- `LegacyTokens` (parser_token.dfy): `Token` and `spMap`.

**Oldest generation (root files).**
- `LegacyAst` (legacy_ast.dfy): the node tree.
- `LegacyInline` and `LegacyParser` (legacy_parser_inline.dfy, legacy_parser.dfy): the string-token parser, including tables and the LaTeX block.
- `LegacyDocument` (legacy_document.dfy): the HTML visitor and `toHtml`.
- `LegacyRender` (legacy_render.dfy): the render state, the font stack and the line/cell cursor moves.

**Example application.** `Controllers` (example_controller.dfy) holds the recent-files list.

Where the code updates state in place, the model is imperative. The `Container`, the text's span list, the piece tables, the command stack, the editor document, the visitors' output buffers and the render state are classes whose methods are proved against specification functions. Loops become `while` loops with invariants.

The oldest parser is modelled as it behaves:
- an inline code span skips one token after its closing backquote;
- an unordered list and a quote also consume the line that ended them;
- an ordered list takes that extra line only when the input runs out after it;
- `***x***` becomes a bold text.

Where the current and middle generations have bugs, the model keeps the code as written beside a corrected definition (see Findings). The rest of the model builds on the corrected one.

## Model

| member | source | states |
|---|---|---|
| Texts.CutSpan | src/parser/Text.cpp:36-39 | cutting a span t units in gives two spans inside the buffer that read as the two parts of its string |
| Texts.MergedSpan | src/parser/Text.cpp:28-29 | a span extended by one that continues it in the same buffer reads as the two strings joined |
| Texts.Measure | src/parser/Text.cpp:9-15 | spans inside their buffers read as strings of their own lengths |
| Texts.ContentLength | src/parser/Text.cpp:9-15 | with every span inside its buffer, toString is as long as the total of the lengths |
| Texts.ConcatAppend | src/parser/Text.cpp:9-15 | the text of two runs of spans is the two texts joined |
| Texts.ConcatAt | src/parser/Text.cpp:9-15 | span i splits toString into what comes before it, which is as long as the lengths before i, its own string and what follows |
| Texts.ConcatSplice | src/parser/Text.cpp:9-15 | a spliced list of spans reads as the texts of its three parts |
| Texts.Around | src/parser/Text.cpp:9-15 | the text around span i stays the same when a run of spans replaces the span |
| Texts.SpliceInsert | src/parser/Text.cpp:16-48 | replacing span i by spans that read as its string with x put t units in puts x at Start(i) + t of the text |
| Texts.SpliceRemove | src/parser/Text.cpp:59-78 | replacing span i by spans that read as its string less `length` units from t removes those units at Start(i) + t of the text |
| Texts.SpliceSplit | src/parser/Text.cpp:96-124 | sharing span i between two halves cut at t cuts the text at Start(i) + t |
| Texts.StartStep | src/parser/Text.cpp:45 | the running offset advances by each span's length |
| Texts.TotalAppend | src/parser/Text.cpp:9-15 | the total length of two runs of spans is the sum of their totals |
| Texts.TotalSplice | src/parser/Text.cpp:16-78 | replacing span i by a run m changes the total by the difference of their lengths |
| Texts.TotalNonNegative | src/parser/Text.cpp:9-15 | with non-negative lengths the total is non-negative |
| Texts.StartBound | src/parser/Text.cpp:80-95 | with non-negative lengths every span starts between 0 and the total |
| Texts.ValidSplice | src/parser/Text.cpp:16-78 | replacing a span by spans inside their buffers keeps every span inside its buffer |
| Texts.ValidHalves | src/parser/Text.cpp:96-124 | the two halves of a split keep every span inside its buffer |
| Texts.LocateFrom | src/parser/Text.cpp:82-93 | the scan from span i returns a span at or after i whose range holds the position, closed on the right exactly when includeRight |
| Texts.Locate | src/parser/Text.cpp:80-95 | findItem returns a span whose range holds the position, closed on the right exactly when includeRight; None where the source reaches its failed ASSERT |
| Texts.LocateFromSpec | src/parser/Text.cpp:82-93 | the scan from span i finds the first span from i on that holds the position, with its start; None when none does |
| Texts.LocateSpec | src/parser/Text.cpp:80-95 | findItem returns the first span holding the position and where it starts, and fails exactly when no span holds it |
| Texts.MissedBound | src/parser/Text.cpp:82-93 | every span the scan passes starts at or before the position |
| Texts.LocateSucceeds | src/parser/Text.cpp:80-95 | for a position inside the text (0..total, or below total without includeRight) findItem never reaches its ASSERT |
| Texts.LocateInside | src/parser/Text.cpp:80-95 | whatever findItem returns lies inside the text |
| Texts.LocateFromReaches | src/parser/Text.cpp:82-93 | the scan from span j reaches span i when i is the first span from j on that holds the position |
| Texts.LocateIsFirst | src/parser/Text.cpp:80-95 | the first span that holds the position is what findItem returns |
| Texts.InsertPieceConcat | src/parser/Text.cpp:22-42 | the spans that replace span i on insert read as its string with the item's string put t units in (head, tail with or without merge, middle) |
| Texts.InsertPieceValid | src/parser/Text.cpp:22-42 | the spans that replace span i on insert lie inside their buffers |
| Texts.InsertAt | src/parser/Text.cpp:19-47 | replacing span i by the pieces of an insert t units into it puts the item's string at Start(i) + t |
| Texts.InsertSite | src/parser/Text.cpp:19-47 | in a non-empty text the insert works on the first span whose closed range holds the position, and adds at most two spans |
| Texts.InsertContent | src/parser/Text.cpp:16-48 | insert at a position inside the text places the item's string exactly there, and every span stays inside its buffer |
| Texts.InsertOutside | src/parser/Text.cpp:16-48 | an insert position outside the text leaves the spans unchanged |
| Texts.RemovePieceConcat | src/parser/Text.cpp:61-77 | what is left of a span after a removal inside it reads as its string less the removed units |
| Texts.KeptConcat | src/parser/Text.cpp:55-58 | the part a spanning removal keeps reads as the span's string up to t |
| Texts.RemovePieceValid | src/parser/Text.cpp:55-77 | the spans a removal leaves lie inside their buffers |
| Texts.RemoveAt | src/parser/Text.cpp:59-78 | replacing span i by what a removal inside it leaves removes those units from the text |
| Texts.RemoveSpanTail | src/parser/Text.cpp:55-58 | a removal that runs past span i, t units into it, first cuts the span to its first t units |
| Texts.RemoveSite | src/parser/Text.cpp:52-54 | findItem without includeRight returns the span that holds the first removed unit |
| Texts.RemoveGoesOn | src/parser/Text.cpp:55-58 | a removal running past its span goes on from the same position once that span is cut short |
| Texts.RemoveEndsIn | src/parser/Text.cpp:59-78 | a removal ending inside its span replaces that span by what is left of it |
| Texts.RemoveSpanningValid | src/parser/Text.cpp:55-58 | the rest of a spanning removal lies inside the shortened text, which stays inside its buffers |
| Texts.RemoveSpanning | src/parser/Text.cpp:55-58 | the recursive call removes the remaining units from a text that agrees with the old one outside the removed range |
| Texts.RemoveValid | src/parser/Text.cpp:49-79 | removing a range inside the text never reaches the ASSERT and leaves every span inside its buffer |
| Texts.RemoveContent | src/parser/Text.cpp:49-79 | removing [k, k + length) from inside the text deletes exactly those units from toString |
| Texts.RemoveSpanningAsWritten | src/parser/Text.cpp:55-58 | over spans (0,3),(3,3), removing 3 units from 1 as written drops the whole first span; the corrected removal keeps its first unit |
| Texts.RemoveSpanningTexts | src/parser/Text.cpp:55-58 | over "abcdef" the two results read "def" as written and "aef" corrected |
| Texts.RemoveHeadAsWritten | src/parser/Text.cpp:61-67 | removing the first unit of span (0,2) as written moves the offset without shortening the span; the corrected removal gives (1,1) |
| Texts.RemoveHeadTexts | src/parser/Text.cpp:61-67 | over "abc" the two results read "bc" as written and "b" corrected |
| Texts.SplitPieceConcat | src/parser/Text.cpp:107-119 | the two shares of a split span read as its string before and after the cut |
| Texts.SplitAt | src/parser/Text.cpp:96-124 | cutting t units into span i: the left half holds the text before Start(i) + t and the right half the rest |
| Texts.SplitSite | src/parser/Text.cpp:96-124 | in a non-empty text split cuts the span findItem returns, t units into it |
| Texts.SplitContent | src/parser/Text.cpp:96-124 | split at k: the left half holds the first k units and the right half the rest |
| Texts.SplitAsWrittenDropsSpan | src/parser/Text.cpp:102-104 | over spans (0,2),(2,2) split at 3 as written leaves the first span out of the left half; the corrected copy loop keeps it |
| Texts.SplitTexts | src/parser/Text.cpp:102-104 | over "abcd" the two left halves read "c" as written and "abc" corrected |
| Texts.TotalZeroIff | src/parser/Text.cpp:125-131 | the total is zero exactly when no span is longer than zero |
| Texts.EmptyIffNoContent | src/parser/Text.cpp:125-131 | for spans inside their buffers, toString is empty exactly when empty() holds |
| Texts.LatexTextAppend | src/parser/Text.cpp:138-147 | the LaTeX source of two runs of children is the two sources joined |
| Texts.Text.constructor | src/parser/Text.h:13-16 | Text(offset, length) holds one span of the original buffer |
| Texts.Text.OfBuffer | src/parser/Text.h:17-20 | Text(type, offset, length) holds one span of the given buffer |
| Texts.Text.Blank | src/parser/Text.h:31 | the private Text() holds no span |
| Texts.Text.ToString | src/parser/Text.cpp:9-15 | the loop returns the spans' strings joined in order |
| Texts.Text.FindItem | src/parser/Text.cpp:80-95 | the loop returns what Locate specifies: the first span holding the position and its start |
| Texts.Text.Insert | src/parser/Text.cpp:16-48 | the new spans are InsertItems of the old ones, which InsertContent shows place the item's string at the position |
| Texts.Text.Remove | src/parser/Text.cpp:49-79 | the new spans are the corrected removal of the old ones, which RemoveContent shows delete exactly the range |
| Texts.Text.Split | src/parser/Text.cpp:96-124 | two fresh texts hold the corrected left and right halves and the receiver's split span is cut in place |
| Texts.Text.IsEmpty | src/parser/Text.cpp:125-131 | empty() is true exactly when no span has a positive length |
| Texts.Text.Merge | src/parser/Text.cpp:132-136 | merge appends the other text's spans in order |
| Texts.LatexBlockToString | src/parser/Text.cpp:138-147 | the loop returns the strings of the Text children joined, skipping the others |
| PieceTable.ItemString | src/parser/PieceTable.cpp:10-16 | toString reads the named buffer through mid: never longer than the span, exactly the buffer slice when the span is inside the buffer, empty when the offset is past the end |
| PieceTable.ItemStringReadsOneBuffer | src/parser/PieceTable.cpp:10-16 | an original span reads only the original buffer and an add span only the add buffer |
| PieceTable.BufferGrowthKeepsSpan | src/parser/PieceTable.cpp:10-16 | appending to the add buffer leaves the text of every span already inside it unchanged |
| PieceTable.DebugStringNamesBuffer | src/parser/PieceTable.cpp:17-23 | the debug form of an item names its buffer |
| PieceTable.FieldsStringInjective | src/parser/PieceTable.cpp:17-23 | the `offset, length)` part of the debug form determines a non-negative offset and length |
| PieceTable.DebugStringInjective | src/parser/PieceTable.cpp:17-23 | two items with non-negative fields and the same debug form are the same item |
| Ast.Visited | src/parser/Document.h:56-63 | accept on a node reaches visit only when the visitor implements Visitor for that node's type: the visited nodes are exactly those of handled types |
| Ast.VisitedAppend | src/parser/Document.h:75-79 | accepting two runs of children one after the other visits the two runs in that order |
| Ast.VisitedAll | src/parser/Document.h:75-79 | a visitor that handles every type present visits all the children, in order |
| Ast.SetChecked | src/parser/Document.h:109 | setChecked changes only the checked flag of the item |
| Ast.AppendRefusedAsWritten | src/parser/Document.cpp:47-51 | as written, insertChild at index == size is refused by its ASSERT for every list of children |
| Ast.Container.constructor | src/parser/Document.h:68 | a new container has no children |
| Ast.Container.AppendChild | src/parser/Document.h:70-73 | appendChild puts the child at the end |
| Ast.Container.SetChild | src/parser/Document.cpp:42-46 | setChild replaces exactly position index; the size is unchanged |
| Ast.Container.InsertChild | src/parser/Document.cpp:47-51 | insertChild puts the node before position index, and index == size appends it (the guard widened to what callers rely on) |
| Ast.Container.AppendChildren | src/parser/Document.cpp:52-67 | appendChildren appends every node in order; an empty list changes nothing |
| Ast.Container.Accept | src/parser/Document.h:75-79 | Container::accept visits exactly the children of handled types |
| ParserLines.StartsWithUnits | src/parser/Parser.cpp:26 | Line::startsWith, a prefix test on QStringView(text).mid(offset, length), tests the line's own units |
| ParserLines.LineMidUnits | src/parser/Parser.cpp:39-42 | on a line inside the text, mid(pos) is the line's units from pos on |
| ParserLines.LineRightUnits | src/parser/Parser.cpp:43 | on a line inside the text, right(n) is the line's last n units |
| ParserLines.BlanksFrom | src/parser/Parser.cpp:56-59 | the counting loop of trimLeft stops inside the line |
| ParserLines.BlanksFromSpec | src/parser/Parser.cpp:56-59 | the counted units are all U+0020 and the unit after them is not |
| ParserLines.TrimLeftAsWritten | src/parser/Parser.cpp:55-63 | trimLeft as written moves the offset past the leading blanks and keeps the length |
| ParserLines.TrimLeft | src/parser/Parser.cpp:55-63 | trimLeft as intended stays inside the text and ends where the line ends |
| ParserLines.TrimLeftSpec | src/parser/Parser.cpp:55-63 | the trimmed line is the line less its leading blanks: what was dropped is all blanks and the rest does not start with one |
| ParserLines.TrimLeftAsWrittenOverruns | src/parser/Parser.cpp:60-62 | as written, the trimmed line ends as many units past the line's end as there were leading blanks |
| ParserLines.TrimLeftAsWrittenExample | src/parser/Parser.cpp:60-62 | for "  - a" followed by "bc" the item text after "- " is "a\nb" as written and "a" corrected |
| ParserLines.TrimLeftAsWrittenLeavesText | src/parser/Parser.cpp:60-62 | at the end of the text the as-written trim of " # a" runs past the text itself |
| ParserLines.BreakAt | src/parser/Parser.cpp:802-823 | the next line break at or after a position lies inside the text or is its end |
| ParserLines.BreakAtSpec | src/parser/Parser.cpp:802-823 | the scan skips no CR or LF and stops on one unless it reaches the end |
| ParserLines.BreakAtIs | src/parser/Parser.cpp:802-823 | the first break after a position is at i when none comes before it |
| ParserLines.LinesStep | src/parser/Parser.cpp:803-818 | a CR, LF or CR LF at i closes the line that started at the current offset |
| ParserLines.LinesLast | src/parser/Parser.cpp:825-827 | the remainder after the last break is one more line, or none when it is empty |
| ParserLines.Advance | src/parser/Parser.cpp:802-823 | appending the closed line keeps the splitting loop's invariant |
| ParserLines.SplitTextToLines | src/parser/Parser.cpp:798-828 | the loop returns exactly the lines of the text |
| ParserLines.LinesInside | src/parser/Parser.cpp:798-828 | every line lies inside the text, after the start, and holds no CR or LF |
| ParserLines.LinesChained | src/parser/Parser.cpp:798-828 | the first line starts at the start and exactly one terminator lies between two consecutive lines |
| ParserLines.LinesEnd | src/parser/Parser.cpp:798-828 | there are no lines exactly for an empty text; the last line either ends the text and is not empty, or is closed by a terminator at the end |
| ParserLines.SplitExample | src/parser/Parser.cpp:798-828 | "a\r\nb\rc\n" has the three lines "a", "b" and "c" |
| ParserTokens.Ch2Type | src/parser/Parser.cpp:88-98 | ch2type maps only to character token types, never to text, none or space |
| ParserTokens.Ch2TypeTable | src/parser/Parser.cpp:88-98 | ch2type has exactly the keys # > ! * ~ [ ] ( ) ` $ and maps no two of them to the same type |
| ParserTokens.RunEnd | src/parser/Parser.cpp:103-112 | a run of ordinary units ends inside the span |
| ParserTokens.RunEndSpec | src/parser/Parser.cpp:103-112 | a run holds only units outside ch2type and stops at one inside it or at the end |
| ParserTokens.TokenAt | src/parser/Parser.cpp:103-115 | each token starts where asked, is at least one unit long and stays inside the span |
| ParserTokens.RunEndIs | src/parser/Parser.cpp:103-112 | a run that stops at i is where the scan of ordinary units ends |
| ParserTokens.TextRunStep | src/parser/Parser.cpp:106-108 | a run of ordinary units from prev to cur is one text token |
| ParserTokens.SpecialStep | src/parser/Parser.cpp:109-110 | a ch2type unit is a token of its own, of length one and its mapped type |
| ParserTokens.ScanSpecialStep | src/parser/Parser.cpp:105-111 | one turn at a special unit emits the pending run and the unit's token and keeps the loop invariant |
| ParserTokens.ScanPlainStep | src/parser/Parser.cpp:103-112 | one turn at an ordinary unit adds it to the pending run and keeps the loop invariant |
| ParserTokens.ScanSpecialFresh | src/parser/Parser.cpp:105-111 | a special unit with no pending run emits just its own token |
| ParserTokens.ScanSpecialAfterRun | src/parser/Parser.cpp:105-111 | a special unit after a pending run emits the run as a text token and then its own token |
| ParserTokens.ScanEndCase | src/parser/Parser.cpp:113-115 | at the end of the line the pending run, if any, is the last token |
| ParserTokens.ScanIsTokens | src/parser/Parser.cpp:99-117 | the one-pass scan produces exactly the tokens of the span |
| ParserTokens.LineScan | src/parser/Parser.cpp:99-117 | the scan of a whole line is the line's tokens |
| ParserTokens.EmitSpecial | src/parser/Parser.cpp:105-111 | the loop body at a special unit emits the pending run and the unit's token, keeping the loop invariant |
| ParserTokens.Flush | src/parser/Parser.cpp:106-108 | the pending run becomes one text token when it is not empty, and nothing otherwise |
| ParserTokens.ParseLine | src/parser/Parser.cpp:99-117 | parseLine returns exactly the token list of the line |
| ParserTokens.TilesCons | src/parser/Parser.cpp:99-117 | a token that ends where a tiling of the rest starts extends the tiling |
| ParserTokens.TokensTile | src/parser/Parser.cpp:99-117 | the tokens are in order, contiguous, non-empty and cover the line exactly |
| ParserTokens.TokensClassified | src/parser/Parser.cpp:99-117 | each token is either one ch2type unit with its mapped type or a run of other units with type text |
| ParserTokens.TextRunsMaximal | src/parser/Parser.cpp:99-117 | two text tokens are never neighbours |
| ParserTokens.PlainLineIsOneToken | src/parser/Parser.cpp:99-117 | a line without ch2type units is one text token covering it |
| ParserTokens.NewText | src/parser/Parser.cpp:79 | new Text(offset, length) holds one span of the original buffer with that offset and length |
| ParserTokens.Coalesce | src/parser/Parser.cpp:70-84 | the span being built after tokens prev..cur ends where the last token ends |
| ParserTokens.TextsOf | src/parser/Parser.cpp:79-85 | one Text per finished span, in order |
| ParserTokens.TextsOfAppend | src/parser/Parser.cpp:79-85 | finishing one more span appends one more Text |
| ParserTokens.MergeToText | src/parser/Parser.cpp:64-87 | the loop returns exactly the Texts of the coalesced spans, and nothing for an empty range |
| ParserTokens.CoalesceTotal | src/parser/Parser.cpp:64-87 | mergeToText loses no length: the spans are together as long as the tokens |
| ParserTokens.CoalesceStart | src/parser/Parser.cpp:71-74 | the first span starts at the first token |
| ParserTokens.CoalesceMaximal | src/parser/Parser.cpp:76-82 | two consecutive spans never touch: a token that continues the span extends it |
| ParserTokens.ContiguousMergeToOne | src/parser/Parser.cpp:64-87 | tokens that follow one another without gaps merge into exactly one Text |
| ParserTokens.LineMergesToOne | src/parser/Parser.cpp:64-87 | tokens of one line merge into exactly one Text of their total length |
| InlineParsers.NextOf | src/parser/Parser.cpp:200 | the scan for the next token of a type stops inside the token list or at its end |
| InlineParsers.NextOfSpec | src/parser/Parser.cpp:200 | the scan skips only tokens of other types and stops on one of the type it looks for |
| InlineParsers.TokenItems | src/parser/Parser.cpp:377-400 | the emphasis parsers wrap a Text holding exactly the middle token's span of the original buffer |
| InlineParsers.ImageParse | src/parser/Parser.cpp:159-210 | ImageParser::parse succeeds exactly when tryParse holds, consumes at least the five marks and a url token, and yields an Image |
| InlineParsers.LinkParse | src/parser/Parser.cpp:212-259 | LinkParser::parse succeeds exactly when tryParse holds, consumes at least four tokens and yields a Link |
| InlineParsers.InlineCodeParse | src/parser/Parser.cpp:261-292 | InlineCodeParser::parse succeeds exactly when a later backquote exists, consumes both backquotes and yields InlineCode |
| InlineParsers.InlineLatexParse | src/parser/Parser.cpp:294-317 | InlineLatexParser::parse succeeds exactly for dollar, text token, dollar, consumes three tokens and wraps the middle token's span |
| InlineParsers.SemanticParse | src/parser/Parser.cpp:319-401 | SemanticTextParser::parse succeeds exactly when one of the four star/tilde shapes matches and consumes at least three tokens |
| InlineParsers.EmphasisExclusive | src/parser/Parser.cpp:338-375 | at most one of the italic-bold, bold, italic and strikeout shapes matches at a position, so their order decides nothing |
| InlineParsers.SemanticNodes | src/parser/Parser.cpp:377-400 | each emphasis result is the node kind of its shape (7 tokens italic-bold, 3 italic) holding the middle text token's span |
| InlineParsers.Apply | src/parser/Parser.cpp:125-128 | a successful LineParser consumes at least one token and stays inside the list |
| InlineParsers.FirstSuccess | src/parser/Parser.cpp:140-151 | the first successful parser's result consumes at least one token and stays inside the list |
| InlineParsers.FirstSuccessFails | src/parser/Parser.cpp:140-151 | the inner loop finds nothing exactly when every parser in the list fails at the position |
| InlineParsers.TryParsers | src/parser/Parser.cpp:140-151 | the inner loop returns the result of the first parser that succeeds, or failure |
| InlineParsers.ParseLineInto | src/parser/Parser.cpp:134-156 | _parseLine appends to the container exactly the inline nodes of the line: merged plain tokens and each recognised node, in order |
| InlineParserFacts.TiledSum | src/parser/Parser.cpp:99-117 | over the tokens of a line, the lengths of a token range add up to the distance it spans |
| InlineParserFacts.LineRangeItems | src/parser/Parser.cpp:64-87 | between two token positions of one line mergeToText gives at most one Text, covering exactly those tokens, so taking its first element loses nothing |
| InlineParserFacts.ImageShape | src/parser/Parser.cpp:170-209 | a recognised image is `!` `[`, the first `]`, `(`, at least one token, then the first `)`, the last token consumed |
| InlineParserFacts.LinkShape | src/parser/Parser.cpp:222-257 | a recognised link is `[`, at least one token, the first `]`, `(`, then the first `)`, the last token consumed |
| InlineParserFacts.LinkNeedsText | src/parser/Parser.cpp:227-232 | `[` directly followed by `]` is never a link |
| InlineParserFacts.ImageNeedsUrl | src/parser/Parser.cpp:185-190 | `(` directly followed by `)` is never an image |
| InlineParserFacts.UnclosedFails | src/parser/Parser.cpp:186-191 | a link or image whose closing `)` is missing from the line is not recognised |
| InlineParserFacts.InlineCodeShape | src/parser/Parser.cpp:272-291 | inline code runs from a backquote to the next backquote, both consumed |
| InlineParserFacts.InlineCodeOffset | src/parser/Parser.cpp:283-291 | a recognised inline code span ends just after the next backquote |
| InlineParserFacts.LinkOffset | src/parser/Parser.cpp:245-258 | a recognised link ends at the first `)` after the `](` |
| InlineParserFacts.ImageAsWrittenAgrees | src/parser/Parser.cpp:195-209 | wherever the as-written image parser reads inside its lists, it gives the corrected result |
| InlineParserFacts.LinkAsWrittenAgrees | src/parser/Parser.cpp:245-258 | wherever the as-written link parser reads inside its lists, it gives the corrected result |
| InlineParserFacts.InlineCodeAsWrittenAgrees | src/parser/Parser.cpp:283-291 | wherever the as-written inline-code parser reads inside its list, it gives the corrected result |
| InlineParserFacts.ImageEmptyAltExample | src/parser/Parser.cpp:176-208 | `![](u)` passes tryParse, and the as-written parser then reads alt[0] of an empty list; the corrected one gives an Image with no alt spans |
| InlineParserFacts.LinkEmptyHrefExample | src/parser/Parser.cpp:237-257 | `[a]()` passes tryParse, and the as-written parser then reads href[0] of an empty list; the corrected one gives a Link with no href spans |
| InlineParserFacts.InlineCodeEmptyExample | src/parser/Parser.cpp:272-290 | two adjacent backquotes pass tryParse, and the as-written parser then reads code[0] of an empty list; the corrected one gives empty InlineCode |
| InlineParserFacts.PlainLineInline | src/parser/Parser.cpp:134-156 | when no parser succeeds anywhere on a non-empty line, _parseLine appends one Text spanning the whole line |
| InlineParserFacts.NoMatchMerges | src/parser/Parser.cpp:152-155 | with no parser succeeding from i on, the rest of the line is one mergeToText of the tokens from prev |
| BlockParsers.HeaderParse | src/parser/Parser.cpp:403-414 | the header recogniser consumes exactly one line and yields a Header when it succeeds (the level and content are stated by HeaderIff) |
| BlockParsers.CountHashes | src/parser/Parser.cpp:432-434 | parseHeader's counting loop returns the number of leading # of the line |
| BlockParsers.ParseHeader | src/parser/Parser.cpp:403-462 | HeaderParser::parse with its loops returns exactly HeaderParse: fail past the end or on a non-header line, else one Header line |
| BlockParsers.CodeBlockParse | src/parser/Parser.cpp:606-637 | the code-block recogniser, when it succeeds, consumes at least the two fences, stays inside the lines and yields a CodeBlock |
| BlockParsers.ParseCodeBlock | src/parser/Parser.cpp:606-637 | tryParseCodeBlock's search then parseCodeBlock's copy loop return exactly CodeBlockParse |
| BlockParsers.LatexBlockParse | src/parser/Parser.cpp:529-558 | the formula-block recogniser, when it succeeds, consumes at least the two $$ lines and one body line and yields a LatexBlock |
| BlockParsers.ParseLatexBlock | src/parser/Parser.cpp:529-558 | the search for the closing $$ and the copy loop return exactly LatexBlockParse |
| BlockParsers.CheckboxRun | src/parser/Parser.cpp:665-684 | every line before the end of the run is a checkbox line and the line at the end is not |
| BlockParsers.CheckboxListParse | src/parser/Parser.cpp:641-651 | the checkbox recogniser, when it succeeds, consumes at least one line inside the lines and yields a CheckboxList |
| BlockParsers.CheckboxStep | src/parser/Parser.cpp:665-680 | one turn of the loop on a checkbox line appends that line's item and leaves the end of the run unchanged |
| BlockParsers.ParseCheckboxItem | src/parser/Parser.cpp:667-678 | the loop body builds the item of the line, checked by its prefix and parsed inline after the six-unit prefix |
| BlockParsers.AppendCheckboxItem | src/parser/Parser.cpp:665-680 | after one turn the list holds exactly the items of the lines from s up to and including line i |
| BlockParsers.ParseCheckboxList | src/parser/Parser.cpp:641-686 | CheckboxListParser::parse with its loop returns exactly CheckboxListParse |
| BlockParsers.ListRun | src/parser/Parser.cpp:712 | every line before the end of the run is a `- ` line after its leading blanks, and the line at the end is not |
| BlockParsers.UnorderedListParse | src/parser/Parser.cpp:690-700 | the unordered-list recogniser, when it succeeds, consumes at least one line inside the lines and yields an UnorderedList |
| BlockParsers.ListStep | src/parser/Parser.cpp:712-717 | one turn of the loop appends the item of line i and leaves the end of the run unchanged |
| BlockParsers.AppendListItem | src/parser/Parser.cpp:712-717 | after one turn the list holds exactly the items of the lines from s up to and including line i |
| BlockParsers.ParseListItem | src/parser/Parser.cpp:713-714 | the loop body builds the item of the line, parsed inline after the trimmed line's `- ` |
| BlockParsers.ParseUnorderedList | src/parser/Parser.cpp:690-719 | UnorderedListParser::parse with its loop returns exactly UnorderedListParse |
| BlockParsers.NumberedRun | src/parser/Parser.cpp:745-763 | every line before the end of the run is a numbered line and the line at the end is not |
| BlockParsers.OrderedListParse | src/parser/Parser.cpp:723-733 | the ordered-list recogniser succeeds only on a line inside the lines, stays inside them and yields an OrderedList |
| BlockParsers.NumberedStep | src/parser/Parser.cpp:745-763 | one turn of the outer loop on a numbered line appends its item and leaves the end of the run unchanged |
| BlockParsers.NumberedPrefix | src/parser/Parser.cpp:747-757 | the digit scan returns the position after `digits. ` exactly when the line is numbered, and -1 otherwise |
| BlockParsers.ParseNumberedItem | src/parser/Parser.cpp:758-759 | the rest of the loop body builds the item of the line, parsed inline after its `digits. ` |
| BlockParsers.ParseOrderedList | src/parser/Parser.cpp:723-765 | OrderedListParser::parse with its loops, each early exit returning the list so far, returns exactly OrderedListParse |
| BlockParsers.QuoteBlockParseAsWritten | src/parser/Parser.cpp:782-791 | as written, a successful quote reports one line more than its run of `> ` lines (the extra i++ after the loop) |
| BlockParsers.QuoteBlockParse | src/parser/Parser.cpp:769-791 | the corrected quote recogniser, when it succeeds, consumes at least one line, stays inside the lines and yields a QuoteBlock |
| BlockParsers.ParseQuoteBlock | src/parser/Parser.cpp:769-791 | parseQuoteBlock's loop without the extra step returns exactly QuoteBlockParse |
| BlockParsers.TableParse | src/parser/Parser.cpp:465-474 | the table recogniser always fails: its grammar is compiled out |
| BlockParsers.ParagraphScan | src/parser/Parser.cpp:577-600 | the paragraph loop stops at or after its first line and never past the last line |
| BlockParsers.ParagraphParseAsWritten | src/parser/Parser.cpp:562-602 | as written the paragraph recogniser always reports success, with a non-negative number of lines that may be zero |
| BlockParsers.ParagraphParse | src/parser/Parser.cpp:562-602 | the corrected paragraph recogniser always succeeds with a Paragraph and consumes at least one line, inside the lines, when any remains |
| BlockParsers.ParagraphStep | src/parser/Parser.cpp:594-599 | a kept line contributes its Lf (unless first) and inline nodes ahead of the rest of the scan, which ends where the whole scan ends |
| BlockParsers.AppendParagraphLine | src/parser/Parser.cpp:594-597 | the loop body appends an Lf unless the line is the first, then the line's inline nodes, and nothing else |
| BlockParsers.KeepParagraphLine | src/parser/Parser.cpp:594-599 | after one kept line the children so far followed by the rest of the scan still equal the whole paragraph, and the end is unchanged |
| BlockParsers.ParseParagraph | src/parser/Parser.cpp:569-602 | parseParagraph's loop, with the first line exempt from the prefix test, returns exactly ParagraphParse |
| BlockParserFacts.CountLeadingSpec | src/parser/Parser.cpp:419 | the counting loop covers a run of the unit and stops before a different unit or at the line's end |
| BlockParserFacts.HeaderIff | src/parser/Parser.cpp:403-424 | a line is a header of level n if and only if, after its leading blanks, it has n # with 1 <= n <= 6 followed by a blank |
| BlockParserFacts.SevenHashesNoHeader | src/parser/Parser.cpp:421 | seven # before the blank are too many: the header recogniser fails |
| BlockParserFacts.NextStartingSpec | src/parser/Parser.cpp:543-548 | the search for the closing line skips only lines without the prefix and stops on the first that has it |
| BlockParserFacts.BodyNodesSpec | src/parser/Parser.cpp:551-555 | a block body holds, for each of its lines in order, a Text of the whole line and then an Lf |
| BlockParserFacts.CodeBlockIff | src/parser/Parser.cpp:606-637 | a code block is recognised if and only if its line and some later line start with three backquotes; it ends at the first such line, which it consumes |
| BlockParserFacts.LatexBlockIff | src/parser/Parser.cpp:529-558 | a formula block is recognised if and only if an opening $$ is followed by at least one non-$$ line and then a closing $$; it ends at the first closing line |
| BlockParserFacts.CheckboxListConsumesRun | src/parser/Parser.cpp:665-685 | a checkbox list consumes exactly the maximal run of checkbox lines from s, one item per line |
| BlockParserFacts.CheckboxChecked | src/parser/Parser.cpp:667-680 | an item is checked if and only if its line starts with `- [x] ` |
| BlockParserFacts.UnorderedListConsumesRun | src/parser/Parser.cpp:710-718 | an unordered list consumes exactly the maximal run of `- ` lines from s, one item per line |
| BlockParserFacts.IndentedListLine | src/parser/Parser.cpp:694-695 | leading blanks do not matter: an indented `- ` line is a list line |
| BlockParserFacts.CountDigitsSpec | src/parser/Parser.cpp:749-752 | the digit loop covers a run of decimal digits and stops before a non-digit or at the line's end |
| BlockParserFacts.NumberedLineIff | src/parser/Parser.cpp:747-757 | a line is numbered with j digits if and only if it has j >= 1 digits, then a dot, then a blank |
| BlockParserFacts.OrderedListConsumesRun | src/parser/Parser.cpp:723-765 | an ordered list consumes its first line and then exactly the maximal run of numbered lines, one item each |
| BlockParserFacts.OrderedListNeedsOne | src/parser/Parser.cpp:728 | `2. a` is a numbered line but does not start an ordered list |
| BlockParserFacts.QuoteRun | src/parser/Parser.cpp:785-789 | every line before the end of the quote run starts with `> ` and the line at the end does not |
| BlockParserFacts.QuoteConsumesRun | src/parser/Parser.cpp:785-791 | the corrected quote consumes exactly the maximal run of `> ` lines, one Text each |
| BlockParserFacts.QuoteItemsSpec | src/parser/Parser.cpp:787 | each quote Text is its line without the two-unit `> ` prefix |
| BlockParserFacts.QuoteDropsNextLine | src/parser/Parser.cpp:790 | on `> a` then `b` the quote as written consumes both lines, while the corrected one consumes only the quote line |
| BlockParserFacts.QuoteOverrunsEnd | src/parser/Parser.cpp:790-791 | when the quote runs to the end of the text, as written it reports one line more than there is |
| BlockParserFacts.ParagraphEndIsScanEnd | src/parser/Parser.cpp:577-600 | the end computed without the children is the end of the paragraph scan |
| BlockParserFacts.ParagraphScanRun | src/parser/Parser.cpp:577-600 | a paragraph takes non-blank lines that start no other block (the first exempt when so asked), and stops at a blank line, which it consumes, or at another block's start |
| BlockParserFacts.ParagraphEndRun | src/parser/Parser.cpp:577-600 | the same run property stated over the end computed without the children |
| BlockParserFacts.ParagraphAsWrittenStalls | src/parser/Parser.cpp:586-592 | as written, on a non-blank first line that starts another block's prefix the paragraph succeeds with zero lines, while the corrected one consumes at least one |
| BlockParserFacts.HashWordIsNoHeader | src/parser/Parser.cpp:417-424 | a line like `#abc` starts with # and so stops a paragraph, yet the header recogniser fails on it |
| DocumentParser.ApplyBlock | src/parser/Parser.cpp:830-833 | each corrected recogniser that succeeds on a remaining line consumes at least one line and stays inside the lines; the paragraph recogniser always succeeds |
| DocumentParser.FirstBlock | src/parser/Parser.cpp:838-845 | the first successful recogniser in order consumes at least one line inside the lines, and one always succeeds when the paragraph recogniser is in the list |
| DocumentParser.BlocksStep | src/parser/Parser.cpp:837-846 | one turn of the outer loop appends the first successful block and continues after the lines it consumed |
| DocumentParser.LinesOfInText | src/parser/Parser.cpp:798-828 | every line split from the text lies inside it |
| DocumentParser.RunBlock | src/parser/Parser.cpp:839 | one recogniser's parse call returns that recogniser's specification result |
| DocumentParser.TryBlocks | src/parser/Parser.cpp:838-845 | the inner loop returns the result of the first recogniser, in order, that succeeds |
| DocumentParser.ParseBlocks | src/parser/Parser.cpp:836-846 | the outer loop appends exactly the blocks of the whole line list to the container, and ends because each block consumes a line |
| DocumentParser.Parse | src/parser/Parser.cpp:829-857 | parsing yields a fresh container whose children are exactly the blocks of the text |
| DocumentParser.Document.constructor | src/parser/Document.cpp:22 | the document keeps the text it was given and the tree parsed from it |
| DocumentParser.FirstBlockIsBlock | src/parser/Parser.cpp:838-845 | every successful recogniser builds a block-level node |
| DocumentParser.BlocksAreBlocks | src/parser/Parser.cpp:837-846 | the document is a sequence of block-level nodes, at most one per remaining line |
| DocumentParser.DocumentEmptyIff | src/parser/Parser.cpp:829-848 | a document has no blocks if and only if its text is empty |
| DocumentParser.HashWordDeclines | src/parser/Parser.cpp:830-833 | on a `#abc` line every recogniser as written fails except the paragraph, which reports success consuming no line |
| DocumentParser.ParseAsWrittenStalls | src/parser/Parser.cpp:836-846 | as written, on a `#abc` line the search ends at the paragraph with zero lines, so the index never advances, while the corrected search advances by at least one |
| Cursors.Cursor.constructor | src/editor/Cursor.h:23-25 | a new cursor sits at coordinate (0, 0, 0) and position (0, 0) with height 20 |
| Cursors.Cursor.SetCoord | src/editor/Cursor.cpp:15-18 | setCoord replaces the coordinate and leaves position and height alone |
| Cursors.Cursor.SetX | src/editor/Cursor.h:15 | setX changes only the x part of the position |
| Cursors.Cursor.SetPos | src/editor/Cursor.h:18 | setPos replaces the position and leaves coordinate and height alone |
| Cursors.Cursor.SetHeight | src/editor/Cursor.h:20 | setHeight replaces the height and leaves coordinate and position alone |
| Cursors.Range | src/editor/Cursor.h:31-37 | range() is the caret and the anchor in some order, the first not after the second |
| Cursors.RangeIgnoresDirection | src/editor/Cursor.h:31-37 | swapping caret and anchor gives the same range when their coordinates differ; when they coincide the anchor comes first |
| Coords.LessIsLexicographic | src/editor/CursorCoord.cpp:15-21 | operator< is the lexicographic order on (blockNo, lineNo, offset) |
| Coords.EqualIsIdentity | src/editor/CursorCoord.cpp:25-28 | operator== is equality of the three fields and operator!= its negation |
| Coords.LessIrreflexive | src/editor/CursorCoord.cpp:15-21 | no coordinate is less than itself |
| Coords.LessTransitive | src/editor/CursorCoord.cpp:15-21 | operator< is transitive |
| Coords.Trichotomy | src/editor/CursorCoord.cpp:15-28 | exactly one of a < b, a == b, a > b holds |
| Coords.DerivedOperators | src/editor/CursorCoord.cpp:22-24 | <= is < or ==, >= is > or ==, and > is < with the arguments swapped |
| Coords.OriginIsLeast | src/editor/CursorCoord.h:10-17 | the default coordinate is at or below every coordinate with non-negative fields, and strictly below every other one |
| EditorCommands.TextToInsert | src/editor/Command.cpp:757-764 | a lone (, [ or { is stored followed by its closing partner; any other text is stored as typed |
| EditorCommands.AddBuffer.constructor | src/parser/Document.h:254 | the add buffer starts with the units it is given |
| EditorCommands.Command.OfInsertText | src/editor/Command.cpp:756-780 | the command's range of the add buffer is exactly what it appends there, the cursor advances by the typed length, it may step over exactly when the text is ), ] or }, and it is a space exactly when the text is a blank |
| EditorCommands.Command.OfRemoveText | src/editor/Command.h:45 | a remove-text command remembers its coordinate |
| EditorCommands.Command.OfInsertReturn | src/editor/Command.h:56 | an insert-return command remembers its coordinate |
| EditorCommands.Command.Finish | src/editor/Command.cpp:753 | execute remembers where the visitor left the cursor as the finished coordinate, and keeps its length |
| EditorCommands.Command.Merge | src/editor/Command.cpp:781-789 | merge succeeds if and only if both are insertions, the second starts where the first finished and its range follows the first's in the add buffer; then only the length (the sum) and the finished coordinate (the second's) change, and kind, start coordinate and offset stay; otherwise nothing changes |
| EditorCommands.MergedRange | src/editor/Command.cpp:785-786 | a merged command's range of the add buffer is the two ranges one after the other |
| EditorCommands.ConsecutiveInsertsMerge | src/editor/Command.cpp:781-789 | two insertions typed one after the other always have adjacent ranges, so they merge exactly when the second starts where the first finished |
| EditorCommands.CommandStack.constructor | src/editor/Command.h:66-75 | a new stack, value-initialised as the editor document makes it, has no commands and its top at 0 |
| EditorCommands.CommandStack.Push | src/editor/Command.cpp:826-840 | push drops the commands above top, then puts the new one on top, or merges it into the one below top, which then has the summed length and the new command's finished coordinate; no other command changes, and afterwards top is the size |
| EditorCommands.CommandStack.Undo | src/editor/Command.cpp:841-846 | at the bottom undo does nothing; otherwise it hands back the command below top and top drops by one; the commands are kept |
| EditorCommands.CommandStack.Redo | src/editor/Command.cpp:847-852 | at the top redo does nothing; otherwise it hands back the command at top and top rises by one; the commands are kept |
| EditorCommands.UndoThenRedo | src/editor/Command.cpp:841-852 | undo followed by redo hands back the same command and restores the stack |
| EditorCommands.BackspaceWidth | src/editor/Command.cpp:444-460 | backspace removes two units if and only if the unit two before the cursor is the high surrogate 0xD83D or 0xD83C, else one |
| EditorCommands.RemoveTextInNode | src/editor/Command.cpp:444-460 | backspace removes the units before the offset and the cursor steps back by as many, two after an emoji's high surrogate and one otherwise; BackspaceContent states the text left and BackspaceAtStartFails the failure at the start of a Text |
| EditorCommands.BackspaceContent | src/editor/Command.cpp:444-460 | backspace at offset k >= 1 removes exactly the BackspaceWidth units before k from the Text and steps the cursor back as many |
| EditorCommands.BackspaceAtStartFails | src/editor/Command.cpp:457 | backspace at the start of a Text asks Text::remove for a unit before it and fails |
| EditorCommands.BackspaceWalk | src/editor/Command.cpp:444-460 | three backspaces from the end of a, an emoji and b go back by 1, 2 and 1 units |
| EditorCommands.InsertTextInNode | src/editor/Command.cpp:701-717 | typing fails the source's assertion exactly when the command may step over a closing unit and the offset is outside the text, its end included; otherwise it steps over the unit or inserts (TypedContent, SkipOverKeepsText) |
| EditorCommands.TypedContent | src/editor/Command.cpp:701-717 | typing that does not step over puts the command's whole range of the add buffer into the text at the cursor and advances by the typed length |
| EditorCommands.SkipOverKeepsText | src/editor/Command.cpp:702-710 | typing a closing unit in front of the same unit steps over it: the text is unchanged and the cursor advances by one |
| EditorCommands.AutoCloseLandsBetween | src/editor/Command.cpp:712-716 | typing ( puts the pair in at the cursor and advances by one, so the cursor lands between the opening and the closing unit |
| EditorCommands.EmptyLineContent | src/editor/Command.cpp:486-492 | typing on an empty line grows the block's text by exactly the command's range of the add buffer |
| EditorCommands.ShortcutSpec | src/editor/Command.cpp:499-554 | a shortcut fires only within six units of the line start; it is a header if and only if the prefix is all #, its level is the number of #, from 1 to 6, and it removes exactly the prefix |
| EditorCommands.ListPrefixesAreNotHeaders | src/editor/Command.cpp:518-536 | a - prefix makes an unordered list and a 1. prefix an ordered list; neither is read as a header |
| EditorCommands.TextPartText | src/editor/Command.cpp:507-512 | a Text child that becomes empty adds nothing to the block's text, whether it is kept or removed |
| EditorCommands.ShortcutDropsPrefix | src/editor/Command.cpp:505-553 | the converted block's text is the paragraph's text without the prefix |
| EditorCommands.ShortcutText | src/editor/Command.cpp:505-512 | the text part of a conversion: the children's strings afterwards are those before it without the first n units |
| EditorCommands.SplitKeepsText | src/editor/Command.cpp:156-196 | return in the middle of a block loses no text: the two blocks' strings together are the old block's with the cursor's Text replaced by its two halves |
| EditorCommands.HeaderReturnBlock | src/editor/Command.cpp:78-88 | after a return in a header the new block is a header of the same level if and only if the right part has text, else a paragraph |
| EditorCommands.HeaderBackspaceSpec | src/editor/Command.cpp:335-346 | backspace degrades a header to a paragraph with the same children if and only if the line is empty or the cursor is at the first position |
| Editing.End | src/editor/Document.cpp:319-328 | the end of the document is a valid coordinate at the end of the last block's last line |
| Editing.EndIsGreatest | src/editor/Document.cpp:319-328 | every valid coordinate is at or before the end of the document |
| Editing.MoveRightValid | src/editor/Document.cpp:46-74 | a move to the right from a valid coordinate lands on a valid coordinate |
| Editing.MoveRightForward | src/editor/Document.cpp:46-74 | a move to the right leaves the coordinate in place if and only if it is the end of the document, and otherwise goes strictly forward |
| Editing.MoveLeftValid | src/editor/Document.cpp:75-102 | a move to the left from a valid coordinate lands on a valid coordinate |
| Editing.MoveLeftBackward | src/editor/Document.cpp:75-102 | a move to the left leaves the coordinate in place if and only if it is the origin, and otherwise goes strictly backward |
| Editing.LeftUndoesRight | src/editor/Document.cpp:46-102 | right then left comes back to any coordinate short of the end that does not split an emoji |
| Editing.RightUndoesLeft | src/editor/Document.cpp:46-102 | left then right comes back to any coordinate past the origin that does not split an emoji |
| Editing.EmojiIsOneStep | src/editor/Document.cpp:53-56 | from before an emoji (high surrogate 0xD83D or 0xD83C) right skips both units, and left comes back over both |
| Editing.FirstBlock | src/editor/Document.cpp:163-171 | the block the search stops at spans the click's height |
| Editing.FirstLine | src/editor/Document.cpp:194-203 | the line the search stops at spans the click's height |
| Editing.ClickLandsInFirstBlock | src/editor/Document.cpp:150-206 | a click below the top margin that hits a block lands in the first block spanning its height, and in a block with lines in the first line spanning it |
| Editing.ClickBelowGoesToEnd | src/editor/Document.cpp:172-175 | a click below every block lands at the end of the document |
| Editing.MoveCursorToPos | src/editor/Document.cpp:150-206 | the loops of moveCursorToPos compute the click's coordinate: the origin above the margin, the end below every block, the start of a block without lines, else the first line spanning the click |
| Editing.WithChildren | src/editor/Document.cpp:264-295 | node2container's view: the same kind of block with other children |
| Editing.MergeStepKeeps | src/editor/Document.cpp:246-259 | one step of the merge loop adds exactly the child's text, merging a Text into a trailing Text, and keeps the other children in order |
| Editing.MergeKeepsContent | src/editor/Document.cpp:240-262 | merging two blocks loses no text and no other child: the first block's text then the second's, other children in order |
| Editing.TextAround | src/editor/Document.cpp:246-259 | a block's text is that of the children before child i, child i's own text, then the children after it |
| Editing.ReturnThenBackspace | src/editor/Document.cpp:240-262 | a return inside a paragraph's Text followed by the merge that backspace makes gives back the same text and the same other children |
| Editing.Document.constructor | src/editor/Document.cpp:16-22 | each top-level node of the parsed tree is rendered into a block, in order; the add buffer and the command stack start empty |
| Editing.Document.ReplaceBlock | src/editor/Document.cpp:224-229 | replaceBlock puts the node at index i of the tree and its rendering at index i of the blocks, and nothing else changes |
| Editing.Document.InsertBlock | src/editor/Document.cpp:230-235 | insertBlock puts the node before index i of the tree and its rendering before index i of the blocks; i equal to the size appends |
| Editing.Document.RenderBlock | src/editor/Document.cpp:236-239 | renderBlock renders node i again into block i and leaves the rest |
| Editing.Document.EditBlock | src/editor/Document.cpp:236-239 | an edit of node i followed by renderBlock changes node i and block i only |
| Editing.Document.RemoveBlock | src/editor/Document.cpp:314-318 | removeBlock takes index i out of both the blocks and the tree |
| Editing.Document.MergeBlock | src/editor/Document.cpp:240-262 | mergeBlock moves the second block's children into the first, merging a Text after a Text, removes the second block and renders the first again |
| Editing.Document.UpgradeToHeader | src/editor/Document.cpp:345-355 | a paragraph becomes a header of the given level with the same children; any other block is left as it is |
| Editing.Document.InsertText | src/editor/Document.cpp:208-213 | empty text does nothing; otherwise a command whose text is appended to the add buffer is made, records where its execution leaves the cursor, and is pushed on the stack |
| Editing.Document.RemoveText | src/editor/Document.cpp:214-218 | a remove command at the cursor is made, records where its execution leaves the cursor, and ends on top of the stack |
| Editing.Document.InsertReturn | src/editor/Document.cpp:219-223 | a return command at the cursor is made, records where its execution leaves the cursor, and ends on top of the stack |
| Editing.Document.Undo | src/editor/Document.cpp:343 | undo hands back the command below the top of the stack and lowers top, or does nothing at the bottom |
| Editing.Document.Redo | src/editor/Document.cpp:344 | redo does nothing in this generation of the editor |
| Editing.ReturnAfterLastBlock | src/parser/Document.cpp:47-48 | the return at the last block inserts at the index equal to the number of children, which the tree as written refuses |
| EditorMarkdown.Hashes | src/editor/Editor.cpp:27-29 | a header writes exactly one # per level |
| EditorMarkdown.EachAt | src/editor/Editor.cpp:159-162 | child k of a container is written between its opening and closing marks, after the children before it and before those after it |
| EditorMarkdown.BoxesAt | src/editor/Editor.cpp:109-123 | item k of a checkbox list is written as one row that starts with - [x] exactly when the item is checked |
| EditorMarkdown.BoxMarkChecked | src/editor/Editor.cpp:113-119 | the two box marks are six units long and - [x] is the mark of the checked rows only |
| EditorMarkdown.NumberedAt | src/editor/Editor.cpp:136-144 | row k of a numbered run starting at n carries the number n + k |
| EditorMarkdown.OrderedListRow | src/editor/Editor.cpp:136-144 | item k (from zero) of an ordered list is written as the row numbered k + 1 |
| EditorMarkdown.HeaderLine | src/editor/Editor.cpp:26-35 | a header is written as level # marks, one space, its children and a line break, and the # marks are all the units before the space |
| EditorMarkdown.BoldItalicNests | src/editor/Editor.cpp:47-51 | bold italic text is written between *** marks, the italic writing between ** marks |
| EditorMarkdown.ParagraphLine | src/editor/Editor.cpp:102-108 | a paragraph writes nothing if and only if it has no children, and otherwise ends with a line break |
| EditorMarkdown.LinkParts | src/editor/Editor.cpp:68-83 | a saved link, visited with content and href in their Markdown places, has its content between the brackets and its href between the parentheses |
| EditorMarkdown.LinkAsWrittenSwaps | src/editor/Editor.cpp:68-83 | the link visit as written writes href between the brackets and content between the parentheses, the corrected visit with the two exchanged |
| EditorMarkdown.LinkSwapExample | src/editor/Editor.cpp:68-83 | a link to b with text a is saved as written as [b](a), which reads back as a link to a with text b |
| EditorMarkdown.QuoteLine | src/editor/Editor.cpp:157-163 | line k of a saved quote is written as the quote prefix, the line and a line break |
| EditorMarkdown.QuoteStartsWithPrefix | src/editor/Editor.cpp:157-163 | a saved quote, corrected, starts with the prefix the quote recogniser looks for |
| EditorMarkdown.QuoteAsWrittenLosesPrefix | src/editor/Editor.cpp:158 | the quote visit as written writes > without the following space, so a one-line quote whose text does not start with a space is not saved with the quote prefix |
| EditorMarkdown.MarkdownVisitor.constructor | src/editor/Editor.cpp:25 | the visitor starts with no Markdown written |
| EditorMarkdown.MarkdownVisitor.Visit | src/editor/Editor.cpp:20-171 | visiting a node appends exactly that node's Markdown to what was written |
| EditorMarkdown.MarkdownVisitor.VisitInline | src/editor/Editor.cpp:36-101 | the Text, emphasis, image, link and inline-code visits append that node's Markdown |
| EditorMarkdown.MarkdownVisitor.VisitPlain | src/editor/Editor.cpp:155-164 | the rule, the line break and the skipped table append that node's Markdown |
| EditorMarkdown.MarkdownVisitor.VisitAround | src/editor/Editor.cpp:37-51 | an emphasis or inline-code visit appends its mark, its Text and its mark |
| EditorMarkdown.MarkdownVisitor.VisitPair | src/editor/Editor.cpp:52-83 | an image or link visit appends the opener, the first Text, ](, the second Text and ) |
| EditorMarkdown.MarkdownVisitor.VisitHeader | src/editor/Editor.cpp:26-35 | the header visit appends the # marks, a space, the children and a line break |
| EditorMarkdown.MarkdownVisitor.VisitCodeBlock | src/editor/Editor.cpp:84-94 | the code block visit appends the opening fence and name, each line followed by a line break, and the closing fence |
| EditorMarkdown.MarkdownVisitor.VisitEach | src/editor/Editor.cpp:129-134 | the children loop appends each child between the opening and closing marks, in order |
| EditorMarkdown.MarkdownVisitor.VisitBoxes | src/editor/Editor.cpp:109-123 | the checkbox loop appends one row per item, with the box marked by the item's flag |
| EditorMarkdown.MarkdownVisitor.VisitNumbered | src/editor/Editor.cpp:136-144 | the ordered list loop appends one row per item, numbered from 1 |
| EditorMarkdown.MarkdownVisitor.VisitAll | src/editor/Editor.cpp:266-268 | accepting the visitor on the document appends the Markdown of every top-level node in order |
| EditorMarkdown.NotePathOfUrl | src/editor/Editor.cpp:251-256 | dropping the file:// prefix undoes adding it, and a path without it is kept |
| EditorMarkdown.SavePathEndsWithMd | src/editor/Editor.cpp:257-259 | the saved file always ends with .md, and is the note path with .md added only when it is missing |
| EditorMarkdown.SavePathIdempotent | src/editor/Editor.cpp:251-259 | saving to the path a save chose chooses the same path again |
| EditorMarkdown.SaveToFile | src/editor/Editor.cpp:251-272 | saveToFile writes the document's Markdown to the path chosen by SavePath |
| EditorMarkdown.Toggled | src/editor/Editor.cpp:183-187 | a click on a checkbox item flips that item's flag and leaves every other item alone |
| EditorMarkdown.ToggleTwice | src/editor/Editor.cpp:183-187 | clicking the same box twice gives back the list as it was |
| EditorMarkdown.ToggleRewritesBox | src/editor/Editor.cpp:109-123 | a click changes only the clicked item's row in the saved Markdown, and only its box |
| EditorMarkdown.PressCheckbox | src/editor/Editor.cpp:183-187 | the click flips the item's flag in the tree and draws its block again; nothing else changes |
| EditorMarkdown.CopiedCodeDefined | src/editor/Editor.cpp:193-206 | copying a code block succeeds if and only if every line is a Text or a line break |
| EditorMarkdown.CopiedCodeIsSavedBody | src/editor/Editor.cpp:193-206 | a code block of Texts copies exactly the lines its saved Markdown holds between the fences |
| EditorMarkdown.CopyCode | src/editor/Editor.cpp:193-208 | the copy loop computes the copied code, None on the failed assertion |
| Cells.Measured | src/render/Cell.cpp:12-25 | width(length) measures the first `length` shown units of a text cell, exactly that many when the cell has them |
| Cells.WholeCellMeasured | src/render/Cell.cpp:11-30 | length() counts exactly the units a text cell shows, so width(length()) measures the whole cell; an image has length 1, width 0 at 0 and its own width at 1 |
| Cells.MeasuredGrows | src/render/Cell.cpp:12-25 | a longer length measures a text that extends the one a shorter length measures |
| StringUtil.EnglishEnd | src/render/StringUtil.cpp:18-20 | the inner English loop stops inside the text, at or after its start |
| StringUtil.EnglishEndSpec | src/render/StringUtil.cpp:18-20 | the inner English loop passes only ASCII or space units and stops at the first other unit |
| StringUtil.ChineseEnd | src/render/StringUtil.cpp:11-53 | a Chinese run ends inside the text, at or after its start |
| StringUtil.ChineseEndSpec | src/render/StringUtil.cpp:11-53 | a Chinese run holds only units that are neither English nor an emoji start, and stops at the first one that is |
| StringUtil.RunEnd | src/render/StringUtil.cpp:11-53 | every run the loop emits is non-empty and inside the text |
| StringUtil.RunWellFormed | src/render/StringUtil.cpp:11-56 | each run is of the kind it is tagged with, and the next run is of another kind unless both are emoji |
| StringUtil.SegmentsWellFormed | src/render/StringUtil.cpp:6-58 | the runs tile the rest of the text, each is of its tagged kind, and no English or Chinese run is followed by one of its own kind |
| StringUtil.TilesEnd | src/render/StringUtil.cpp:6-58 | a tiling of the text ends where its last run ends |
| StringUtil.TilesContiguous | src/render/StringUtil.cpp:6-58 | each run starts where the run before it ends |
| StringUtil.SegmentsCover | src/render/StringUtil.cpp:6-58 | split covers the whole string: runs start at 0, follow one another, are never empty and end at the end; the empty string gives no run |
| StringUtil.EnglishMaximal | src/render/StringUtil.cpp:13-24 | an English run after the first position is preceded by a unit that is not English |
| StringUtil.Split | src/render/StringUtil.cpp:6-58 | the loop emits exactly the run segmentation of the text |
| StringUtil.ChineseStep | src/render/StringUtil.cpp:14-17 | a pending Chinese run cut by an English unit or emoji is emitted as the next run |
| StringUtil.EnglishRun | src/render/StringUtil.cpp:18-20 | an English run that ends at e is where the inner loop stops |
| StringUtil.ChineseRun | src/render/StringUtil.cpp:52 | a Chinese run that ends at e is where the Chinese run stops |
| StringUtil.EnglishStep | src/render/StringUtil.cpp:18-23 | the English branch emits [offset, i) as the next run |
| StringUtil.EmojiStep | src/render/StringUtil.cpp:26-50 | a surrogate pair in the two emoji ranges is emitted as one run of length 2 |
| StringUtil.SplitMixedExample | src/render/StringUtil.cpp:6-58 | five ideographs, a grinning-face emoji and one more ideograph split into Chinese 0..5, Emoji 5..7 and Chinese 7..8 |
| Instructions.UpdateRect | src/render/Instruction.cpp:85-89 | updateRect keeps the size of the rectangle |
| Instructions.UpdateRectComposes | src/render/Instruction.cpp:85-89 | two translations compose into one, the zero offset changes nothing and the opposite offset undoes a translation |
| Instructions.Front | src/render/Instruction.cpp:139-142 | front() returns an item of the non-empty line |
| Instructions.Back | src/render/Instruction.cpp:143-146 | back() returns an item of the non-empty line |
| Instructions.At | src/render/Instruction.cpp:176-179 | operator[] returns an item of the line for an index in range |
| Instructions.FrontBackAt | src/render/Instruction.cpp:139-146 | front() and back() are the items at the two ends of operator[]'s range, and coincide on a one-item line |
| Instructions.TextLengthAppend | src/render/Instruction.cpp:94-99 | the summed length of text cells is additive over any cut of the line |
| Instructions.TextLengthOnlyText | src/render/Instruction.cpp:96 | cells that are not text cells add nothing: a line without text cells sums to 0 |
| Instructions.PendingIsMax | src/render/Instruction.cpp:154-168 | a run of items with no eol flag closes no row and its open row is as tall as its tallest cell |
| Instructions.OneRow | src/render/Instruction.cpp:154-168 | items flagged eol at most on the last one form exactly one row, as tall as the tallest cell |
| Instructions.RowsRestartAfterEol | src/render/Instruction.cpp:157-160 | rows never cross an eol flag: after one, the rows of what follows start afresh |
| Instructions.LineHeightSplits | src/render/Instruction.cpp:147-175 | a line cut right after an eol flag is as tall as its two parts together |
| Instructions.Height | src/render/Instruction.cpp:147-175 | height() returns the stored height for an empty line and otherwise the sum of the row heights, rows ending at each eol flag |
| Instructions.Block.MaxOffsetOfLogicalLine | src/render/Instruction.cpp:90-101 | 0 without logical lines, else the summed length of the text cells of the named line |
| Instructions.Block.AppendVisualItem | src/render/Instruction.cpp:102-105 | the item is added at the end of the last visual line and nothing else changes |
| Instructions.Block.AppendLogicalItem | src/render/Instruction.cpp:106-109 | the item is added at the end of the last logical line and nothing else changes |
| Instructions.Block.InsertVisualItem | src/render/Instruction.cpp:119-124 | the item is inserted before an existing position of one visual line, later items move up by one, and nothing else changes |
| EditorPieceTable.InBoundsSpan | editor/PieceTable.cpp:110-115 | a span inside its buffer reads, from the original or the add buffer by its type, exactly length units starting at its offset |
| EditorPieceTable.ReadUnit | editor/PieceTable.cpp:110-115 | a one-unit span reads as that unit of its buffer |
| EditorPieceTable.SpanCut | editor/PieceTable.cpp:47-53 | cutting a span t units in gives two spans inside the buffers that read its string before and after t |
| EditorPieceTable.SpanGrown | editor/PieceTable.cpp:114 | appending to the add buffer does not change what a span inside the buffers reads |
| EditorPieceTable.SpanAdded | editor/PieceTable.cpp:35-36 | the span of the text just appended to the add buffer reads that text |
| EditorPieceTable.SpanExtended | editor/PieceTable.cpp:39-40 | an add span ending where the add buffer ends, lengthened with it, reads its old string followed by the appended text |
| EditorPieceTable.ContentLength | editor/PieceTable.cpp:100-118 | the text of the table is as long as the sum of the spans' lengths |
| EditorPieceTable.SpliceInsert | editor/PieceTable.cpp:35-53 | replacing span i by spans that read its string with x put t units in puts x at the span's start plus t in the whole text |
| EditorPieceTable.SpliceRemove | editor/PieceTable.cpp:76-95 | replacing span i by spans that read its string less length units from t removes those units from the whole text at the span's start plus t |
| EditorPieceTable.ContentGrowth | editor/PieceTable.cpp:114 | appending to the add buffer keeps every valid table valid and reading the same text |
| EditorPieceTable.ValidSplice | editor/PieceTable.cpp:35-53 | splicing spans inside the buffers in place of a span keeps the table inside its buffers |
| EditorPieceTable.SiteFromSpec | editor/PieceTable.cpp:20-31 | the rest of the locating scan, when it finds a span, finds one holding the offset and starting where the spans before it end |
| EditorPieceTable.SiteSpec | editor/PieceTable.cpp:18-31 | the span the locating loop stops at holds the offset and starts where the spans before it end |
| EditorPieceTable.SiteFromFound | editor/PieceTable.cpp:20-31 | from any point of the scan an offset up to the end of the text is found |
| EditorPieceTable.SiteFound | editor/PieceTable.cpp:18-31 | with non-negative lengths the locating loop finds a span for every offset from 0 up to the end of the text |
| EditorPieceTable.SiteFromMissed | editor/PieceTable.cpp:20-31 | from any point of the scan an offset past the end of the text is not found |
| EditorPieceTable.SiteMissed | editor/PieceTable.cpp:18-31 | an offset before the text or past its end finds no span, so insert and remove change nothing |
| EditorPieceTable.InsertPieceContent | editor/PieceTable.cpp:34-54 | the repaired replacement of the span reads the span's string with the added text put t units in |
| EditorPieceTable.Inserted | editor/PieceTable.cpp:15-57 | defines insert, repaired: the span the scan stops at is replaced by the pieces the insertion makes, and an offset no span reaches leaves the spans as they are; InsertContent and InsertOutside state what it does to the text |
| EditorPieceTable.InsertContent | editor/PieceTable.cpp:15-57 | inserting the text just appended to the add buffer at any offset from 0 to the end of a non-empty table puts it exactly there in the text and keeps the spans inside their buffers |
| EditorPieceTable.InsertSite | editor/PieceTable.cpp:18-55 | the insert loop stops at the located span and replaces it by the repaired piece, or by the piece as written |
| EditorPieceTable.InsertAt | editor/PieceTable.cpp:34-55 | inserting at a located span puts the text k units into the whole text and keeps the spans inside their buffers |
| EditorPieceTable.InsertOutside | editor/PieceTable.cpp:20-31 | an offset before the text or past its end, or an empty table, leaves the spans as they are, both as written and repaired |
| EditorPieceTable.ExtendOriginalAsWritten | editor/PieceTable.cpp:37-40 | as written, an insert at the end of an original span whose end equals the add offset lengthens that original span, so the text reads the original buffer instead of the added unit |
| EditorPieceTable.SplitAddAsWritten | editor/PieceTable.cpp:47-53 | as written, splitting an add span tags its remainder original, so the text reads the original buffer where the rest of the added text was |
| EditorPieceTable.SplitAddPieces | editor/PieceTable.cpp:47-53 | the spans behind SplitAddAsWritten: as written the remainder is an original span, repaired it is an add span |
| EditorPieceTable.RemovePieceContent | editor/PieceTable.cpp:76-95 | the repaired replacement of the span reads the span's string less length units from t |
| EditorPieceTable.Removed | editor/PieceTable.cpp:59-98 | defines remove, repaired: only the first span ending after the offset is cut, and an offset no span reaches leaves the spans as they are; RemoveContent and RemoveOutside state what it does to the text |
| EditorPieceTable.RemoveContent | editor/PieceTable.cpp:59-98 | a removal inside one span deletes exactly the units from offset to offset + length of the text and keeps the spans inside their buffers |
| EditorPieceTable.RemoveAt | editor/PieceTable.cpp:76-96 | removing at a located span cuts length units k units into the whole text and keeps the spans inside their buffers |
| EditorPieceTable.RemoveOutside | editor/PieceTable.cpp:63-74 | a removal starting before the text or at or past its end leaves the spans as they are, both as written and repaired |
| EditorPieceTable.RemoveHeadAsWritten | editor/PieceTable.cpp:82-84 | as written, removing one unit at the head of a span moves its offset but keeps its length, so the text reads one unit past the span's end |
| EditorPieceTable.ItemString | editor/PieceTable.cpp:104-116 | with the guard repaired, a valid index reads as many units as its span's length, and any index outside the list reads nothing |
| EditorPieceTable.ItemStringGuard | editor/PieceTable.cpp:105 | the written guard index > size agrees with the repaired one on every index but size itself, which it lets through to an out-of-range read |
| EditorPieceTable.PieceTable.constructor | editor/PieceTable.cpp:9-13 | a new table holds one original span with the given offset and length |
| EditorPieceTable.PieceTable.Insert | editor/PieceTable.cpp:15-57 | insert's loop leaves exactly the repaired Inserted spans |
| EditorPieceTable.PieceTable.Remove | editor/PieceTable.cpp:59-98 | remove's loop leaves exactly the repaired Removed spans |
| EditorPieceTable.PieceTable.ItemStringAt | editor/PieceTable.cpp:104-116 | itemString returns the repaired ItemString of the index |
| EditorPieceTable.PieceTable.Strings | editor/PieceTable.cpp:100-118 | iterating from begin() to end() yields each span's string in order, and together they are the table's text |
| EditorDocuments.Contains | editor/EditorDocument.cpp:23-35 | a line contains the cursor if and only if some cell's rectangle spans the cursor's y, whatever its x |
| EditorDocuments.LastCoord | editor/EditorDocument.cpp:36-40 | the last position of a line is its last cell and the offset just past that cell's text |
| EditorDocuments.CellsWidthBound | editor/EditorDocument.cpp:109-122 | every cell offers at least one cursor position |
| EditorDocuments.LinesWidthBound | editor/EditorDocument.cpp:123-129 | every line of the grid offers at least one cursor position |
| EditorDocuments.CellsAround | editor/EditorDocument.cpp:115-121 | a line's positions are those of the cells before cell k, cell k's own and those after it |
| EditorDocuments.LinesAround | editor/EditorDocument.cpp:123-129 | the grid's positions are those of the lines before line l, line l's own and those after it |
| EditorDocuments.RankBounds | editor/EditorDocument.cpp:59-133 | positions in reading order run from 0 at (0, 0, 0) to one less than the grid's width at the end of the last cell, and only those two coordinates take those ranks |
| EditorDocuments.RankStepRight | editor/EditorDocument.cpp:109-129 | a step right inside a cell, to the next cell or to the next line stays on the grid and moves one position on in reading order |
| EditorDocuments.RankStepLeft | editor/EditorDocument.cpp:64-99 | a step left inside a cell, to the previous cell or to the previous line stays on the grid and moves one position back in reading order |
| EditorDocuments.MoveRight | editor/EditorDocument.cpp:104-133 | the repaired right move always ends on a position of the grid |
| EditorDocuments.MoveLeft | editor/EditorDocument.cpp:59-103 | the repaired left move always ends on a position of the grid |
| EditorDocuments.MoveRightRank | editor/EditorDocument.cpp:104-133 | the repaired right move goes length positions on in reading order, stopping at the end of the grid; with ignoreCell the cell crossings are free, so it goes at least as far |
| EditorDocuments.MoveLeftRank | editor/EditorDocument.cpp:59-103 | the repaired left move goes length positions back in reading order, stopping at (0, 0, 0); with ignoreCell the cell crossings are free, so it goes at least as far back |
| EditorDocuments.MoveRightAgrees | editor/EditorDocument.cpp:104-133 | wherever the written right loop exits, it ends where the repaired move does |
| EditorDocuments.MoveRightHangsAtEnd | editor/EditorDocument.cpp:108-130 | as written, a right move from the end of the last line with length left never leaves its loop; the repaired move stays put |
| EditorDocuments.MoveLeftHangsAsWritten | editor/EditorDocument.cpp:63-100 | as written, one step left from after the one-unit text of the only cell never leaves its loop; the repaired move lands at (0, 0, 0) |
| EditorDocuments.MoveLeftSkipsAsWritten | editor/EditorDocument.cpp:64-88 | as written, one step left from after the one-unit text of a second cell falls through to the end of the first cell, skipping the unit; the repaired move lands at the start of the second cell |
| EditorDocuments.EditorDocument.constructor | editor/EditorDocument.cpp:19-21 | a new document keeps the text as its original buffer, with an empty add buffer, no lines and no piece tables |
| EditorDocuments.EditorDocument.CreateNewLineData | editor/EditorDocument.cpp:41-44 | createNewLineData appends one empty line and changes nothing else |
| EditorDocuments.EditorDocument.AppendCell | editor/EditorDocument.cpp:290-292 | appendCell appends the cell to the last line and changes nothing else |
| EditorDocuments.EditorDocument.MoveCursorRight | editor/EditorDocument.cpp:104-133 | a present cursor takes the repaired right move and keeps its pixel position; a null cursor is left alone |
| EditorDocuments.EditorDocument.MoveCursorLeft | editor/EditorDocument.cpp:59-103 | a present cursor takes the repaired left move and keeps its pixel position; a null cursor is left alone |
| EditorDocuments.EditorDocument.InsertText | editor/EditorDocument.cpp:294-307 | with a piece table under the cursor the text is appended to the add buffer and its span inserted at the cell's start in the table plus the cursor's offset; without one nothing changes |
| EditorDocuments.EditorDocument.RemoveText | editor/EditorDocument.cpp:319-329 | with a piece table under the cursor the length units that end at the cursor are removed from it; without one nothing changes |
| EditorDocuments.EditorDocument.PieceTableOf | editor/EditorDocument.cpp:309-317 | a null Text has no table; a Text seen before gets its remembered table; any other gets a fresh table of one original span over its range, which is remembered |
| EditorDocuments.EditorDocument.Text2Str | editor/EditorDocument.cpp:345-356 | a null Text reads as the empty string; otherwise the string is the concatenated spans of the Text's table over the two buffers |
| EditorDocuments.PieceTableMemo | editor/EditorDocument.cpp:309-317 | a second pieceTable call for the same Text returns the table of the first |
| ParserDocument.WrappedAppend | parser/Document.cpp:101-103 | the children loop over two lists in a row writes the first list's HTML then the second's |
| ParserDocument.WrappedOne | parser/Document.cpp:101-103 | a one-node list writes that node between the open and close strings |
| ParserDocument.HtmlAllCons | parser/Document.cpp:194-196 | a node list writes its first node's HTML and then the rest's |
| ParserDocument.TextHtml | parser/Document.cpp:34-36 | a Text writes exactly its range of the document's text when the range lies inside it, unescaped, and never more units than its length |
| ParserDocument.EmptyParagraphSilent | parser/Document.cpp:98-99 | a paragraph without children writes nothing, not even the <p> tags |
| ParserDocument.ParagraphOne | parser/Document.cpp:98-105 | a paragraph of one node writes that node's HTML between <p> and </p> |
| ParserDocument.ParagraphHtml | parser/Document.cpp:98-105 | a paragraph holding a single Text writes the Text's range of the document between <p> and </p> |
| ParserDocument.BoxOpenDistinct | parser/Document.cpp:108-112 | the two opening tags of a checkbox row differ: only one carries checked |
| ParserDocument.CheckboxHtml | parser/Document.cpp:106-121 | a one-item checkbox list writes the opening tag for the item's flag, the item's children and </div> |
| ParserDocument.TableIgnoresText | parser/Document.cpp:160-180 | a table's HTML depends only on its cells, never on the document's text |
| ParserDocument.UnvisitedSilent | parser/Document.cpp:19-24 | a node of a type the visitor does not implement writes nothing, wherever it sits in a list |
| ParserDocument.HtmlVisitor.constructor | parser/Document.cpp:25 | a new visitor holds the document's text and empty HTML |
| ParserDocument.HtmlVisitor.Visit | parser/Document.cpp:26-180 | visiting a node appends exactly that node's HTML and nothing else |
| ParserDocument.HtmlVisitor.VisitLeaf | parser/Document.cpp:34-36 | the visits that visit no node (Text, Hr, Lf) append exactly the node's HTML |
| ParserDocument.HtmlVisitor.VisitOption | parser/Document.cpp:54-58 | an optional part is visited when it is there and writes nothing when it is null |
| ParserDocument.HtmlVisitor.VisitWrapper | parser/Document.cpp:37-51 | the emphasis and inline code visits append their opening piece, the wrapped text and their closing piece |
| ParserDocument.HtmlVisitor.VisitAround | parser/Document.cpp:91-97 | a wrapper visit appends the opening, the optional part and the closing |
| ParserDocument.HtmlVisitor.VisitPair | parser/Document.cpp:52-83 | the image and link visits append their pieces around two optional parts, in the source's order |
| ParserDocument.HtmlVisitor.VisitContainer | parser/Document.cpp:84-159 | the container visits append exactly the node's HTML, visiting the children in order |
| ParserDocument.HtmlVisitor.VisitWrapped | parser/Document.cpp:122-130 | a container visit appends its opening, each child between its open and close strings, then its closing |
| ParserDocument.HtmlVisitor.VisitEach | parser/Document.cpp:124-128 | the children loop appends, for each child in order, the open string, the child's HTML and the close string |
| ParserDocument.HtmlVisitor.VisitBoxes | parser/Document.cpp:106-116 | the checkbox list visit writes each item in a <div> whose input is checked if and only if the item is |
| ParserDocument.HtmlVisitor.VisitCells | parser/Document.cpp:163-167 | the header loop appends each cell as a <th> cell |
| ParserDocument.HtmlVisitor.VisitRows | parser/Document.cpp:170-177 | the body loop appends each row as a <tr> of <th> cells |
| ParserDocument.HtmlVisitor.VisitTable | parser/Document.cpp:160-180 | the table visit appends exactly the table's HTML: the header cells, then each body row |
| ParserDocument.HtmlVisitor.VisitAll | parser/Document.cpp:194-196 | toHtml's loop appends the HTML of every child of the root, in order |
| ParserDocument.Document.constructor | parser/Document.cpp:190 | the document keeps the text it was given and has no tree yet |
| ParserDocument.Document.ToHtml | parser/Document.cpp:192-200 | toHtml returns the HTML of every child of the root, in order, over the document's text |
| ParserDocument.Container.constructor | parser/Document.cpp:207-213 | a new container has no children |
| ParserDocument.Container.AppendChildren | parser/Document.cpp:207-213 | appendChildren puts the Texts at the end in order, and an empty list changes nothing |
| LegacyTokens.OfType | parser/Token.cpp:8-54 | Token(type) keeps the type it is given |
| LegacyTokens.OfString | parser/Token.cpp:56-58 | Token(str) holds the string with type none |
| LegacyTokens.EqualIsIdentity | parser/Token.cpp:60-67 | operator== holds exactly when type and string agree; operator!= is its negation |
| LegacyTokens.SpellingShape | parser/Token.cpp:8-54 | every type but none and text gets a one-unit string, and no two such types share one |
| LegacyTokens.SpMapKeys | parser/Token.cpp:68-81 | spMap has exactly the eleven keys # > ! * ~ [ ] ( ) ` $, and space is not one of them |
| LegacyTokens.SpMapEntries | parser/Token.cpp:68-81 | each spMap entry is the Token of a character type spelled by its key alone |
| LegacyInline.ParseLine | Parser.cpp:433-454 | parseLine's loop returns exactly the token list of the line (LineTokens) |
| LegacyInline.LineTokens | Parser.cpp:433-454 | defines the tokens of a line: maximal runs of ordinary units as text tokens, each special unit its own token; ParseLine computes it and LineTokensSpell, LineTokensShape state that they spell the line back and are classified and maximal |
| LegacyInline.PendingSpells | Parser.cpp:439-441 | the pending run of ordinary units reads back as the units from prev to cur |
| LegacyInline.ScanSpellsAt | Parser.cpp:437-446 | at a special unit, the pending run, the unit's token and the rest read back as the text from prev |
| LegacyInline.ScanSpells | Parser.cpp:437-449 | the rest of the scan reads back as the text from prev |
| LegacyInline.LineTokensSpell | Parser.cpp:433-454 | tokenising loses nothing: the token strings glued together give back the line |
| LegacyInline.PendingClassified | Parser.cpp:439-441 | the pending run, when there is one, is a token of type none holding no special unit |
| LegacyInline.ScanClassified | Parser.cpp:437-449 | every token the scan emits is classified: a special unit alone with its table type, or a run of ordinary units of type none |
| LegacyInline.ScanMaximal | Parser.cpp:437-449 | the scan never emits two runs of ordinary units in a row |
| LegacyInline.LineTokensShape | Parser.cpp:433-454 | every token of the line is classified and the ordinary runs are maximal |
| LegacyInline.MergeToText | Parser.cpp:181-188 | mergeToText returns nothing when prev >= cur and otherwise the glued strings of tokens prev..cur |
| LegacyInline.MergeWholeLine | Parser.cpp:181-188 | merging all the tokens of a non-empty line gives back the line |
| LegacyInline.NextOf | Parser.cpp:193 | the search for the next token of a type stays inside the token list or ends at its end |
| LegacyInline.NextOfSpec | Parser.cpp:193 | the search skips only tokens of other types and stops on the first of the type it looks for |
| LegacyInline.NextOfIs | Parser.cpp:193 | an index with no token of the type before it that holds the type (or is the end) is where the search stops |
| LegacyInline.FindNext | Parser.cpp:193 | the loop while (!isX(tokens[i])) i++ stops exactly where NextOf says |
| LegacyInline.ImageAt | Parser.cpp:189-202 | parseImage yields a node and moves the index forward |
| LegacyInline.LinkAt | Parser.cpp:203-215 | parseLink yields a node and moves the index forward |
| LegacyInline.InlineCodeAt | Parser.cpp:216-224 | parseInlineCode yields a node and moves the index forward |
| LegacyInline.InlineLatexAt | Parser.cpp:133-142 | parseInlineLatex either yields a node and moves forward or reads past the last token; it never declines |
| LegacyInline.StarRun | Parser.cpp:93-96 | the run of star tokens stays inside the token list |
| LegacyInline.StepAt | Parser.cpp:294-373 | each recogniser branch of the paragraph loop that yields a node moves the index forward |
| LegacyInline.ParseImage | Parser.cpp:189-202 | parseImage's loops return exactly ImageAt: the alt and url merged between the brackets and the parentheses |
| LegacyInline.ParseLink | Parser.cpp:203-215 | parseLink's loops return exactly LinkAt: the content and href merged between the brackets and the parentheses |
| LegacyInline.ParseInlineCode | Parser.cpp:216-224 | parseInlineCode's loop returns exactly InlineCodeAt |
| LegacyInline.ParseInlineLatex | Parser.cpp:133-142 | parseInlineLatex's loop returns exactly InlineLatexAt, reporting the overrun when no dollar follows |
| LegacyInline.RunStep | Parser.cpp:295-372 | one position of the paragraph loop returns exactly StepAt, in the order of the source's branches |
| LegacyInline.InlineFrom | Parser.cpp:294-373 | defines the children parseParagraph appends from token i on, the tokens since prev merged into a Text before each recognised span, None when a recogniser reads past the last token; InlineStep and ParseInline are proved against it |
| LegacyInline.ParagraphOf | Parser.cpp:289-379 | defines the paragraph parseParagraph makes of one line: the inline children of its tokens, None on an overrun; ParseParagraph computes it and PlainLineIsText states it for a plain line |
| LegacyInline.Prepend | Parser.cpp:298-301 | putting nodes in front keeps a failed result failed and adds their count to a successful one |
| LegacyInline.InlineStep | Parser.cpp:294-373 | one step of the paragraph loop: a skipped token leaves the result, an overrun fails it, a recognised span puts the text before it and its node in front of the rest |
| LegacyInline.FlushText | Parser.cpp:298-299 | the flush appends the merged text before the span when there is one, and nothing else |
| LegacyInline.ParseInline | Parser.cpp:289-375 | the paragraph loop returns exactly InlineFrom of the line's tokens: text between spans merged, None on an overrun |
| LegacyInline.ParseParagraph | Parser.cpp:289-379 | parseParagraph returns the paragraph of its line and consumes exactly that one line |
| LegacyInline.EmphasisShapes | Parser.cpp:90-131 | *x*, **x** and ***x*** are recognised if and only if the star count is 1, 2 or 3, one non-star token stands in the middle and the closing stars follow |
| LegacyInline.ImageIff | Parser.cpp:23-46 | tryParseImage holds if and only if ! [ is followed by tokens without ], then ] (, a non-empty run without ), then ) |
| LegacyInline.LinkIff | Parser.cpp:49-70 | tryParseLink holds if and only if [ is followed by a non-empty run without ], then ] (, tokens without ), then ) |
| LegacyInline.InlineCodeSkipsNextToken | Parser.cpp:216-224 | after inline code the index steps one token past the closing backquote, so that token never reaches the paragraph |
| LegacyInline.InlineLatexOverrun | Parser.cpp:332-343 | a dollar followed by a backquote but no second dollar passes the guard and then reads past the last token |
| LegacyInline.QuietTail | Parser.cpp:370-375 | tokens that start no inline element end up merged into one trailing Text |
| LegacyInline.PlainLineIsText | Parser.cpp:289-379 | a non-empty line with none of ! [ ` $ * becomes a paragraph holding the whole line as one Text |
| LegacyInline.PlainTokensQuiet | Parser.cpp:433-454 | the tokens of a line with none of ! [ ` $ * include none that starts an inline element |
| LegacyInline.InlineCodeExample | Parser.cpp:221-222 | on the tokens ` x ` y the paragraph holds only the inline code: y is lost |
| LegacyParser.SplitLines | Parser.cpp:460 | the split always yields at least one line, an empty text giving one empty line |
| LegacyParser.SplitFromJoin | Parser.cpp:460 | the rest of the split glued with LF gives the rest of the text with its breaks normalised |
| LegacyParser.BreakStep | Parser.cpp:460 | at a break, the part before it, an LF and the rest of the split rebuild the normalised text |
| LegacyParser.SplitFromBreakFree | Parser.cpp:460 | no part of the split holds a CR or an LF |
| LegacyParser.SplitLinesJoin | Parser.cpp:460 | splitting loses only the kind of each break: the lines glued with LF give the text with CRLF, CR and LF all as LF, and no line holds a break |
| LegacyParser.HashesFromSpec | Parser.cpp:15 | the counting loop covers a run of # and stops before another unit or at the end |
| LegacyParser.HashesFromIs | Parser.cpp:172 | a position with only # before it and no # at it is where the count stops |
| LegacyParser.ParseHeader | Parser.cpp:170-179 | parseHeader's loop returns exactly HeaderOf: the level and the rest after the blank |
| LegacyParser.HeaderRoundTrip | Parser.cpp:13-21 | a line is a header of level n if and only if it is n # with 1 <= n <= 6, a blank and some content; the header keeps both and they rebuild the line |
| LegacyParser.NextStartingSpec | Parser.cpp:86 | the search for the closing fence skips only lines without the prefix and stops on the first with it |
| LegacyParser.CodeBlockAt | Parser.cpp:380-392 | parseCodeBlock yields a code block and moves forward |
| LegacyParser.ParseCodeBlock | Parser.cpp:380-392 | parseCodeBlock's loop returns exactly CodeBlockAt |
| LegacyParser.CodeBlockSpan | Parser.cpp:380-392 | an accepted fence closes at the first later fence line, the parse resumes after it, and the code keeps every line in between followed by a newline |
| LegacyParser.BodyJoin | Parser.cpp:385-389 | the code is the lines glued with a newline, with one more newline at the end |
| LegacyParser.LatexBlockAt | Parser.cpp:273-288 | parseLatexBlock either declines or yields a block that consumes at least the two $$ lines and one line between |
| LegacyParser.ParseLatexBlock | Parser.cpp:273-288 | parseLatexBlock's loops return exactly LatexBlockAt |
| LegacyParser.RunEndSpec | Parser.cpp:395 | every line before the end of the run has the prefix and the line at the end does not |
| LegacyParser.ItemsAt | Parser.cpp:396 | each item is its line after the first two units, as a Text |
| LegacyParser.UnorderedListAt | Parser.cpp:393-401 | parseUnorderedList yields a list and moves forward |
| LegacyParser.QuoteBlockAt | Parser.cpp:424-432 | parseQuoteBlock yields a quote and moves forward |
| LegacyParser.CollectPrefixed | Parser.cpp:395-398 | the shared loop stops at the end of the prefixed run and collects exactly its items |
| LegacyParser.ParseUnorderedList | Parser.cpp:393-401 | parseUnorderedList returns exactly UnorderedListAt |
| LegacyParser.ParseQuoteBlock | Parser.cpp:424-432 | parseQuoteBlock returns exactly QuoteBlockAt |
| LegacyParser.PrefixedRun | Parser.cpp:395-398 | a run of prefixed lines from a prefixed line is non-empty, each line of it has the prefix and its item is the text after it, and the line ending it has no prefix |
| LegacyParser.UnorderedListSpan | Parser.cpp:393-401 | a list keeps each `- ` line's text after the prefix in order, and the parse resumes one line past the line that ended the list |
| LegacyParser.QuoteBlockSpan | Parser.cpp:424-432 | a quote keeps each `> ` line's text after the prefix in order, and skips the line that ended it too |
| LegacyParser.OrderedListAt | Parser.cpp:402-423 | parseOrderedList always yields a list |
| LegacyParser.ParseOrderedList | Parser.cpp:402-423 | parseOrderedList's loops, with their early returns, return exactly OrderedListAt |
| LegacyParser.OnePrefixIsItem | Parser.cpp:492 | a line starting with `1. ` is an ordered-list line |
| LegacyParser.OrderedEndSpec | Parser.cpp:404-420 | every line before the end of the run is an ordered-list line and the line at the end is not |
| LegacyParser.OrderedItemsAt | Parser.cpp:417 | each item is its line after the digits and `. `, as a Text |
| LegacyParser.OrderedListSpan | Parser.cpp:402-423 | an ordered list keeps each line of its run after the digits and `. `, and the parse resumes at the line that ended it, or one past the end when the lines run out |
| LegacyParser.CountColumn | Parser.cpp:230-236 | countColumn's loop returns the number of bars in the row less one |
| LegacyParser.CutColumn | Parser.cpp:238-249 | cutColumn's loop returns exactly the cells between consecutive bars |
| LegacyParser.CutFromCount | Parser.cpp:241-247 | the cut finds one cell per bar after the start |
| LegacyParser.CellsCount | Parser.cpp:238-253 | for a row opening with a bar, cutColumn finds exactly countColumn cells |
| LegacyParser.CutFromBarred | Parser.cpp:241-247 | the cells cut so far, each followed by a bar, rebuild the row after the last bar |
| LegacyParser.BarredCell | Parser.cpp:242-245 | at a bar, the cell before it, the bar and the cells after it rebuild the row from the last bar |
| LegacyParser.CellsRoundTrip | Parser.cpp:238-252 | a row that opens and closes with a bar is rebuilt from its cells: a bar, then each cell followed by a bar |
| LegacyParser.RowsEndSpec | Parser.cpp:262 | every line before the end of the body is a body row and the line at the end is not |
| LegacyParser.TrimmedRowsAt | Parser.cpp:263 | each body row is its line trimmed |
| LegacyParser.AllCellsAt | Parser.cpp:266 | each row of cells is the cut of its row |
| LegacyParser.TableAt | Parser.cpp:226-272 | parseTable either declines or yields a table that consumes at least the header and separator lines |
| LegacyParser.TrimmedBarRow | Parser.cpp:250-252 | a line starting with a bar trims to a non-empty row that still starts with a bar |
| LegacyParser.OccurrencesTrimmed | Parser.cpp:253-264 | trimming keeps the count of any unit that is not a space, so the column count is the same before and after |
| LegacyParser.TableRectangular | Parser.cpp:226-272 | a parsed table is rectangular: its header and every body row have exactly the header line's column count |
| LegacyParser.TrimmedRowsBar | Parser.cpp:262-263 | body rows trim to rows that still start with a bar |
| LegacyParser.AllCellsCount | Parser.cpp:264-267 | rows that start with a bar and have col columns each give col cells each |
| LegacyParser.RowBarRow | Parser.cpp:262-263 | a body row trims to a row that still starts with a bar |
| LegacyParser.ParseTable | Parser.cpp:226-272 | parseTable's loops return exactly TableAt |
| LegacyParser.CollectRows | Parser.cpp:262-269 | the body loop reports whether every body row has the column count, and then returns the end of the body and the cells of each trimmed row |
| LegacyParser.TableRowStep | Parser.cpp:262-269 | one more fitting body row extends the trimmed rows and their cells by that row, and leaves the end of the body unchanged |
| LegacyParser.TableDeclines | Parser.cpp:265 | a body row with the wrong column count makes the whole table fail |
| LegacyParser.ParagraphAt | Parser.cpp:289-379 | parseParagraph as a block consumes exactly its line, or fails when the line reads past the tokens |
| LegacyParser.Dispatch | Parser.cpp:464-525 | one round of Parser::parse on a non-empty line yields a node that moves forward, or fails with the overrun |
| LegacyParser.RunBlock | Parser.cpp:464-525 | the branches of one round, in the source's order, return exactly Dispatch |
| LegacyParser.ParseFrom | Parser.cpp:462-526 | defines the nodes the parse loop produces from line i on: empty lines are skipped, every other line is handed to the recogniser its first character selects, and the loop goes on where that recogniser stopped; ParseFromCount and EmptyLinesParse state its properties |
| LegacyParser.Parse | Parser.cpp:458-528 | defines Parser::parse as the parse loop over the lines the text splits into; ParseText is proved to compute it and PlainTextIsParagraph states it for a plain line |
| LegacyParser.ParseText | Parser.cpp:458-528 | Parser::parse's loop returns exactly Parse of the text |
| LegacyParser.ParseFromCount | Parser.cpp:462-526 | every round consumes at least one line, so the parse yields at most one node per line, and nothing past the end |
| LegacyParser.EmptyLinesParse | Parser.cpp:465-467 | empty lines produce nothing |
| LegacyParser.SplitFromUnbroken | Parser.cpp:460 | a text without CR or LF is one line |
| LegacyParser.PlainTextIsParagraph | Parser.cpp:458-528 | a one-line text that opens no block and holds none of ! [ ` $ * parses to one paragraph holding the text |
| LegacyDocument.EscapeUnit | Document.cpp:75 | the entity written for one unit is never empty |
| LegacyDocument.Escaped | Document.cpp:75 | escaping never shortens the string |
| LegacyDocument.UnescapeUnit | Document.cpp:75 | one escaped unit reads back as that unit, whatever follows it |
| LegacyDocument.EscapeRoundTrip | Document.cpp:72-77 | escaping the code of a code block loses nothing: the entities read back give the original string |
| LegacyDocument.EscapedIsInert | Document.cpp:72-77 | escaped code holds no <, > or " |
| LegacyDocument.Html | Document.cpp:20-148 | defines the HTML DefaultHtmlVisitor appends for one node, visit by visit (the LaTeX nodes have no visit and write nothing); HtmlVisitor.Visit is proved to append exactly it, HeaderHtml states it for headers |
| LegacyDocument.HtmlAll | Document.cpp:165-167 | defines the HTML of a node list as each node's HTML in order; HtmlVisitor.VisitAll is proved to append exactly it |
| LegacyDocument.DocumentHtml | Document.cpp:158-171 | defines toHtml of a text: the HTML of the nodes Parser::parse gives, None when the parse reads past a line's tokens; Document.ToHtml is proved to return it and PlainTextHtml states it for a plain line |
| LegacyDocument.HtmlVisitor.constructor | Document.cpp:15-19 | a new visitor starts with empty HTML |
| LegacyDocument.HtmlVisitor.Visit | Document.cpp:20-148 | visiting a node appends exactly that node's HTML and nothing else |
| LegacyDocument.HtmlVisitor.VisitInline | Document.cpp:28-84 | the inline visits (text, emphasis, image, link, inline code) each append exactly the node's HTML |
| LegacyDocument.HtmlVisitor.VisitBlock | Document.cpp:20-27 | the block visits append exactly the node's HTML; the containers visit their children in order |
| LegacyDocument.HtmlVisitor.VisitWrapped | Document.cpp:99-107 | a container visit appends its opening, each child between its own open and close strings, then its closing |
| LegacyDocument.HtmlVisitor.VisitEach | Document.cpp:101-105 | the children loop appends, for each child in order, the open string, the child's HTML and the close string |
| LegacyDocument.HtmlVisitor.VisitCells | Document.cpp:131-135 | the header loop appends each cell as a <th> cell |
| LegacyDocument.HtmlVisitor.VisitRows | Document.cpp:138-146 | the body loop appends each row as a <tr> of <th> cells |
| LegacyDocument.HtmlVisitor.VisitTable | Document.cpp:128-148 | the table visit appends exactly the table's HTML: header cells, then each body row, all as <th> cells |
| LegacyDocument.HtmlVisitor.VisitAll | Document.cpp:165-167 | toHtml's loop appends the HTML of every node of the list, in order |
| LegacyDocument.Document.constructor | Document.cpp:158-161 | the document holds what Parser::parse gives for the text |
| LegacyDocument.Document.ToHtml | Document.cpp:163-171 | toHtml returns the HTML of all the nodes in order, or nothing when the parse overran |
| LegacyDocument.PlainTextHtml | Document.cpp:85-91 | a one-line plain text renders as one paragraph holding the text verbatim |
| LegacyDocument.HeaderHtml | Document.cpp:20-27 | a header line with n # renders as <hn>, the content after the blank, </hn> and a line break |
| LegacyRender.Cursor.constructor | Cursor.h:12-16 | a new cursor stands at line 0, cell 0, offset 0, at x 0 and y 0 with no height |
| LegacyRender.Contains | Render.cpp:24-36 | a line contains the cursor if and only if some cell's rectangle spans the cursor's y, whatever its x |
| LegacyRender.LastCoord | Render.cpp:38-42 | the last position of a line is its last cell and the offset just past that cell's text |
| LegacyRender.End | Render.cpp:823-827 | the last position of the document, past the text of the last cell of the last line, is a position of the grid |
| LegacyRender.LeftSpec | Render.cpp:724-747 | a left step stays on the grid, stays put if and only if it is at the first position, and otherwise moves back in reading order |
| LegacyRender.RightSpec | Render.cpp:748-772 | a right step stays on the grid, stays put if and only if it is at the last position, and otherwise moves on in reading order |
| LegacyRender.LeftUndoesRight | Render.cpp:724-772 | a left step undoes a right step that moved |
| LegacyRender.RightUndoesLeft | Render.cpp:724-772 | a right step undoes a left step that moved |
| LegacyRender.UpOnFirstLineIsBegin | Render.cpp:879-882 | up on the first line lands on the first position, where a left step stays put |
| LegacyRender.DownOnLastLineIsEnd | Render.cpp:823-827 | down on the last line lands on the last position, where a right step stays put |
| LegacyRender.Half | Render.cpp:795 | the integer half of a width, truncated toward zero as C++ divides: twice it is the width or one off, and it lies between zero and the width |
| LegacyRender.TextSearchLands | Render.cpp:788-806 | a character found under x from the j-th on gives an offset from j up to the end of the cell's text, and the new x is at least x less one |
| LegacyRender.LineSearchLands | Render.cpp:782-813 | a hit names a cell whose rectangle spans x (right edge excluded going down, included going up), an offset within its text, the cell's top and height; every earlier cell does not span x or holds no character under it |
| LegacyRender.NoSpanNoHit | Render.cpp:782-820 | when no cell spans x the search finds nothing and the move goes to the line's last position |
| LegacyRender.IntoLineOnGrid | Render.cpp:777-821 | an up or down move onto another line lands on a position of the grid, found or not |
| LegacyRender.UpAndDownAtTheRightEdge | Render.cpp:786-801 | over one cell from 0 to 8 holding one character 8 wide: from x 5 both moves land after the character at x 7; from x 8 moving up does too, while moving down finds nothing and keeps x 8 |
| LegacyRender.Render.constructor | Render.cpp:56-97 | a new render has no painter, is not calculating only, keeps the width limit and the settings, and is reset to the top-left margins with no lines and the default font |
| LegacyRender.Render.Reset | Render.cpp:100-120 | reset puts the pen at the top-left margins with no line height and no lines; the default font goes to the new painter when there is one, else to the own font |
| LegacyRender.Render.SetJustCalculate | Render.cpp:657 | the calculate-only flag takes the given value and nothing else changes |
| LegacyRender.Render.Save | Render.cpp:122-128 | save pushes the current font on the own stack when only calculating, else saves the painter's font, and changes nothing else |
| LegacyRender.Render.Restore | Render.cpp:130-136 | restore pops the own stack into the font when only calculating, else restores the painter's font, ignoring an unbalanced restore, and changes nothing else |
| LegacyRender.Render.SetFont | Render.cpp:138-144 | after setFont the current font is the given one: the own font when only calculating, else the painter's; nothing else changes |
| LegacyRender.Render.WithFont | Render.cpp:316-324 | the save, setFont, restore bracket of an emphasis visit leaves the font, both stacks and the pen as they were |
| LegacyRender.Render.MoveToNewLine | Render.cpp:291-298 | a new line starts below the current one by its tallest rectangle plus the spacing, at the left margin, with no height, and one empty line is added |
| LegacyRender.Render.DrawTextInCurrentLine | Render.cpp:278-289 | the text's rectangle is measured from the pen in the current font, the pen moves right by its width and the line's height rises to it; the lines are unchanged |
| LegacyRender.Render.DrawText | Render.cpp:246-276 | a carriage return or an empty text draws nothing and changes nothing; a text that fits adds exactly one cell, in the current font, to the last line |
| LegacyRender.Render.MoveCursorLeft | Render.cpp:724-747 | without a cursor nothing happens; otherwise the cursor takes the left step and keeps its x, y and height |
| LegacyRender.Render.MoveCursorRight | Render.cpp:748-772 | without a cursor nothing happens; otherwise the cursor takes the right step and keeps its x, y and height |
| LegacyRender.Render.MoveCursorUp | Render.cpp:829-883 | on the first line the cursor goes to the first position and keeps its place; otherwise it lands on the line above where the search with the right edge included decides: at the character found, moved to its right edge less one on the cell's top with the cell's height, else at that line's last position with its place kept |
| LegacyRender.Render.MoveCursorDown | Render.cpp:773-828 | on the last line the cursor goes to the last position and keeps its place; otherwise it lands on the line below where the search with the right edge excluded decides: at the character found, moved to its right edge less one on the cell's top with the cell's height, else at that line's last position with its place kept |
| LegacyRender.Render.MoveIntoLine | Render.cpp:782-820 | the loops over the cells spanning x and over their characters, measured by the render's advance, set the coordinate, x, y and height the search defines, or the line's last position with x, y and height kept |
| Controllers.ReadEntry | example/Controller.cpp:14-25 | an entry that is kept has a non-empty path, the part of the entry before its first ':', which holds no ':' |
| Controllers.RecentFiles | example/Controller.cpp:10-28 | recentOpenFiles lists at most one file per stored entry |
| Controllers.FirstWithKey | example/Controller.cpp:31-39 | the search stops at the first entry whose path part is the given path, and every entry before it has another path |
| Controllers.SplitAtColon | example/Controller.cpp:14 | splitting `path:rest` on ':' gives path first when the path has no ':' |
| Controllers.EntryRoundTrip | example/Controller.cpp:40 | an entry written as `path:title` reads back as the same path and title when neither holds ':' and the path is not empty |
| Controllers.ColonInPathIsCut | example/Controller.cpp:14-23 | a path holding ':' does not survive: "C:/a" with title "t" reads back as path "C" and title "/a" |
| Controllers.AddRecentShape | example/Controller.cpp:29-42 | after addRecentOpenFile the new entry is last and the others are the old entries in their old order, less the first one with this path |
| Controllers.AddRecentKeepsOneEntry | example/Controller.cpp:29-42 | when paths were unique, re-adding a file leaves exactly one entry for it, the last one |
| Controllers.Controller.RecentOpenFiles | example/Controller.cpp:10-28 | the loop returns exactly the list of entries read in order, skipping empty paths |
| Controllers.Controller.AddRecentOpenFile | example/Controller.cpp:29-42 | the stored list becomes the old list less its first entry with this path, plus `path:title` at the end |
| Controllers.Controller.ClearRecentFiles | example/Controller.cpp:43 | the stored list, and so the list read back, becomes empty |

## Left out

- Font metrics, painting and layout are left out: `Render::render`, `LogicalLine::offsetAt`, `textRect`, `countOfThisLineCanDraw`, `highlight`, `fixCursorPos`, `updateCursor`, `mapToScreen` and the painter calls. Where a property needs them they are parameters: `Editing.Renderer`, `Editing.OffsetAt`, cell widths and line heights.
- The pixel searches of the older `moveCursorUp` and `moveCursorDown` (Render.cpp) measure each character with `QFontMetrics::horizontalAdvance`. The model takes that measure from the render's `advance` parameter, as it does for `drawText`.
- The wrapping loop of the older `drawText` is left out. `LegacyRender.Render.DrawText` covers its guards and the path where the text fits on the current line; it requires the text to fit, or to be `"\r"` or empty.
- LaTeX rendering, the `latex2png` process and the font caching of `TexRenderGuard` are left out. They are foreign calls and file I/O.
- File reads and writes in `loadFile` and `saveToFile`, `toLocal8Bit`, and the `QSettings` store of the example application are left out. The model keeps the path normalisation and the text that would be written; the recent-files store is a sequence of strings.
- The link, image and copy-code click callbacks are left out. They are calls into the application; the model keeps the string each is handed.
- Parent back-pointers, raw-pointer ownership and `dynamic_cast` visitor dispatch are left out. Nodes are algebraic datatypes matched by pattern; `Ast.Container` is a class because its children are edited in place.
- The middle generation's `parser/Document.h` is not part of this model's sources. The `ParserDocument.Node` type is read off the HTML visitor that walks it.
- The oldest `Document.h` has no classes for the inline LaTeX, the LaTeX block and the checkbox list, which Parser.cpp builds and Document.cpp visits. Their shapes in `LegacyAst.Node` are read off those uses.
- The oldest `Header(level, content)` constructor has no body in the sources. It is modelled as a header holding one Text of the content.
- The current generation's table grammar is commented out in `TableParser::parse`, which always fails. `BlockParsers.TableParse` models that; the commented-out grammar is not modelled. The oldest generation's `parseTable` is modelled in full.
- The ordered list of the oldest parser takes its extra line only when the input runs out after it, as the loop returns early otherwise. The model follows the code; it does not take an extra line in every case.
- `QChar::isDigit` accepts every Unicode decimal digit. The model's ordered-list recogniser accepts the ASCII digits only.
- Integer overflow of `int` offsets and counts is not modelled. Integers are unbounded.
- `CodeUnit` is a 16-bit code unit. A `char` literal outside the Basic Multilingual Plane becomes U+FFFD (`QStr.Unit`).
- Editing.Document.InsertText: the visitor's edit of the tree is not applied here. That edit is stated by the `EditorCommands` rules (`TypedContent`, `SkipOverKeepsText`, `ShortcutDropsPrefix`); the method takes the coordinate where the visitor leaves the cursor as a parameter.
- Editing.Document.RemoveText: the backspace edit of the tree is stated by `EditorCommands.BackspaceContent` and `HeaderBackspaceSpec`, not applied by the method.
- Editing.Document.InsertReturn: the split of the block is stated by `EditorCommands.SplitKeepsText` and `HeaderReturnBlock`, not applied by the method. The effect of `insertReturn` on the tree in the middle generation (editor/EditorDocument.cpp:330-344) is likewise left out.
- EditorCommands.CommandStack.Undo: hands back the command to undo. The command's own `undo` on the tree is not applied; `Editing.ReturnThenBackspace` states that undoing a return gives the text back.
- EditorCommands.CommandStack.Redo: hands back the command to execute again, without applying its effect on the tree.
- Editing.Document.MergeBlock: requires the first block to come before the second. The source asserts only that both are in range, and every caller merges a block into the one before it.
- Editing.MoveRightValid: requires every high surrogate the code tests for to be followed by another unit in the line. With a lone 0xD83D or 0xD83C at the end of a line, the move right steps past the line's length.
- Editing.MoveLeftValid: requires every block to have at least one line. A block without lines has no coordinate for the move to land on.
- EditorCommands.InsertTextInNode: `LogicalLine::textAt`, which picks the Text and offset the visitor hands in, is not part of this model. Whether the visitor can reach the may-skip assertion with an offset at the end of the text is left open; the function returns None there, as it does for any offset outside the text.
- EditorCommands.ShortcutDropsPrefix: stated for a paragraph whose first child is the Text under the cursor, as the code's `removeChildAt(0)` assumes.
- LegacyRender.Render.DrawText: requires the text to fit on the current line, or to be `"\r"` or empty; the wrapping loop is left out.
- The `EditorDocuments` line data are values passed to the cursor moves. The memoised piece table is a map from Text identities.
- The `ASSERT` in the Markdown serialiser that every child of a checkbox list is a checkbox item is not modelled. A child of another kind is written with an unchecked box.
- The editor's `Document` constructor is given the parsed top-level nodes. Parsing the string is stated by `DocumentParser.Parse`.

## Findings

| source | as written | input that shows it | evidently intended | confidence | as-written member | corrected member |
|---|---|---|---|---|---|---|
| src/parser/Text.cpp:55-58 | a removal that runs past the span holding its start drops that whole span and goes on with the length less the span's length, ignoring where in the span the removal starts | spans (0,3),(3,3) over "abcdef", remove 3 units at offset 1 | remove units 1 to 3 only, giving "aef" rather than "def" | not executed | Texts.RemoveItemsAsWritten, Texts.RemoveSpanningAsWritten, Texts.RemoveSpanningTexts | Texts.RemoveItems, Texts.RemoveContent |
| src/parser/Text.cpp:61-67 | removing units at the head of a span moves the span's offset but keeps its length | span (0,2) over "abc", remove 1 unit at offset 0 | the span becomes (1,1) and reads "b" | not executed | Texts.RemoveItemsAsWritten, Texts.RemoveHeadAsWritten, Texts.RemoveHeadTexts | Texts.RemoveItems, Texts.RemoveContent |
| src/parser/Text.cpp:102-104 | the copy loop of split stops one span early, so the span before the split span is left out of the left half | spans (0,2),(2,2), split at 3 | the left half holds the first three units | not executed | Texts.SplitItemsAsWritten, Texts.SplitAsWrittenDropsSpan | Texts.SplitItems, Texts.SplitContent |
| src/parser/Parser.cpp:586-592 | the paragraph recogniser succeeds having consumed no line when the first line starts with another block's prefix, so the top-level loop at Parser.cpp:836-846 never advances | the text `#abc` | the paragraph takes at least that line | not executed | BlockParsers.ParagraphParseAsWritten, DocumentParser.ParseAsWrittenStalls, BlockParserFacts.ParagraphAsWrittenStalls, BlockParserFacts.HashWordIsNoHeader | BlockParsers.ParagraphParse, DocumentParser.ParseBlocks |
| src/parser/Parser.cpp:55-63 | trimLeft moves the offset past the leading blanks without shortening the length, so the line runs into the next one | "  - a" followed by "bc" | the length drops by the blanks skipped | not executed | ParserLines.TrimLeftAsWritten, ParserLines.TrimLeftAsWrittenExample | ParserLines.TrimLeft, ParserLines.TrimLeftSpec |
| src/parser/Document.cpp:47-51 | insertChild asserts index < size, so it cannot append, while the editor's insertBlock allows index == size | a return at the end of the last block | an index equal to the size appends | not executed | Ast.AppendRefusedAsWritten, Editing.ReturnAfterLastBlock | Ast.Container.InsertChild, Editing.Document.InsertBlock |
| src/parser/Parser.cpp:195-209 | ImageParser::parse reads the first alt token of an empty list | `![](u)` | an image with no alt spans | not executed | InlineParsers.ImageParseAsWritten, InlineParserFacts.ImageEmptyAltExample | InlineParsers.ImageParse, InlineParserFacts.ImageShape |
| src/parser/Parser.cpp:245-258 | LinkParser::parse reads the first href token of an empty list | `[a]()` | a link with no href spans | not executed | InlineParsers.LinkParseAsWritten, InlineParserFacts.LinkEmptyHrefExample | InlineParsers.LinkParse, InlineParserFacts.LinkShape |
| src/parser/Parser.cpp:283-291 | InlineCodeParser::parse reads the first code token of an empty list | two adjacent backquotes | an empty inline code span | not executed | InlineParsers.InlineCodeParseAsWritten, InlineParserFacts.InlineCodeEmptyExample | InlineParsers.InlineCodeParse, InlineParserFacts.InlineCodeShape |
| src/parser/Parser.cpp:790 | the quote recogniser adds one to the line count after its loop, consuming the line after the quote | `> a` then `b` | only the quote's own lines are consumed | not executed | BlockParsers.QuoteBlockParseAsWritten, BlockParserFacts.QuoteDropsNextLine, BlockParserFacts.QuoteOverrunsEnd | BlockParsers.QuoteBlockParse, BlockParserFacts.QuoteConsumesRun |
| editor/PieceTable.cpp:37-40 | an insert at a span's end lengthens that span whenever its end equals the add offset, without checking that it is an add span | span (original, 0, 1) over "ab", add buffer "y" then "x", insert "x" at 1: the text reads "ab" | only an add span ending at the add offset is lengthened | not executed | EditorPieceTable.InsertedAsWritten, EditorPieceTable.ExtendOriginalAsWritten | EditorPieceTable.Inserted, EditorPieceTable.InsertContent |
| editor/PieceTable.cpp:47-53 | splitting a span tags the remainder original, even when the span was in the add buffer | span (add, 0, 2) over add buffer "xy", insert "z" at 1: the text reads x z q from the original buffer "pq" | the remainder keeps its buffer | not executed | EditorPieceTable.InsertedAsWritten, EditorPieceTable.SplitAddAsWritten | EditorPieceTable.Inserted, EditorPieceTable.InsertContent |
| editor/PieceTable.cpp:82-84 | removing units at the head of a span moves its offset without shortening it | span (original, 0, 3) over "abcd", remove 1 unit at 0: the text reads "bcd" | the span shrinks by the units removed | not executed | EditorPieceTable.RemovedAsWritten, EditorPieceTable.RemoveHeadAsWritten | EditorPieceTable.Removed, EditorPieceTable.RemoveContent |
| editor/PieceTable.cpp:105 | itemString guards with index > size, so index == size reads past the list | index equal to the number of spans | index >= size is rejected | not executed | EditorPieceTable.ItemStringAsWritten, EditorPieceTable.ItemStringGuard | EditorPieceTable.ItemString |
| editor/EditorDocument.cpp:104-133 | at the last position of the grid with length left, no branch of the loop fires and it never ends | a move right by 1 from the end of the last line | the move stops at the end | not executed | EditorDocuments.MoveRightHangsAtEnd | EditorDocuments.MoveRight, EditorDocuments.MoveRightRank |
| editor/EditorDocument.cpp:59-103 | with ignoreCell false, the special case for a one-unit cell falls through; at (0, 0, 0) with length left the loop never ends | one step left from after the one-unit text of a second cell, or of the only cell | the move lands at the start of that cell | not executed | EditorDocuments.MoveLeftSkipsAsWritten, EditorDocuments.MoveLeftHangsAsWritten | EditorDocuments.MoveLeft, EditorDocuments.MoveLeftRank |
| src/editor/Editor.cpp:68-83 | the link is saved with its href between the brackets and its content between the parentheses | a link to b whose text is a | `[a](b)` | not executed | EditorMarkdown.LinkAsWritten, EditorMarkdown.LinkSwapExample | EditorMarkdown.Markdown, EditorMarkdown.LinkParts |
| src/editor/Editor.cpp:157-163 | the quote is saved with a single `>` and no space before its lines, which the quote recogniser does not read back | a one-line quote `a` | each line saved as `> ` and the line | not executed | EditorMarkdown.QuoteAsWritten, EditorMarkdown.QuoteAsWrittenLosesPrefix | EditorMarkdown.Markdown, EditorMarkdown.QuoteStartsWithPrefix |
