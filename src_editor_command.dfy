// src/editor/Command.cpp and Command.h: the edit commands the editor
// pushes on its undo stack, the rules the insert/remove/return visitors
// apply to the Text at the cursor, and the command stack itself.

module EditorCommands {
  import opened Optional
  import opened QStr
  import opened PieceTable
  import opened Coords
  import Texts
  import Ast

  // ---------------------------------------------------------------------
  // what a typed string puts into the add buffer

  const OpenParen: CodeUnit := 0x28
  const CloseParen: CodeUnit := 0x29
  const OpenBracket: CodeUnit := 0x5B
  const CloseBracket: CodeUnit := 0x5D
  const OpenBrace: CodeUnit := 0x7B
  const CloseBrace: CodeUnit := 0x7D
  const Space: CodeUnit := 0x20

  /** The closing partner of an opening bracket, None for any other unit. */
  function Partner(c: CodeUnit): Option<CodeUnit>
  {
    if c == OpenParen then Some(CloseParen)
    else if c == OpenBracket then Some(CloseBracket)
    else if c == OpenBrace then Some(CloseBrace)
    else None
  }

  /** A single opening bracket, which is auto-closed. */
  predicate IsOpening(text: QString)
  {
    |text| == 1 && Partner(text[0]).Some?
  }

  /** The text the command appends to the add buffer: a lone `(`, `[` or `{` is followed by its partner. */
  function TextToInsert(text: QString): (r: QString)
    ensures IsOpening(text) ==> r == text + [Partner(text[0]).value]
    ensures !IsOpening(text) ==> r == text
  {
    if text == [OpenParen] then [OpenParen, CloseParen]
    else if text == [OpenBracket] then [OpenBracket, CloseBracket]
    else if text == [OpenBrace] then [OpenBrace, CloseBrace]
    else text
  }

  /** A single closing bracket: typing it may step over the same unit instead of inserting it. */
  predicate IsClosing(text: QString)
  {
    text == [CloseParen] || text == [CloseBracket] || text == [CloseBrace]
  }

  // ---------------------------------------------------------------------
  // commands

  datatype CommandType = InsertText | RemoveText | InsertReturn

  /** The fields merge consults, read off a command. */
  datatype CommandData = CommandData(kind: CommandType, coord: CursorCoord, offset: int, length: int,
                                     finished: CursorCoord)

  /**
   * InsertTextCommand::merge succeeds when both are text insertions, the
   * second starts where the first finished, and their ranges of the add
   * buffer are adjacent. The other two kinds never merge.
   */
  predicate Mergeable(a: CommandData, b: CommandData)
  {
    a.kind == InsertText && b.kind == InsertText && a.finished == b.coord && a.offset + a.length == b.offset
  }

  /** The parameters InsertTextCommand::execute hands to its InsertTextVisitor. */
  datatype Typing = Typing(offset: int, length: int, delta: int, isSpace: bool, maySkipChar: bool,
                           targetSkipChar: QString)

  /** The add buffer of the document, which the command's constructor appends to. */
  class AddBuffer {
    var units: QString

    constructor(units: QString)
      ensures this.units == units
    {
      this.units := units;
    }
  }

  /**
   * A command on the undo stack. The kind fixes which of InsertTextCommand,
   * RemoveTextCommand and InsertReturnCommand it is; the fields a kind does
   * not have stay at their defaults.
   */
  class Command {
    const kind: CommandType
    const coord: CursorCoord
    const offset: int
    var length: int
    const delta: int
    const isSpace: bool
    const maySkipChar: bool
    const targetSkipChar: QString
    var finished: CursorCoord

    function Data(): CommandData
      reads this
    {
      CommandData(kind, coord, offset, length, finished)
    }

    function Visitor(): Typing
      reads this
    {
      Typing(offset, length, delta, isSpace, maySkipChar, targetSkipChar)
    }

    /**
     * InsertTextCommand(doc, coord, text): the range it inserts is what it
     * appends to the add buffer, and the cursor advances by the typed
     * length, so after an auto-closed bracket it sits between the pair.
     */
    constructor OfInsertText(coord: CursorCoord, text: QString, add: AddBuffer)
      modifies add
      ensures kind == InsertText && this.coord == coord && finished == Origin
      ensures add.units == old(add.units) + TextToInsert(text)
      ensures offset == |old(add.units)| && length == |TextToInsert(text)| && delta == |text|
      ensures maySkipChar <==> IsClosing(text)
      ensures targetSkipChar == (if IsClosing(text) then text else [])
      ensures isSpace <==> text == [Space]
    {
      var textToInsert := TextToInsert(text);
      kind := InsertText;
      this.coord := coord;
      if IsClosing(text) {
        maySkipChar := true;
        targetSkipChar := text;
      } else {
        maySkipChar := false;
        targetSkipChar := [];
      }
      isSpace := text == [Space];
      offset := |add.units|;
      length := |textToInsert|;
      delta := |text|;
      finished := Origin;
      new;
      add.units := add.units + textToInsert;
    }

    /** RemoveTextCommand(doc, coord). */
    constructor OfRemoveText(coord: CursorCoord)
      ensures kind == RemoveText && this.coord == coord && finished == Origin
    {
      kind := RemoveText;
      this.coord := coord;
      offset, length, delta := 0, 0, 0;
      isSpace, maySkipChar, targetSkipChar := false, false, [];
      finished := Origin;
    }

    /** InsertReturnCommand(doc, coord). */
    constructor OfInsertReturn(coord: CursorCoord)
      ensures kind == InsertReturn && this.coord == coord && finished == Origin
    {
      kind := InsertReturn;
      this.coord := coord;
      offset, length, delta := 0, 0, 0;
      isSpace, maySkipChar, targetSkipChar := false, false, [];
      finished := Origin;
    }

    /**
     * The end of execute: the coordinate the visitor left the cursor at is
     * remembered as the finished coordinate.
     */
    method Finish(at: CursorCoord)
      modifies this
      ensures finished == at && length == old(length)
    {
      finished := at;
    }

    /**
     * merge: on success the lengths add up and the finished coordinate is
     * the other command's, while the kind, the start coordinate and the
     * offset stay; otherwise nothing changes.
     */
    method Merge(other: Command) returns (merged: bool)
      modifies this
      ensures merged <==> Mergeable(old(Data()), old(other.Data()))
      ensures merged ==> Data() == old(Data()).(length := old(length) + old(other.length), finished := old(other.finished))
      ensures !merged ==> Data() == old(Data())
    {
      if kind != InsertText {
        return false;
      }
      if kind != other.kind {
        return false;
      }
      if finished != other.coord {
        return false;
      }
      if offset + length != other.offset {
        return false;
      }
      var next := other.finished;
      length := length + other.length;
      finished := next;
      return true;
    }
  }

  /** A merged command's range of the add buffer is the two ranges one after the other. */
  lemma {:induction false} MergedRange(add: QString, a: CommandData, b: CommandData)
    requires Mergeable(a, b)
    requires 0 <= a.offset && 0 <= a.length && 0 <= b.length && b.offset + b.length <= |add|
    ensures add[a.offset..a.offset + a.length + b.length]
         == add[a.offset..a.offset + a.length] + add[b.offset..b.offset + b.length]
  {
    assert add[a.offset..b.offset + b.length] == add[a.offset..b.offset] + add[b.offset..b.offset + b.length];
  }

  /**
   * Two insertions typed one after the other: the second starts in the add
   * buffer where the first ends, so they merge exactly when the second
   * starts where the first finished.
   */
  lemma {:induction false} ConsecutiveInsertsMerge(before: QString, t1: QString, t2: QString, c1: CursorCoord, f1: CursorCoord,
                                c2: CursorCoord, f2: CursorCoord)
    ensures var a := CommandData(InsertText, c1, |before|, |TextToInsert(t1)|, f1);
            var b := CommandData(InsertText, c2, |before + TextToInsert(t1)|, |TextToInsert(t2)|, f2);
            Mergeable(a, b) <==> f1 == c2
  {
  }

  // ---------------------------------------------------------------------
  // the command stack

  /**
   * CommandStack: the commands and the index above the last one done. The
   * source declares no constructor and the editor document makes its stack
   * value-initialised, so m_top starts at 0 with no commands.
   */
  class CommandStack {
    var commands: seq<Command>
    var top: int

    ghost predicate Valid()
      reads this
    {
      0 <= top <= |commands|
    }

    constructor()
      ensures Valid() && commands == [] && top == 0
    {
      commands := [];
      top := 0;
    }

    /**
     * push: the commands above top are dropped; the new one is merged into
     * the one below or put on top; afterwards nothing is above top. Only
     * the command below top can change, and only by the merge.
     */
    method Push(c: Command)
      requires Valid()
      modifies this, if top > 0 then {commands[top - 1]} else {}
      ensures Valid() && top == |commands|
      ensures old(top) == 0 ==> commands == [c]
      ensures old(top) > 0 && old(Mergeable(commands[top - 1].Data(), c.Data())) ==>
        commands == old(commands[..top])
        && commands[top - 1].Data()
           == old(commands[top - 1].Data()).(length := old(commands[top - 1].length + c.length), finished := old(c.finished))
      ensures old(top) > 0 && !old(Mergeable(commands[top - 1].Data(), c.Data())) ==>
        commands == old(commands[..top]) + [c] && commands[old(top) - 1].Data() == old(commands[top - 1].Data())
      ensures forall d :: d in old(commands) + [c] && (old(top) == 0 || d != old(commands[top - 1])) ==>
        d.Data() == old(d.Data())
    {
      while |commands| != top
        invariant top == old(top) && top <= |commands| <= |old(commands)|
        invariant commands == old(commands)[..|commands|]
        invariant unchanged(old(commands))
        decreases |commands|
      {
        commands := commands[..|commands| - 1];
      }
      if |commands| == 0 {
        commands := [c];
      } else {
        var last := commands[|commands| - 1];
        assert last == old(commands)[top - 1];
        var merged := last.Merge(c);
        if !merged {
          commands := commands + [c];
        }
      }
      top := |commands|;
    }

    /** undo: at the bottom nothing happens; otherwise the command below top is undone and top drops. */
    method Undo() returns (undone: Option<Command>)
      requires Valid()
      modifies this
      ensures Valid() && commands == old(commands)
      ensures old(top) == 0 ==> undone == None && top == 0
      ensures old(top) > 0 ==> undone == Some(old(commands[top - 1])) && top == old(top) - 1
    {
      if top == 0 {
        return None;
      }
      undone := Some(commands[top - 1]);
      top := top - 1;
    }

    /** redo: at the top nothing happens; otherwise the command at top is executed again and top rises. */
    method Redo() returns (redone: Option<Command>)
      requires Valid()
      modifies this
      ensures Valid() && commands == old(commands)
      ensures old(top) == |old(commands)| ==> redone == None && top == old(top)
      ensures old(top) < |old(commands)| ==> redone == Some(old(commands[top])) && top == old(top) + 1
    {
      if top == |commands| {
        return None;
      }
      redone := Some(commands[top]);
      top := top + 1;
    }
  }

  /** Undo followed by redo hands back the same command and restores the stack. */
  method UndoThenRedo(s: CommandStack) returns (undone: Option<Command>, redone: Option<Command>)
    requires s.Valid() && s.top > 0
    modifies s
    ensures undone == redone && undone.Some?
    ensures s.Valid() && s.top == old(s.top) && s.commands == old(s.commands)
  {
    undone := s.Undo();
    redone := s.Redo();
  }

  // ---------------------------------------------------------------------
  // RemoveTextVisitor::removeTextInNode: backspace in a Text

  /** How many units backspace removes before text offset k: two after an emoji's high surrogate, else one. */
  function BackspaceWidth(s: QString, k: int): (n: int)
    requires k <= |s|
    ensures n == 1 || n == 2
    ensures n == 2 <==> k >= 2 && (s[k - 2] == HighSurrogateSmileys || s[k - 2] == HighSurrogateSymbols)
  {
    if k - 1 > 0 && (s[k - 2] == HighSurrogateSmileys || s[k - 2] == HighSurrogateSymbols) then 2 else 1
  }

  /**
   * removeTextInNode: the units before k are removed and the cursor steps
   * back as many; None when the removal starts before the text (the
   * assertion in Text::remove).
   */
  function RemoveTextInNode(items: Texts.Items, bufs: Buffers, k: int): (r: Option<(Texts.Items, int)>)
    requires k <= |Texts.Content(items, bufs)|
    ensures r.Some? ==> r.value.1 == BackspaceWidth(Texts.Content(items, bufs), k) && 1 <= r.value.1 <= 2
  {
    var n := BackspaceWidth(Texts.Content(items, bufs), k);
    match Texts.RemoveItems(items, k - n, n)
    case None => None
    case Some(r) => Some((r, n))
  }

  /**
   * Backspace at text offset k >= 1 removes exactly the BackspaceWidth
   * units before k and steps the cursor back as many.
   */
  lemma {:induction false} BackspaceContent(items: Texts.Items, bufs: Buffers, k: int)
    requires Texts.ValidItems(items, bufs)
    requires 1 <= k <= Texts.Total(items)
    ensures |Texts.Content(items, bufs)| == Texts.Total(items)
    ensures var n := BackspaceWidth(Texts.Content(items, bufs), k);
            var s := Texts.Content(items, bufs);
            RemoveTextInNode(items, bufs, k).Some? && RemoveTextInNode(items, bufs, k).value.1 == n
            && Texts.Content(RemoveTextInNode(items, bufs, k).value.0, bufs) == s[..k - n] + s[k..]
  {
    Texts.ContentLength(items, bufs);
    var s := Texts.Content(items, bufs);
    var n := BackspaceWidth(s, k);
    Texts.RemoveContent(items, k - n, n, bufs);
    var left := Texts.RemoveItems(items, k - n, n).value;
    assert Texts.Content(left, bufs) == s[..k - n] + s[k..];
    assert RemoveTextInNode(items, bufs, k) == Some((left, n));
  }

  /** Backspace at the start of a Text reaches the assertion in Text::remove. */
  lemma {:induction false} BackspaceAtStartFails(items: Texts.Items, bufs: Buffers)
    requires Texts.ValidItems(items, bufs)
    ensures RemoveTextInNode(items, bufs, 0) == None
  {
    Texts.ContentLength(items, bufs);
    var n := BackspaceWidth(Texts.Content(items, bufs), 0);
    assert n == 1;
    assert Texts.Locate(items, -1, false).None? by {
      if Texts.Locate(items, -1, false).Some? {
        Texts.LocateInside(items, -1, false);
      }
    }
  }

  /**
   * Backspace three times from the end of `a😊b` (four units): the offset
   * goes 4, 3, 1, 0, the emoji's two units going in one step.
   */
  lemma {:induction false} BackspaceWalk(a: CodeUnit, hi: CodeUnit, lo: CodeUnit, b: CodeUnit)
    requires hi == HighSurrogateSmileys
    requires lo != HighSurrogateSmileys && lo != HighSurrogateSymbols
    requires a != HighSurrogateSmileys && a != HighSurrogateSymbols
    ensures BackspaceWidth([a, hi, lo, b], 4) == 1
    ensures BackspaceWidth([a, hi, lo], 3) == 2
    ensures BackspaceWidth([a], 1) == 1
  {
    var s := [a, hi, lo, b];
    assert s[2] == lo;
    assert [a, hi, lo][1] == hi;
  }

  // ---------------------------------------------------------------------
  // InsertTextVisitor::insertTextInNode: typing into a Text

  /** What typing leaves: the Text's spans and how far the cursor advances. */
  datatype Typed = Typed(items: Texts.Items, advance: int)

  /** Typing the closing unit in front of the same unit only steps over it. */
  predicate SkipsOver(s: QString, k: int, t: Typing)
    requires 0 <= k < |s|
  {
    t.maySkipChar && [s[k]] == t.targetSkipChar
  }

  /**
   * insertTextInNode: either step over the closing unit already there, or
   * insert the command's add-buffer span at text offset k and advance by
   * the typed length. When the command may step over, the source asserts
   * that k is inside the text before reading the unit there: None is that
   * assertion failing, for any k outside the text, its end included.
   */
  function InsertTextInNode(items: Texts.Items, bufs: Buffers, k: int, t: Typing): (r: Option<Typed>)
    ensures r.None? <==> t.maySkipChar && !(0 <= k < |Texts.Content(items, bufs)|)
  {
    var s := Texts.Content(items, bufs);
    if t.maySkipChar && !(0 <= k < |s|) then None
    else if t.maySkipChar && SkipsOver(s, k, t) then Some(Typed(items, 1))
    else Some(Typed(Texts.InsertItems(items, k, PieceTableItem(add, t.offset, t.length)), t.delta))
  }

  /**
   * Typing that does not step over puts the command's whole range of the
   * add buffer into the text at k, and the cursor advances by the typed
   * length.
   */
  lemma {:induction false} TypedContent(items: Texts.Items, bufs: Buffers, k: int, t: Typing)
    requires Texts.ValidItems(items, bufs) && |items| > 0 && 0 <= k <= Texts.Total(items)
    requires 0 <= t.offset && 0 <= t.length && t.offset + t.length <= |bufs.add|
    requires t.maySkipChar ==> k < |Texts.Content(items, bufs)| && !SkipsOver(Texts.Content(items, bufs), k, t)
    ensures |Texts.Content(items, bufs)| == Texts.Total(items)
    ensures InsertTextInNode(items, bufs, k, t).Some?
    ensures InsertTextInNode(items, bufs, k, t).value.advance == t.delta
    ensures Texts.Content(InsertTextInNode(items, bufs, k, t).value.items, bufs)
         == Texts.Content(items, bufs)[..k] + bufs.add[t.offset..t.offset + t.length] + Texts.Content(items, bufs)[k..]
  {
    Texts.ContentLength(items, bufs);
    var item := PieceTableItem(add, t.offset, t.length);
    Texts.InsertContent(items, k, item, bufs);
  }

  /** Stepping over a closing unit leaves the text as it was and advances by one. */
  lemma {:induction false} SkipOverKeepsText(items: Texts.Items, bufs: Buffers, k: int, t: Typing)
    requires 0 <= k < |Texts.Content(items, bufs)|
    requires SkipsOver(Texts.Content(items, bufs), k, t)
    ensures InsertTextInNode(items, bufs, k, t) == Some(Typed(items, 1))
  {
  }

  /**
   * Typing `(` (or `[`, `{`) into a text: the pair goes in at k and the
   * cursor advances by one, so it lands between the opening and the
   * closing unit.
   */
  lemma {:induction false} AutoCloseLandsBetween(items: Texts.Items, bufs: Buffers, k: int, text: QString)
    requires IsOpening(text)
    requires Texts.ValidItems(items, bufs) && |items| > 0 && 0 <= k <= Texts.Total(items)
    requires |bufs.add| >= 2 && bufs.add[|bufs.add| - 2..] == TextToInsert(text)
    ensures var t := Typing(|bufs.add| - 2, 2, 1, false, false, []);
            var r := InsertTextInNode(items, bufs, k, t);
            r.Some? &&
            var s := Texts.Content(r.value.items, bufs);
            r.value.advance == 1 && k + 1 < |s| && s[k] == text[0] && s[k + 1] == Partner(text[0]).value
  {
    var off := |bufs.add| - 2;
    var t := Typing(off, 2, 1, false, false, []);
    TypedContent(items, bufs, k, t);
    var c := Texts.Content(items, bufs);
    PairAt(c[..k], bufs.add[off..off + 2], c[k..]);
  }

  /** Typing on an empty line: a new Text holding the command's range of the add buffer is appended. */
  function TypeOnEmptyLine(children: seq<Ast.Node>, t: Typing): seq<Ast.Node>
  {
    children + [Ast.Text([PieceTableItem(add, t.offset, t.length)])]
  }

  /** The block's text grows by exactly the command's range of the add buffer. */
  lemma {:induction false} EmptyLineContent(children: seq<Ast.Node>, bufs: Buffers, t: Typing)
    requires 0 <= t.offset && 0 <= t.length && t.offset + t.length <= |bufs.add|
    ensures Texts.LatexText(TypeOnEmptyLine(children, t), bufs)
         == Texts.LatexText(children, bufs) + bufs.add[t.offset..t.offset + t.length]
  {
    var item := PieceTableItem(add, t.offset, t.length);
    Texts.ConcatOne(item, Texts.Reader(bufs));
    assert TypeOnEmptyLine(children, t)[..|children|] == children;
  }

  /** The two units of a pair put between a and b sit at |a| and |a| + 1. */
  lemma {:induction false} PairAt(a: QString, p: QString, b: QString)
    requires |p| == 2
    ensures (a + p + b)[|a|] == p[0] && (a + p + b)[|a| + 1] == p[1]
  {
  }

  // ---------------------------------------------------------------------
  // InsertTextVisitor::visit(Paragraph): the space shortcuts

  /** The block a paragraph becomes when a space is typed after a shortcut prefix. */
  datatype Shortcut = ToHeader(level: int) | ToBullet | ToNumbered

  const Hash: CodeUnit := 0x23
  const Dash: CodeUnit := 0x2D
  const One: CodeUnit := 0x31
  const Dot: CodeUnit := 0x2E

  /** Every unit of the prefix is `#`. */
  predicate AllHashes(prefix: QString)
  {
    forall i :: 0 <= i < |prefix| ==> prefix[i] == Hash
  }

  /**
   * The shortcut a space typed at line offset `offset` triggers, given the
   * line's units left of the cursor: only up to offset 6; a run of `#` is a
   * header of that level, `-` a bullet list, `1.` a numbered list.
   */
  function ShortcutOf(offset: int, prefix: QString): Option<Shortcut>
  {
    if offset > 6 then None
    else if |prefix| > 0 && AllHashes(prefix) then Some(ToHeader(|prefix|))
    else if prefix == [Dash] then Some(ToBullet)
    else if prefix == [One, Dot] then Some(ToNumbered)
    else None
  }

  /** How many units the shortcut removes from the start of the cursor's Text. */
  function PrefixLength(sc: Shortcut): int
  {
    match sc
    case ToHeader(level) => level
    case ToBullet => 1
    case ToNumbered => 2
  }

  /**
   * A shortcut fires only within six units of the line start; a header's
   * level is the number of `#`, 1 to 6 when the prefix is the line's first
   * `offset` units; and exactly the prefix is removed.
   */
  lemma {:induction false} ShortcutSpec(offset: int, prefix: QString)
    requires ShortcutOf(offset, prefix).Some?
    requires |prefix| <= offset
    ensures offset <= 6
    ensures PrefixLength(ShortcutOf(offset, prefix).value) == |prefix|
    ensures ShortcutOf(offset, prefix).value.ToHeader? <==> |prefix| > 0 && AllHashes(prefix)
    ensures ShortcutOf(offset, prefix).value.ToHeader? ==> 1 <= ShortcutOf(offset, prefix).value.level <= 6
  {
  }

  /** A bullet or numbered prefix is never read as a header. */
  lemma {:induction false} ListPrefixesAreNotHeaders()
    ensures !AllHashes([Dash]) && !AllHashes([One, Dot])
    ensures ShortcutOf(1, [Dash]) == Some(ToBullet)
    ensures ShortcutOf(2, [One, Dot]) == Some(ToNumbered)
  {
    assert [Dash][0] != Hash;
    assert [One, Dot][0] != Hash;
  }

  /** A Text child, or nothing when its spans denote no units (Text::empty). */
  function TextPart(items: Texts.Items): seq<Ast.Node>
  {
    if forall j :: 0 <= j < |items| ==> items[j].length <= 0 then [] else [Ast.Text(items)]
  }

  /** A Text child that denotes nothing adds nothing to the block's text, whether kept or dropped. */
  lemma {:induction false} TextPartText(items: Texts.Items, bufs: Buffers)
    requires Texts.ValidItems(items, bufs)
    ensures Texts.LatexText(TextPart(items), bufs) == Texts.Content(items, bufs)
  {
    Texts.EmptyIffNoContent(items, bufs);
    var t := Ast.Text(items);
    assert [t][..0] == [];
    assert Texts.LatexText([t], bufs) == [] + Texts.Content(items, bufs);
  }

  /** The children of the converted block: the first Text less the prefix (dropped if empty), then the rest. */
  function ShortcutChildren(children: seq<Ast.Node>, removed: Texts.Items): seq<Ast.Node>
    requires |children| > 0
  {
    TextPart(removed) + children[1..]
  }

  /** The block the paragraph with these children becomes. */
  function ShortcutBlock(sc: Shortcut, children: seq<Ast.Node>): Ast.Node
  {
    match sc
    case ToHeader(level) => Ast.Header(level, children)
    case ToBullet => Ast.UnorderedList([Ast.UnorderedListItem(children)])
    case ToNumbered => Ast.OrderedList([Ast.OrderedListItem(children)])
  }

  /**
   * The paragraph conversion: the children move to the new block, the
   * cursor's Text (the first child) loses the prefix, and a Text left empty
   * is dropped. None when the prefix is longer than that Text.
   */
  function ApplyShortcut(sc: Shortcut, children: seq<Ast.Node>): Option<Ast.Node>
    requires |children| > 0 && children[0].Text?
  {
    match Texts.RemoveItems(children[0].items, 0, PrefixLength(sc))
    case None => None
    case Some(removed) => Some(ShortcutBlock(sc, ShortcutChildren(children, removed)))
  }

  /**
   * The converted block's text is the paragraph's text less the prefix:
   * the Text children's strings after the conversion are those before it
   * without the first PrefixLength units.
   */
  lemma {:induction false} ShortcutDropsPrefix(sc: Shortcut, children: seq<Ast.Node>, bufs: Buffers)
    requires |children| > 0 && children[0].Text?
    requires Texts.ValidItems(children[0].items, bufs)
    requires 0 < PrefixLength(sc) <= Texts.Total(children[0].items)
    ensures ApplyShortcut(sc, children).Some?
    ensures |Texts.Content(children[0].items, bufs)| == Texts.Total(children[0].items)
    ensures var kids := ShortcutChildren(children, Texts.RemoveItems(children[0].items, 0, PrefixLength(sc)).value);
            Texts.LatexText(kids, bufs)
            == Texts.Content(children[0].items, bufs)[PrefixLength(sc)..] + Texts.LatexText(children[1..], bufs)
  {
    ShortcutText(children, PrefixLength(sc), bufs);
  }

  /** The text part of ShortcutDropsPrefix, for a prefix of n units. */
  lemma {:induction false} ShortcutText(children: seq<Ast.Node>, n: int, bufs: Buffers)
    requires |children| > 0 && children[0].Text?
    requires Texts.ValidItems(children[0].items, bufs)
    requires 0 < n <= Texts.Total(children[0].items)
    ensures Texts.RemoveItems(children[0].items, 0, n).Some?
    ensures |Texts.Content(children[0].items, bufs)| == Texts.Total(children[0].items)
    ensures var kids := ShortcutChildren(children, Texts.RemoveItems(children[0].items, 0, n).value);
            Texts.LatexText(kids, bufs)
            == Texts.Content(children[0].items, bufs)[n..] + Texts.LatexText(children[1..], bufs)
  {
    var items := children[0].items;
    Texts.RemoveContent(items, 0, n, bufs);
    Texts.RemoveValid(items, 0, n, bufs);
    var removed := Texts.RemoveItems(items, 0, n).value;
    var c := Texts.Content(items, bufs);
    assert c[..0] + c[n..] == c[n..];
    TextPartText(removed, bufs);
    Texts.LatexTextAppend(TextPart(removed), children[1..], bufs);
  }

  // ---------------------------------------------------------------------
  // InsertReturnVisitor::splitNode

  /**
   * splitNode: the block is cut at its child i (the cursor's Text, split
   * into left and right). The old block keeps the children before i and the
   * left part; the new block gets the right part and the children after i;
   * an empty part is dropped.
   */
  function SplitChildren(children: seq<Ast.Node>, i: nat, left: Texts.Items, right: Texts.Items)
    : (seq<Ast.Node>, seq<Ast.Node>)
    requires i < |children|
  {
    (children[..i] + TextPart(left), TextPart(right) + children[i + 1..])
  }

  /**
   * Return in the middle of a block loses no text: the two blocks' Text
   * strings together are the old block's with the cursor's Text replaced
   * by its two halves.
   */
  lemma {:induction false} SplitKeepsText(children: seq<Ast.Node>, i: nat, left: Texts.Items, right: Texts.Items, bufs: Buffers)
    requires i < |children|
    requires Texts.ValidItems(left, bufs) && Texts.ValidItems(right, bufs)
    ensures var (o, n) := SplitChildren(children, i, left, right);
            Texts.LatexText(o, bufs) + Texts.LatexText(n, bufs)
            == Texts.LatexText(children[..i], bufs) + Texts.Content(left, bufs) + Texts.Content(right, bufs)
               + Texts.LatexText(children[i + 1..], bufs)
  {
    TextPartText(left, bufs);
    TextPartText(right, bufs);
    Texts.LatexTextAppend(children[..i], TextPart(left), bufs);
    Texts.LatexTextAppend(TextPart(right), children[i + 1..], bufs);
  }

  /** InsertReturnVisitor::visit(Header): the new block stays a header only when the right part has text. */
  function HeaderReturnBlock(level: int, rightText: QString, children: seq<Ast.Node>): (r: Ast.Node)
    ensures r.Header? <==> |rightText| > 0
    ensures r.Paragraph? <==> |rightText| == 0
    ensures r.Header? ==> r.level == level
  {
    if |rightText| == 0 then Ast.Paragraph(children) else Ast.Header(level, children)
  }

  // ---------------------------------------------------------------------
  // RemoveTextVisitor::visit(Header)

  /**
   * Backspace in a header on an empty line or at the very start turns it
   * into a paragraph with the same children; elsewhere it stays a header.
   */
  function HeaderBackspace(level: int, children: seq<Ast.Node>, lineEmpty: bool, at: CursorCoord): Option<Ast.Node>
  {
    if lineEmpty || (at.lineNo == 0 && at.offset == 0) then Some(Ast.Paragraph(children)) else None
  }

  /** The degraded header keeps its children, and only the first position or an empty line degrades it. */
  lemma {:induction false} HeaderBackspaceSpec(level: int, children: seq<Ast.Node>, lineEmpty: bool, at: CursorCoord)
    ensures HeaderBackspace(level, children, lineEmpty, at).Some? <==> lineEmpty || (at.lineNo == 0 && at.offset == 0)
    ensures HeaderBackspace(level, children, lineEmpty, at).Some? ==>
      HeaderBackspace(level, children, lineEmpty, at).value == Ast.Paragraph(children)
  {
  }
}
