// parser/Token.cpp: the tokens of the oldest parser (a spelling and a type)
// and the table of special characters.

module LegacyTokens {
  import opened QStr

  /** TokenType (tilde is used by the special-character table). */
  datatype TokenType =
    | none | sharp | space | left_parenthesis | right_parenthesis | left_bracket
    | right_bracket | exclamation | gt | quotation_en | star | tilde | text
    | backquote | dollar

  /** Token: the text it stands for and its type. */
  datatype Token = Token(str: QString, ty: TokenType)

  /**
   * The one-character spelling Token(type) stores (# space ( ) [ ] ! > " * ~ ` $);
   * none and text get the empty string.
   */
  function Spelling(t: TokenType): QString
  {
    match t
    case none => []
    case sharp => [0x23]
    case space => [0x20]
    case left_parenthesis => [0x28]
    case right_parenthesis => [0x29]
    case left_bracket => [0x5B]
    case right_bracket => [0x5D]
    case exclamation => [0x21]
    case gt => [0x3E]
    case quotation_en => [0x22]
    case star => [0x2A]
    case tilde => [0x7E]
    case text => []
    case backquote => [0x60]
    case dollar => [0x24]
  }

  /** Token(type). */
  function OfType(t: TokenType): (r: Token)
    ensures r.ty == t
  {
    Token(Spelling(t), t)
  }

  /** Token(str): the type defaults to none. */
  function OfString(s: QString): (r: Token)
    ensures r.ty == none && r.str == s
  {
    Token(s, none)
  }

  /** operator==: same type and same text. */
  predicate Equal(a: Token, b: Token)
  {
    a.ty == b.ty && a.str == b.str
  }

  /** operator!=: the negation of operator== with the arguments swapped. */
  predicate NotEqual(a: Token, b: Token)
  {
    !Equal(b, a)
  }

  /** Token equality is equality of the pair; != is its negation. */
  lemma {:induction false} EqualIsIdentity(a: Token, b: Token)
    ensures Equal(a, b) <==> a == b
    ensures NotEqual(a, b) <==> a != b
  {
  }

  /**
   * Every type but none and text is spelled by exactly one code unit, and no
   * two such types share a spelling.
   */
  lemma {:induction false} SpellingShape(a: TokenType, b: TokenType)
    ensures |Spelling(a)| == (if a == none || a == text then 0 else 1)
    ensures Spelling(a) == Spelling(b) && Spelling(a) != [] ==> a == b
  {
  }

  /** spMap: each special character maps to the token of its own type (the space entry is commented out). */
  const SpMap: map<CodeUnit, Token> := map[
    0x23 := OfType(sharp),
    0x3E := OfType(gt),
    0x21 := OfType(exclamation),
    0x2A := OfType(star),
    0x7E := OfType(tilde),
    0x5B := OfType(left_bracket),
    0x5D := OfType(right_bracket),
    0x28 := OfType(left_parenthesis),
    0x29 := OfType(right_parenthesis),
    0x60 := OfType(backquote),
    0x24 := OfType(dollar)
  ]

  /** The table has exactly the eleven keys # > ! * ~ [ ] ( ) ` $; space is not one of them. */
  lemma {:induction false} SpMapKeys()
    ensures SpMap.Keys == {0x23, 0x3E, 0x21, 0x2A, 0x7E, 0x5B, 0x5D, 0x28, 0x29, 0x60, 0x24}
    ensures 0x20 !in SpMap
  {
  }

  /** Each key maps to the token of a character type, spelled by that key alone. */
  lemma {:induction false} SpMapEntries(c: CodeUnit)
    requires c in SpMap
    ensures SpMap[c].str == [c] && SpMap[c] == OfType(SpMap[c].ty)
    ensures SpMap[c].ty != none && SpMap[c].ty != text && SpMap[c].ty != space
  {
  }
}
