// Shared vocabulary: an Option type and the parts of Qt's QString/QChar
// behaviour that the modelled sources rely on.

module Optional {
  datatype Option<T> = None | Some(value: T)
}

/** Sequence algebra the loops' invariants need. */
module Sequences {
  /** Moving the first pending element into the finished part keeps the whole. */
  lemma {:induction false} Shift<T>(done: seq<T>, x: T, rest: seq<T>, pending: seq<T>, whole: seq<T>)
    requires done + pending == whole && pending == [x] + rest
    ensures (done + [x]) + rest == whole
  {
    assert (done + [x]) + rest == done + ([x] + rest);
  }

  /** Moving a pending run and the element after it into the finished part keeps the whole. */
  lemma {:induction false} ShiftRun<T>(done: seq<T>, run: seq<T>, x: T, rest: seq<T>, pending: seq<T>, whole: seq<T>)
    requires done + pending == whole && pending == run + [x] + rest
    ensures ((done + run) + [x]) + rest == whole
  {
    assert ((done + run) + [x]) + rest == done + (run + [x] + rest);
  }

  /** Moving a pending prefix into the finished part keeps the whole. */
  lemma {:induction false} ShiftAll<T>(done: seq<T>, taken: seq<T>, rest: seq<T>, pending: seq<T>, whole: seq<T>)
    requires done + pending == whole && pending == taken + rest
    ensures (done + taken) + rest == whole
  {
    assert (done + taken) + rest == done + (taken + rest);
  }

  /** A non-empty sequence is its front and then its last element. */
  lemma {:induction false} InitLast<T>(s: seq<T>)
    requires |s| > 0
    ensures s == s[..|s| - 1] + [s[|s| - 1]]
  {
  }

  /** A sequence is the part before position i, the element at i and the part after it. */
  lemma {:induction false} Around<T>(s: seq<T>, i: int)
    requires 0 <= i < |s|
    ensures s == s[..i] + [s[i]] + s[i + 1..]
  {
  }

  /** Appending is associative. */
  lemma {:induction false} Assoc<T>(a: seq<T>, b: seq<T>, c: seq<T>)
    ensures (a + b) + c == a + (b + c)
  {
  }

  /** Appending a three-part piece one part at a time. */
  lemma {:induction false} Append3<T>(x: seq<T>, a: seq<T>, b: seq<T>, c: seq<T>)
    ensures ((x + a) + b) + c == x + ((a + b) + c)
  {
    assert ((x + a) + b) + c == x + (a + (b + c));
  }

  /** Appending a three-part piece one part at a time after a finished prefix w. */
  lemma {:induction false} AppendPiece<T>(x: seq<T>, w: seq<T>, a: seq<T>, b: seq<T>, c: seq<T>)
    ensures (((x + w) + a) + b) + c == x + (w + ((a + b) + c))
  {
    assert (((x + w) + a) + b) + c == x + (w + (a + (b + c)));
  }

  /** Appending a four-part piece one part at a time. */
  lemma {:induction false} Append4<T>(x: seq<T>, a: seq<T>, b: seq<T>, c: seq<T>, d: seq<T>)
    ensures (((x + a) + b) + c) + d == x + (((a + b) + c) + d)
  {
    assert (((x + a) + b) + c) + d == x + (a + (b + (c + d)));
  }

  /** Appending a five-part piece one part at a time. */
  lemma {:induction false} Append5<T>(x: seq<T>, a: seq<T>, b: seq<T>, c: seq<T>, d: seq<T>, e: seq<T>)
    ensures ((((x + a) + b) + c) + d) + e == x + ((((a + b) + c) + d) + e)
  {
    assert ((((x + a) + b) + c) + d) + e == x + (a + (b + (c + (d + e))));
  }
}

/** QString as a sequence of UTF-16 code units, with Qt's clamping rules. */
module QStr {

  /** One UTF-16 code unit (QChar::unicode()). */
  type CodeUnit = x: int | 0 <= x < 0x1_0000

  type QString = seq<CodeUnit>

  const HighSurrogateSmileys: CodeUnit := 0xD83D
  const HighSurrogateSymbols: CodeUnit := 0xD83C

  /** A character literal as a code unit; outside the BMP it becomes U+FFFD. */
  function Unit(c: char): (r: CodeUnit)
    ensures (c as int) < 0x1_0000 ==> r == c as int
  {
    if (c as int) < 0x1_0000 then c as int else 0xFFFD
  }

  /** A string literal as a QString (QStringLiteral). */
  function Lit(s: string): (r: QString)
    ensures |r| == |s|
    ensures forall i :: 0 <= i < |s| ==> r[i] == Unit(s[i])
  {
    seq(|s|, i requires 0 <= i < |s| => Unit(s[i]))
  }

  /**
   * QString::mid(position, n) as Qt computes it: a position past the end gives
   * the empty string, a negative position or length is clamped, and the slice
   * never runs past the end.
   */
  function Mid(s: QString, pos: int, n: int): (r: QString)
    ensures pos > |s| ==> r == []
    ensures 0 <= pos <= |s| && n < 0 ==> r == s[pos..]
    ensures 0 <= pos && 0 <= n && pos + n <= |s| ==> r == s[pos..pos + n]
    ensures 0 <= pos <= |s| && 0 <= n && pos + n > |s| ==> r == s[pos..]
    ensures 0 <= n ==> |r| <= n
    ensures |r| <= |s|
  {
    if pos > |s| then []
    else if pos < 0 then
      if n < 0 || n + pos >= |s| then s
      else if n + pos <= 0 then []
      else s[..n + pos]
    else if n < 0 || n > |s| - pos then s[pos..]
    else s[pos..pos + n]
  }

  /** QString::left(n): the whole string when n is negative or not smaller than the size. */
  function Left(s: QString, n: int): (r: QString)
    ensures 0 <= n <= |s| ==> r == s[..n]
    ensures (n < 0 || n >= |s|) ==> r == s
  {
    if n < 0 || n >= |s| then s else s[..n]
  }

  /** QString::right(n): the whole string when n is negative or not smaller than the size. */
  function Right(s: QString, n: int): (r: QString)
    ensures 0 <= n <= |s| ==> r == s[|s| - n..]
    ensures (n < 0 || n >= |s|) ==> r == s
  {
    if n < 0 || n >= |s| then s else s[|s| - n..]
  }

  predicate StartsWith(s: QString, prefix: QString)
  {
    |prefix| <= |s| && s[..|prefix|] == prefix
  }

  predicate EndsWith(s: QString, suffix: QString)
  {
    |suffix| <= |s| && s[|s| - |suffix|..] == suffix
  }

  predicate IsAsciiDigit(c: CodeUnit)
  {
    0x30 <= c <= 0x39
  }

  /**
   * QChar::isSpace: the C0 controls 9..13, space, U+0085, U+00A0 and the
   * Unicode separators (categories Zs, Zl, Zp) of the Basic Multilingual Plane.
   */
  predicate IsSpace(c: CodeUnit)
  {
    (9 <= c <= 13) || c == 0x20 || c == 0x85 || c == 0xA0 || c == 0x1680
    || (0x2000 <= c <= 0x200A) || c == 0x2028 || c == 0x2029 || c == 0x202F
    || c == 0x205F || c == 0x3000
  }

  /** Number of leading code units satisfying isSpace. */
  function LeadingSpaces(s: QString): (r: nat)
    ensures r <= |s|
    ensures forall i :: 0 <= i < r ==> IsSpace(s[i])
    ensures r < |s| ==> !IsSpace(s[r])
  {
    if |s| == 0 || !IsSpace(s[0]) then 0 else 1 + LeadingSpaces(s[1..])
  }

  /** Number of trailing code units satisfying isSpace. */
  function TrailingSpaces(s: QString): (r: nat)
    ensures r <= |s|
    ensures forall i :: |s| - r <= i < |s| ==> IsSpace(s[i])
    ensures r < |s| ==> !IsSpace(s[|s| - r - 1])
  {
    if |s| == 0 || !IsSpace(s[|s| - 1]) then 0 else 1 + TrailingSpaces(s[..|s| - 1])
  }

  /** QString::trimmed: whitespace removed from both ends. */
  function Trimmed(s: QString): (r: QString)
    ensures |r| <= |s|
    ensures |r| > 0 ==> !IsSpace(r[0]) && !IsSpace(r[|r| - 1])
  {
    var a := LeadingSpaces(s);
    if a == |s| then []
    else
      var b := TrailingSpaces(s);
      assert !IsSpace(s[a]);
      s[a..|s| - b]
  }

  /** The decimal digits of a natural number (QString::number for n >= 0). */
  function Digits(n: nat): (r: QString)
    ensures |r| >= 1
    ensures forall i :: 0 <= i < |r| ==> IsAsciiDigit(r[i])
    decreases n
  {
    if n < 10 then [0x30 + n] else Digits(n / 10) + [0x30 + n % 10]
  }

  /** QString::number(n) for any integer. */
  function Number(n: int): (r: QString)
    ensures n >= 0 ==> r == Digits(n)
    ensures n < 0 ==> r == [0x2D] + Digits(-n)
  {
    if n >= 0 then Digits(n) else [0x2D] + Digits(-n)
  }

  /** The value of a string of ASCII digits, read most significant first. */
  function DigitsValue(s: QString): (v: nat)
    requires forall i :: 0 <= i < |s| ==> IsAsciiDigit(s[i])
  {
    if |s| == 0 then 0
    else
      assert IsAsciiDigit(s[|s| - 1]);
      DigitsValue(s[..|s| - 1]) * 10 + (s[|s| - 1] as int - 0x30)
  }

  /** Reading back the digits of n gives n: Number is injective on naturals. */
  lemma {:induction false} DigitsRoundTrip(n: nat)
    ensures DigitsValue(Digits(n)) == n
    decreases n
  {
    if n >= 10 {
      var d := Digits(n / 10);
      var r := d + [0x30 + n % 10];
      assert r[..|r| - 1] == d;
      DigitsRoundTrip(n / 10);
    }
  }

  /** Two naturals with the same decimal spelling are equal. */
  lemma {:induction false} DigitsInjective(m: nat, n: nat)
    requires Digits(m) == Digits(n)
    ensures m == n
  {
    DigitsRoundTrip(m);
    DigitsRoundTrip(n);
  }

  /** Index of the first occurrence of unit c at or after `from`, or |s| when there is none. */
  function IndexOf(s: QString, c: CodeUnit, from: nat): (r: nat)
    requires from <= |s|
    ensures from <= r <= |s|
    ensures forall i :: from <= i < r ==> s[i] != c
    ensures r < |s| ==> s[r] == c
    decreases |s| - from
  {
    if from == |s| then |s| else if s[from] == c then from else IndexOf(s, c, from + 1)
  }

  /**
   * QString::split(sep) for a one-unit separator (empty parts kept):
   * always at least one part.
   */
  function Split(s: QString, sep: CodeUnit): (parts: seq<QString>)
    ensures |parts| >= 1
    ensures forall k :: 0 <= k < |parts| ==> sep !in parts[k]
    decreases |s|
  {
    var j := IndexOf(s, sep, 0);
    if j == |s| then [s] else [s[..j]] + Split(s[j + 1..], sep)
  }

  /** The inverse of Split: the parts glued back with the separator. */
  function Join(parts: seq<QString>, sep: CodeUnit): QString
    requires |parts| >= 1
  {
    if |parts| == 1 then parts[0] else parts[0] + [sep] + Join(parts[1..], sep)
  }

  /** Splitting on a separator loses nothing: joining the parts gives back the string. */
  lemma {:induction false} SplitJoin(s: QString, sep: CodeUnit)
    ensures Join(Split(s, sep), sep) == s
    decreases |s|
  {
    var j := IndexOf(s, sep, 0);
    if j < |s| {
      SplitJoin(s[j + 1..], sep);
      assert s == s[..j] + [sep] + s[j + 1..];
    }
  }
}
