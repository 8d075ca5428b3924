/**
 The escaping of path segments.

 Text is a sequence of 16-bit code units.  A code unit outside the unreserved characters is written as `~`
 and two hexadecimal digits, or `~u` and four.
 */
module StringEncoding {
  import opened Wrappers

  type CodeUnit = c: int | 0 <= c < 0x1_0000
  type Text = seq<CodeUnit>

  const TILDE: CodeUnit := 126
  const LETTER_U: CodeUnit := 117
  const DOT: CodeUnit := 46
  const DASH: CodeUnit := 45
  const UNDERSCORE: CodeUnit := 95

  predicate IsDigit(c: int) { 48 <= c <= 57 }
  predicate IsUpper(c: int) { 65 <= c <= 90 }
  predicate IsLower(c: int) { 97 <= c <= 122 }

  // ----- writing -----

  predicate IsUnreserved(isLast: bool, c: CodeUnit)
  {
    c == DASH || (if c == DOT then !isLast else c == UNDERSCORE || IsUpper(c) || IsLower(c) || IsDigit(c))
  }

  function HexDigit(n: int): CodeUnit
    requires 0 <= n < 16
  {
    if n < 10 then 48 + n else 87 + n
  }

  /** The number in hexadecimal, in lower case and without leading zeros. */
  function ToHex(k: nat): (r: Text)
    ensures r != []
  {
    if k < 16 then [HexDigit(k)] else ToHex(k / 16) + [HexDigit(k % 16)]
  }

  function PadLeft(s: Text, n: nat): Text
    decreases n - |s|
  {
    if |s| >= n then s else PadLeft([48] + s, n)
  }

  function WriteEscaped(isLast: bool, c: CodeUnit): Text
  {
    if IsUnreserved(isLast, c) then [c]
    else if c < 256 then [TILDE] + PadLeft(ToHex(c), 2)
    else [TILDE, LETTER_U] + PadLeft(ToHex(c), 4)
  }

  function Write(s: Text): Text
  {
    if s == [] then [] else WriteEscaped(|s| == 1, s[0]) + Write(s[1..])
  }

  // ----- reading -----

  /** The next code unit and the rest; -1 at the end. */
  function Next(chars: Text): (int, Text)
  {
    if chars == [] then (-1, chars) else (chars[0], chars[1..])
  }

  function Hex(x: int): int
  {
    if IsDigit(x) then x - 48
    else if 97 <= x <= 102 then x - 97 + 10
    else if 65 <= x <= 70 then x - 65 + 10
    else -2
  }

  /** `(a << 4) + b`, on numbers far from overflow. */
  function Shifted(a: int, b: int): int
  {
    a * 16 + b
  }

  /** One code unit, escaped or not, and the rest: -1 at the end, -2 for an escape cut short. */
  function ReadEscaped(chars: Text): (int, Text)
  {
    var (m, c1) := Next(chars);
    if m != TILDE then (m, c1) else
    var (m1, c2) := Next(c1);
    if m1 == LETTER_U then
      var (a, c3) := Next(c2);
      var (b, c4) := Next(c3);
      var (c, c5) := Next(c4);
      var (d, c6) := Next(c5);
      (if a >= 0 && b >= 0 && c >= 0 && d >= 0 then Shifted(Shifted(Shifted(Hex(a), Hex(b)), Hex(c)), Hex(d)) else -2, c6)
    else
      var (y, c3) := Next(c2);
      (if m1 >= 0 && y >= 0 then Shifted(Hex(m1), Hex(y)) else -2, c3)
  }

  method ReadEscapedFromChars(chars: Text) returns (m: int, chars': Text)
    ensures (m, chars') == ReadEscaped(chars)
  {
    m, chars' := ReadOne(chars);
    if m == TILDE {
      var m1, a, b, c, d, y;
      m1, chars' := ReadOne(chars');
      if m1 == LETTER_U {
        a, chars' := ReadOne(chars');
        b, chars' := ReadOne(chars');
        c, chars' := ReadOne(chars');
        d, chars' := ReadOne(chars');
        m := if a >= 0 && b >= 0 && c >= 0 && d >= 0
             then Shifted(Shifted(Shifted(Hex(a), Hex(b)), Hex(c)), Hex(d)) else -2;
      } else {
        y, chars' := ReadOne(chars');
        m := if m1 >= 0 && y >= 0 then Shifted(Hex(m1), Hex(y)) else -2;
      }
    }
  }

  method ReadOne(chars: Text) returns (h: int, t: Text)
    ensures (h, t) == Next(chars)
  {
    if chars != [] {
      h, t := chars[0], chars[1..];
    } else {
      h, t := -1, chars;
    }
  }

  /** A number as a code unit, modulo the unit's width. */
  function FromCharCode(n: int): CodeUnit
  {
    n % 0x1_0000
  }

  function ReadFrom(buf: Text, chars: Text): Option<Text>
    decreases |chars|
  {
    var (m, rest) := ReadEscaped(chars);
    if m == -2 then None
    else if m == -1 then Some(buf)
    else
    OnlyTheEndEnds(chars);
    ReadFrom(buf + [FromCharCode(m)], rest)
  }

  function ReadAll(s: Text): Option<Text>
  {
    ReadFrom([], s)
  }

  method Read(s: Text) returns (r: Option<Text>)
    ensures r == ReadAll(s)
  {
    var buf, chars := [], s;
    while true
      invariant ReadFrom(buf, chars) == ReadAll(s)
      decreases |chars|
    {
      OnlyTheEndEnds(chars);
      var m, rest := ReadEscapedFromChars(chars);
      if m == -2 {
        return None;
      } else if m == -1 {
        return Some(buf);
      } else {
        buf := buf + [FromCharCode(m)];
        chars := rest;
      }
    }
  }

  /** No escape, however malformed, is taken for the end of the text. */
  lemma OnlyTheEndEnds(chars: Text)
    ensures ReadEscaped(chars).0 == -1 <==> chars == []
    ensures chars != [] ==> |ReadEscaped(chars).1| < |chars|
  {
  }

  // ----- the round trip -----

  lemma HexRoundTrip(n: int)
    requires 0 <= n < 16
    ensures Hex(HexDigit(n)) == n && HexDigit(n) != LETTER_U
    ensures IsDigit(HexDigit(n)) || IsLower(HexDigit(n))
  {
  }

  lemma TwoDigits(k: nat)
    requires k < 256
    ensures PadLeft(ToHex(k), 2) == [HexDigit(k / 16), HexDigit(k % 16)]
  {
    if k < 16 {
      assert [48] + [HexDigit(k)] == [HexDigit(0), HexDigit(k)];
    } else {
      assert ToHex(k) == [HexDigit(k / 16)] + [HexDigit(k % 16)];
    }
  }

  lemma FourDigits(k: nat)
    requires 256 <= k < 0x1_0000
    ensures PadLeft(ToHex(k), 4) ==
            [HexDigit(k / 16 / 16 / 16), HexDigit(k / 16 / 16 % 16), HexDigit(k / 16 % 16), HexDigit(k % 16)]
  {
    var h, t := k / 16 / 16, [HexDigit(k / 16 % 16), HexDigit(k % 16)];
    assert ToHex(k) == ToHex(h) + [HexDigit(k / 16 % 16)] + [HexDigit(k % 16)];
    if h < 16 {
      assert ToHex(k) == [HexDigit(h)] + t;
      assert [48] + ([HexDigit(h)] + t) == [HexDigit(0), HexDigit(h)] + t;
    } else {
      assert ToHex(h) == [HexDigit(h / 16)] + [HexDigit(h % 16)];
      assert ToHex(k) == [HexDigit(h / 16), HexDigit(h % 16)] + t;
    }
  }

  lemma UnitRoundTrip(isLast: bool, c: CodeUnit, rest: Text)
    ensures ReadEscaped(WriteEscaped(isLast, c) + rest) == (c, rest)
  {
    if IsUnreserved(isLast, c) {
      assert ([c] + rest)[1..] == rest;
    } else if c < 256 {
      TwoDigits(c);
      ReadTwo(c / 16, c % 16, rest);
    } else {
      FourDigits(c);
      ReadFour(c / 16 / 16 / 16, c / 16 / 16 % 16, c / 16 % 16, c % 16, rest);
    }
  }

  lemma ReadTwo(a: int, b: int, rest: Text)
    requires 0 <= a < 16 && 0 <= b < 16
    ensures ReadEscaped([TILDE] + [HexDigit(a), HexDigit(b)] + rest) == (16 * a + b, rest)
  {
    HexRoundTrip(a);
    HexRoundTrip(b);
    var s := [TILDE] + [HexDigit(a), HexDigit(b)] + rest;
    assert s[1..] == [HexDigit(a), HexDigit(b)] + rest && s[1..][1..] == [HexDigit(b)] + rest;
    assert s[1..][1..][1..] == rest;
  }

  lemma ReadFour(a: int, b: int, c: int, d: int, rest: Text)
    requires 0 <= a < 16 && 0 <= b < 16 && 0 <= c < 16 && 0 <= d < 16
    ensures ReadEscaped([TILDE, LETTER_U] + [HexDigit(a), HexDigit(b), HexDigit(c), HexDigit(d)] + rest)
         == (4096 * a + 256 * b + 16 * c + d, rest)
  {
    HexRoundTrip(a);
    HexRoundTrip(b);
    HexRoundTrip(c);
    HexRoundTrip(d);
    var s := [TILDE, LETTER_U] + [HexDigit(a), HexDigit(b), HexDigit(c), HexDigit(d)] + rest;
    assert s[1..][1..] == [HexDigit(a), HexDigit(b), HexDigit(c), HexDigit(d)] + rest;
    assert s[1..][1..][1..][1..] == [HexDigit(c), HexDigit(d)] + rest;
    assert s[1..][1..][1..][1..][1..][1..] == rest;
  }

  lemma {:induction false} ReadWritten(buf: Text, s: Text)
    ensures ReadFrom(buf, Write(s)) == Some(buf + s)
    decreases |s|
  {
    hide ReadEscaped, WriteEscaped;
    OnlyTheEndEnds(Write(s));
    if s == [] {
      assert buf + s == buf;
    } else {
      UnitRoundTrip(|s| == 1, s[0], Write(s[1..]));
      ReadWritten(buf + [s[0]], s[1..]);
      assert buf + [s[0]] + s[1..] == buf + s;
    }
  }

  /** Every text comes back from its escaped form. */
  lemma ReadUndoesWrite(s: Text)
    ensures ReadAll(Write(s)) == Some(s)
  {
    ReadWritten([], s);
    assert [] + s == s;
  }

  lemma WriteIsInjective(s: Text, t: Text)
    requires Write(s) == Write(t)
    ensures s == t
  {
    ReadUndoesWrite(s);
    ReadUndoesWrite(t);
  }

  /** The unreserved characters of section 2.3 of RFC 3986. */
  predicate Unreserved(c: CodeUnit)
  {
    c == DASH || c == DOT || c == UNDERSCORE || c == TILDE || IsUpper(c) || IsLower(c) || IsDigit(c)
  }

  lemma EscapedIsUnreserved(isLast: bool, c: CodeUnit)
    ensures var w := WriteEscaped(isLast, c);
            && w != [] && (forall i :: 0 <= i < |w| ==> Unreserved(w[i]))
            && (w[|w| - 1] == DOT <==> c == DOT && !isLast)
  {
    if !IsUnreserved(isLast, c) {
      if c < 256 {
        TwoDigits(c);
        HexRoundTrip(c / 16);
        HexRoundTrip(c % 16);
      } else {
        FourDigits(c);
        HexRoundTrip(c / 16 / 16 / 16);
        HexRoundTrip(c / 16 / 16 % 16);
        HexRoundTrip(c / 16 % 16);
        HexRoundTrip(c % 16);
      }
    }
  }

  /** The escaped form uses unreserved characters only and never ends in a dot; only the empty text is empty. */
  lemma {:induction false} WriteIsUnreserved(s: Text)
    ensures var w := Write(s);
            && (forall i :: 0 <= i < |w| ==> Unreserved(w[i]))
            && (w == [] <==> s == [])
            && (w != [] ==> w[|w| - 1] != DOT)
  {
    if s != [] {
      EscapedIsUnreserved(|s| == 1, s[0]);
      WriteIsUnreserved(s[1..]);
    }
  }

  // ----- what is written, unit by unit -----

  const DIGITS := "0123456789abcdef"
  const CAPITAL_DIGITS := "0123456789ABCDEF"

  /** Units that need no escape: letters, digits, `-`, `_`, and a dot that has something behind it. */
  predicate Alone(isLast: bool, c: CodeUnit)
  {
    || 'A' as int <= c <= 'Z' as int || 'a' as int <= c <= 'z' as int || '0' as int <= c <= '9' as int
    || c == '-' as int || c == '_' as int || (c == '.' as int && !isLast)
  }

  function Digit(n: int): CodeUnit
    requires 0 <= n < 16
  {
    DIGITS[n] as int
  }

  /** A unit as it should be written: alone, or with its value in two or four digits. */
  function Piece(isLast: bool, c: CodeUnit): Text
  {
    if Alone(isLast, c) then [c]
    else if c <= 0xff then ['~' as int, Digit(c / 0x10), Digit(c % 0x10)]
    else ['~' as int, 'u' as int, Digit(c / 0x1000), Digit(c / 0x100 % 0x10), Digit(c / 0x10 % 0x10), Digit(c % 0x10)]
  }

  lemma DigitIsHex(n: int)
    requires 0 <= n < 16
    ensures HexDigit(n) == Digit(n)
  {
    assert n == 0 || n == 1 || n == 2 || n == 3 || n == 4 || n == 5 || n == 6 || n == 7 || n == 8 || n == 9 || n >= 10;
    assert n >= 10 ==> n == 10 || n == 11 || n == 12 || n == 13 || n == 14 || n == 15;
  }

  lemma EscapedExactly(isLast: bool, c: CodeUnit)
    ensures WriteEscaped(isLast, c) == Piece(isLast, c)
  {
    hide ToHex, PadLeft, HexDigit, Digit;
    if c < 256 {
      TwoDigits(c);
      DigitIsHex(c / 16);
      DigitIsHex(c % 16);
    } else {
      FourDigits(c);
      DigitIsHex(c / 16 / 16 / 16);
      DigitIsHex(c / 16 / 16 % 16);
      DigitIsHex(c / 16 % 16);
      DigitIsHex(c % 16);
      assert c / 16 / 16 == c / 0x100 && c / 16 / 16 / 16 == c / 0x1000;
    }
  }

  function Pieces(s: Text): Text
  {
    if s == [] then [] else Pieces(s[..|s| - 1]) + Piece(false, s[|s| - 1])
  }

  lemma {:induction false} PiecesSplit(a: Text, b: Text)
    ensures Pieces(a + b) == Pieces(a) + Pieces(b)
  {
    hide Piece;
    if b == [] {
      assert a + b == a && Pieces(a) + [] == Pieces(a);
    } else {
      var n := |b| - 1;
      PiecesSplit(a, b[..n]);
      assert (a + b)[..|a| + n] == a + b[..n];
      assert Pieces(a) + Pieces(b[..n]) + Piece(false, b[n]) == Pieces(a) + (Pieces(b[..n]) + Piece(false, b[n]));
    }
  }

  /** A text is written as the pieces of its units, of which only the last one is a last one. */
  lemma {:induction false} WriteExactly(s: Text)
    requires s != []
    ensures Write(s) == Pieces(s[..|s| - 1]) + Piece(true, s[|s| - 1])
  {
    hide Piece, WriteEscaped;
    var n := |s| - 1;
    EscapedExactly(n == 0, s[0]);
    if n == 0 {
      assert s[1..] == [] && Piece(true, s[0]) + [] == Piece(true, s[0]) && s[..0] == [];
      assert [] + Piece(true, s[0]) == Piece(true, s[0]);
    } else {
      WriteExactly(s[1..]);
      PiecesSplit([s[0]], s[1..][..n - 1]);
      PieceOfOne(s[0]);
      assert s[..n] == [s[0]] + s[1..][..n - 1];
      assert Piece(false, s[0]) + (Pieces(s[1..][..n - 1]) + Piece(true, s[n])) ==
             Piece(false, s[0]) + Pieces(s[1..][..n - 1]) + Piece(true, s[n]);
    }
  }

  lemma PieceOfOne(c: CodeUnit)
    ensures Pieces([c]) == Piece(false, c)
  {
    assert [c][..0] == [] && [] + Piece(false, c) == Piece(false, c);
  }

  /** A text that needs no escapes is written as it is. */
  lemma {:induction false} PlainTextStays(s: Text)
    requires forall i :: 0 <= i < |s| ==> Alone(i == |s| - 1, s[i])
    ensures Write(s) == s
  {
    if s != [] {
      WriteExactly(s);
      PlainPieces(s[..|s| - 1]);
      assert s == s[..|s| - 1] + [s[|s| - 1]];
    }
  }

  lemma {:induction false} PlainPieces(s: Text)
    requires forall i :: 0 <= i < |s| ==> Alone(false, s[i])
    ensures Pieces(s) == s
  {
    if s != [] {
      PlainPieces(s[..|s| - 1]);
      assert s == s[..|s| - 1] + [s[|s| - 1]];
    }
  }

  // ----- malformed escapes -----

  /** How many code units an unescaped unit or a complete escape takes. */
  function StepLength(chars: Text): nat
    requires chars != []
  {
    if chars[0] != TILDE then 1 else if |chars| >= 2 && chars[1] == LETTER_U then 6 else 3
  }

  predicate IsHex(c: int)
  {
    IsDigit(c) || 97 <= c <= 102 || 65 <= c <= 70
  }

  const ZERO: CodeUnit := 48

  /** An escape that is complete and has hexadecimal digits only. */
  predicate WellFormed(chars: Text)
    requires chars != [] && chars[0] == TILDE
  {
    && |chars| >= StepLength(chars)
    && if chars[1] == LETTER_U then IsHex(chars[2]) && IsHex(chars[3]) && IsHex(chars[4]) && IsHex(chars[5])
       else IsHex(chars[1]) && IsHex(chars[2])
  }

  /** Cut short, or zeros up to a last digit that is none. */
  predicate Refused(chars: Text)
    requires chars != []
  {
    chars[0] == TILDE &&
      (|chars| < StepLength(chars) ||
       if chars[1] == LETTER_U
       then chars[2] == ZERO && chars[3] == ZERO && chars[4] == ZERO && !IsHex(chars[5])
       else chars[1] == ZERO && !IsHex(chars[2]))
  }

  /** The unit that the next step reads; a digit that is none counts as -2. */
  function UnitAt(chars: Text): CodeUnit
    requires chars != [] && |chars| >= StepLength(chars)
  {
    if chars[0] != TILDE then chars[0]
    else if chars[1] == LETTER_U then
      FromCharCode(4096 * Hex(chars[2]) + 256 * Hex(chars[3]) + 16 * Hex(chars[4]) + Hex(chars[5]))
    else FromCharCode(16 * Hex(chars[1]) + Hex(chars[2]))
  }

  /** A digit reads as its place among the digits, in either case; anything else as -2. */
  lemma HexRange(x: int)
    ensures IsHex(x) ==> 0 <= Hex(x) < 16 && (DIGITS[Hex(x)] as int == x || CAPITAL_DIGITS[Hex(x)] as int == x)
    ensures !IsHex(x) ==> Hex(x) == -2
    ensures Hex(x) == 0 <==> x == ZERO
  {
  }

  lemma ReadsShort(chars: Text)
    requires chars != [] && chars[0] == TILDE && |chars| < StepLength(chars)
    ensures ReadEscaped(chars).0 == -2
  {
  }

  lemma ReadsTwo(chars: Text)
    requires |chars| >= 3 && chars[0] == TILDE && chars[1] != LETTER_U
    ensures ReadEscaped(chars) == (16 * Hex(chars[1]) + Hex(chars[2]), chars[3..])
  {
    assert chars[1..][1..] == chars[2..] && chars[2..][1..] == chars[3..];
  }

  lemma ReadsFour(chars: Text)
    requires |chars| >= 6 && chars[0] == TILDE && chars[1] == LETTER_U
    ensures ReadEscaped(chars) ==
            (4096 * Hex(chars[2]) + 256 * Hex(chars[3]) + 16 * Hex(chars[4]) + Hex(chars[5]), chars[6..])
  {
    assert chars[1..][1..] == chars[2..] && chars[2..][1..] == chars[3..] && chars[3..][1..] == chars[4..];
    assert chars[4..][1..] == chars[5..] && chars[5..][1..] == chars[6..];
  }

  /**
   A step fails exactly if its escape is refused; otherwise it reads the unit that the digits make, digits
   that are none included.
   */
  lemma StepReads(chars: Text)
    requires chars != []
    ensures ReadEscaped(chars).0 == -2 <==> Refused(chars)
    ensures !Refused(chars) ==>
              && |chars| >= StepLength(chars)
              && FromCharCode(ReadEscaped(chars).0) == UnitAt(chars)
              && ReadEscaped(chars).1 == chars[StepLength(chars)..]
  {
    hide ReadEscaped, Hex;
    if chars[0] != TILDE {
      PlainUnit(chars);
    } else if |chars| < StepLength(chars) {
      ReadsShort(chars);
    } else if chars[1] == LETTER_U {
      ReadsFour(chars);
      HexRange(chars[2]);
      HexRange(chars[3]);
      HexRange(chars[4]);
      HexRange(chars[5]);
    } else {
      ReadsTwo(chars);
      HexRange(chars[1]);
      HexRange(chars[2]);
    }
  }

  lemma PlainUnit(chars: Text)
    requires chars != [] && chars[0] != TILDE
    ensures ReadEscaped(chars) == (chars[0] as int, chars[1..]) && FromCharCode(chars[0]) == chars[0]
  {
  }

  /** A malformed escape is refused exactly if it is cut short or its digits are zeros up to a last one that is none. */
  lemma MalformedEscapeRefused(chars: Text)
    requires chars != [] && chars[0] == TILDE && !WellFormed(chars)
    ensures ReadEscaped(chars).0 == -2 <==>
              || |chars| < StepLength(chars)
              || (chars[1] == LETTER_U && chars[2] == ZERO && chars[3] == ZERO && chars[4] == ZERO)
              || (chars[1] != LETTER_U && chars[1] == ZERO)
  {
    hide ReadEscaped;
    StepReads(chars);
  }

  /** Does the reading, step by step, come to a refused escape? */
  predicate Rejected(s: Text)
  {
    s != [] && (Refused(s) || (|s| >= StepLength(s) && Rejected(s[StepLength(s)..])))
  }

  /** The units that the steps read. */
  function Units(s: Text): Text
    requires !Rejected(s)
  {
    if s == [] then [] else [UnitAt(s)] + Units(s[StepLength(s)..])
  }

  lemma {:induction false} ReadFromExactly(buf: Text, s: Text)
    ensures ReadFrom(buf, s) == if Rejected(s) then None else Some(buf + Units(s))
    decreases |s|
  {
    hide ReadEscaped, Refused, UnitAt;
    OnlyTheEndEnds(s);
    if s != [] {
      StepReads(s);
      if !Refused(s) {
        RefusedWhenShort(s);
        ReadFromExactly(buf + [UnitAt(s)], s[StepLength(s)..]);
        if !Rejected(s) {
          assert buf + [UnitAt(s)] + Units(s[StepLength(s)..]) == buf + ([UnitAt(s)] + Units(s[StepLength(s)..]));
        }
      }
    } else {
      assert buf + [] == buf;
    }
  }

  lemma RefusedWhenShort(s: Text)
    requires s != [] && !Refused(s)
    ensures |s| >= StepLength(s) > 0
  {
  }

  /** A text is read exactly if no step meets a refused escape, and then as the units of its steps. */
  lemma ReadExactly(s: Text)
    ensures ReadAll(s) == if Rejected(s) then None else Some(Units(s))
  {
    ReadFromExactly([], s);
    if !Rejected(s) {
      assert [] + Units(s) == Units(s);
    }
  }

  /** Two digits of which only the first is one are read, unless it is zero. */
  lemma BadSecondDigit(a: CodeUnit, b: CodeUnit)
    requires IsHex(a) && !IsHex(b)
    ensures ReadAll([TILDE, a, b]) == if a == ZERO then None else Some([FromCharCode(16 * Hex(a) - 2)])
  {
    var s: Text := [TILDE, a, b];
    ReadExactly(s);
    HexRange(a);
    HexRange(b);
    if a != ZERO {
      var rest := s[3..];
      assert rest == [] && StepLength(s) == 3 && !Refused(s);
      assert Units(s) == [UnitAt(s)] + Units(rest);
      assert [UnitAt(s)] + Units(rest) == [FromCharCode(16 * Hex(a) - 2)];
    }
  }

  /** For example, `~1z` is malformed and reads as code unit 14. */
  lemma MalformedEscapeIsRead()
    ensures !WellFormed([TILDE, 49, 122]) && ReadAll([TILDE, 49, 122]) == Some([14])
  {
    BadSecondDigit(49, 122);
  }
}
