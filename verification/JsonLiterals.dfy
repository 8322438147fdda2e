/** How JSON writes strings and numbers (RFC 8259, sections 6 and 7). */
module JsonLiterals {
  import opened Basics
  import opened Texts
  import opened JsonTokens
  import opened JsonPrinter

  /** One character of a string and how many characters write it. */
  datatype Piece = Piece(c: char, length: nat)

  const REPLACEMENT := 0xFFFD as char

  function HexValue(c: char): (n: Option<nat>)
    ensures n.Some? ==> n.value < 16 && c != '"' && c != '\\'
  {
    if IsDigit(c) then Some(c as int - '0' as int)
    else if 'a' <= c <= 'f' then Some(c as int - 'a' as int + 10)
    else if 'A' <= c <= 'F' then Some(c as int - 'A' as int + 10)
    else None
  }

  function HexNumber(t: string): (n: Option<nat>)
    requires |t| == 4
    ensures n.Some? ==> n.value < 0x10000 && forall i :: 0 <= i < 4 ==> t[i] != '"' && t[i] != '\\'
  {
    match (HexValue(t[0]), HexValue(t[1]), HexValue(t[2]), HexValue(t[3]))
    case (Some(a), Some(b), Some(c), Some(d)) => Some(((a * 16 + b) * 16 + c) * 16 + d)
    case _ => None
  }

  /** The code unit that a \u with four hexadecimal digits at the front of `t` names. */
  function CodeUnit(t: string): (n: Option<nat>)
    ensures n.Some? ==> |t| >= 6 && t[0] == '\\' && t[1] == 'u' && n.value < 0x10000
  {
    if |t| >= 6 && t[0] == '\\' && t[1] == 'u' then HexNumber(t[2..6]) else None
  }

  /**
   Two halves of a surrogate pair are one character; a half on its own, which no char holds, is the
   replacement character.
   */
  function UnicodePiece(t: string): (piece: Option<Piece>)
    ensures piece.Some? ==> 0 < piece.value.length <= |t|
  {
    match CodeUnit(t)
    case None => None
    case Some(high) =>
      if high < 0xD800 || 0xE000 <= high then Some(Piece(high as char, 6))
      else if 0xDC00 <= high then Some(Piece(REPLACEMENT, 6))
      else
        match CodeUnit(t[6..])
        case Some(low) =>
          if 0xDC00 <= low < 0xE000 then Some(Piece((0x10000 + (high - 0xD800) * 0x400 + (low - 0xDC00)) as char, 12))
          else Some(Piece(REPLACEMENT, 6))
        case None => Some(Piece(REPLACEMENT, 6))
  }

  function ShortEscape(c: char): Option<char> {
    match c
    case '"' => Some('"')
    case '\\' => Some('\\')
    case '/' => Some('/')
    case 'b' => Some(8 as char)
    case 'f' => Some(12 as char)
    case 'n' => Some('\n')
    case 'r' => Some('\r')
    case 't' => Some('\t')
    case _ => None
  }

  /** The first character that `t`, taken from between two quotes, writes. */
  function FirstPiece(t: string): (piece: Option<Piece>)
    requires t != ""
    ensures piece.Some? ==> 0 < piece.value.length <= |t|
  {
    if t[0] == '"' || t[0] < ' ' then None
    else if t[0] != '\\' then Some(Piece(t[0], 1))
    else if |t| == 1 then None
    else if t[1] == 'u' then UnicodePiece(t)
    else match ShortEscape(t[1]) case Some(c) => Some(Piece(c, 2)) case None => None
  }

  /** The string that is written between the quotes, if it is a string at all. */
  function Decoded(t: string): Option<string>
    decreases |t|
  {
    if t == "" then Some("")
    else
      match FirstPiece(t)
      case None => None
      case Some(piece) =>
        match Decoded(t[piece.length..])
        case None => None
        case Some(rest) => Some([piece.c] + rest)
  }

  lemma {:induction false} DecodedIsShorter(t: string)
    requires Decoded(t).Some?
    ensures |Decoded(t).value| <= |t|
    decreases |t|
  {
    if t != "" {
      DecodedIsShorter(t[FirstPiece(t).value.length..]);
    }
  }

  lemma PieceOfPlain(c: char, rest: string)
    requires c != '"' && c != '\\' && c >= ' '
    ensures FirstPiece([c] + rest) == Some(Piece(c, 1))
  {
  }

  lemma PieceOfControl(c: char, rest: string)
    requires |Escape(c)| == 6
    ensures FirstPiece(Escape(c) + rest) == Some(Piece(c, 6))
  {
    var t, n := Escape(c) + rest, c as int;
    assert n < 32 && Escape(c) == "\\u00" + [HEX[n / 16], HEX[n % 16]];
    assert t[2..6] == ['0', '0', HEX[n / 16], HEX[n % 16]];
    HexDigits(n / 16);
    HexDigits(n % 16);
    assert CodeUnit(t) == Some(n);
  }

  lemma HexDigits(n: nat)
    requires n < 16
    ensures HexValue(HEX[n]) == Some(n)
  {
  }

  lemma EscapeIsPiece(c: char, rest: string)
    ensures FirstPiece(Escape(c) + rest) == Some(Piece(c, |Escape(c)|))
  {
    if |Escape(c)| == 6 {
      PieceOfControl(c, rest);
    } else if |Escape(c)| == 1 {
      PieceOfPlain(c, rest);
    } else {
      var t := Escape(c) + rest;
      assert t[0] == '\\' && t[1] == Escape(c)[1];
    }
  }

  /** What the printer writes between quotes reads as the string. */
  lemma {:induction false} EscapedDecodes(s: string)
    ensures Decoded(Escaped(s)) == Some(s)
  {
    if s != "" {
      EscapeIsPiece(s[0], Escaped(s[1..]));
      DropPast(Escape(s[0]), Escaped(s[1..]), 0);
      EscapedDecodes(s[1..]);
      assert Escaped(s)[|Escape(s[0])|..] == Escaped(s[1..]);
      assert [s[0]] + s[1..] == s;
    }
  }

  /** The printer takes the shortest of all ways to write a character, and small hexadecimal digits. */
  lemma EscapeIsShortest(t: string, c: char, n: nat)
    requires t != "" && FirstPiece(t) == Some(Piece(c, n))
    ensures |Escape(c)| <= n
    ensures |Escape(c)| > 2 ==> forall i :: 0 <= i < |Escape(c)| ==> !('A' <= Escape(c)[i] <= 'F')
  {
    if n > 2 {
      EscapesAreShort(c);
    } else if n == 2 {
      ShortIsEnough(t[1], c);
    }
    SmallDigits(c as int);
  }

  lemma EscapesAreShort(c: char)
    ensures |Escape(c)| <= 6
  {
  }

  lemma ShortIsEnough(letter: char, c: char)
    requires ShortEscape(letter) == Some(c)
    ensures |Escape(c)| <= 2
  {
  }

  lemma SmallDigits(n: nat)
    ensures n < 32 ==> !('A' <= HEX[n / 16] <= 'F') && !('A' <= HEX[n % 16] <= 'F')
  {
  }

  lemma CloseStepsOverUnit(t: string)
    requires CodeUnit(t).Some?
    ensures Close(t) == 6 + Close(t[6..])
  {
    CloseStepsOverPlain(t[2..6], t[6..]);
    assert t[2..] == t[2..6] + t[6..];
  }

  lemma CloseStepsOverPiece(t: string)
    requires t != "" && FirstPiece(t).Some?
    ensures Close(t) == FirstPiece(t).value.length + Close(t[FirstPiece(t).value.length..])
  {
    var n := FirstPiece(t).value.length;
    if n == 6 {
      CloseStepsOverUnit(t);
    } else if n == 12 {
      CloseStepsOverUnit(t);
      CloseStepsOverUnit(t[6..]);
      assert t[6..][6..] == t[12..];
    }
  }

  lemma PieceStays(t: string, rest: string)
    requires t != "" && FirstPiece(t).Some?
    ensures FirstPiece(t + ("\"" + rest)) == FirstPiece(t)
  {
    var u := t + ("\"" + rest);
    if t[0] == '\\' {
      assert u[1] == t[1];
      if t[1] == 'u' {
        assert u[2..6] == t[2..6];
        UnitStays(t[6..], rest);
        assert u[6..] == t[6..] + ("\"" + rest);
      }
    }
  }

  lemma UnitStays(t: string, rest: string)
    ensures CodeUnit(t + ("\"" + rest)) == CodeUnit(t)
  {
    var u := t + ("\"" + rest);
    if |t| >= 6 {
      assert u[2..6] == t[2..6];
    } else {
      assert u[|t|] == '"';
      assert 2 <= |t| && |u| >= 6 ==> u[2..6][|t| - 2] == '"';
    }
  }

  /** A text that writes a string ends, for the scanner, at the quote behind it. */
  lemma {:induction false} DecodedCloses(t: string, rest: string)
    requires Decoded(t).Some?
    ensures Close(t + ("\"" + rest)) == |t| + 1
    decreases |t|
  {
    if t == "" {
      assert t + ("\"" + rest) == "\"" + rest;
    } else {
      var n := FirstPiece(t).value.length;
      PieceStays(t, rest);
      CloseStepsOverPiece(t + ("\"" + rest));
      DecodedCloses(t[n..], rest);
      assert (t + ("\"" + rest))[n..] == t[n..] + ("\"" + rest);
    }
  }

  // Numbers.

  predicate IsExponent(t: string) {
    t == "" || ((t[0] == 'e' || t[0] == 'E') && IsSignedDigits(t[1..]))
  }

  predicate IsSignedDigits(t: string) {
    var u := if t != "" && (t[0] == '+' || t[0] == '-') then t[1..] else t;
    u != "" && Span(u, IsDigit) == |u|
  }

  predicate IsFraction(t: string) {
    if t != "" && t[0] == '.' then Span(t[1..], IsDigit) > 0 && IsExponent(t[1 + Span(t[1..], IsDigit)..])
    else IsExponent(t)
  }

  /** Digits without a superfluous zero in front, then a fraction and an exponent if wanted. */
  predicate IsUnsigned(t: string) {
    var n := Span(t, IsDigit);
    n > 0 && (t[0] == '0' ==> n == 1) && IsFraction(t[n..])
  }

  predicate IsJsonNumber(t: string) {
    if t != "" && t[0] == '-' then IsUnsigned(t[1..]) else IsUnsigned(t)
  }

  predicate NumberChars(t: string) {
    forall i :: 0 <= i < |t| ==> IsNumberChar(t[i])
  }

  lemma NumberCharsJoin(t: string, n: nat)
    requires n <= |t| && NumberChars(t[..n]) && NumberChars(t[n..])
    ensures NumberChars(t)
  {
    forall i | 0 <= i < |t|
      ensures IsNumberChar(t[i])
    {
      if i >= n {
        assert t[i] == t[n..][i - n];
      } else {
        assert t[i] == t[..n][i];
      }
    }
  }

  lemma ExponentChars(t: string)
    requires IsExponent(t)
    ensures NumberChars(t)
  {
    if t != "" {
      var u := t[1..];
      if u[0] == '+' || u[0] == '-' {
        NumberCharsJoin(u, 1);
      }
      NumberCharsJoin(t, 1);
    }
  }

  lemma FractionChars(t: string)
    requires IsFraction(t)
    ensures NumberChars(t)
  {
    if t != "" && t[0] == '.' {
      var n := Span(t[1..], IsDigit);
      ExponentChars(t[1 + n..]);
      assert t[1..][n..] == t[1 + n..];
      NumberCharsJoin(t[1..], n);
      NumberCharsJoin(t, 1);
    } else {
      ExponentChars(t);
    }
  }

  /** A number of the grammar is one token of the scanner. */
  lemma NumberIsToken(t: string)
    requires IsJsonNumber(t)
    ensures IsNumberText(t)
  {
    var u := if t[0] == '-' then t[1..] else t;
    var n := Span(u, IsDigit);
    FractionChars(u[n..]);
    NumberCharsJoin(u, n);
    if t[0] == '-' {
      NumberCharsJoin(t, 1);
    }
  }
}
