/** String literals of a JSON text: escaping on output, unescaping on input, and the sizes computed beforehand. */
module JsonString {
  import opened Bytes
  import opened Utf16

  const QUOTE: byte := 34
  const SLASH: byte := 47
  const BACKSPACE: byte := 8
  const FORM_FEED: byte := 12
  const NEWLINE: byte := 10
  const RETURN: byte := 13
  const TAB: byte := 9

  // ---- Escaping ----

  /** The letter after the backslash in a two-character escape, for the bytes that have one. */
  function ShortEscape(b: byte): Option<byte> {
    if b == QUOTE || b == BACKSLASH then Some(b)
    else if b == BACKSPACE then Some(98)
    else if b == FORM_FEED then Some(102)
    else if b == NEWLINE then Some(110)
    else if b == RETURN then Some(114)
    else if b == TAB then Some(116)
    else None
  }

  function EscapeByte(b: byte): (r: seq<byte>)
    ensures 1 <= |r| <= 6
  {
    if ShortEscape(b).Some? then [BACKSLASH, ShortEscape(b).value]
    else if b < 32 then Literal(b)
    else [b]
  }

  function Escape(s: seq<byte>): (r: seq<byte>)
    ensures |s| <= |r|
  {
    if s == [] then [] else EscapeByte(s[0]) + Escape(s[1..])
  }

  /** A string in quotes. */
  function Quoted(s: seq<byte>): seq<byte> {
    [QUOTE] + Escape(s) + [QUOTE]
  }

  /** The additional bytes the first pass of the printer counts. */
  function EscapeCharacters(s: seq<byte>): nat {
    if s == [] then 0
    else (if ShortEscape(s[0]).Some? then 1 else if s[0] < 32 then 5 else 0) + EscapeCharacters(s[1..])
  }

  /** The first pass counts exactly what the second pass adds. */
  lemma {:induction false} EscapeLength(s: seq<byte>)
    ensures |Escape(s)| == |s| + EscapeCharacters(s)
  {
    if s != [] {
      EscapeLength(s[1..]);
    }
  }

  lemma {:induction false} NothingToEscape(s: seq<byte>)
    requires EscapeCharacters(s) == 0
    ensures Escape(s) == s
  {
    if s != [] {
      NothingToEscape(s[1..]);
    }
  }

  lemma {:induction false} EscapeConcat(s: seq<byte>, t: seq<byte>)
    ensures Escape(s + t) == Escape(s) + Escape(t)
  {
    if s == [] {
      assert s + t == t;
    } else {
      assert (s + t)[1..] == s[1..] + t;
      EscapeConcat(s[1..], t);
    }
  }

  lemma {:induction false} EscapeCharactersConcat(s: seq<byte>, t: seq<byte>)
    ensures EscapeCharacters(s + t) == EscapeCharacters(s) + EscapeCharacters(t)
  {
    if s == [] {
      assert s + t == t;
    } else {
      assert (s + t)[1..] == s[1..] + t;
      EscapeCharactersConcat(s[1..], t);
    }
  }

  // ---- Unescaping ----

  /** The byte an escape letter stands for. */
  function UnescapeLetter(b: byte): Option<byte> {
    if b == 98 then Some(BACKSPACE)
    else if b == 102 then Some(FORM_FEED)
    else if b == 110 then Some(NEWLINE)
    else if b == 114 then Some(RETURN)
    else if b == 116 then Some(TAB)
    else if b == QUOTE || b == BACKSLASH || b == SLASH then Some(b)
    else None
  }

  /** The bytes produced, or the position at which the parser gives up. */
  datatype Text = Text(bytes: seq<byte>) | Stuck(at: nat)

  function After(bytes: seq<byte>, used: nat, rest: Text): Text {
    match rest
    case Text(more) => Text(bytes + more)
    case Stuck(at) => Stuck(used + at)
  }

  /** What one round of the second pass writes, and how many bytes it consumes. */
  datatype Piece = Piece(bytes: seq<byte>, used: nat) | NoPiece

  /** A backslash in the last place has the closing quote as its second character, and takes it along. */
  function FirstPiece(t: seq<byte>): (p: Piece)
    requires t != []
    ensures p.Piece? ==> p.used >= 1
  {
    if t[0] != BACKSLASH then Piece([t[0]], 1)
    else
      var letter := if |t| > 1 then t[1] else QUOTE;
      if letter == LETTER_U then
        var d := DecodeLiteral(t);
        if d.None? then NoPiece else Piece(Utf8(d.value.codepoint), d.value.used)
      else if UnescapeLetter(letter).None? then NoPiece
      else Piece([UnescapeLetter(letter).value], 2)
  }

  function Behind(t: seq<byte>, used: nat): (r: seq<byte>)
    ensures used >= 1 && t != [] ==> |r| < |t|
  {
    if used <= |t| then t[used..] else []
  }

  /** The second pass, over the characters between the quotes. */
  function Unescape(t: seq<byte>): (r: Text)
    ensures r.Stuck? ==> r.at < |t|
    decreases |t|
  {
    if t == [] then Text([])
    else
      match FirstPiece(t)
      case NoPiece => Stuck(0)
      case Piece(bytes, used) => After(bytes, used, Unescape(Behind(t, used)))
  }

  /** The position of the closing quote at or behind `i`; an escaped quote does not close. */
  function ClosingQuote(s: seq<byte>, i: nat): (r: Option<nat>)
    requires i <= |s|
    ensures r.Some? ==> i <= r.value < |s| && s[r.value] == QUOTE
    decreases |s| - i
  {
    if i == |s| then None
    else if s[i] == QUOTE then Some(i)
    else if s[i] == BACKSLASH then if i + 1 >= |s| then None else ClosingQuote(s, i + 2)
    else ClosingQuote(s, i + 1)
  }

  /** What the parser makes of a string literal at the start of `s`: the bytes and the input used, or where it fails. */
  datatype Literally = Parsed(bytes: seq<byte>, used: nat) | Failed(at: nat)

  function ParseString(s: seq<byte>): (r: Literally)
    requires s != []
    ensures r.Parsed? ==> 2 <= r.used <= |s|
    ensures r.Failed? ==> 1 <= r.at <= |s|
  {
    if s[0] != QUOTE || ClosingQuote(s, 1).None? then Failed(1)
    else
      var end := ClosingQuote(s, 1).value;
      match Unescape(s[1..end])
      case Text(bytes) => Parsed(bytes, end + 1)
      case Stuck(at) => Failed(1 + at)
  }

  // ---- What is printed is read back ----

  lemma EscapedBytePiece(b: byte, rest: seq<byte>)
    requires b != 0
    ensures FirstPiece(EscapeByte(b) + rest) == Piece([b], |EscapeByte(b)|)
  {
    hide Hex4, HexText, IsHex4;
    if ShortEscape(b).None? && b < 32 {
      LiteralsDecode(b, rest);
    }
  }

  lemma EscapedByteUnescapes(b: byte, rest: seq<byte>)
    requires b != 0
    ensures Unescape(EscapeByte(b) + rest) == After([b], |EscapeByte(b)|, Unescape(rest))
  {
    EscapedBytePiece(b, rest);
    hide EscapeByte, FirstPiece;
    assert Behind(EscapeByte(b) + rest, |EscapeByte(b)|) == rest;
  }

  /** Unescaping inverts escaping, for every string without a zero byte. */
  lemma {:induction false} UnescapeEscape(s: seq<byte>)
    requires 0 !in s
    ensures Unescape(Escape(s)) == Text(s)
  {
    if s != [] {
      UnescapeEscape(s[1..]);
      EscapedByteUnescapes(s[0], Escape(s[1..]));
    }
  }

  /** Characters that neither close a string nor escape are passed over. */
  lemma {:induction false} PlainDoesNotClose(s: seq<byte>, i: nat, n: nat)
    requires i + n <= |s| && forall k | i <= k < i + n :: s[k] != QUOTE && s[k] != BACKSLASH
    ensures ClosingQuote(s, i) == ClosingQuote(s, i + n)
    decreases n
  {
    if n > 0 {
      PlainDoesNotClose(s, i + 1, n - 1);
    }
  }

  lemma EscapedByteDoesNotClose(b: byte, before: seq<byte>, rest: seq<byte>)
    ensures ClosingQuote(before + EscapeByte(b) + rest, |before|) ==
      ClosingQuote(before + EscapeByte(b) + rest, |before| + |EscapeByte(b)|)
  {
    var s, i, piece := before + EscapeByte(b) + rest, |before|, EscapeByte(b);
    assert forall k | i <= k < i + |piece| :: s[k] == piece[k - i];
    if ShortEscape(b).Some? {
      assert s[i] == BACKSLASH;
    } else if b < 32 {
      hide ClosingQuote, EscapeByte, HexDigit;
      LiteralDigits(b);
      assert piece == Literal(b) && s[i] == piece[0] == BACKSLASH && s[i + 1] == piece[1] == LETTER_U;
      BackslashSkips(s, i);
      PlainDoesNotClose(s, i + 2, 4);
    } else {
      assert s[i] == b;
      PlainDoesNotClose(s, i, 1);
    }
  }

  lemma BackslashSkips(s: seq<byte>, i: nat)
    requires i + 1 < |s| && s[i] == BACKSLASH
    ensures ClosingQuote(s, i) == ClosingQuote(s, i + 2)
  {
  }

  lemma LiteralDigits(unit: nat)
    requires unit < 0x10000
    ensures |Literal(unit)| == 6
    ensures forall k | 2 <= k < 6 :: Literal(unit)[k] != QUOTE && Literal(unit)[k] != BACKSLASH
  {
    assert HexValue(QUOTE) == None && HexValue(BACKSLASH) == None;
    hide HexDigit, HexValue;
  }

  lemma Regroup(a: seq<byte>, b: seq<byte>, c: seq<byte>, d: seq<byte>)
    ensures a + (b + c) + d == a + b + (c + d) == a + b + c + d
  {
  }

  lemma {:induction false} EscapedDoesNotClose(s: seq<byte>, before: seq<byte>, rest: seq<byte>)
    ensures ClosingQuote(before + Escape(s) + rest, |before|) ==
      ClosingQuote(before + Escape(s) + rest, |before| + |Escape(s)|)
  {
    hide ClosingQuote, EscapeByte;
    if s != [] {
      var first, others := EscapeByte(s[0]), Escape(s[1..]);
      assert Escape(s) == first + others;
      hide Escape;
      EscapedByteDoesNotClose(s[0], before, others + rest);
      EscapedDoesNotClose(s[1..], before + first, rest);
      Regroup(before, first, others, rest);
    }
  }

  /** A printed string is read back whole, whatever follows it. */
  lemma StringRoundTrip(s: seq<byte>, rest: seq<byte>)
    requires 0 !in s
    ensures ParseString(Quoted(s) + rest) == Parsed(s, |Quoted(s)|)
  {
    var t := Quoted(s) + rest;
    assert t == [QUOTE] + Escape(s) + ([QUOTE] + rest);
    EscapedDoesNotClose(s, [QUOTE], [QUOTE] + rest);
    UnescapeEscape(s);
    assert t[1..1 + |Escape(s)|] == Escape(s);
  }

  lemma {:induction false} EscapeHasNoZero(s: seq<byte>)
    requires 0 !in s
    ensures 0 !in Escape(s)
  {
    if s != [] {
      EscapeHasNoZero(s[1..]);
      LiteralDigits(s[0]);
      assert HexValue(0) == None;
      hide HexDigit, HexValue;
    }
  }

  // ---- The second pass fits in what the first pass allocates ----

  /**
   The first pass counts one byte for every plain character and every escape. Counted at their last characters:
   `inside` says that the character before `t` was the backslash of an escape.
   */
  function Room(t: seq<byte>, inside: bool): nat {
    if t == [] then 0
    else if !inside && t[0] == BACKSLASH then Room(t[1..], true)
    else 1 + Room(t[1..], false)
  }

  /** Whether the first pass is inside an escape after `k` characters. */
  function Inside(t: seq<byte>, k: nat, inside: bool): bool
    requires k <= |t|
    decreases k
  {
    if k == 0 then inside else Inside(t[1..], k - 1, !inside && t[0] == BACKSLASH)
  }

  /** An invalid or surrogate escape makes the passes disagree; still every two characters make room for one byte. */
  lemma {:induction false} RoomBehind(t: seq<byte>, k: nat, inside: bool)
    requires k <= |t|
    ensures Room(t, inside) >= k / 2 + Room(t[k..], Inside(t, k, inside))
    ensures inside ==> Room(t, inside) >= (k + 1) / 2 + Room(t[k..], Inside(t, k, inside))
    decreases k
  {
    if k > 0 {
      RoomBehind(t[1..], k - 1, !inside && t[0] == BACKSLASH);
      assert t[1..][k - 1..] == t[k..];
    } else {
      assert t[0..] == t;
    }
  }

  /** Characters other than backslashes make room for a byte each. */
  lemma {:induction false} PlainRoom(t: seq<byte>, k: nat, inside: bool)
    requires k <= |t| && forall i | 0 <= i < k :: t[i] != BACKSLASH
    ensures Room(t, inside) == k + Room(t[k..], Inside(t, k, inside))
    decreases k
  {
    if k > 0 {
      PlainRoom(t[1..], k - 1, false);
      assert t[1..][k - 1..] == t[k..];
    } else {
      assert t[0..] == t;
    }
  }

  lemma {:induction false} InsideTwice(t: seq<byte>, k: nat, m: nat, inside: bool)
    requires k + m <= |t|
    ensures Inside(t, k + m, inside) == Inside(t[k..], m, Inside(t, k, inside))
    decreases k
  {
    if k > 0 {
      InsideTwice(t[1..], k - 1, m, !inside && t[0] == BACKSLASH);
      assert t[1..][k - 1..] == t[k..];
    } else {
      assert t[0..] == t;
    }
  }

  /** Four digits behind a backslash and a letter make room for five bytes. */
  lemma DigitsRoom(t: seq<byte>, inside: bool)
    requires |t| >= 6 && t[0] == BACKSLASH && t[1] == LETTER_U && IsHex4(t[2..])
    ensures Room(t, inside) >= 5 + Room(t[6..], Inside(t, 6, inside))
  {
    assert HexValue(BACKSLASH) == None;
    hide HexValue;
    forall i | 0 <= i < 4 ensures t[2..][i] != BACKSLASH {
    }
    RoomBehind(t, 2, inside);
    PlainRoom(t[2..], 4, Inside(t, 2, inside));
    InsideTwice(t, 2, 4, inside);
    assert t[2..][4..] == t[6..];
  }

  predicate Fits(t: seq<byte>, bytes: nat, used: nat, inside: bool) {
    used <= |t| && Room(t, inside) >= bytes + Room(t[used..], Inside(t, used, inside))
  }

  lemma LiteralFits(t: seq<byte>, inside: bool)
    requires |t| > 1 && t[0] == BACKSLASH && t[1] == LETTER_U && DecodeLiteral(t).Some?
    ensures var d := DecodeLiteral(t).value;
      Fits(t, |Utf8(d.codepoint)|, d.used, inside)
  {
    var d := DecodeLiteral(t).value;
    if d.used == 6 {
      RoomBehind(t, 6, inside);
      if IsHex4(t[2..]) {
        DigitsRoom(t, inside);
      }
    } else {
      DigitsRoom(t, inside);
      assert t[6..][2..] == t[8..] && t[6..][6..] == t[12..];
      DigitsRoom(t[6..], Inside(t, 6, inside));
      InsideTwice(t, 6, 6, inside);
    }
  }

  /**
   One round of the second pass writes no more than the room the first pass has left for the characters consumed,
   wherever the first pass stands; the last character is not the backslash of an escape for the first pass.
   */
  lemma PieceFits(t: seq<byte>, inside: bool)
    requires t != [] && FirstPiece(t).Piece? && !Inside(t, |t|, inside)
    ensures var p := FirstPiece(t);
      if p.used <= |t| then
        Fits(t, |p.bytes|, p.used, inside) && !Inside(t[p.used..], |t| - p.used, Inside(t, p.used, inside))
      else p.used == 2 && |p.bytes| == 1 && Room(t, inside) >= 1
  {
    var p := FirstPiece(t);
    if p.used <= |t| {
      InsideTwice(t, p.used, |t| - p.used, inside);
    }
    if t[0] != BACKSLASH {
      PlainRoom(t, 1, inside);
    } else if |t| == 1 {
      assert Inside(t, 1, inside) == Inside(t[1..], 0, !inside);
    } else if t[1] == LETTER_U {
      LiteralFits(t, inside);
    } else {
      RoomBehind(t, 2, inside);
    }
  }

  /** The whole second pass writes at most one byte per plain character or escape of the first pass. */
  lemma {:induction false} UnescapeFits(t: seq<byte>, inside: bool)
    requires Unescape(t).Text? && !Inside(t, |t|, inside)
    ensures |Unescape(t).bytes| <= Room(t, inside)
    decreases |t|
  {
    hide FirstPiece, Fits, Room, Inside;
    if t != [] {
      PieceFits(t, inside);
      var p := FirstPiece(t);
      if p.used <= |t| {
        UnescapeFits(t[p.used..], Inside(t, p.used, inside));
        FitsMeans(t, |p.bytes|, p.used, inside);
      }
    }
  }

  lemma FitsMeans(t: seq<byte>, bytes: nat, used: nat, inside: bool)
    requires Fits(t, bytes, used, inside)
    ensures used <= |t| && Room(t, inside) >= bytes + Room(t[used..], Inside(t, used, inside))
  {
  }
}
