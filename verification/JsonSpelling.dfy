/**
 How a string can be spelled in a JSON text, and what the parser makes of every spelling: each character as it is, as a
 two-character escape, or as one or two escapes of its UTF-16 code units in digits of either case.
 */
module JsonSpelling {
  import opened Bytes
  import opened JsonString
  import opened Utf16

  const LOWER: seq<byte> := [48, 49, 50, 51, 52, 53, 54, 55, 56, 57, 97, 98, 99, 100, 101, 102]
  const UPPER: seq<byte> := [48, 49, 50, 51, 52, 53, 54, 55, 56, 57, 65, 66, 67, 68, 69, 70]

  /** The character `c` is the hexadecimal digit for `d`. */
  predicate IsHexDigit(c: byte, d: nat) {
    d < 16 && (c == LOWER[d] || c == UPPER[d])
  }

  /** Four characters, and the four digits they are. */
  datatype Hex = Hex(chars: seq<byte>, digits: seq<nat>)

  predicate GoodHex(h: Hex) {
    |h.chars| == |h.digits| == 4 && forall i | 0 <= i < 4 :: IsHexDigit(h.chars[i], h.digits[i])
  }

  function Unit(h: Hex): nat
    requires GoodHex(h)
  {
    0x1000 * h.digits[0] + 0x100 * h.digits[1] + 0x10 * h.digits[2] + h.digits[3]
  }

  predicate NoHex(chars: seq<byte>) {
    |chars| == 4 && exists i :: 0 <= i < 4 && chars[i] !in LOWER && chars[i] !in UPPER
  }

  /** One character of a string as it can stand in a text. */
  datatype Spelling =
    | Plain(b: byte)
    | Short(letter: byte)
    | Single(hex: Hex)
    | Pair(high: Hex, low: Hex)
    | Malformed(chars: seq<byte>)  // an escape that is not followed by four digits
    | Lone  // a backslash that is the last character of all

  /** The letters of the two-character escapes, and the bytes they stand for. */
  const LETTERS: seq<byte> := [34, 92, 47, 98, 102, 110, 114, 116]
  const MEANINGS: seq<byte> := [34, 92, 47, 8, 12, 10, 13, 9]

  predicate Good(p: Spelling) {
    match p
    case Plain(b) => b != 92
    case Short(letter) => letter in LETTERS
    case Single(hex) => GoodHex(hex) && !(0xD800 <= Unit(hex) <= 0xDFFF)
    case Pair(high, low) =>
      GoodHex(high) && GoodHex(low) && 0xD800 <= Unit(high) < 0xDC00 && 0xDC00 <= Unit(low) < 0xE000
    case Malformed(chars) => NoHex(chars)
    case Lone => true
  }

  function TextOf(p: Spelling): seq<byte> {
    match p
    case Plain(b) => [b]
    case Short(letter) => [92, letter]
    case Single(hex) => [92, 117] + hex.chars
    case Pair(high, low) => [92, 117] + high.chars + [92, 117] + low.chars
    case Malformed(chars) => [92, 117] + chars
    case Lone => [92]
  }

  /**
   The bytes of one spelled character. An escape without four digits is read as the zero character, and a lone backslash
   takes the closing quote along.
   */
  predicate Means(p: Spelling, bytes: seq<byte>)
    requires Good(p)
  {
    match p
    case Plain(b) => bytes == [b]
    case Short(letter) => exists i :: 0 <= i < 8 && letter == LETTERS[i] && bytes == [MEANINGS[i]]
    case Single(hex) => bytes == Utf8(Unit(hex))
    case Pair(high, low) => bytes == Utf8(0x10000 + 0x400 * (Unit(high) - 0xD800) + (Unit(low) - 0xDC00))
    case Malformed(_) => bytes == [0]
    case Lone => bytes == [34]
  }

  lemma DigitRead(c: byte, d: nat)
    requires IsHexDigit(c, d)
    ensures HexValue(c) == Some(d)
  {
  }

  lemma DigitListed(c: byte)
    ensures HexValue(c).Some? ==> c in LOWER || c in UPPER
  {
    if HexValue(c).Some? {
      var d := HexValue(c).value;
      assert c == LOWER[d] || c == UPPER[d];
    }
  }

  lemma HexRead(h: Hex, rest: seq<byte>)
    requires GoodHex(h)
    ensures Unit(h) < 0x10000 && Hex4(h.chars + rest) == Unit(h)
  {
    hide IsHexDigit, HexValue;
    forall i | 0 <= i < 4 ensures HexValue((h.chars + rest)[i]) == Some(h.digits[i]) && h.digits[i] < 16 {
      DigitRead(h.chars[i], h.digits[i]);
      DigitSize(h.chars[i], h.digits[i]);
    }
  }

  lemma DigitSize(c: byte, d: nat)
    requires IsHexDigit(c, d)
    ensures d < 16
  {
  }

  lemma NoHexRead(chars: seq<byte>, rest: seq<byte>)
    requires NoHex(chars)
    ensures Hex4(chars + rest) == 0
  {
    hide IsHexDigit, HexValue;
    var i :| 0 <= i < 4 && chars[i] !in LOWER && chars[i] !in UPPER;
    DigitListed(chars[i]);
    assert (chars + rest)[i] == chars[i];
  }

  // ---- What one spelling is read as ----

  lemma PlainPiece(b: byte, rest: seq<byte>)
    requires b != 92
    ensures FirstPiece([b] + rest) == Piece([b], 1)
  {
  }

  lemma ShortPiece(letter: byte, i: nat, rest: seq<byte>)
    requires i < 8 && letter == LETTERS[i]
    ensures FirstPiece([92, letter] + rest) == Piece([MEANINGS[i]], 2)
  {
  }

  lemma EscapePiece(chars: seq<byte>, rest: seq<byte>)
    requires |chars| == 4 && !(0xD800 <= Hex4(chars + rest) <= 0xDFFF)
    ensures FirstPiece([92, 117] + chars + rest) == Piece(Utf8(Hex4(chars + rest)), 6)
  {
    hide Utf8, Hex4;
    assert ([92, 117] + chars + rest)[2..] == chars + rest;
  }

  lemma PairPiece(high: seq<byte>, low: seq<byte>, rest: seq<byte>)
    requires |high| == |low| == 4
    requires IsHigh(Hex4(high + ([92, 117] + low + rest))) && IsLow(Hex4(low + rest))
    ensures var first, second := Hex4(high + ([92, 117] + low + rest)), Hex4(low + rest);
      FirstPiece([92, 117] + high + [92, 117] + low + rest) ==
      Piece(Utf8(0x10000 + 0x400 * (first - 0xD800) + (second - 0xDC00)), 12)
  {
    hide Utf8, Hex4;
    var t := [92, 117] + high + [92, 117] + low + rest;
    var first, second := Hex4(high + ([92, 117] + low + rest)), Hex4(low + rest);
    assert t[2..] == high + ([92, 117] + low + rest) && t[8..] == low + rest;
    assert first % 0x400 == first - 0xD800 && second % 0x400 == second - 0xDC00;
  }

  lemma SpelledPiece(p: Spelling, bytes: seq<byte>, rest: seq<byte>)
    requires Good(p) && Means(p, bytes) && p != Lone
    ensures FirstPiece(TextOf(p) + rest) == Piece(bytes, |TextOf(p)|)
  {
    hide FirstPiece, Utf8, Hex4, Unit, IsHexDigit;
    match p
    case Plain(b) => PlainPiece(b, rest);
    case Short(letter) =>
      var i: nat :| i < 8 && letter == LETTERS[i] && bytes == [MEANINGS[i]];
      ShortPiece(letter, i, rest);
    case Single(hex) =>
      HexRead(hex, rest);
      EscapePiece(hex.chars, rest);
    case Pair(high, low) =>
      HexRead(high, [92, 117] + low.chars + rest);
      HexRead(low, rest);
      PairPiece(high.chars, low.chars, rest);
    case Malformed(chars) =>
      NoHexRead(chars, rest);
      EscapePiece(chars, rest);
      assert Utf8(0) == [0] by { ZeroByte(); }
  }

  lemma ZeroByte()
    ensures Utf8(0) == [0]
  {
  }

  lemma LoneUnescapes()
    ensures Unescape([92]) == Text([34]) && Unescape([]) == Text([])
  {
    assert Behind([92], 2) == [];
    assert [34] + [] == [34];
  }

  /** Every spelling is read as the character it stands for, whatever follows. */
  lemma SpelledUnescapes(p: Spelling, bytes: seq<byte>, rest: seq<byte>)
    requires Good(p) && Means(p, bytes) && (p == Lone ==> rest == [])
    ensures Unescape(TextOf(p) + rest) == After(bytes, |TextOf(p)|, Unescape(rest))
  {
    if p == Lone {
      LoneUnescapes();
      assert TextOf(p) + rest == [92] && bytes + [] == bytes;
      return;
    }
    SpelledPiece(p, bytes, rest);
    hide FirstPiece, Good, Means;
    assert Behind(TextOf(p) + rest, |TextOf(p)|) == rest;
  }

  // ---- What is refused ----

  /** The characters at `at` are four digits whose number is in the range. */
  ghost predicate UnitAt(t: seq<byte>, at: nat, low: nat, high: nat) {
    at + 4 <= |t| && exists h :: GoodHex(h) && h.chars == t[at..at + 4] && low <= Unit(h) < high
  }

  /** An unknown letter, an escape that is cut short, or a surrogate that is not the first of a pair. */
  ghost predicate Refused(t: seq<byte>) {
    |t| >= 2 && t[0] == 92 &&
    if t[1] == 117 then
      |t| < 6 || UnitAt(t, 2, 0xDC00, 0xE000) ||
      (UnitAt(t, 2, 0xD800, 0xDC00) && !(|t| >= 12 && t[6] == 92 && t[7] == 117 && UnitAt(t, 8, 0xDC00, 0xE000)))
    else
      t[1] !in LETTERS
  }

  function ValueOf(c: byte): nat {
    if HexValue(c).Some? then HexValue(c).value else 0
  }

  /** Any four digits, with what they denote. */
  function HexOf(chars: seq<byte>): (h: Hex)
    requires |chars| == 4
  {
    Hex(chars, [ValueOf(chars[0]), ValueOf(chars[1]), ValueOf(chars[2]), ValueOf(chars[3])])
  }

  lemma DigitOf(c: byte)
    requires c in LOWER || c in UPPER
    ensures IsHexDigit(c, ValueOf(c))
  {
  }

  lemma HexOrNot(chars: seq<byte>)
    requires |chars| == 4
    ensures GoodHex(HexOf(chars)) || NoHex(chars)
  {
    if !NoHex(chars) {
      assert forall i | 0 <= i < 4 :: chars[i] in LOWER || chars[i] in UPPER;
      hide IsHexDigit, ValueOf;
      DigitOf(chars[0]);
      DigitOf(chars[1]);
      DigitOf(chars[2]);
      DigitOf(chars[3]);
    }
  }

  lemma UnitAtMeans(t: seq<byte>, at: nat, low: nat, high: nat)
    requires at + 4 <= |t| && low > 0
    ensures UnitAt(t, at, low, high) <==> low <= Hex4(t[at..]) < high
  {
    hide Unit, Hex4, IsHexDigit, ValueOf;
    var chars := t[at..at + 4];
    assert t[at..] == chars + t[at + 4..];
    if h :| GoodHex(h) && h.chars == chars && low <= Unit(h) < high {
      HexRead(h, t[at + 4..]);
    }
    HexOrNot(chars);
    if NoHex(chars) {
      NoHexRead(chars, t[at + 4..]);
    } else {
      HexRead(HexOf(chars), t[at + 4..]);
    }
  }

  lemma LettersMean(letter: byte)
    ensures UnescapeLetter(letter).Some? <==> letter in LETTERS
  {
  }

  /** The parser gives up exactly where a refused escape starts. */
  lemma RefusedIsStuck(t: seq<byte>)
    requires Refused(t)
    ensures Unescape(t) == Stuck(0)
  {
    hide Hex4, UnitAt, UnescapeLetter;
    LettersMean(t[1]);
    if t[1] == 117 && |t| >= 6 {
      UnitAtMeans(t, 2, 0xDC00, 0xE000);
      UnitAtMeans(t, 2, 0xD800, 0xDC00);
      if |t| >= 12 {
        UnitAtMeans(t, 8, 0xDC00, 0xE000);
      }
    }
  }

  // ---- Every text ----

  lemma MeaningOf(letter: byte) returns (bytes: seq<byte>)
    requires letter in LETTERS
    ensures Means(Short(letter), bytes)
  {
    var i: nat :| i < 8 && letter == LETTERS[i];
    bytes := [MEANINGS[i]];
  }

  lemma UnitFound(t: seq<byte>, at: nat, low: nat, high: nat) returns (h: Hex)
    requires UnitAt(t, at, low, high)
    ensures GoodHex(h) && h.chars == t[at..at + 4] && low <= Unit(h) < high
  {
    h :| GoodHex(h) && h.chars == t[at..at + 4] && low <= Unit(h) < high;
  }

  lemma NoSurrogate(t: seq<byte>, h: Hex)
    requires |t| >= 6 && GoodHex(h) && h.chars == t[2..6]
    requires !UnitAt(t, 2, 0xD800, 0xDC00) && !UnitAt(t, 2, 0xDC00, 0xE000)
    ensures !(0xD800 <= Unit(h) <= 0xDFFF)
  {
    hide GoodHex, Unit;
  }

  lemma PairText(t: seq<byte>)
    requires |t| >= 12 && t[0] == t[6] == 92 && t[1] == t[7] == 117
    ensures [92, 117] + t[2..6] + [92, 117] + t[8..12] <= t
  {
  }

  lemma EscapeIsSpelledOrRefused(t: seq<byte>) returns (p: Spelling, bytes: seq<byte>)
    requires |t| >= 6 && t[0] == 92 && t[1] == 117 && !Refused(t)
    ensures Good(p) && Means(p, bytes) && TextOf(p) <= t && p != Lone
  {
    hide Unit, Utf8, GoodHex, UnitAt, NoHex;
    var chars := t[2..6];
    assert [92, 117] + chars <= t;
    HexOrNot(chars);
    if NoHex(chars) {
      p, bytes := Malformed(chars), [0];
    } else if UnitAt(t, 2, 0xD800, 0xDC00) {
      var high := UnitFound(t, 2, 0xD800, 0xDC00);
      var low := UnitFound(t, 8, 0xDC00, 0xE000);
      PairText(t);
      p, bytes := Pair(high, low), Utf8(0x10000 + 0x400 * (Unit(high) - 0xD800) + (Unit(low) - 0xDC00));
    } else {
      var h := HexOf(chars);
      UnitSize(h);
      NoSurrogate(t, h);
      p, bytes := Single(h), Utf8(Unit(h));
    }
  }

  lemma UnitSize(h: Hex)
    requires GoodHex(h)
    ensures Unit(h) < 0x10000
  {
    HexRead(h, []);
  }

  /** There are no other texts: each starts with a spelled character, or is refused. */
  lemma SpelledOrRefused(t: seq<byte>) returns (p: Spelling, bytes: seq<byte>)
    requires t != [] && !Refused(t)
    ensures Good(p) && Means(p, bytes) && TextOf(p) <= t && (p == Lone ==> t == [92])
  {
    if t == [92] {
      p, bytes := Lone, [34];
    } else if t[0] != 92 {
      p, bytes := Plain(t[0]), [t[0]];
    } else if t[1] != 117 {
      p := Short(t[1]);
      bytes := MeaningOf(t[1]);
    } else {
      p, bytes := EscapeIsSpelledOrRefused(t);
    }
  }

  // ---- Whole strings ----

  datatype Character = Character(spelling: Spelling, bytes: seq<byte>)

  ghost predicate Spelled(cs: seq<Character>) {
    forall c | c in cs :: Good(c.spelling) && Means(c.spelling, c.bytes)
  }

  /** A lone backslash is the last character, and nothing follows it. */
  predicate LoneIsLast(cs: seq<Character>, rest: seq<byte>) {
    forall i | 0 <= i < |cs| && cs[i].spelling == Lone :: i == |cs| - 1 && rest == []
  }

  function TextsOf(cs: seq<Character>): seq<byte> {
    if cs == [] then [] else TextOf(cs[0].spelling) + TextsOf(cs[1..])
  }

  function BytesOf(cs: seq<Character>): seq<byte> {
    if cs == [] then [] else cs[0].bytes + BytesOf(cs[1..])
  }

  lemma {:induction false} SpelledTextUnescapes(cs: seq<Character>, rest: seq<byte>)
    requires Spelled(cs) && LoneIsLast(cs, rest)
    ensures Unescape(TextsOf(cs) + rest) == After(BytesOf(cs), |TextsOf(cs)|, Unescape(rest))
    decreases |cs|
  {
    hide *;
    CharactersParts(cs);
    if cs == [] {
      NothingBefore(Unescape(rest));
      assert [] + rest == rest;
    } else {
      var p, bytes, others := cs[0].spelling, cs[0].bytes, TextsOf(cs[1..]);
      LoneRest(cs, rest);
      SpelledTextUnescapes(cs[1..], rest);
      SpelledUnescapes(p, bytes, others + rest);
      AfterTwice(bytes, |TextOf(p)|, BytesOf(cs[1..]), |others|, Unescape(rest));
      assert TextOf(p) + others + rest == TextOf(p) + (others + rest);
    }
  }

  lemma CharactersParts(cs: seq<Character>)
    requires Spelled(cs)
    ensures cs == [] ==> TextsOf(cs) == [] && BytesOf(cs) == []
    ensures cs != [] ==>
      Good(cs[0].spelling) && Means(cs[0].spelling, cs[0].bytes) && Spelled(cs[1..]) &&
      TextsOf(cs) == TextOf(cs[0].spelling) + TextsOf(cs[1..]) && BytesOf(cs) == cs[0].bytes + BytesOf(cs[1..])
  {
    hide Good, Means, TextOf;
  }

  lemma NothingBefore(r: Text)
    ensures After([], 0, r) == r
  {
    assert r.Text? ==> [] + r.bytes == r.bytes;
  }

  lemma AfterTwice(a: seq<byte>, m: nat, b: seq<byte>, n: nat, r: Text)
    ensures After(a, m, After(b, n, r)) == After(a + b, m + n, r)
  {
    assert r.Text? ==> a + (b + r.bytes) == a + b + r.bytes;
  }

  lemma LoneRest(cs: seq<Character>, rest: seq<byte>)
    requires cs != [] && LoneIsLast(cs, rest)
    ensures LoneIsLast(cs[1..], rest) && (cs[0].spelling == Lone ==> TextsOf(cs[1..]) + rest == [])
  {
    hide TextOf;
    forall i | 0 <= i < |cs| - 1 && cs[1..][i].spelling == Lone ensures i == |cs| - 2 && rest == [] {
      assert cs[i + 1].spelling == Lone;
    }
  }

  /**
   Nothing in `t` closes the string: quotes stand behind backslashes only, and no backslash stands alone at the end.
   */
  predicate Enclosed(t: seq<byte>) {
    t == [] ||
    (t[0] != 34 && t[0] != 92 && Enclosed(t[1..])) ||
    (|t| >= 2 && t[0] == 92 && Enclosed(t[2..]))
  }

  lemma {:induction false} ClosesIff(s: seq<byte>, i: nat, end: nat)
    requires i <= |s|
    ensures ClosingQuote(s, i) == Some(end) <==> i <= end < |s| && s[end] == 34 && Enclosed(s[i..end])
    decreases |s| - i
  {
    if i < |s| && i < end < |s| {
      if s[i] == 92 {
        if i + 2 <= |s| {
          ClosesIff(s, i + 2, end);
          if i + 2 <= end {
            assert s[i..end][2..] == s[i + 2..end];
          }
        }
      } else {
        ClosesIff(s, i + 1, end);
        assert s[i..end][1..] == s[i + 1..end];
      }
    }
  }

  lemma {:induction false} EnclosedConcat(a: seq<byte>, b: seq<byte>)
    requires Enclosed(a) && Enclosed(b)
    ensures Enclosed(a + b)
    decreases |a|
  {
    if a == [] {
      assert a + b == b;
    } else if a[0] == 92 {
      EnclosedConcat(a[2..], b);
      assert (a + b)[2..] == a[2..] + b;
    } else {
      EnclosedConcat(a[1..], b);
      assert (a + b)[1..] == a[1..] + b;
    }
  }

  lemma {:induction false} PlainEnclosed(t: seq<byte>)
    requires forall b | b in t :: b != 34 && b != 92
    ensures Enclosed(t)
  {
    if t != [] {
      assert t[0] in t && forall b | b in t[1..] :: b in t;
      PlainEnclosed(t[1..]);
    }
  }

  lemma DigitIsPlain(c: byte, d: nat)
    requires IsHexDigit(c, d)
    ensures c != 34 && c != 92
  {
  }

  lemma EscapeEnclosed(chars: seq<byte>)
    requires Enclosed(chars)
    ensures Enclosed([92, 117] + chars)
  {
    assert ([92, 117] + chars)[2..] == chars;
  }

  lemma DigitsEnclosed(h: Hex)
    requires GoodHex(h)
    ensures Enclosed([92, 117] + h.chars)
  {
    hide IsHexDigit, Enclosed;
    forall b | b in h.chars ensures b != 34 && b != 92 {
      var i :| 0 <= i < 4 && h.chars[i] == b;
      DigitIsPlain(b, h.digits[i]);
    }
    PlainEnclosed(h.chars);
    EscapeEnclosed(h.chars);
  }

  lemma PairEnclosed(high: Hex, low: Hex)
    requires GoodHex(high) && GoodHex(low)
    ensures Enclosed([92, 117] + high.chars + [92, 117] + low.chars)
  {
    hide *;
    DigitsEnclosed(high);
    DigitsEnclosed(low);
    EnclosedConcat([92, 117] + high.chars, [92, 117] + low.chars);
    assert [92, 117] + high.chars + [92, 117] + low.chars == ([92, 117] + high.chars) + ([92, 117] + low.chars);
  }

  lemma ShortEnclosed(letter: byte)
    ensures Enclosed([92, letter])
  {
    assert [92, letter][2..] == [];
  }

  lemma SpellingEnclosed(p: Spelling)
    requires Good(p) && p != Plain(34) && !p.Malformed? && p != Lone
    ensures Enclosed(TextOf(p))
  {
    hide GoodHex, Unit, Enclosed;
    match p
    case Plain(b) => PlainEnclosed([b]);
    case Short(letter) => ShortEnclosed(letter);
    case Single(hex) => DigitsEnclosed(hex);
    case Pair(high, low) => PairEnclosed(high, low);
  }

  /** Whatever the spelling of its characters, a string stays open until its quote. */
  lemma {:induction false} SpelledIsEnclosed(cs: seq<Character>)
    requires Spelled(cs)
    requires forall c | c in cs :: c.spelling != Plain(34) && !c.spelling.Malformed? && c.spelling != Lone
    ensures Enclosed(TextsOf(cs))
  {
    hide Enclosed, Good, Means, TextOf;
    if cs != [] {
      SpellingEnclosed(cs[0].spelling);
      SpelledIsEnclosed(cs[1..]);
      EnclosedConcat(TextOf(cs[0].spelling), TextsOf(cs[1..]));
    } else {
      PlainEnclosed([]);
    }
  }

  lemma QuotedText(t: seq<byte>, rest: seq<byte>)
    requires Enclosed(t)
    ensures var s := [34] + t + [34] + rest;
      ClosingQuote(s, 1) == Some(1 + |t|) && s[1..1 + |t|] == t
  {
    hide ClosingQuote, Enclosed;
    var s := [34] + t + [34] + rest;
    assert s[1..1 + |t|] == t && s[1 + |t|] == 34;
    ClosesIff(s, 1, 1 + |t|);
  }

  /**
   A quoted string is read as the bytes of its characters, in whatever way each of them is spelled: plain, with a
   two-character escape, or with the escapes of its code units, in digits of either case.
   */
  lemma SpelledStringIsRead(cs: seq<Character>, rest: seq<byte>)
    requires Spelled(cs) && LoneIsLast(cs, []) && Enclosed(TextsOf(cs))
    ensures ParseString([34] + TextsOf(cs) + [34] + rest) == Parsed(BytesOf(cs), |TextsOf(cs)| + 2)
  {
    SpelledTextUnescapes(cs, []);
    assert TextsOf(cs) + [] == TextsOf(cs) && BytesOf(cs) + [] == BytesOf(cs);
    QuotedText(TextsOf(cs), rest);
    hide ClosingQuote;
    assert Unescape([]) == Text([]);
    hide Unescape, TextsOf, BytesOf, Enclosed, Spelled;
  }

  /** The first escape that is refused is where reading fails. */
  lemma RefusedStringFails(cs: seq<Character>, bad: seq<byte>, rest: seq<byte>)
    requires Spelled(cs) && LoneIsLast(cs, bad) && Refused(bad) && Enclosed(TextsOf(cs) + bad)
    ensures ParseString([34] + (TextsOf(cs) + bad) + [34] + rest) == Failed(1 + |TextsOf(cs)|)
  {
    hide ClosingQuote, Unescape, TextsOf, BytesOf, Enclosed, Spelled, Refused;
    SpelledTextUnescapes(cs, bad);
    RefusedIsStuck(bad);
    QuotedText(TextsOf(cs) + bad, rest);
  }

  /** So does a string without a closing quote, at its first character. */
  lemma UnclosedStringFails(s: seq<byte>)
    requires s != [] && forall end | 1 <= end < |s| && s[end] == 34 :: !Enclosed(s[1..end])
    ensures ParseString(s) == Failed(1)
  {
    hide ClosingQuote, Unescape, Enclosed;
    if ClosingQuote(s, 1).Some? {
      ClosesIff(s, 1, ClosingQuote(s, 1).value);
    }
  }

  /** In particular every code point escaped as the standard has it becomes its UTF-8 bytes. */
  lemma LiteralsUnescape(c: nat, rest: seq<byte>)
    requires IsScalar(c)
    ensures Unescape(Literals(c) + rest) == After(Utf8(c), |Literals(c)|, Unescape(rest))
  {
    LiteralsDecode(c, rest);
    hide DecodeLiteral, Utf8, HexText;
    assert Behind(Literals(c) + rest, |Literals(c)|) == rest;
  }
}
