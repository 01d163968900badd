/** The escape of a UTF-16 code unit in a JSON text, decoded to UTF-8. */
module Utf16 {
  import opened Bytes

  const BACKSLASH: byte := 92
  const LETTER_U: byte := 117

  // ---- Four hexadecimal digits ----

  /** The digits '0' to '9', 'A' to 'F' and 'a' to 'f'. */
  function HexValue(b: byte): Option<nat> {
    if 48 <= b <= 57 then Some(b - 48)
    else if 65 <= b <= 70 then Some(10 + b - 65)
    else if 97 <= b <= 102 then Some(10 + b - 97)
    else None
  }

  predicate IsHex4(s: seq<byte>) {
    |s| >= 4 && forall i | 0 <= i < 4 :: HexValue(s[i]).Some?
  }

  /** The number four digits denote; anything that is not four digits reads as 0. */
  function Hex4(s: seq<byte>): (h: nat)
    ensures h < 0x10000
  {
    if IsHex4(s) then
      var d0, d1, d2, d3 := HexValue(s[0]).value, HexValue(s[1]).value, HexValue(s[2]).value, HexValue(s[3]).value;
      0x1000 * d0 + 0x100 * d1 + 0x10 * d2 + d3
    else 0
  }

  method ParseHex4(input: seq<byte>) returns (h: nat)
    requires |input| >= 4
    ensures h == Hex4(input)
  {
    h := 0;
    for i := 0 to 4
      invariant forall k | 0 <= k < i :: HexValue(input[k]).Some?
      invariant i == 0 ==> h == 0
      invariant i == 1 ==> h == 0x10 * HexValue(input[0]).value
      invariant i == 2 ==> h == 0x100 * HexValue(input[0]).value + 0x10 * HexValue(input[1]).value
      invariant i == 3 ==>
        h == 0x1000 * HexValue(input[0]).value + 0x100 * HexValue(input[1]).value + 0x10 * HexValue(input[2]).value
      invariant i == 4 ==> h == Hex4(input)
    {
      if 48 <= input[i] <= 57 {
        h := h + (input[i] - 48);
      } else if 65 <= input[i] <= 70 {
        h := h + (10 + input[i] - 65);
      } else if 97 <= input[i] <= 102 {
        h := h + (10 + input[i] - 97);
      } else {
        return 0;
      }
      if i < 3 {
        h := h * 16;
      }
    }
  }

  function HexDigit(d: nat): (b: byte)
    requires d < 16
    ensures HexValue(b) == Some(d)
  {
    if d < 10 then 48 + d else 97 + d - 10
  }

  /** The four lower-case digits of a code unit. */
  function HexText(h: nat): (s: seq<byte>)
    requires h < 0x10000
    ensures |s| == 4
  {
    var h1, h2 := h / 16, h / 16 / 16;
    [HexDigit(h2 / 16), HexDigit(h2 % 16), HexDigit(h1 % 16), HexDigit(h % 16)]
  }

  lemma HexRoundTrip(h: nat, rest: seq<byte>)
    requires h < 0x10000
    ensures IsHex4(HexText(h) + rest) && Hex4(HexText(h) + rest) == h
  {
    var s := HexText(h) + rest;
    var h1, h2 := h / 16, h / 16 / 16;
    hide HexDigit, HexValue;
    assert s[0] == HexDigit(h2 / 16) && s[1] == HexDigit(h2 % 16);
    assert s[2] == HexDigit(h1 % 16) && s[3] == HexDigit(h % 16);
    assert h == 16 * h1 + h % 16 && h1 == 16 * h2 + h1 % 16 && h2 == 16 * (h2 / 16) + h2 % 16;
  }

  // ---- UTF-8 (section 3 of RFC 3629) ----

  predicate IsScalar(c: nat) {
    c < 0xD800 || 0xDFFF < c <= 0x10FFFF
  }

  /** The low six bits in a continuation byte, and what is left. */
  function Tail(c: nat): byte {
    0x80 + c % 0x40
  }

  function Utf8(c: nat): (s: seq<byte>)
    requires c <= 0x10FFFF
  {
    var c1, c2, c3 := c / 0x40, c / 0x40 / 0x40, c / 0x40 / 0x40 / 0x40;
    if c < 0x80 then [c]
    else if c < 0x800 then [0xC0 + c1, Tail(c)]
    else if c < 0x10000 then [0xE0 + c2, Tail(c1), Tail(c)]
    else [0xF0 + c3, Tail(c2), Tail(c1), Tail(c)]
  }

  predicate Continues(b: byte) {
    0x80 <= b < 0xC0
  }

  function Joined(high: nat, b: byte): nat
    requires Continues(b)
  {
    high * 0x40 + b - 0x80
  }

  /** The number denoted by a byte string with the bit pattern of one UTF-8 character, of whatever length. */
  function Utf8Value(s: seq<byte>): Option<nat> {
    if |s| == 1 && s[0] < 0x80 then Some(s[0])
    else if |s| == 2 && 0xC0 <= s[0] < 0xE0 && Continues(s[1]) then Some(Joined(s[0] - 0xC0, s[1]))
    else if |s| == 3 && 0xE0 <= s[0] < 0xF0 && Continues(s[1]) && Continues(s[2]) then
      Some(Joined(Joined(s[0] - 0xE0, s[1]), s[2]))
    else if |s| == 4 && 0xF0 <= s[0] < 0xF8 && Continues(s[1]) && Continues(s[2]) && Continues(s[3]) then
      Some(Joined(Joined(Joined(s[0] - 0xF0, s[1]), s[2]), s[3]))
    else None
  }

  lemma JoinedTail(c: nat)
    ensures Continues(Tail(c)) && Joined(c / 0x40, Tail(c)) == c
  {
  }

  lemma TailJoined(high: nat, b: byte)
    requires Continues(b)
    ensures Joined(high, b) / 0x40 == high && Tail(Joined(high, b)) == b
  {
  }

  /** Encoding and decoding are inverse. */
  lemma Utf8RoundTrip(c: nat)
    requires c <= 0x10FFFF
    ensures Utf8Value(Utf8(c)) == Some(c)
  {
    JoinedTail(c);
    JoinedTail(c / 0x40);
    JoinedTail(c / 0x40 / 0x40);
    hide Tail, Joined;
  }

  /** Every byte string with the bit pattern of a character denoting `c` is at least as long as the encoding. */
  lemma Utf8Shortest(c: nat, s: seq<byte>)
    requires c <= 0x10FFFF && Utf8Value(s) == Some(c)
    ensures |Utf8(c)| <= |s|
    ensures |s| == |Utf8(c)| ==> s == Utf8(c)
  {
    if |s| == 2 {
      TailJoined(s[0] - 0xC0, s[1]);
    } else if |s| == 3 {
      TailJoined(s[0] - 0xE0, s[1]);
      TailJoined(Joined(s[0] - 0xE0, s[1]), s[2]);
    } else if |s| == 4 {
      TailJoined(s[0] - 0xF0, s[1]);
      TailJoined(Joined(s[0] - 0xF0, s[1]), s[2]);
      TailJoined(Joined(Joined(s[0] - 0xF0, s[1]), s[2]), s[3]);
    }
    hide Tail;
  }

  // ---- UTF-16 (section 2 of RFC 2781) ----

  function Utf16Units(c: nat): seq<nat>
    requires IsScalar(c)
  {
    if c < 0x10000 then [c] else [0xD800 + (c - 0x10000) / 0x400, 0xDC00 + (c - 0x10000) % 0x400]
  }

  /** The escape of one code unit. */
  function Literal(unit: nat): seq<byte>
    requires unit < 0x10000
  {
    [BACKSLASH, LETTER_U] + HexText(unit)
  }

  function Literals(c: nat): seq<byte>
    requires IsScalar(c)
  {
    if c < 0x10000 then Literal(c)
    else Literal(0xD800 + (c - 0x10000) / 0x400) + Literal(0xDC00 + (c - 0x10000) % 0x400)
  }

  predicate IsHigh(unit: nat) {
    0xD800 <= unit <= 0xDBFF
  }

  predicate IsLow(unit: nat) {
    0xDC00 <= unit <= 0xDFFF
  }

  function FirstUnit(s: seq<byte>): nat
    requires |s| >= 6
  {
    Hex4(s[2..])
  }

  function SecondUnit(s: seq<byte>): nat
    requires |s| >= 12
  {
    Hex4(s[8..])
  }

  /** A code point decoded from one or two escapes, and the number of input bytes it takes. */
  datatype Decoded = Decoded(codepoint: nat, used: nat)

  function DecodeLiteral(s: seq<byte>): (r: Option<Decoded>)
    ensures r.Some? ==> r.value.codepoint <= 0x10FFFF && 6 <= r.value.used <= |s|
  {
    if |s| < 6 || IsLow(FirstUnit(s)) then None
    else if !IsHigh(FirstUnit(s)) then Some(Decoded(FirstUnit(s), 6))
    else if |s| < 12 || s[6] != BACKSLASH || s[7] != LETTER_U || !IsLow(SecondUnit(s)) then None
    else Some(Decoded(0x10000 + FirstUnit(s) % 0x400 * 0x400 + SecondUnit(s) % 0x400, 12))
  }

  predicate SecondEscape(s: seq<byte>) {
    |s| >= 12 && s[6] == BACKSLASH && s[7] == LETTER_U
  }

  /** Ten low bits of each half of a surrogate pair. */
  lemma PairUnits(first: nat, second: nat)
    requires IsHigh(first) && IsLow(second)
    ensures var c := 0x10000 + first % 0x400 * 0x400 + second % 0x400;
      IsScalar(c) && c >= 0x10000 && Utf16Units(c) == [first, second]
  {
    assert first % 0x400 == first - 0xD800 && second % 0x400 == second - 0xDC00;
  }

  lemma UnitsPair(c: nat)
    requires 0x10000 <= c <= 0x10FFFF
    ensures var u := Utf16Units(c);
      |u| == 2 && IsHigh(u[0]) && IsLow(u[1]) && 0x10000 + u[0] % 0x400 * 0x400 + u[1] % 0x400 == c
  {
    var u := Utf16Units(c);
    assert u[0] % 0x400 == u[0] - 0xD800 && u[1] % 0x400 == u[1] - 0xDC00;
  }

  /**
   The decoder accepts exactly the escapes of a code point that is no surrogate: one escape whose unit is the code
   point, or two escapes whose units are its surrogate pair. All else, in particular a lone or mismatched surrogate,
   is refused.
   */
  lemma DecodesExactly(s: seq<byte>, c: nat)
    requires |s| >= 6
    ensures DecodeLiteral(s) == Some(Decoded(c, 6)) <==> IsScalar(c) && Utf16Units(c) == [FirstUnit(s)]
    ensures DecodeLiteral(s) == Some(Decoded(c, 12)) <==>
      IsScalar(c) && SecondEscape(s) && Utf16Units(c) == [FirstUnit(s), SecondUnit(s)]
  {
    hide Hex4;
    if 0x10000 <= c <= 0x10FFFF {
      UnitsPair(c);
    }
    if IsHigh(FirstUnit(s)) && SecondEscape(s) && IsLow(SecondUnit(s)) {
      PairUnits(FirstUnit(s), SecondUnit(s));
    }
  }

  /** The escapes of a code point, written with lower-case digits, decode to it, whatever follows. */
  lemma LiteralsDecode(c: nat, rest: seq<byte>)
    requires IsScalar(c)
    ensures DecodeLiteral(Literals(c) + rest) == Some(Decoded(c, |Literals(c)|))
  {
    hide HexText, Hex4, IsHex4;
    var s := Literals(c) + rest;
    var units := Utf16Units(c);
    if c < 0x10000 {
      HexRoundTrip(c, rest);
      assert s[2..] == HexText(c) + rest;
    } else {
      UnitsPair(c);
      HexRoundTrip(units[0], Literal(units[1]) + rest);
      HexRoundTrip(units[1], rest);
      assert s[2..] == HexText(units[0]) + (Literal(units[1]) + rest);
      assert s[8..] == HexText(units[1]) + rest;
    }
    DecodesExactly(s, c);
  }

  // ---- Bit patterns ----

  /** The masks of the code, on the low byte of the code point: six bits and the mark of a continuation byte. */
  lemma ContinuationPattern(x: bv8)
    ensures (((x | 0x80) & 0xBF) as int) == 0x80 + (x as int) % 0x40
  {
  }

  /** Joining the mark of a first byte to the bits that are left is addition. */
  lemma FirstBytePattern(x: bv8)
    ensures x < 0x20 ==> ((x | 0xC0) as int) == 0xC0 + x as int
    ensures x < 0x10 ==> ((x | 0xE0) as int) == 0xE0 + x as int
    ensures x < 0x08 ==> ((x | 0xF0) as int) == 0xF0 + x as int
  {
  }

  function Mark(length: nat): byte {
    if length == 2 then 0xC0 else if length == 3 then 0xE0 else if length == 4 then 0xF0 else 0
  }

  /** `c` shifted right by `6 * n` bits. */
  function Shifted(c: nat, n: nat): nat {
    if n == 0 then c else Shifted(c, n - 1) / 0x40
  }

  lemma ShiftedStart(c: nat)
    ensures Shifted(c, 0) == c
  {
  }

  lemma ShiftedNext(c: nat, n: nat)
    ensures Shifted(c, n + 1) == Shifted(c, n) / 0x40
  {
  }

  lemma Utf8Bytes(c: nat)
    requires c <= 0x10FFFF
    ensures |Utf8(c)| == if c < 0x80 then 1 else if c < 0x800 then 2 else if c < 0x10000 then 3 else 4
    ensures var n := |Utf8(c)| - 1;
      0 <= n < 4 &&
      Shifted(c, n) < (if n == 0 then 0x80 else if n == 1 then 0x20 else if n == 2 then 0x10 else 8) &&
      Utf8(c)[0] == Mark(n + 1) + Shifted(c, n) &&
      forall k | 0 < k <= n :: Utf8(c)[k] == Tail(Shifted(c, n - k))
  {
    hide Tail;
    assert Shifted(c, 0) == c;
    assert Shifted(c, 1) == c / 0x40;
    assert Shifted(c, 2) == c / 0x40 / 0x40;
    assert Shifted(c, 3) == c / 0x40 / 0x40 / 0x40;
  }

  /** Write the continuation bytes from the last one to the second, shifting the code point. */
  method WriteContinuations(c: nat, length: nat, output: array<byte>, at: nat) returns (codepoint: nat)
    requires length >= 1 && at + length <= output.Length
    modifies output
    ensures codepoint == Shifted(c, length - 1)
    ensures forall i | at < i < at + length :: output[i] == Tail(Shifted(c, at + length - 1 - i))
    ensures forall i | 0 <= i < output.Length && !(at < i < at + length) :: output[i] == old(output[i])
  {
    hide Tail, Shifted;
    ShiftedStart(c);
    codepoint := c;
    var position := length - 1;
    while position > 0
      invariant 0 <= position < length
      invariant codepoint == Shifted(c, length - 1 - position)
      invariant forall i | at + position < i < at + length :: output[i] == Tail(Shifted(c, at + length - 1 - i))
      invariant forall i | 0 <= i < output.Length && !(at < i < at + length) :: output[i] == old(output[i])
      modifies output
    {
      ShiftedNext(c, length - 1 - position);
      output[at + position] := Tail(codepoint);
      codepoint := codepoint / 0x40;
      position := position - 1;
    }
  }

  method WriteUtf8(c: nat, output: array<byte>, at: nat) returns (next: nat)
    requires c <= 0x10FFFF && at + |Utf8(c)| <= output.Length
    modifies output
    ensures next == at + |Utf8(c)|
    ensures output[at..next] == Utf8(c)
    ensures forall i | 0 <= i < output.Length && !(at <= i < next) :: output[i] == old(output[i])
  {
    var length := if c < 0x80 then 1 else if c < 0x800 then 2 else if c < 0x10000 then 3 else 4;
    var firstByteMark := Mark(length);
    Utf8Bytes(c);
    hide Utf8, Tail, Shifted;
    var codepoint := WriteContinuations(c, length, output, at);
    output[at] := firstByteMark + codepoint;
    next := at + length;
    assert forall i | 0 <= i < length :: output[at..next][i] == output[at + i] == Utf8(c)[i];
  }

  /**
   Decode the escape at `start` of a string literal that ends at `end`, and write its UTF-8 bytes. The result is the
   number of input bytes, or 0 when the escape is refused and nothing is written.
   */
  method LiteralToUtf8(input: seq<byte>, start: nat, end: nat, output: array<byte>, at: nat)
      returns (sequenceLength: nat, next: nat)
    requires start <= end <= |input|
    requires var d := DecodeLiteral(input[start..end]);
      d.Some? ==> at + |Utf8(d.value.codepoint)| <= output.Length
    modifies output
    ensures var d := DecodeLiteral(input[start..end]);
      if d.None? then sequenceLength == 0 && next == at
      else sequenceLength == d.value.used && next == at + |Utf8(d.value.codepoint)| <= output.Length &&
           output[at..next] == Utf8(d.value.codepoint)
    ensures forall i | 0 <= i < output.Length && !(at <= i < next) :: output[i] == old(output[i])
  {
    hide Utf8, Hex4;
    ghost var s := input[start..end];
    sequenceLength, next := 0, at;
    if end - start < 6 {
      return;
    }
    assert s[2..] == input[start + 2..end];
    var firstCode := ParseHex4(input[start + 2..end]);
    if 0xDC00 <= firstCode <= 0xDFFF {
      return;
    }
    var codepoint := firstCode;
    var length := 6;
    if 0xD800 <= firstCode <= 0xDBFF {
      length := 12;
      if end - (start + 6) < 6 {
        return;
      }
      if input[start + 6] != BACKSLASH || input[start + 7] != LETTER_U {
        return;
      }
      assert s[8..] == input[start + 8..end];
      var secondCode := ParseHex4(input[start + 8..end]);
      if secondCode < 0xDC00 || secondCode > 0xDFFF {
        return;
      }
      codepoint := 0x10000 + firstCode % 0x400 * 0x400 + secondCode % 0x400;
    }
    assert DecodeLiteral(s) == Some(Decoded(codepoint, length));
    next := WriteUtf8(codepoint, output, at);
    sequenceLength := length;
  }
}
