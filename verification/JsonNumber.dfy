/** Numbers of a JSON text: printing of integers, and conversion of decimal text, exact over the reals. */
module JsonNumber {
  import opened Bytes

  const MINUS: byte := 45
  const PLUS: byte := 43
  const POINT: byte := 46

  const INT_MAX: int := 0x7FFF_FFFF
  const INT_MIN: int := -0x8000_0000

  predicate IsDigit(b: byte) {
    48 <= b <= 57
  }

  // ---- Printing ----

  function Digits(n: nat): (s: seq<byte>)
    ensures s != [] && forall i | 0 <= i < |s| :: IsDigit(s[i])
  {
    if n < 10 then [48 + n] else Digits(n / 10) + [48 + n % 10]
  }

  /** An integer as `%d` prints it. */
  function Decimal(n: int): (s: seq<byte>)
    ensures s != []
  {
    if n < 0 then [MINUS] + Digits(-n) else Digits(n)
  }

  // ---- Reading ----

  function DigitsValue(s: seq<byte>): nat {
    if s == [] then 0
    else
      var last: int := s[|s| - 1];
      10 * DigitsValue(s[..|s| - 1]) + (if last >= 48 then last - 48 else 0)
  }

  /** How many digits `s` starts with. */
  function DigitRun(s: seq<byte>): (n: nat)
    ensures n <= |s|
    ensures n < |s| ==> !IsDigit(s[n])
    ensures forall i | 0 <= i < n :: IsDigit(s[i])
  {
    if s == [] || !IsDigit(s[0]) then 0 else 1 + DigitRun(s[1..])
  }

  function Pow10(k: int): real
    decreases if k < 0 then -k else k
  {
    if k == 0 then 1.0 else if k > 0 then 10.0 * Pow10(k - 1) else Pow10(k + 1) / 10.0
  }

  predicate IsSign(b: byte) {
    b == MINUS || b == PLUS
  }

  function SignLength(s: seq<byte>): nat {
    if s != [] && IsSign(s[0]) then 1 else 0
  }

  /** The exponent at the start of `s`, if there is one: a letter, perhaps a sign, and at least one digit. */
  datatype Exponent = Exponent(value: int, used: nat)

  function ExponentOf(s: seq<byte>): (e: Exponent)
    ensures e.used <= |s|
  {
    if s == [] || (s[0] != 101 && s[0] != 69) then Exponent(0, 0)
    else
      var sign := SignLength(s[1..]);
      var run := DigitRun(s[1 + sign..]);
      if run == 0 then Exponent(0, 0)
      else
        var value: int := DigitsValue(s[1 + sign..1 + sign + run]);
        Exponent(if sign == 1 && s[1] == MINUS then -value else value, 1 + sign + run)
  }

  /** The number at the start of a text, and how much of the text it takes; nothing is taken if there is none. */
  datatype Conversion = Conversion(value: real, used: nat)

  function Strtod(s: seq<byte>): (c: Conversion)
    ensures c.used <= |s|
  {
    var sign := SignLength(s);
    var point := sign + DigitRun(s[sign..]);
    var fraction := if point < |s| && s[point] == POINT then DigitRun(s[point + 1..]) else 0;
    if point == sign && fraction == 0 then Conversion(0.0, 0)
    else
      var end := if point < |s| && s[point] == POINT then point + 1 + fraction else point;
      var digits := s[sign..point] + (if fraction > 0 then s[point + 1..point + 1 + fraction] else []);
      var e := ExponentOf(s[end..]);
      var magnitude := DigitsValue(digits) as real * Pow10(e.value - fraction);
      Conversion(if sign == 1 && s[0] == MINUS then -magnitude else magnitude, end + e.used)
  }

  function Pow2(k: nat): (r: real)
    ensures r >= 1.0
  {
    if k == 0 then 1.0 else 2.0 * Pow2(k - 1)
  }

  /** From here on a conversion to double precision gives infinity: half a step beyond the largest double. */
  function Overflow(): real {
    Pow2(1024) - Pow2(970)
  }

  /** The characters the parser collects for a number. */
  predicate IsNumberChar(b: byte) {
    IsDigit(b) || IsSign(b) || b == 101 || b == 69 || b == POINT
  }

  function NumberRun(s: seq<byte>): (n: nat)
    ensures n <= |s|
    ensures n < |s| ==> !IsNumberChar(s[n])
    ensures forall i | 0 <= i < n :: IsNumberChar(s[i])
  {
    if s == [] || !IsNumberChar(s[0]) then 0 else 1 + NumberRun(s[1..])
  }

  function ParseNumber(s: seq<byte>): (c: Conversion)
    ensures c.used <= |s|
  {
    Strtod(s[..NumberRun(s)])
  }

  /** The integer field of a number: saturated at both ends, and truncated toward zero in between. */
  function ValueInt(d: real): (n: int)
    ensures INT_MIN <= n <= INT_MAX
  {
    if d >= INT_MAX as real then INT_MAX
    else if d <= INT_MIN as real then INT_MIN
    else if d >= 0.0 then d.Floor
    else -((-d).Floor)
  }

  /** Numbers that equal their integer field; these are printed as integers. */
  predicate IsInt32(d: real) {
    d == ValueInt(d) as real
  }

  /** These are exactly the integers of 32 bits. */
  lemma Int32Field(n: int)
    ensures INT_MIN <= n <= INT_MAX <==> IsInt32(n as real)
    ensures INT_MIN <= n <= INT_MAX ==> ValueInt(n as real) == n
  {
    assert -(n as real) == (-n) as real;
  }

  lemma {:induction false} Pow2Grows(m: nat, n: nat)
    requires m <= n
    ensures Pow2(m) <= Pow2(n)
  {
    if m < n {
      Pow2Grows(m, n - 1);
    }
  }

  lemma {:induction false} Pow10Grows(n: nat)
    ensures Pow10(n) >= Pow2(3 * n)
  {
    if n > 0 {
      Pow10Grows(n - 1);
      assert Pow2(3 * n) == 2.0 * Pow2(3 * n - 1) && Pow2(3 * n - 1) == 2.0 * Pow2(3 * n - 2);
      assert Pow2(3 * n - 2) == 2.0 * Pow2(3 * (n - 1));
    }
  }

  lemma OverflowRange()
    ensures Pow2(32) <= Overflow() < Pow2(1024)
    ensures Pow2(32) >= 4294967296.0
  {
    Pow2Grows(970, 1023);
    Pow2Grows(32, 1023);
    assert Pow2(1024) == 2.0 * Pow2(1023);
    Pow2Of32();
  }

  lemma Pow2Of32()
    ensures Pow2(32) == 4294967296.0
  {
    assert Pow2(4) == 16.0;
    assert Pow2(8) == 256.0;
    assert Pow2(12) == 4096.0;
    assert Pow2(16) == 65536.0;
    assert Pow2(20) == 1048576.0;
    assert Pow2(24) == 16777216.0;
    assert Pow2(28) == 268435456.0;
  }

  // ---- What is printed is read back ----

  lemma {:induction false} DigitsRead(n: nat)
    ensures DigitsValue(Digits(n)) == n
  {
    if n >= 10 {
      DigitsRead(n / 10);
      assert (Digits(n / 10) + [48 + n % 10])[..|Digits(n / 10)|] == Digits(n / 10);
    } else {
      assert [48 + n][..0] == [];
    }
  }

  lemma {:induction false} AllDigits(s: seq<byte>)
    requires forall i | 0 <= i < |s| :: IsDigit(s[i])
    ensures DigitRun(s) == |s|
  {
    if s != [] {
      AllDigits(s[1..]);
    }
  }

  lemma {:induction false} RunStops(s: seq<byte>, rest: seq<byte>)
    requires forall i | 0 <= i < |s| :: IsNumberChar(s[i])
    requires rest == [] || !IsNumberChar(rest[0])
    ensures NumberRun(s + rest) == |s|
  {
    if s != [] {
      assert (s + rest)[1..] == s[1..] + rest;
      RunStops(s[1..], rest);
    } else {
      assert s + rest == rest;
    }
  }

  lemma StrtodDecimal(n: int)
    ensures Strtod(Decimal(n)) == Conversion(n as real, |Decimal(n)|)
  {
    var s := Decimal(n);
    var digits := Digits(if n < 0 then -n else n);
    var sign := if n < 0 then 1 else 0;
    DigitsRead(if n < 0 then -n else n);
    AllDigits(digits);
    assert digits[0] != MINUS && digits[0] != PLUS by {
      assert IsDigit(digits[0]);
    }
    hide Digits, DigitsValue, DigitRun;
    assert SignLength(s) == sign;
    assert s[sign..] == digits;
    assert s[sign..|s|] + [] == digits;
    assert s[|s|..] == [];
  }

  /** A printed integer is read back exactly, in front of anything that cannot continue a number. */
  lemma NumberRoundTrip(n: int, rest: seq<byte>)
    requires rest == [] || !IsNumberChar(rest[0])
    ensures ParseNumber(Decimal(n) + rest) == Conversion(n as real, |Decimal(n)|)
  {
    var s := Decimal(n);
    forall i | 0 <= i < |s| ensures IsNumberChar(s[i]) {
      if n < 0 && i > 0 {
        assert s[i] == Digits(-n)[i - 1];
      }
    }
    RunStops(s, rest);
    assert (s + rest)[..|s|] == s;
    StrtodDecimal(n);
  }
}
