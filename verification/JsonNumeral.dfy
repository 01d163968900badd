/** What a number of a text means: the sum of its digits by their places, times a power of ten. */
module JsonNumeral {
  import opened Bytes
  import opened JsonNumber

  datatype Power = Power(letter: byte, sign: seq<byte>, digits: seq<byte>)

  /** The parts of a numeral as they stand in a text. */
  datatype Numeral = Numeral(sign: seq<byte>, whole: seq<byte>, fraction: Option<seq<byte>>, power: Option<Power>)

  predicate AreDigits(s: seq<byte>) {
    forall i | 0 <= i < |s| :: 48 <= s[i] <= 57
  }

  predicate GoodSign(s: seq<byte>) {
    s == [] || s == [43] || s == [45]
  }

  predicate GoodPower(p: Power) {
    (p.letter == 101 || p.letter == 69) && GoodSign(p.sign) && AreDigits(p.digits) && p.digits != []
  }

  function FractionDigits(n: Numeral): seq<byte> {
    if n.fraction.Some? then n.fraction.value else []
  }

  /** At least one digit stands in front of the point or behind it. */
  predicate GoodNumeral(n: Numeral) {
    GoodSign(n.sign) && AreDigits(n.whole) && AreDigits(FractionDigits(n)) &&
    n.whole + FractionDigits(n) != [] && (n.power.Some? ==> GoodPower(n.power.value))
  }

  function PowerText(n: Numeral): seq<byte> {
    if n.power.Some? then [n.power.value.letter] + n.power.value.sign + n.power.value.digits else []
  }

  function FractionText(n: Numeral): seq<byte> {
    if n.fraction.Some? then [46] + n.fraction.value else []
  }

  function NumeralText(n: Numeral): seq<byte> {
    n.sign + n.whole + FractionText(n) + PowerText(n)
  }

  function Place(n: nat): nat {
    if n == 0 then 1 else 10 * Place(n - 1)
  }

  function DigitAt(s: seq<byte>, i: nat): nat
    requires AreDigits(s) && i < |s|
  {
    var d: int := s[i];
    d - 48
  }

  /** Each digit of a whole number stands for as many powers of ten as digits follow it. */
  function Whole(s: seq<byte>): nat
    requires AreDigits(s)
  {
    if s == [] then 0 else DigitAt(s, 0) * Place(|s| - 1) + Whole(s[1..])
  }

  /** Behind the point, the first digit stands for tenths, and so on. */
  function Part(s: seq<byte>): real
    requires AreDigits(s)
  {
    if s == [] then 0.0 else Part(s[..|s| - 1]) + DigitAt(s, |s| - 1) as real * Pow10(-|s|)
  }

  function PowerOf(n: Numeral): int
    requires GoodNumeral(n)
  {
    if n.power == None then 0
    else
      var size: int := Whole(n.power.value.digits);
      if n.power.value.sign == [45] then -size else size
  }

  function NumeralValue(n: Numeral): real
    requires GoodNumeral(n)
  {
    var magnitude := (Whole(n.whole) as real + Part(FractionDigits(n))) * Pow10(PowerOf(n));
    if n.sign == [45] then -magnitude else magnitude
  }

  /** The powers of ten: each is ten times the one before, on both sides of 1. */
  lemma Pow10Next(k: int)
    ensures Pow10(0) == 1.0 && Pow10(k + 1) == 10.0 * Pow10(k) && Pow10(k) > 0.0
    decreases if k < 0 then -k else k
  {
    if k > 0 {
      Pow10Next(k - 1);
    } else if k < 0 {
      Pow10Next(k + 1);
    }
  }

  lemma {:induction false} Pow10Add(k: int, n: nat)
    ensures Pow10(k + n) == Pow10(k) * Pow10(n)
    decreases n
  {
    Pow10Next(k);
    if n > 0 {
      Pow10Add(k, n - 1);
      Pow10Next(k + n - 1);
      Pow10Next(n - 1);
      hide Pow10;
      assert Pow10(k + n) == 10.0 * (Pow10(k) * Pow10(n - 1)) == Pow10(k) * (10.0 * Pow10(n - 1));
    }
  }

  lemma {:induction false} PlaceIsPow10(n: nat)
    ensures Pow10(n) == Place(n) as real
  {
    if n > 0 {
      PlaceIsPow10(n - 1);
    }
  }

  // ---- The digits read one after the other ----

  lemma {:induction false} DigitsValueConcat(a: seq<byte>, b: seq<byte>)
    ensures DigitsValue(a + b) == DigitsValue(a) * Place(|b|) + DigitsValue(b)
    decreases |b|
  {
    if b == [] {
      assert a + b == a;
    } else {
      var k := |b| - 1;
      assert (a + b)[..|a + b| - 1] == a + b[..k];
      DigitsValueConcat(a, b[..k]);
      TenTimes(DigitsValue(a), Place(k), DigitsValue(b[..k]));
    }
  }

  lemma TenTimes(x: nat, p: nat, y: nat)
    ensures 10 * (x * p + y) == x * (10 * p) + 10 * y
  {
  }

  lemma OneDigit(b: byte)
    requires 48 <= b
    ensures DigitsValue([b]) == b as int - 48
  {
    assert [b][..0] == [];
  }

  lemma {:induction false} WholeIsDigitsValue(s: seq<byte>)
    requires AreDigits(s)
    ensures Whole(s) == DigitsValue(s)
  {
    if s != [] {
      WholeIsDigitsValue(s[1..]);
      OneDigit(s[0]);
      DigitsValueConcat([s[0]], s[1..]);
      assert [s[0]] + s[1..] == s;
    }
  }

  function Times(x: real, y: real): real {
    x * y
  }

  lemma {:induction false} PartIsDigitsValue(s: seq<byte>)
    requires AreDigits(s)
    ensures Part(s) == Times(DigitsValue(s) as real, Pow10(-|s|))
    decreases |s|
  {
    hide *;
    if s == [] {
      NoPart();
    } else {
      var front := Front(s);
      PartIsDigitsValue(front);
      PartLast(s);
      DigitsValueLast(s);
      Pow10Next(-|s|);
      OneMorePlace(DigitsValue(front), DigitAt(s, |s| - 1), Pow10(-|s|));
    }
  }

  function Front(s: seq<byte>): (r: seq<byte>)
    requires AreDigits(s) && s != []
    ensures r == s[..|s| - 1] && AreDigits(r)
  {
    s[..|s| - 1]
  }

  lemma NoPart()
    ensures Part([]) == 0.0 == Times(DigitsValue([]) as real, Pow10(0))
  {
  }

  lemma OneMorePlace(v: nat, d: nat, p: real)
    ensures Times(v as real, 10.0 * p) + Times(d as real, p) == Times((10 * v + d) as real, p)
  {
    assert (10 * v + d) as real == 10.0 * v as real + d as real;
  }

  lemma PartLast(s: seq<byte>)
    requires AreDigits(s) && s != []
    ensures Part(s) == Part(Front(s)) + Times(DigitAt(s, |s| - 1) as real, Pow10(-|s|))
  {
    hide Pow10, DigitAt;
  }

  lemma DigitsValueLast(s: seq<byte>)
    requires AreDigits(s) && s != []
    ensures DigitsValue(s) == 10 * DigitsValue(Front(s)) + DigitAt(s, |s| - 1)
  {
  }

  lemma BothDigitRuns(whole: seq<byte>, fraction: seq<byte>)
    requires AreDigits(whole) && AreDigits(fraction)
    ensures DigitsValue(whole + fraction) as real ==
      Times(Whole(whole) as real, Pow10(|fraction|)) + DigitsValue(fraction) as real
  {
    DigitsValueConcat(whole, fraction);
    WholeIsDigitsValue(whole);
    PlaceIsPow10(|fraction|);
    hide DigitsValue, Whole, Place, Pow10;
    ProductOfReals(DigitsValue(whole), Place(|fraction|), DigitsValue(fraction));
  }

  /** The conversion takes all digits as one number and scales it down by the digits behind the point. */
  lemma ScaledValue(whole: seq<byte>, fraction: seq<byte>, power: int)
    requires AreDigits(whole) && AreDigits(fraction)
    ensures Times(DigitsValue(whole + fraction) as real, Pow10(power - |fraction|)) ==
      Times(Whole(whole) as real + Part(fraction), Pow10(power))
  {
    var n: int := |fraction|;
    var w, f := Whole(whole) as real, DigitsValue(fraction) as real;
    BothDigitRuns(whole, fraction);
    PartIsDigitsValue(fraction);
    Inverse(n);
    Pow10Sum(power - n, n);
    hide *;
    ScaledReals(w, f, Pow10(n), Pow10(-n), Pow10(power), Pow10(power - n));
  }

  lemma Pow10Sum(k: int, n: nat)
    ensures Pow10(k + n) == Times(Pow10(k), Pow10(n))
  {
    Pow10Add(k, n);
  }

  lemma Inverse(n: int)
    requires n >= 0
    ensures Times(Pow10(-n), Pow10(n)) == 1.0
  {
    Pow10Add(-n, n);
  }

  lemma ProductOfReals(a: nat, p: nat, b: nat)
    ensures (a * p + b) as real == Times(a as real, p as real) + b as real
  {
  }

  /** `p` is 10^n, `q` its inverse, `r` the power asked for, and `t` that power scaled down. */
  lemma ScaledReals(w: real, f: real, p: real, q: real, r: real, t: real)
    requires Times(q, p) == 1.0 && r == Times(t, p)
    ensures Times(Times(w, p) + f, t) == Times(w + Times(f, q), r)
  {
    calc {
      (w + f * q) * r;
      w * r + (f * q) * r;
      w * (t * p) + (f * q) * (t * p);
      (w * p) * t + (f * t) * (q * p);
      (w * p + f) * t;
    }
  }

  // ---- Where a numeral ends ----

  predicate StartsDigit(s: seq<byte>) {
    s != [] && 48 <= s[0] <= 57
  }

  function BehindSign(s: seq<byte>): seq<byte> {
    if s != [] && (s[0] == 43 || s[0] == 45) then s[1..] else s
  }

  /** A power of ten starts here: a letter, perhaps a sign, and a digit. */
  predicate StartsPower(s: seq<byte>) {
    s != [] && (s[0] == 101 || s[0] == 69) && StartsDigit(BehindSign(s[1..]))
  }

  /** `tail` does not continue the numeral `n`. */
  predicate Ends(n: Numeral, tail: seq<byte>) {
    !StartsDigit(tail) && (n.power == None ==> !StartsPower(tail)) &&
    (n.power == None && n.fraction == None && tail != [] ==> tail[0] != 46)
  }

  lemma {:induction false} DigitRunEnds(digits: seq<byte>, tail: seq<byte>)
    requires AreDigits(digits) && !StartsDigit(tail)
    ensures DigitRun(digits + tail) == |digits|
    decreases |digits|
  {
    if digits == [] {
      assert digits + tail == tail;
    } else {
      assert (digits + tail)[1..] == digits[1..] + tail;
      DigitRunEnds(digits[1..], tail);
    }
  }

  /** A sign, some digits, and something else behind them. */
  lemma SignAndDigits(sign: seq<byte>, digits: seq<byte>, tail: seq<byte>)
    requires GoodSign(sign) && AreDigits(digits) && !StartsDigit(tail)
    requires sign == [] && digits == [] ==> tail == [] || !IsSign(tail[0])
    ensures var s := sign + digits + tail;
      SignLength(s) == |sign| && (sign != [] ==> s[0] == sign[0]) &&
      DigitRun(s[|sign|..]) == |digits| && s[|sign|..|sign| + |digits|] == digits && s[|sign| + |digits|..] == tail
  {
    var s := sign + digits + tail;
    DigitRunEnds(digits, tail);
    assert s[|sign|..] == digits + tail;
    if sign == [] && digits != [] {
      assert s[0] == digits[0];
    }
  }

  lemma ExponentRule(s: seq<byte>, sign: nat, digits: seq<byte>)
    requires s != [] && (s[0] == 101 || s[0] == 69) && sign == SignLength(s[1..]) && 1 + sign <= |s|
    requires digits != [] && |digits| == DigitRun(s[1 + sign..]) && s[1 + sign..1 + sign + |digits|] == digits
    ensures var value: int := DigitsValue(digits);
      ExponentOf(s) == Exponent(if sign == 1 && s[1] == MINUS then -value else value, 1 + sign + |digits|)
  {
    hide DigitsValue, DigitRun;
  }

  lemma WrittenPower(p: Power, tail: seq<byte>)
    requires GoodPower(p) && !StartsDigit(tail)
    ensures var s, size: int := [p.letter] + p.sign + p.digits + tail, Whole(p.digits);
      ExponentOf(s) == Exponent(if p.sign == [45] then -size else size, 1 + |p.sign| + |p.digits|)
  {
    hide DigitsValue, DigitRun, Whole, AreDigits, StartsDigit, ExponentOf, SignLength;
    var s := [p.letter] + p.sign + p.digits + tail;
    var rest, n := p.sign + p.digits + tail, |p.sign|;
    SignAndDigits(p.sign, p.digits, tail);
    WholeIsDigitsValue(p.digits);
    assert s[1..] == rest;
    assert s[1 + n..] == rest[n..];
    assert s[1 + n..1 + n + |p.digits|] == rest[n..n + |p.digits|];
    ExponentRule(s, n, p.digits);
  }

  lemma NoPowerText(s: seq<byte>)
    ensures ExponentOf(s).used > 0 <==> StartsPower(s)
    ensures !StartsPower(s) ==> ExponentOf(s) == Exponent(0, 0)
  {
    hide DigitsValue;
    if s != [] && (s[0] == 101 || s[0] == 69) {
      assert BehindSign(s[1..]) == s[1 + SignLength(s[1..])..];
    }
  }

  lemma PowerRead(n: Numeral, tail: seq<byte>)
    requires GoodNumeral(n) && Ends(n, tail)
    ensures ExponentOf(PowerText(n) + tail) == Exponent(PowerOf(n), |PowerText(n)|)
  {
    hide ExponentOf, Whole, StartsPower, StartsDigit, AreDigits;
    if n.power.Some? {
      WrittenPower(n.power.value, tail);
    } else {
      NoPowerText(tail);
      assert PowerText(n) + tail == tail;
    }
  }

  /** What the conversion computes once it has found the parts. */
  lemma StrtodOfParts(s: seq<byte>, sign: nat, point: nat, fraction: nat, end: nat, e: Exponent)
    requires sign == SignLength(s) <= |s| && point == sign + DigitRun(s[sign..])
    requires fraction == (if point < |s| && s[point] == POINT then DigitRun(s[point + 1..]) else 0)
    requires end == (if point < |s| && s[point] == POINT then point + 1 + fraction else point)
    requires e == ExponentOf(s[end..]) && (point > sign || fraction > 0)
    ensures var digits := s[sign..point] + (if fraction > 0 then s[point + 1..point + 1 + fraction] else []);
      var magnitude := Times(DigitsValue(digits) as real, Pow10(e.value - fraction));
      Strtod(s) == Conversion(if sign == 1 && s[0] == MINUS then -magnitude else magnitude, end + e.used)
  {
    hide DigitRun, DigitsValue, Pow10, ExponentOf;
  }

  lemma Regrouped(a: seq<byte>, b: seq<byte>, c: seq<byte>, d: seq<byte>, e: seq<byte>)
    ensures a + b + c + d + e == a + b + (c + (d + e))
  {
  }

  lemma BehindWhole(n: Numeral, tail: seq<byte>)
    requires GoodNumeral(n) && Ends(n, tail)
    ensures var behind := FractionText(n) + (PowerText(n) + tail);
      !StartsDigit(behind) && (n.sign == [] && n.whole == [] ==> behind != [] && behind[0] == POINT)
  {
    hide StartsPower, AreDigits;
  }

  lemma NumeralParts(n: Numeral, tail: seq<byte>)
    requires GoodNumeral(n) && Ends(n, tail)
    ensures var s := NumeralText(n) + tail;
      var sign, point := |n.sign|, |n.sign| + |n.whole|;
      sign == SignLength(s) <= |s| && point == sign + DigitRun(s[sign..]) && s[sign..point] == n.whole &&
      (n.sign != [] ==> s[0] == n.sign[0]) && s[point..] == FractionText(n) + (PowerText(n) + tail)
  {
    BehindWhole(n, tail);
    hide FractionText, PowerText, DigitRun, Ends, AreDigits;
    Regrouped(n.sign, n.whole, FractionText(n), PowerText(n), tail);
    SignAndDigits(n.sign, n.whole, FractionText(n) + (PowerText(n) + tail));
  }

  lemma FractionParts(n: Numeral, tail: seq<byte>, s: seq<byte>, point: nat)
    requires GoodNumeral(n) && Ends(n, tail)
    requires point <= |s| && s[point..] == FractionText(n) + (PowerText(n) + tail)
    ensures if n.fraction.Some? then
        var k := |n.fraction.value|;
        point < |s| && s[point] == POINT && DigitRun(s[point + 1..]) == k && point + 1 + k <= |s| &&
        s[point + 1..point + 1 + k] == n.fraction.value && s[point + 1 + k..] == PowerText(n) + tail
      else !(point < |s| && s[point] == POINT) && s[point..] == PowerText(n) + tail
  {
    var behind := PowerText(n) + tail;
    if n.fraction.Some? {
      var fr := n.fraction.value;
      assert AreDigits(fr) && !StartsDigit(behind);
      DigitRunEnds(fr, behind);
      assert s[point] == s[point..][0];
      assert s[point + 1..] == s[point..][1..] == fr + behind;
      hide AreDigits, StartsDigit;
      assert s[point + 1..point + 1 + |fr|] == s[point + 1..][..|fr|];
      assert s[point + 1 + |fr|..] == s[point + 1..][|fr|..];
    } else {
      assert s[point..] == behind;
      assert point < |s| ==> s[point] == s[point..][0];
    }
  }

  lemma WholeAndFraction(n: Numeral, s: seq<byte>, sign: nat, point: nat)
    requires GoodNumeral(n) && sign <= point <= |s| && s[sign..point] == n.whole
    requires n.fraction.Some? ==>
      var k := |n.fraction.value|; point + 1 + k <= |s| && s[point + 1..point + 1 + k] == n.fraction.value
    ensures var k := |FractionDigits(n)|;
      s[sign..point] + (if k > 0 then s[point + 1..point + 1 + k] else []) == n.whole + FractionDigits(n) &&
      (n.whole != [] || k > 0)
  {
    hide AreDigits;
  }

  lemma TextLength(n: Numeral)
    ensures var point := |n.sign| + |n.whole|;
      |NumeralText(n)| ==
        (if n.fraction.Some? then point + 1 + |FractionDigits(n)| else point) + |PowerText(n)|
  {
  }

  lemma SignRead(n: Numeral, s: seq<byte>)
    requires GoodNumeral(n) && (n.sign != [] ==> s != [] && s[0] == n.sign[0])
    ensures n.sign == [45] <==> |n.sign| == 1 && s != [] && s[0] == MINUS
  {
    hide AreDigits;
  }

  /** The conversion takes a numeral whole and gives what it means, in front of anything that does not continue it. */
  lemma StrtodMeans(n: Numeral, tail: seq<byte>)
    requires GoodNumeral(n) && Ends(n, tail)
    ensures Strtod(NumeralText(n) + tail) == Conversion(NumeralValue(n), |NumeralText(n)|)
  {
    hide *;
    var s := NumeralText(n) + tail;
    var sign, point, k := |n.sign|, |n.sign| + |n.whole|, |FractionDigits(n)|;
    NumeralParts(n, tail);
    FractionParts(n, tail, s, point);
    PowerRead(n, tail);
    GoodDigits(n);
    ScaledValue(n.whole, FractionDigits(n), PowerOf(n));
    WholeAndFraction(n, s, sign, point);
    TextLength(n);
    SignRead(n, s);
    FractionLength(n);
    var end := if n.fraction.Some? then point + 1 + k else point;
    StrtodOfParts(s, sign, point, k, end, ExponentOf(s[end..]));
    NumeralValueMeans(n);
  }

  lemma GoodDigits(n: Numeral)
    requires GoodNumeral(n)
    ensures AreDigits(n.whole) && AreDigits(FractionDigits(n))
  {
  }

  lemma FractionLength(n: Numeral)
    ensures |FractionDigits(n)| == if n.fraction.Some? then |n.fraction.value| else 0
  {
  }

  lemma NumeralValueMeans(n: Numeral)
    requires GoodNumeral(n)
    ensures var magnitude := Times(Whole(n.whole) as real + Part(FractionDigits(n)), Pow10(PowerOf(n)));
      NumeralValue(n) == if n.sign == [45] then -magnitude else magnitude
  {
    hide GoodNumeral, Whole, Part, FractionDigits, Pow10, PowerOf;
  }

  // ---- There are no other numbers ----

  lemma RunIsDigits(s: seq<byte>)
    ensures AreDigits(s[..DigitRun(s)]) && !StartsDigit(s[DigitRun(s)..])
  {
  }

  lemma SignFound(s: seq<byte>) returns (sign: seq<byte>)
    ensures GoodSign(sign) && |sign| == SignLength(s) <= |s| && s == sign + s[|sign|..]
  {
    sign := if s != [] && IsSign(s[0]) then [s[0]] else [];
  }

  lemma FourParts(a: seq<byte>, b: seq<byte>, c: seq<byte>, d: seq<byte>, behind: seq<byte>, rest: seq<byte>)
    requires behind == b + rest && rest == c + d
    ensures a + behind == a + b + c + d
  {
  }

  lemma DigitsFound(s: seq<byte>) returns (digits: seq<byte>, tail: seq<byte>)
    ensures AreDigits(digits) && !StartsDigit(tail) && s == digits + tail && digits == s[..DigitRun(s)]
    ensures StartsDigit(s) ==> digits != []
  {
    RunIsDigits(s);
    digits, tail := s[..DigitRun(s)], s[DigitRun(s)..];
  }

  lemma BehindSignFound(s: seq<byte>, sign: seq<byte>)
    requires |sign| == SignLength(s) <= |s|
    ensures BehindSign(s) == s[|sign|..]
  {
  }

  lemma PowerStart(s: seq<byte>)
    requires StartsPower(s)
    ensures s != [] && s == [s[0]] + s[1..] && (s[0] == 101 || s[0] == 69) && StartsDigit(BehindSign(s[1..]))
  {
  }

  lemma PowerFound(s: seq<byte>) returns (p: Power, tail: seq<byte>)
    requires StartsPower(s)
    ensures GoodPower(p) && s == [p.letter] + p.sign + p.digits + tail && !StartsDigit(tail)
  {
    PowerStart(s);
    hide AreDigits, StartsDigit, GoodSign, StartsPower, BehindSign;
    var rest := s[1..];
    var sign := SignFound(rest);
    BehindSignFound(rest, sign);
    var behind := rest[|sign|..];
    var digits, end := DigitsFound(behind);
    p, tail := Power(s[0], sign, digits), end;
    FourParts([s[0]], sign, digits, end, rest, behind);
  }

  /** The fraction behind the digits `rest` stands behind, and what stands behind the fraction. */
  lemma FractionFound(rest: seq<byte>) returns (fraction: Option<seq<byte>>, last: seq<byte>)
    requires !StartsDigit(rest)
    ensures fraction ==
      if rest != [] && rest[0] == POINT then Some(rest[1..][..DigitRun(rest[1..])]) else None
    ensures rest == (if fraction.Some? then [46] + fraction.value else []) + last
    ensures fraction.Some? ==> AreDigits(fraction.value)
    ensures !StartsDigit(last) && (fraction == None && last != [] ==> last[0] != 46)
  {
    fraction, last := None, rest;
    if rest != [] && rest[0] == POINT {
      RunIsDigits(rest[1..]);
      var k := DigitRun(rest[1..]);
      fraction, last := Some(rest[1..][..k]), rest[1..][k..];
      hide DigitRun, AreDigits, StartsDigit;
      assert rest == [46] + rest[1..] && rest[1..] == fraction.value + last;
    }
  }

  lemma PowerOrNot(last: seq<byte>) returns (power: Option<Power>, tail: seq<byte>)
    requires !StartsDigit(last)
    ensures last == (if power.Some? then [power.value.letter] + power.value.sign + power.value.digits else []) + tail
    ensures !StartsDigit(tail) && if power.Some? then GoodPower(power.value) else !StartsPower(tail) && tail == last
  {
    power, tail := None, last;
    if StartsPower(last) {
      var p, end := PowerFound(last);
      power, tail := Some(p), end;
    }
  }

  /** Whatever the conversion accepts starts with a numeral that nothing behind it continues. */
  lemma NumeralFound(s: seq<byte>) returns (n: Numeral, tail: seq<byte>)
    requires Strtod(s).used > 0
    ensures GoodNumeral(n) && Ends(n, tail) && s == NumeralText(n) + tail
  {
    hide *;
    var sign := SignFound(s);
    var behind := s[|sign|..];
    var whole, rest := DigitsFound(behind);
    assert rest == behind[DigitRun(behind)..];
    var fraction, last := FractionFound(rest);
    StrtodAccepts(s, sign, whole, rest, fraction);
    var power, end := PowerOrNot(last);
    n, tail := Numeral(sign, whole, fraction, power), end;
    NumeralTexts(n);
    Associates(sign, whole, rest);
    Associates(sign + whole, FractionText(n), last);
    Associates(sign + whole + FractionText(n), PowerText(n), tail);
    FoundEnds(n, tail, last);
  }

  lemma Associates(a: seq<byte>, b: seq<byte>, c: seq<byte>)
    ensures a + (b + c) == a + b + c
  {
  }

  lemma NumeralTexts(n: Numeral)
    ensures NumeralText(n) == n.sign + n.whole + FractionText(n) + PowerText(n)
    ensures FractionText(n) == if n.fraction.Some? then [46] + n.fraction.value else []
    ensures PowerText(n) ==
      if n.power.Some? then [n.power.value.letter] + n.power.value.sign + n.power.value.digits else []
  {
  }

  lemma FoundEnds(n: Numeral, tail: seq<byte>, last: seq<byte>)
    requires GoodSign(n.sign) && AreDigits(n.whole) && (n.fraction.Some? ==> AreDigits(n.fraction.value))
    requires n.whole != [] || (n.fraction.Some? && n.fraction.value != [])
    requires !StartsDigit(last) && (n.fraction == None && last != [] ==> last[0] != 46)
    requires !StartsDigit(tail)
    requires if n.power.Some? then GoodPower(n.power.value) else !StartsPower(tail) && tail == last
    ensures GoodNumeral(n) && Ends(n, tail)
  {
    hide StartsDigit, StartsPower, GoodPower, GoodSign;
  }

  lemma StrtodAccepts(s: seq<byte>, sign: seq<byte>, whole: seq<byte>, rest: seq<byte>, fraction: Option<seq<byte>>)
    requires Strtod(s).used > 0 && |sign| == SignLength(s) <= |s|
    requires whole == s[|sign|..][..DigitRun(s[|sign|..])] && rest == s[|sign|..][DigitRun(s[|sign|..])..]
    requires fraction ==
      if rest != [] && rest[0] == POINT then Some(rest[1..][..DigitRun(rest[1..])]) else None
    ensures whole != [] || (fraction.Some? && fraction.value != [])
  {
    hide DigitRun, DigitsValue, Pow10, ExponentOf;
    var point := |sign| + |whole|;
    assert s[point..] == rest;
    if rest != [] && rest[0] == POINT {
      assert s[point + 1..] == rest[1..];
    }
  }

  /** A text that starts with no numeral is refused, and no other text is. */
  lemma AcceptedIff(s: seq<byte>)
    ensures Strtod(s).used > 0 <==> exists n, tail :: GoodNumeral(n) && Ends(n, tail) && s == NumeralText(n) + tail
  {
    hide Strtod, Ends;
    if Strtod(s).used > 0 {
      var n, tail := NumeralFound(s);
    }
    if n, tail :| GoodNumeral(n) && Ends(n, tail) && s == NumeralText(n) + tail {
      StrtodMeans(n, tail);
    }
  }

  lemma SignChars(sign: seq<byte>)
    requires GoodSign(sign)
    ensures forall i | 0 <= i < |sign| :: IsNumberChar(sign[i])
  {
  }

  lemma DigitChars(s: seq<byte>)
    requires AreDigits(s)
    ensures forall i | 0 <= i < |s| :: IsNumberChar(s[i])
  {
  }

  predicate NumberChars(s: seq<byte>) {
    forall i | 0 <= i < |s| :: IsNumberChar(s[i])
  }

  lemma NumberCharsConcat(a: seq<byte>, b: seq<byte>)
    requires NumberChars(a) && NumberChars(b)
    ensures NumberChars(a + b)
  {
    hide IsNumberChar;
  }

  lemma NumeralChars(n: Numeral)
    requires GoodNumeral(n)
    ensures NumberChars(NumeralText(n))
  {
    SignChars(n.sign);
    DigitChars(n.whole);
    DigitChars(FractionDigits(n));
    if n.power.Some? {
      SignChars(n.power.value.sign);
      DigitChars(n.power.value.digits);
      NumberCharsConcat([n.power.value.letter], n.power.value.sign);
      NumberCharsConcat([n.power.value.letter] + n.power.value.sign, n.power.value.digits);
    }
    NumberCharsConcat([46], FractionDigits(n));
    NumberCharsConcat(n.sign, n.whole);
    NumberCharsConcat(n.sign + n.whole, FractionText(n));
    NumberCharsConcat(n.sign + n.whole + FractionText(n), PowerText(n));
  }

  /** A numeral of the text is read whole, in front of anything that is no character of a number. */
  lemma NumeralIsRead(n: Numeral, rest: seq<byte>)
    requires GoodNumeral(n) && (rest == [] || !IsNumberChar(rest[0]))
    ensures ParseNumber(NumeralText(n) + rest) == Conversion(NumeralValue(n), |NumeralText(n)|)
  {
    var s := NumeralText(n);
    NumeralChars(n);
    hide Strtod, NumeralText, NumeralValue, IsNumberChar;
    RunStops(s, rest);
    assert (s + rest)[..|s|] == s && s + [] == s;
    StrtodMeans(n, []);
  }
}
