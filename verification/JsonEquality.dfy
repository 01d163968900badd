/** When two keys, two numbers and two values of different kinds are equal for the comparison. */
module JsonEquality {
  import opened Bytes
  import opened JsonCompare
  import opened JsonNumber
  import opened JsonValue

  /** The upper-case and the lower-case form of one letter of ASCII. */
  predicate CasesOfOneLetter(upper: byte, lower: byte) {
    65 <= upper <= 90 && lower == upper + 32
  }

  /**
   A key is found under another exactly if they are the same, letters of either case counting as the same if asked.
   */
  lemma SameKeyIff(a: seq<byte>, b: seq<byte>)
    ensures SameKey(a, b, true) <==> a == b
    ensures SameKey(a, b, false) <==>
      |a| == |b| &&
      forall i | 0 <= i < |a| :: a[i] == b[i] || CasesOfOneLetter(a[i], b[i]) || CasesOfOneLetter(b[i], a[i])
  {
    if SameKey(a, b, false) {
      assert |a| == |Fold(a)| == |b|;
      forall i | 0 <= i < |a|
        ensures a[i] == b[i] || CasesOfOneLetter(a[i], b[i]) || CasesOfOneLetter(b[i], a[i])
      {
        assert Fold(a)[i] == Fold(b)[i];
      }
    } else if |a| == |b| {
      var i :| 0 <= i < |a| && Fold(a)[i] != Fold(b)[i];
      assert a[i] != b[i] && !CasesOfOneLetter(a[i], b[i]) && !CasesOfOneLetter(b[i], a[i]);
    }
  }

  function Magnitude(x: real): real {
    if x >= 0.0 then x else -x
  }

  lemma Epsilon(x: real)
    ensures x * DBL_EPSILON * Pow2(52) == x
  {
    assert Pow2(4) == 16.0 && Pow2(8) == 256.0 && Pow2(12) == 4096.0 && Pow2(16) == 65536.0;
    assert Pow2(20) == 1048576.0 && Pow2(24) == 16777216.0 && Pow2(28) == 268435456.0;
    assert Pow2(32) == 4294967296.0 && Pow2(36) == 68719476736.0 && Pow2(40) == 1099511627776.0;
    assert Pow2(44) == 17592186044416.0 && Pow2(48) == 281474976710656.0 && Pow2(52) == 4503599627370496.0;
  }

  /** Two finite numbers are equal exactly if their difference is at most 2^-52 of one of them. */
  lemma NumbersEqualIff(a: real, b: real, caseSensitive: bool)
    ensures Compare(Number(a), Number(b), caseSensitive) <==>
      (Magnitude(a - b) * Pow2(52) <= Magnitude(a) || Magnitude(a - b) * Pow2(52) <= Magnitude(b))
  {
    Epsilon(Magnitude(a));
    Epsilon(Magnitude(b));
    hide Pow2;
    Times(Magnitude(a - b), Magnitude(a) * DBL_EPSILON);
    Times(Magnitude(a - b), Magnitude(b) * DBL_EPSILON);
  }

  lemma Times(x: real, y: real)
    ensures x <= y <==> x * Pow2(52) <= y * Pow2(52)
  {
    assert Pow2(52) >= 1.0;
    hide Pow2;
  }

  /** What is undefined is equal to nothing, and values of different kinds are never equal. */
  lemma EqualKinds(a: Json, b: Json, caseSensitive: bool)
    requires Compare(a, b, caseSensitive)
    ensures a != NotANumber && b != NotANumber
    ensures a.Null? == b.Null? && a.False? == b.False? && a.True? == b.True? && a.String? == b.String?
    ensures a.Raw? == b.Raw? && a.Array? == b.Array? && a.Object? == b.Object?
    ensures a.String? || a.Raw? ==> a == b
  {
  }
}
