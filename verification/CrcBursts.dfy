/** Bursts in terms of bit positions, counted in the order in which the checksum takes the bits. */
module CrcBursts {
  import opened Bytes
  import opened Crc
  import opened CrcDetection
  import opened Frame

  /** Bit `k` of a byte, counted from the least significant. */
  predicate Bit(b: byte, k: nat)
    requires k < 8
  {
    ((b as bv8) >> k) & 1 == 1
  }

  /** Position `p` in the message: byte `p / 8`, most significant bit first. */
  predicate FlippedAt(flips: seq<byte>, p: nat)
    requires p < 8 * |flips|
  {
    Bit(flips[p / 8], 7 - p % 8)
  }

  /** All flipped bits are among the `span` positions from `first` on, and `first` is flipped. */
  ghost predicate Within(flips: seq<byte>, first: nat, span: nat) {
    first < 8 * |flips| && FlippedAt(flips, first) &&
    forall p | 0 <= p < 8 * |flips| && FlippedAt(flips, p) :: first <= p < first + span
  }

  lemma HighClear(b: byte, s: nat)
    requires s <= 8
    requires forall k | s <= k < 8 :: !Bit(b, k)
    ensures (b as bv8) >> s == 0
  {
    assert s <= 7 ==> !Bit(b, 7);
    assert s <= 6 ==> !Bit(b, 6);
    assert s <= 5 ==> !Bit(b, 5);
    assert s <= 4 ==> !Bit(b, 4);
    assert s <= 3 ==> !Bit(b, 3);
    assert s <= 2 ==> !Bit(b, 2);
    assert s <= 1 ==> !Bit(b, 1);
    assert s <= 0 ==> !Bit(b, 0);
  }

  lemma LowClear(b: byte, s: nat)
    requires s <= 8
    requires forall k | 0 <= k < s :: !Bit(b, k)
    ensures (b as bv8) << (8 - s) == 0
  {
    assert s > 7 ==> !Bit(b, 7);
    assert s > 6 ==> !Bit(b, 6);
    assert s > 5 ==> !Bit(b, 5);
    assert s > 4 ==> !Bit(b, 4);
    assert s > 3 ==> !Bit(b, 3);
    assert s > 2 ==> !Bit(b, 2);
    assert s > 1 ==> !Bit(b, 1);
    assert s > 0 ==> !Bit(b, 0);
  }

  lemma AllClear(b: byte)
    requires forall k | 0 <= k < 8 :: !Bit(b, k)
    ensures b == 0
  {
    HighClear(b, 0);
    NonzeroBits(b);
  }

  lemma NoBitInZero(k: nat)
    requires k < 8
    ensures !Bit(0, k)
  {
  }

  /** Where bit `k` of byte `j` stands. */
  lemma BitPosition(flips: seq<byte>, j: nat, k: nat)
    requires j < |flips| && k < 8
    ensures FlippedAt(flips, 8 * j + 7 - k) <==> Bit(flips[j], k)
  {
    hide Bit;
    assert (8 * j + (7 - k)) / 8 == j && (8 * j + (7 - k)) % 8 == 7 - k;
  }

  /** Bits outside a window of sixteen that starts at bit `t` of byte `q` are clear. */
  ghost predicate Window16(flips: seq<byte>, q: nat, t: nat) {
    t < 8 && forall j, k | 0 <= j < |flips| && 0 <= k < 8 && Bit(flips[j], k) ::
      8 * q + t <= 8 * j + 7 - k < 8 * q + t + 16
  }

  lemma OutsideWindow(flips: seq<byte>, q: nat, t: nat, j: nat)
    requires Window16(flips, q, t) && j < |flips| && (j < q || j > q + 2 || (j == q + 2 && t == 0))
    ensures flips[j] == 0
  {
    hide Bit;
    AllClear(flips[j]);
  }

  lemma WindowIsBurst(flips: seq<byte>, q: nat, t: nat, j: nat, k: nat) returns (i: nat, s: nat)
    requires Window16(flips, q, t) && 3 <= |flips| && q + 2 <= |flips| && (q + 2 == |flips| ==> t == 0)
    requires j < |flips| && k < 8 && Bit(flips[j], k)
    ensures Burst(flips, i, s)
  {
    hide Bit;
    i, s := if q + 2 < |flips| then q else q - 1, if q + 2 < |flips| then 8 - t else 0;
    forall n | 0 <= n < |flips| && !(i <= n <= i + 2) ensures flips[n] == 0 {
      OutsideWindow(flips, q, t, n);
    }
    HighClear(flips[i], s);
    LowClear(flips[i + 2], s);
    NoBitInZero(k);
  }

  lemma SixteenIsBurst(flips: seq<byte>, first: nat) returns (i: nat, s: nat)
    requires 3 <= |flips| && Within(flips, first, 16)
    ensures Burst(flips, i, s)
  {
    hide FlippedAt, Bit;
    var n := |flips|;
    var start := if first + 16 <= 8 * n then first else 8 * n - 16;
    forall j, k | 0 <= j < n && 0 <= k < 8 && Bit(flips[j], k)
      ensures start <= 8 * j + 7 - k < start + 16
    {
      BitPosition(flips, j, k);
      assert FlippedAt(flips, 8 * j + 7 - k);
    }
    BitPosition(flips, first / 8, 7 - first % 8);
    i, s := WindowIsBurst(flips, start / 8, start % 8, first / 8, 7 - first % 8);
  }

  /** Flipped bits that lie within sixteen consecutive positions of the covered part make a valid header invalid. */
  lemma SixteenBitsDetected(raw: seq<byte>, flips: seq<byte>, first: nat)
    requires |raw| == HEADER_SIZE && |flips| == HEADER_SIZE - 2 && ValidHeader(raw)
    requires Within(flips, first, 16)
    ensures !ValidHeader(XorAll(raw[..HEADER_SIZE - 2], flips) + raw[HEADER_SIZE - 2..])
  {
    hide Within, ValidHeader, Burst;
    var i, s := SixteenIsBurst(flips, first);
    HeaderBurstDetected(raw, flips, i, s);
  }

  // ---- Seventeen positions ----

  lemma PolynomialBits(k: nat)
    requires k < 8
    ensures Bit(0x01, k) <==> k == 0
  {
  }

  lemma PolynomialSpan(flips: seq<byte>, i: nat)
    requires PolynomialAt(flips, i)
    ensures Within(flips, 8 * i + 7, 17)
  {
    hide Bit, FlippedAt;
    PolynomialBits(0);
    BitPosition(flips, i, 0);
    forall p | 0 <= p < 8 * |flips| && FlippedAt(flips, p) ensures 8 * i + 7 <= p < 8 * i + 7 + 17 {
      var j, k := p / 8, 7 - p % 8;
      BitPosition(flips, j, k);
      assert p == 8 * j + 7 - k;
      NoBitInZero(k);
      PolynomialBits(k);
    }
  }

  /** The flips of the witness: the polynomial in the bytes of the frame id. */
  const SEVENTEEN: seq<byte> := [
    0, 0, 0, 0, 0x01, 0x10, 0x21, 0, 0, 0, 0, 0, 0, 0, 0, 0, 0, 0, 0, 0, 0, 0, 0, 0, 0, 0, 0, 0, 0, 0, 0, 0]

  lemma SeventeenIsPolynomial()
    ensures |SEVENTEEN| == HEADER_SIZE && PolynomialAt(SEVENTEEN, 4) && PolynomialAt(SEVENTEEN[..HEADER_SIZE - 2], 4)
    ensures SEVENTEEN[30] == 0 && SEVENTEEN[31] == 0
  {
  }

  lemma FieldOfZeros()
    ensures Field(0, 0) == 0
  {
  }

  /** Sixteen is the limit: in every valid header there is a burst of seventeen positions that goes unnoticed. */
  lemma SeventeenPositionsUnnoticed(raw: seq<byte>)
    requires |raw| == HEADER_SIZE && ValidHeader(raw)
    ensures |SEVENTEEN| == HEADER_SIZE && Within(SEVENTEEN, 39, 17)
    ensures ValidHeader(XorAll(raw, SEVENTEEN)) && XorAll(raw, SEVENTEEN) != raw
  {
    SeventeenIsPolynomial();
    PolynomialSpan(SEVENTEEN, 4);
    hide Xor, Crc16, Field, ValidHeader, Within;
    SeventeenBitBurstUndetected(SEVENTEEN[..HEADER_SIZE - 2], 4);
    FieldOfZeros();
    HeaderCorruptionUnnoticedIff(raw, SEVENTEEN);
    XorIsSame(raw[4], SEVENTEEN[4]);
    assert XorAll(raw, SEVENTEEN)[4] != raw[4];
  }
}
