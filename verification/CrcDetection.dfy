/**
 What the checksum detects: every odd number of flipped bits, and every burst of at most sixteen bits
 in the covered bytes.
 */
module CrcDetection {
  import opened Bytes
  import opened Crc

  // ---- Parity ----

  function Down8(x: bv16): bv16 { x >> 8 }
  function Down4(x: bv16): bv16 { x >> 4 }
  function Down2(x: bv16): bv16 { x >> 2 }
  function Down1(x: bv16): bv16 { x >> 1 }
  function LowBit(x: bv16): bv16 { x & 1 }

  function Fold8(x: bv16): bv16 { x ^ (x >> 8) }
  function Fold4(x: bv16): bv16 { x ^ (x >> 4) }
  function Fold2(x: bv16): bv16 { x ^ (x >> 2) }
  function Fold1(x: bv16): bv16 { x ^ (x >> 1) }

  /** The exclusive or of all bits of a register. */
  function Parity(x: bv16): bv16 {
    LowBit(Fold1(Fold2(Fold4(Fold8(x)))))
  }

  function ParityOfAll(s: seq<byte>): bv16 {
    if s == [] then 0 else Plus(ParityOfAll(s[..|s| - 1]), Parity(Wide(s[|s| - 1])))
  }

  lemma Down8Plus(a: bv16, b: bv16)
    ensures Down8(Plus(a, b)) == Plus(Down8(a), Down8(b))
  {
  }

  lemma Down4Plus(a: bv16, b: bv16)
    ensures Down4(Plus(a, b)) == Plus(Down4(a), Down4(b))
  {
  }

  lemma Down2Plus(a: bv16, b: bv16)
    ensures Down2(Plus(a, b)) == Plus(Down2(a), Down2(b))
  {
  }

  lemma Down1Plus(a: bv16, b: bv16)
    ensures Down1(Plus(a, b)) == Plus(Down1(a), Down1(b))
  {
  }

  lemma LowBitPlus(a: bv16, b: bv16)
    ensures LowBit(Plus(a, b)) == Plus(LowBit(a), LowBit(b))
  {
  }

  lemma FoldsArePlus(x: bv16)
    ensures Fold8(x) == Plus(x, Down8(x))
    ensures Fold4(x) == Plus(x, Down4(x))
    ensures Fold2(x) == Plus(x, Down2(x))
    ensures Fold1(x) == Plus(x, Down1(x))
  {
  }

  lemma Fold8Plus(a: bv16, b: bv16)
    ensures Fold8(Plus(a, b)) == Plus(Fold8(a), Fold8(b))
  {
    hide *;
    FoldsArePlus(a);
    FoldsArePlus(b);
    FoldsArePlus(Plus(a, b));
    Down8Plus(a, b);
    PlusSwap(a, b, Down8(a), Down8(b));
  }

  lemma Fold4Plus(a: bv16, b: bv16)
    ensures Fold4(Plus(a, b)) == Plus(Fold4(a), Fold4(b))
  {
    hide *;
    FoldsArePlus(a);
    FoldsArePlus(b);
    FoldsArePlus(Plus(a, b));
    Down4Plus(a, b);
    PlusSwap(a, b, Down4(a), Down4(b));
  }

  lemma Fold2Plus(a: bv16, b: bv16)
    ensures Fold2(Plus(a, b)) == Plus(Fold2(a), Fold2(b))
  {
    hide *;
    FoldsArePlus(a);
    FoldsArePlus(b);
    FoldsArePlus(Plus(a, b));
    Down2Plus(a, b);
    PlusSwap(a, b, Down2(a), Down2(b));
  }

  lemma Fold1Plus(a: bv16, b: bv16)
    ensures Fold1(Plus(a, b)) == Plus(Fold1(a), Fold1(b))
  {
    hide *;
    FoldsArePlus(a);
    FoldsArePlus(b);
    FoldsArePlus(Plus(a, b));
    Down1Plus(a, b);
    PlusSwap(a, b, Down1(a), Down1(b));
  }

  lemma ParityPlus(a: bv16, b: bv16)
    ensures Parity(Plus(a, b)) == Plus(Parity(a), Parity(b))
  {
    hide Fold8, Fold4, Fold2, Fold1, LowBit, Plus;
    Fold8Plus(a, b);
    Fold4Plus(Fold8(a), Fold8(b));
    Fold2Plus(Fold4(Fold8(a)), Fold4(Fold8(b)));
    Fold1Plus(Fold2(Fold4(Fold8(a))), Fold2(Fold4(Fold8(b))));
    LowBitPlus(Fold1(Fold2(Fold4(Fold8(a)))), Fold1(Fold2(Fold4(Fold8(b)))));
  }

  lemma ParityOfLinearStep(x: bv16)
    ensures Parity(LinearStep(x)) == Parity(x)
  {
  }

  lemma {:induction false} ParityOfBitSteps(x: bv16, n: nat)
    ensures Parity(BitSteps(x, n)) == Parity(x)
  {
    hide Parity, LinearStep, BitStep;
    if n > 0 {
      ParityOfBitSteps(x, n - 1);
      StepIsLinearStep(BitSteps(x, n - 1));
      ParityOfLinearStep(BitSteps(x, n - 1));
    }
  }

  lemma ParityOfHigh(b: byte)
    ensures Parity(High(b)) == Parity(Wide(b))
  {
    ParityOfUp(b as bv8);
  }

  lemma ParityOfUp(w: bv8)
    ensures Parity(Up(w as bv16)) == Parity(w as bv16)
  {
  }

  /** The parity of the checksum is the parity of the message. */
  lemma {:induction false} ParityOfCrc(data: seq<byte>)
    ensures Parity(Crc16(data)) == ParityOfAll(data)
  {
    hide Parity, Plus, High, FeedByte, Wide;
    if data == [] {
      ParityOfZero();
    } else {
      var n := |data| - 1;
      var crc := Crc16(data[..n]);
      ParityOfCrc(data[..n]);
      FeedByteIsPlus(crc, data[n]);
      ParityOfBitSteps(Plus(crc, High(data[n])), 8);
      ParityPlus(crc, High(data[n]));
      ParityOfHigh(data[n]);
    }
  }

  lemma ParityOfZero()
    ensures Parity(0) == 0
  {
  }

  lemma {:induction false} ParityOfXorAll(a: seq<byte>, b: seq<byte>)
    requires |a| == |b|
    ensures ParityOfAll(XorAll(a, b)) == Plus(ParityOfAll(a), ParityOfAll(b))
  {
    hide Parity, Wide, Xor, Plus;
    if a == [] {
      PlusZero();
      assert XorAll(a, b) == [];
    } else {
      var n := |a| - 1;
      assert XorAll(a, b)[..n] == XorAll(a[..n], b[..n]);
      ParityOfXorAll(a[..n], b[..n]);
      WidePlus(a[n], b[n]);
      ParityPlus(Wide(a[n]), Wide(b[n]));
      PlusSwap(ParityOfAll(a[..n]), ParityOfAll(b[..n]), Parity(Wide(a[n])), Parity(Wide(b[n])));
    }
  }

  lemma PlusZero()
    ensures Plus(0, 0) == 0
  {
  }

  // ---- Counting flipped bits ----

  function Ones(w: bv8): nat {
    (if w & 1 == 1 then 1 else 0) + (if w & 2 == 2 then 1 else 0) + (if w & 4 == 4 then 1 else 0) +
    (if w & 8 == 8 then 1 else 0) + (if w & 16 == 16 then 1 else 0) + (if w & 32 == 32 then 1 else 0) +
    (if w & 64 == 64 then 1 else 0) + (if w & 128 == 128 then 1 else 0)
  }

  /** The number of bits set in a byte string. */
  function BitCount(s: seq<byte>): nat {
    if s == [] then 0 else BitCount(s[..|s| - 1]) + Ones(s[|s| - 1] as bv8)
  }

  lemma OnesParity(w: bv8)
    ensures Parity(w as bv16) == if Ones(w) % 2 == 1 then 1 else 0
  {
  }

  lemma {:induction false} BitCountParity(s: seq<byte>)
    ensures ParityOfAll(s) == if BitCount(s) % 2 == 1 then 1 else 0
  {
    hide Parity, Ones;
    if s != [] {
      BitCountParity(s[..|s| - 1]);
      OnesParity(s[|s| - 1] as bv8);
    }
  }

  // ---- Checksummed messages ----

  /** The checksum field, read from its two bytes in little-endian order. */
  function Field(lo: byte, hi: byte): bv16 {
    High(hi) ^ Wide(lo)
  }

  /** A message whose last two bytes hold the checksum of the bytes before them. */
  predicate Intact(message: seq<byte>) {
    |message| >= 2 &&
    var n := |message| - 2;
    Crc16(message[..n]) == Field(message[n], message[n + 1])
  }

  lemma IntactHasEvenParity(message: seq<byte>)
    requires Intact(message)
    ensures ParityOfAll(message) == 0
  {
    hide Parity, Wide, High, Plus, Crc16, Field;
    var n := |message| - 2;
    var lo, hi := message[n], message[n + 1];
    assert message[..n + 1][..n] == message[..n];
    assert ParityOfAll(message) == Plus(ParityOfAll(message[..n + 1]), Parity(Wide(hi)));
    ParityOfCrc(message[..n]);
    ParityOfField(lo, hi);
    PlusCancels(Parity(Wide(hi)), Parity(Wide(lo)));
  }

  lemma ParityOfField(lo: byte, hi: byte)
    ensures Parity(Field(lo, hi)) == Plus(Parity(Wide(hi)), Parity(Wide(lo)))
  {
    hide Parity, Wide, High;
    ParityPlus(High(hi), Wide(lo));
    ParityOfHigh(hi);
  }

  lemma PlusCancels(x: bv16, y: bv16)
    ensures Plus(Plus(Plus(x, y), y), x) == 0
  {
    hide Plus;
    PlusAssociates(x, y, y);
    PlusSelf(y);
    PlusSelf(x);
    PlusNothing(x);
  }

  lemma PlusSelf(x: bv16)
    ensures Plus(x, x) == 0
  {
  }

  lemma PlusNothing(x: bv16)
    ensures Plus(x, 0) == x && Plus(0, x) == x
  {
  }

  /** Flipping an odd number of bits anywhere in an intact message is always detected. */
  lemma OddFlipsDetected(message: seq<byte>, flips: seq<byte>)
    requires Intact(message) && |flips| == |message|
    requires BitCount(flips) % 2 == 1
    ensures !Intact(XorAll(message, flips))
  {
    hide Parity, Plus, Crc16, Field;
    IntactHasEvenParity(message);
    BitCountParity(flips);
    ParityOfXorAll(message, flips);
    PlusNothing(1);
    if Intact(XorAll(message, flips)) {
      IntactHasEvenParity(XorAll(message, flips));
    }
  }

  // ---- Bursts ----

  /**
   All set bits of `flips` lie among the sixteen that end `s` bits before the end of byte `i + 2`, and
   at least one is set.
   */
  ghost predicate Burst(flips: seq<byte>, i: nat, s: nat) {
    s <= 8 && i + 2 < |flips| &&
    (forall j | 0 <= j < |flips| && !(i <= j <= i + 2) :: flips[j] == 0) &&
    Window(flips[i] as bv8, flips[i + 2] as bv8, s) &&
    !(flips[i] == 0 && flips[i + 1] == 0 && flips[i + 2] == 0)
  }

  /** The bits of `a` from `s` on are clear, and so are the bits of `c` below `s`. */
  predicate Window(a: bv8, c: bv8, s: nat)
    requires s <= 8
  {
    a >> s == 0 && c << (8 - s) == 0
  }

  function Three(a: bv8, b: bv8, c: bv8): bv16 {
    LinearShift8(LinearShift8(LinearShift8((a as bv16) << 8) ^ ((b as bv16) << 8)) ^ ((c as bv16) << 8))
  }

  lemma WindowDetected(a: bv8, b: bv8, c: bv8, s: nat)
    requires s <= 8 && Window(a, c, s) && Three(a, b, c) == 0
    ensures a == 0 && b == 0 && c == 0
  {
  }

  lemma StepKeepsNonzero(x: bv16)
    requires BitStep(x) == 0
    ensures x == 0
  {
    hide BitStep;
    StepIsLinearStep(x);
  }

  lemma {:induction false} StepsKeepNonzero(x: bv16, n: nat)
    requires BitSteps(x, n) == 0
    ensures x == 0
  {
    hide BitStep;
    if n > 0 {
      StepKeepsNonzero(BitSteps(x, n - 1));
      StepsKeepNonzero(x, n - 1);
    }
  }

  lemma {:induction false} StepsOfZero(n: nat)
    ensures BitSteps(0, n) == 0
  {
    hide BitStep;
    if n > 0 {
      StepsOfZero(n - 1);
      StepOfZero();
    }
  }

  lemma StepOfZero()
    ensures BitStep(0) == 0
  {
  }

  lemma FeedZero(crc: bv16)
    ensures FeedByte(crc, 0) == BitSteps(crc, 8)
  {
    hide BitSteps;
    FeedByteIsPlus(crc, 0);
    assert High(0) == 0;
    PlusNothing(crc);
  }

  lemma {:induction false} CrcOfZeros(s: seq<byte>)
    requires forall j | 0 <= j < |s| :: s[j] == 0
    ensures Crc16(s) == 0
  {
    hide FeedByte, BitSteps;
    if s != [] {
      CrcOfZeros(s[..|s| - 1]);
      FeedZero(0);
      StepsOfZero(8);
    }
  }

  /** Bytes without set bits cannot bring a checksum back to zero. */
  lemma {:induction false} TrailingZeros(s: seq<byte>, k: nat)
    requires k <= |s| && forall j | k <= j < |s| :: s[j] == 0
    requires Crc16(s) == 0
    ensures Crc16(s[..k]) == 0
  {
    hide FeedByte, BitSteps;
    if k < |s| {
      var n := |s| - 1;
      FeedZero(Crc16(s[..n]));
      StepsKeepNonzero(Crc16(s[..n]), 8);
      TrailingZeros(s[..n], k);
      assert s[..n][..k] == s[..k];
    } else {
      assert s[..k] == s;
    }
  }

  lemma ThreeBytes(s: seq<byte>, i: nat)
    requires i + 3 <= |s| && Crc16(s[..i]) == 0
    ensures Crc16(s[..i + 3]) == Three(s[i] as bv8, s[i + 1] as bv8, s[i + 2] as bv8)
  {
    hide FeedByte, Three;
    var a, b, c := s[i], s[i + 1], s[i + 2];
    assert s[..i + 1][..i] == s[..i];
    assert s[..i + 2][..i + 1] == s[..i + 1];
    assert s[..i + 3][..i + 2] == s[..i + 2];
    var x := FeedByte(0, a);
    var y := FeedByte(x, b);
    assert Crc16(s[..i + 1]) == x;
    assert Crc16(s[..i + 2]) == y;
    FeedThree(a, b, c);
  }

  lemma FeedThree(a: byte, b: byte, c: byte)
    ensures FeedByte(FeedByte(FeedByte(0, a), b), c) == Three(a as bv8, b as bv8, c as bv8)
  {
    hide FeedByte, LinearShift8;
    var x := FeedByte(0, a);
    var y := FeedByte(x, b);
    FeedIsShift(0, a);
    FeedIsShift(x, b);
    FeedIsShift(y, c);
    ZeroXor((a as bv8 as bv16) << 8);
  }

  lemma ZeroXor(x: bv16)
    ensures 0 ^ x == x
  {
  }

  lemma FeedIsShift(crc: bv16, b: byte)
    ensures FeedByte(crc, b) == LinearShift8(crc ^ ((b as bv8 as bv16) << 8))
  {
    hide BitSteps, LinearShift8;
    EightSteps(crc ^ (Wide(b) << 8));
  }

  lemma BurstHasChecksum(flips: seq<byte>, i: nat, s: nat)
    requires Burst(flips, i, s)
    ensures Crc16(flips) != 0
  {
    hide Crc16, Three, Window;
    if Crc16(flips) == 0 {
      TrailingZeros(flips, i + 3);
      CrcOfZeros(flips[..i]);
      ThreeBytes(flips, i);
      WindowDetected(flips[i] as bv8, flips[i + 1] as bv8, flips[i + 2] as bv8, s);
      NonzeroBits(flips[i]);
      NonzeroBits(flips[i + 1]);
      NonzeroBits(flips[i + 2]);
    }
  }

  lemma NonzeroBits(b: byte)
    requires b as bv8 == 0
    ensures b == 0
  {
  }

  /** A burst of at most sixteen flipped bits in the covered bytes is always detected. */
  lemma BurstDetected(message: seq<byte>, flips: seq<byte>, i: nat, s: nat)
    requires Intact(message) && |flips| == |message| - 2
    requires Burst(flips, i, s)
    ensures !Intact(XorAll(message[..|flips|], flips) + message[|flips|..])
  {
    hide Crc16, Field, Plus, Burst;
    var n := |flips|;
    var received := XorAll(message[..n], flips) + message[n..];
    assert received[..n] == XorAll(message[..n], flips);
    assert received[n] == message[n] && received[n + 1] == message[n + 1];
    BurstHasChecksum(flips, i, s);
    Crc16Plus(message[..n], flips);
    PlusChanges(Crc16(message[..n]), Crc16(flips));
  }

  lemma PlusChanges(x: bv16, y: bv16)
    requires y != 0
    ensures Plus(x, y) != x
  {
  }

  // ---- Exactly what goes unnoticed ----

  lemma FieldPlus(lo: byte, hi: byte, lo': byte, hi': byte)
    ensures Field(Xor(lo, lo'), Xor(hi, hi')) == Plus(Field(lo, hi), Field(lo', hi'))
  {
    hide Plus, Wide, Xor, High, Field;
    FieldIsPlus(lo, hi);
    FieldIsPlus(lo', hi');
    FieldIsPlus(Xor(lo, lo'), Xor(hi, hi'));
    WidePlus(lo, lo');
    HighXor(hi, hi');
    PlusSwap(High(hi), High(hi'), Wide(lo), Wide(lo'));
  }

  lemma FieldIsPlus(lo: byte, hi: byte)
    ensures Field(lo, hi) == Plus(High(hi), Wide(lo))
  {
    hide Wide, High;
  }

  lemma HighXor(b: byte, b': byte)
    ensures High(Xor(b, b')) == Plus(High(b), High(b'))
  {
    hide Plus, Wide, Xor, Up;
    WidePlus(b, b');
    UpPlus(Wide(b), Wide(b'));
  }

  lemma PlusSame(a: bv16, x: bv16, y: bv16)
    ensures Plus(a, x) == Plus(a, y) <==> x == y
  {
  }

  /**
   A corrupted message still matches its checksum if and only if the flipped bits, taken as a message, match theirs.
   This holds for flips anywhere, the checksum field included.
   */
  lemma CorruptionUnnoticedIff(message: seq<byte>, flips: seq<byte>)
    requires Intact(message) && |flips| == |message|
    ensures Intact(XorAll(message, flips)) <==> Intact(flips)
  {
    hide Crc16, Field, Plus, Xor;
    var n := |message| - 2;
    assert XorAll(message, flips)[..n] == XorAll(message[..n], flips[..n]);
    Crc16Plus(message[..n], flips[..n]);
    FieldPlus(message[n], message[n + 1], flips[n], flips[n + 1]);
    PlusSame(Crc16(message[..n]), Crc16(flips[..n]), Field(flips[n], flips[n + 1]));
  }

  /** For flips in the covered bytes only: they go unnoticed if and only if their checksum is zero. */
  lemma CoveredCorruptionUnnoticedIff(message: seq<byte>, flips: seq<byte>)
    requires Intact(message) && |flips| == |message| - 2
    ensures Intact(XorAll(message[..|flips|], flips) + message[|flips|..]) <==> Crc16(flips) == 0
  {
    hide Crc16, Field, Plus, Xor;
    var n := |flips|;
    var received := XorAll(message[..n], flips) + message[n..];
    assert received[..n] == XorAll(message[..n], flips);
    assert received[n] == message[n] && received[n + 1] == message[n + 1];
    Crc16Plus(message[..n], flips);
    PlusNothing(Crc16(message[..n]));
    PlusSame(Crc16(message[..n]), Crc16(flips), 0);
  }

  lemma {:induction false} ZerosBehind(s: seq<byte>, k: nat)
    requires k <= |s| && forall j | k <= j < |s| :: s[j] == 0
    requires Crc16(s[..k]) == 0
    ensures Crc16(s) == 0
  {
    hide FeedByte, BitSteps;
    if k < |s| {
      var n := |s| - 1;
      assert s[..n][..k] == s[..k];
      ZerosBehind(s[..n], k);
      FeedZero(0);
      StepsOfZero(8);
    } else {
      assert s[..k] == s;
    }
  }

  /** The polynomial itself, laid over three bytes: four flipped bits in a burst that spans seventeen positions. */
  ghost predicate PolynomialAt(flips: seq<byte>, i: nat) {
    i + 2 < |flips| && flips[i] == 0x01 && flips[i + 1] == 0x10 && flips[i + 2] == 0x21 &&
    forall j | 0 <= j < |flips| && !(i <= j <= i + 2) :: flips[j] == 0
  }

  /** Its checksum is zero wherever it stands. */
  lemma SeventeenBitBurstUndetected(flips: seq<byte>, i: nat)
    requires PolynomialAt(flips, i)
    ensures Crc16(flips) == 0
  {
    hide Crc16, Three;
    CrcOfZeros(flips[..i]);
    ThreeBytes(flips, i);
    PolynomialBurst();
    PolynomialBytes();
    ZerosBehind(flips, i + 3);
  }

  lemma PolynomialBytes()
    ensures (0x01 as byte) as bv8 == 0x01 && (0x10 as byte) as bv8 == 0x10 && (0x21 as byte) as bv8 == 0x21
  {
  }

  lemma PolynomialBurst()
    ensures Three(0x01, 0x10, 0x21) == 0
  {
  }
}
