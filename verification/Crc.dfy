/**
 CRC-16/XMODEM (initial value 0, polynomial 0x1021) in the two forms the system uses: bit by bit
 on the desktop side, by a 256-entry table on the board.
 */
module Crc {
  import opened Bytes

  const POLYNOMIAL: bv16 := 0x1021

  function BitStep(crc: bv16): bv16 {
    if crc & 0x8000 != 0 then (crc << 1) ^ POLYNOMIAL else crc << 1
  }

  function BitSteps(crc: bv16, n: nat): bv16 {
    if n == 0 then crc else BitStep(BitSteps(crc, n - 1))
  }

  function FeedByte(crc: bv16, b: byte): bv16 {
    BitSteps(crc ^ (Wide(b) << 8), 8)
  }

  /** The checksum of a byte string. */
  function Crc16(data: seq<byte>): bv16 {
    if data == [] then 0 else FeedByte(Crc16(data[..|data| - 1]), data[|data| - 1])
  }

  /** The bit-by-bit algorithm. */
  method Crc16Xmodem(data: seq<byte>) returns (crc: bv16)
    ensures crc == Crc16(data)
  {
    crc := 0;
    for i := 0 to |data|
      invariant crc == Crc16(data[..i])
    {
      assert data[..i + 1][..i] == data[..i];
      crc := crc ^ (Wide(data[i]) << 8);
      ghost var start := crc;
      for b := 0 to 8
        invariant crc == BitSteps(start, b)
      {
        if crc & 0x8000 != 0 {
          crc := (crc << 1) ^ POLYNOMIAL;
        } else {
          crc := crc << 1;
        }
      }
    }
    assert data[..|data|] == data;
  }

  // ---- Linearity ----
  // In the proofs below the bit-vector operations are named functions, hidden wherever only their
  // algebra matters.

  /** Addition of polynomials over GF(2). */
  function Plus(a: bv16, b: bv16): bv16 {
    a ^ b
  }

  /** The low half of the register moved to the high half. */
  function Up(x: bv16): bv16 {
    x << 8
  }

  /** A byte in the high half of the register. */
  function High(b: byte): bv16 {
    Up(Wide(b))
  }

  lemma PlusCommutes(a: bv16, b: bv16)
    ensures Plus(a, b) == Plus(b, a)
  {
  }

  lemma PlusAssociates(a: bv16, b: bv16, c: bv16)
    ensures Plus(Plus(a, b), c) == Plus(a, Plus(b, c))
  {
  }

  lemma PlusSwap(a: bv16, b: bv16, c: bv16, d: bv16)
    ensures Plus(Plus(a, b), Plus(c, d)) == Plus(Plus(a, c), Plus(b, d))
  {
    hide *;
    PlusAssociates(a, b, Plus(c, d));
    PlusAssociates(b, c, d);
    PlusCommutes(b, c);
    PlusAssociates(c, b, d);
    PlusAssociates(a, c, Plus(b, d));
  }

  lemma UpPlus(a: bv16, b: bv16)
    ensures Up(Plus(a, b)) == Plus(Up(a), Up(b))
  {
  }

  lemma FeedByteIsPlus(crc: bv16, b: byte)
    ensures FeedByte(crc, b) == BitSteps(Plus(crc, High(b)), 8)
  {
    hide BitSteps;
  }

  /** One bit step without a branch: the top bit `t` is added back at the positions of the polynomial. */
  function LinearStep(crc: bv16): bv16 {
    var t := crc >> 15;
    (crc << 1) ^ t ^ (t << 5) ^ (t << 12)
  }

  lemma StepIsLinearStep(x: bv16)
    ensures BitStep(x) == LinearStep(x)
  {
    hide BitStep;
    if x & 0x8000 == 0 {
      TopBitClear(x);
    } else {
      TopBitSet(x);
    }
  }

  lemma TopBitClear(x: bv16)
    requires x & 0x8000 == 0
    ensures BitStep(x) == LinearStep(x)
  {
    assert x >> 15 == 0;
  }

  lemma TopBitSet(x: bv16)
    requires x & 0x8000 != 0
    ensures BitStep(x) == LinearStep(x)
  {
    assert x >> 15 == 1;
  }

  lemma LinearStepXor(a: bv16, b: bv16)
    ensures LinearStep(a ^ b) == LinearStep(a) ^ LinearStep(b)
  {
  }

  lemma BitStepPlus(a: bv16, b: bv16)
    ensures BitStep(Plus(a, b)) == Plus(BitStep(a), BitStep(b))
  {
    hide BitStep, LinearStep;
    StepIsLinearStep(Plus(a, b));
    StepIsLinearStep(a);
    StepIsLinearStep(b);
    LinearStepXor(a, b);
  }

  lemma {:induction false} BitStepsPlus(a: bv16, b: bv16, n: nat)
    ensures BitSteps(Plus(a, b), n) == Plus(BitSteps(a, n), BitSteps(b, n))
  {
    hide Plus, BitStep;
    if n > 0 {
      BitStepsPlus(a, b, n - 1);
      BitStepPlus(BitSteps(a, n - 1), BitSteps(b, n - 1));
    }
  }

  lemma HighPlus(crc: bv16, crc': bv16, b: byte, b': byte)
    ensures Plus(Plus(crc, crc'), High(Xor(b, b'))) == Plus(Plus(crc, High(b)), Plus(crc', High(b')))
  {
    hide Plus, Up, Wide, Xor;
    WidePlus(b, b');
    UpPlus(Wide(b), Wide(b'));
    PlusSwap(crc, crc', High(b), High(b'));
  }

  lemma WidePlus(b: byte, b': byte)
    ensures Wide(Xor(b, b')) == Plus(Wide(b), Wide(b'))
  {
    hide Wide, Xor;
    WideXor(b, b');
  }

  lemma FeedBytePlus(crc: bv16, crc': bv16, b: byte, b': byte)
    ensures FeedByte(Plus(crc, crc'), Xor(b, b')) == Plus(FeedByte(crc, b), FeedByte(crc', b'))
  {
    hide *;
    FeedByteIsPlus(Plus(crc, crc'), Xor(b, b'));
    FeedByteIsPlus(crc, b);
    FeedByteIsPlus(crc', b');
    HighPlus(crc, crc', b, b');
    BitStepsPlus(Plus(crc, High(b)), Plus(crc', High(b')), 8);
  }

  /** The checksum of the difference of two messages of one length is the difference of their checksums. */
  lemma {:induction false} Crc16Plus(a: seq<byte>, b: seq<byte>)
    requires |a| == |b|
    ensures Crc16(XorAll(a, b)) == Plus(Crc16(a), Crc16(b))
  {
    if a == [] {
      assert XorAll(a, b) == [];
    } else {
      hide FeedByte, Plus, Xor;
      var n := |a| - 1;
      assert XorAll(a, b)[..n] == XorAll(a[..n], b[..n]);
      Crc16Plus(a[..n], b[..n]);
      FeedBytePlus(Crc16(a[..n]), Crc16(b[..n]), a[n], b[n]);
    }
  }

  // ---- Eight steps at once ----

  function LinearShift8(x: bv16): bv16 {
    LinearStep(LinearStep(LinearStep(LinearStep(LinearStep(LinearStep(LinearStep(LinearStep(x))))))))
  }

  lemma {:induction false} BitStepsAhead(x: bv16, n: nat)
    requires n > 0
    ensures BitSteps(x, n) == BitSteps(LinearStep(x), n - 1)
  {
    if n == 1 {
      assert BitSteps(x, 0) == x;
      StepIsLinearStep(x);
    } else {
      BitStepsAhead(x, n - 1);
    }
  }

  lemma EightSteps(x: bv16)
    ensures BitSteps(x, 8) == LinearShift8(x)
  {
    hide LinearStep;
    var x1 := LinearStep(x);
    var x2 := LinearStep(x1);
    var x3 := LinearStep(x2);
    var x4 := LinearStep(x3);
    var x5 := LinearStep(x4);
    var x6 := LinearStep(x5);
    var x7 := LinearStep(x6);
    BitStepsAhead(x, 8);
    BitStepsAhead(x1, 7);
    BitStepsAhead(x2, 6);
    BitStepsAhead(x3, 5);
    BitStepsAhead(x4, 4);
    BitStepsAhead(x5, 3);
    BitStepsAhead(x6, 2);
    BitStepsAhead(x7, 1);
  }

  function HighByte(x: bv16): bv16 {
    x & 0xFF00
  }

  /** Eight steps move the low byte up and replace the high byte by what it contributes on its own. */
  lemma HighAndLowByte(x: bv16)
    ensures BitSteps(x, 8) == Plus(BitSteps(HighByte(x), 8), Up(x))
  {
    hide *;
    var low := LowByteEightSteps(x);
    BitStepsPlus(HighByte(x), low, 8);
  }

  lemma LowByteEightSteps(x: bv16) returns (low: bv16)
    ensures x == Plus(HighByte(x), low)
    ensures BitSteps(low, 8) == Up(x)
  {
    hide BitSteps;
    low := x & 0x00FF;
    EightSteps(low);
    LinearShiftOfLowByte(x);
  }

  lemma LinearShiftOfLowByte(x: bv16)
    ensures LinearShift8(x & 0x00FF) == x << 8
  {
  }
}
