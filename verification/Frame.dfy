/** The 32-byte frame header, and the way both senders cut a blob into packets. */
module Frame {
  import opened Bytes
  import opened Crc
  import opened CrcDetection

  type u16 = x: int | 0 <= x < 0x1_0000
  type u32 = x: int | 0 <= x < 0x1_0000_0000
  type u64 = x: int | 0 <= x < 0x1_0000_0000_0000_0000

  const MAGIC: u16 := 0xABCD
  const HEADER_SIZE := 32
  const CHUNK := 1400

  /** The variable fields of a header. The magic number is fixed and the reserved fields are zero. */
  datatype Header = Header(dataLen: u16, frameId: u32, pkgCnt: u16, pkgId: u16, kind: u32, timestamp: u64)

  // ---- Little-endian numbers ----

  function Pow256(n: nat): nat {
    if n == 0 then 1 else 256 * Pow256(n - 1)
  }

  function LittleEndian(v: nat, n: nat): (s: seq<byte>)
    ensures |s| == n
  {
    if n == 0 then [] else [v % 256] + LittleEndian(v / 256, n - 1)
  }

  function Number(s: seq<byte>): nat {
    if s == [] then 0 else s[0] + 256 * Number(s[1..])
  }

  lemma {:induction false} NumberOfLittleEndian(v: nat, n: nat)
    requires v < Pow256(n)
    ensures Number(LittleEndian(v, n)) == v
  {
    if n > 0 {
      NumberOfLittleEndian(v / 256, n - 1);
      assert LittleEndian(v, n)[1..] == LittleEndian(v / 256, n - 1);
    }
  }

  // ---- Header layout ----

  /** The thirty bytes covered by the checksum. */
  function Covered(h: Header): (s: seq<byte>)
    ensures |s| == HEADER_SIZE - 2
  {
    LittleEndian(MAGIC, 2) + LittleEndian(h.dataLen, 2) + LittleEndian(h.frameId, 4) +
    LittleEndian(h.pkgCnt, 2) + LittleEndian(h.pkgId, 2) + LittleEndian(h.kind, 4) +
    LittleEndian(h.timestamp, 8) + LittleEndian(0, 4) + LittleEndian(0, 2)
  }

  function LowHalf(crc: bv16): byte {
    (crc & 0xFF) as bv8 as int
  }

  function HighHalf(crc: bv16): byte {
    (crc >> 8) as bv8 as int
  }

  function ChecksumBytes(crc: bv16): seq<byte> {
    [LowHalf(crc), HighHalf(crc)]
  }

  function Encode(h: Header): (s: seq<byte>)
    ensures |s| == HEADER_SIZE
  {
    Covered(h) + ChecksumBytes(Crc16(Covered(h)))
  }

  function Decode(raw: seq<byte>): Header
    requires |raw| >= HEADER_SIZE
  {
    U16AndU32Ranges(raw);
    Header(Number(raw[2..4]), Number(raw[4..8]), Number(raw[8..10]), Number(raw[10..12]),
           Number(raw[12..16]), Number(raw[16..24]))
  }

  lemma {:induction false} NumberRange(s: seq<byte>)
    ensures Number(s) < Pow256(|s|)
  {
    if s != [] {
      NumberRange(s[1..]);
    }
  }

  lemma U16AndU32Ranges(raw: seq<byte>)
    requires |raw| >= HEADER_SIZE
    ensures Number(raw[2..4]) < 0x1_0000 && Number(raw[8..10]) < 0x1_0000 && Number(raw[10..12]) < 0x1_0000
    ensures Number(raw[4..8]) < 0x1_0000_0000 && Number(raw[12..16]) < 0x1_0000_0000
    ensures Number(raw[16..24]) < 0x1_0000_0000_0000_0000
  {
    Powers();
    NumberRange(raw[2..4]);
    NumberRange(raw[8..10]);
    NumberRange(raw[10..12]);
    NumberRange(raw[4..8]);
    NumberRange(raw[12..16]);
    NumberRange(raw[16..24]);
  }

  lemma Powers()
    ensures Pow256(2) == 0x1_0000
    ensures Pow256(4) == 0x1_0000_0000
    ensures Pow256(8) == 0x1_0000_0000_0000_0000
  {
    assert Pow256(3) == 256 * Pow256(2);
    assert Pow256(5) == 256 * Pow256(4);
    assert Pow256(6) == 256 * Pow256(5);
    assert Pow256(7) == 256 * Pow256(6);
  }

  /** The receivers' test: magic number and checksum. */
  predicate ValidHeader(raw: seq<byte>)
    requires |raw| >= HEADER_SIZE
  {
    Number(raw[0..2]) == MAGIC && Intact(raw[..HEADER_SIZE])
  }

  method BuildFrameHeader(h: Header) returns (raw: seq<byte>)
    ensures raw == Encode(h)
  {
    var magic := LittleEndian(MAGIC, 2);
    var covered := magic + LittleEndian(h.dataLen, 2) + LittleEndian(h.frameId, 4) +
                   LittleEndian(h.pkgCnt, 2) + LittleEndian(h.pkgId, 2) + LittleEndian(h.kind, 4) +
                   LittleEndian(h.timestamp, 8) + LittleEndian(0, 4) + LittleEndian(0, 2);
    var crc := Crc16Xmodem(covered);
    raw := covered + ChecksumBytes(crc);
  }

  method ValidateFrameHeader(raw: seq<byte>) returns (ok: bool)
    requires |raw| >= HEADER_SIZE
    ensures ok == ValidHeader(raw)
  {
    if Number(raw[0..2]) != MAGIC {
      return false;
    }
    var crc := Crc16Xmodem(raw[..HEADER_SIZE - 2]);
    ok := crc == Field(raw[30], raw[31]);
    assert raw[..HEADER_SIZE][..HEADER_SIZE - 2] == raw[..HEADER_SIZE - 2];
  }

  lemma FieldOfChecksumBytes(crc: bv16)
    ensures Field(LowHalf(crc), HighHalf(crc)) == crc
  {
    ByteOfBits((crc & 0xFF) as bv8);
    ByteOfBits((crc >> 8) as bv8);
    HalvesJoin(crc);
  }

  lemma HalvesJoin(crc: bv16)
    ensures (((crc >> 8) as bv8 as bv16) << 8) ^ ((crc & 0xFF) as bv8 as bv16) == crc
  {
  }

  lemma TwoDigits(s: seq<byte>)
    requires |s| == 2
    ensures Number(s) == s[0] as int + 0x100 * s[1] as int
  {
    NumberOfTwo(s);
    assert s[0..2] == s;
  }

  lemma FourDigits(s: seq<byte>)
    requires |s| == 4
    ensures Number(s) == s[0] as int + 0x100 * s[1] as int + 0x1_0000 * s[2] as int + 0x100_0000 * s[3] as int
  {
    TwoDigits(s[2..]);
    assert s[1..][1..] == s[2..];
  }

  lemma EightDigits(s: seq<byte>)
    requires |s| == 8
    ensures Number(s) ==
      (s[0] as int + 0x100 * s[1] as int + 0x1_0000 * s[2] as int + 0x100_0000 * s[3] as int) + 0x1_0000_0000 *
      (s[4] as int + 0x100 * s[5] as int + 0x1_0000 * s[6] as int + 0x100_0000 * s[7] as int)
  {
    FourDigits(s[4..]);
    assert s[1..][1..] == s[2..] && s[2..][1..] == s[3..] && s[3..][1..] == s[4..];
    assert Number(s[2..]) == s[2] as int + 0x100 * Number(s[3..]);
  }

  /**
   Where each field of a header is, byte by byte: lowest byte first, the magic number as CD AB, and the checksum of the
   thirty bytes before it in the last two.
   */
  lemma HeaderLayout(raw: seq<byte>)
    requires |raw| >= HEADER_SIZE
    ensures ValidHeader(raw) <==>
      raw[0] == 0xCD && raw[1] == 0xAB && Crc16(raw[..30]) == (Wide(raw[31]) << 8) ^ Wide(raw[30])
    ensures Decode(raw).dataLen == raw[2] as int + 0x100 * raw[3] as int
    ensures Decode(raw).frameId ==
      raw[4] as int + 0x100 * raw[5] as int + 0x1_0000 * raw[6] as int + 0x100_0000 * raw[7] as int
    ensures Decode(raw).pkgCnt == raw[8] as int + 0x100 * raw[9] as int
    ensures Decode(raw).pkgId == raw[10] as int + 0x100 * raw[11] as int
    ensures Decode(raw).kind ==
      raw[12] as int + 0x100 * raw[13] as int + 0x1_0000 * raw[14] as int + 0x100_0000 * raw[15] as int
    ensures Decode(raw).timestamp ==
      (raw[16] as int + 0x100 * raw[17] as int + 0x1_0000 * raw[18] as int + 0x100_0000 * raw[19] as int) +
      0x1_0000_0000 *
      (raw[20] as int + 0x100 * raw[21] as int + 0x1_0000 * raw[22] as int + 0x100_0000 * raw[23] as int)
  {
    TwoDigits(raw[0..2]);
    TwoDigits(raw[2..4]);
    FourDigits(raw[4..8]);
    TwoDigits(raw[8..10]);
    TwoDigits(raw[10..12]);
    FourDigits(raw[12..16]);
    EightDigits(raw[16..24]);
    assert raw[..HEADER_SIZE][..30] == raw[..30];
    hide Number, Crc16;
  }

  /** The reserved fields of a header the senders write are zero. */
  lemma ReservedAreZero(h: Header)
    ensures forall i | 24 <= i < 30 :: Encode(h)[i] == 0
  {
    hide Crc16, ChecksumBytes;
    assert LittleEndian(0, 4) == [0] + LittleEndian(0, 3) == [0, 0, 0, 0];
    assert LittleEndian(0, 2) == [0] + LittleEndian(0, 1) == [0, 0];
    assert Covered(h)[24..30] == [0, 0, 0, 0, 0, 0];
    assert forall i | 24 <= i < 30 :: Encode(h)[i] == Covered(h)[24..30][i - 24];
  }

  /** A header as the sender writes it passes the test and is read back unchanged, whatever follows it. */
  lemma HeaderRoundTrip(h: Header, rest: seq<byte>)
    ensures ValidHeader(Encode(h) + rest)
    ensures Decode(Encode(h) + rest) == h
  {
    EncodedIsValid(h, rest);
    EncodedFields(h, rest);
    Powers();
    NumberOfLittleEndian(h.dataLen, 2);
    NumberOfLittleEndian(h.frameId, 4);
    NumberOfLittleEndian(h.pkgCnt, 2);
    NumberOfLittleEndian(h.pkgId, 2);
    NumberOfLittleEndian(h.kind, 4);
    NumberOfLittleEndian(h.timestamp, 8);
  }

  lemma EncodedIsValid(h: Header, rest: seq<byte>)
    ensures ValidHeader(Encode(h) + rest)
  {
    hide Crc16, Field, LowHalf, HighHalf;
    var raw := Encode(h) + rest;
    assert raw[..HEADER_SIZE] == Encode(h);
    assert raw[0..2] == LittleEndian(MAGIC, 2);
    Powers();
    NumberOfLittleEndian(MAGIC, 2);
    FieldOfChecksumBytes(Crc16(Covered(h)));
    assert Encode(h)[..HEADER_SIZE - 2] == Covered(h);
  }

  lemma EncodedFields(h: Header, rest: seq<byte>)
    ensures var raw := Encode(h) + rest;
      raw[2..4] == LittleEndian(h.dataLen, 2) && raw[4..8] == LittleEndian(h.frameId, 4) &&
      raw[8..10] == LittleEndian(h.pkgCnt, 2) && raw[10..12] == LittleEndian(h.pkgId, 2) &&
      raw[12..16] == LittleEndian(h.kind, 4) && raw[16..24] == LittleEndian(h.timestamp, 8)
  {
    hide LittleEndian, Crc16, ChecksumBytes;
    var raw := Encode(h) + rest;
    var c := Covered(h);
    assert raw[..HEADER_SIZE - 2] == c;
    assert c[2..4] == LittleEndian(h.dataLen, 2);
    assert c[4..8] == LittleEndian(h.frameId, 4);
    assert c[8..10] == LittleEndian(h.pkgCnt, 2);
    assert c[10..12] == LittleEndian(h.pkgId, 2);
    assert c[12..16] == LittleEndian(h.kind, 4);
    assert c[16..24] == LittleEndian(h.timestamp, 8);
  }

  /** An odd number of flipped bits anywhere in a valid header makes it invalid. */
  lemma HeaderOddFlipsDetected(raw: seq<byte>, flips: seq<byte>)
    requires |raw| == |flips| == HEADER_SIZE && ValidHeader(raw)
    requires BitCount(flips) % 2 == 1
    ensures !ValidHeader(XorAll(raw, flips))
  {
    hide BitCount, Intact;
    assert raw[..HEADER_SIZE] == raw;
    OddFlipsDetected(raw, flips);
    assert XorAll(raw, flips)[..HEADER_SIZE] == XorAll(raw, flips);
  }

  /** A burst of at most sixteen flipped bits in the covered part of a valid header makes it invalid. */
  lemma HeaderBurstDetected(raw: seq<byte>, flips: seq<byte>, i: nat, s: nat)
    requires |raw| == HEADER_SIZE && |flips| == HEADER_SIZE - 2 && ValidHeader(raw)
    requires Burst(flips, i, s)
    ensures !ValidHeader(XorAll(raw[..HEADER_SIZE - 2], flips) + raw[HEADER_SIZE - 2..])
  {
    hide Burst, Intact;
    assert raw[..HEADER_SIZE] == raw;
    BurstDetected(raw, flips, i, s);
    var received := XorAll(raw[..HEADER_SIZE - 2], flips) + raw[HEADER_SIZE - 2..];
    assert received[..HEADER_SIZE] == received;
  }

  lemma XorIsSame(x: byte, f: byte)
    ensures Xor(x, f) == x <==> f == 0
  {
    ByteOfBits((x as bv8) ^ (f as bv8));
    if f == 0 {
      NothingFlipped(x);
    } else if f as bv8 == 0 {
      NonzeroBits(f);
    }
  }

  lemma NothingFlipped(x: byte)
    ensures Xor(x, 0) == x
  {
  }

  /** The magic number is read unchanged if and only if none of its bits is flipped. */
  lemma MagicFlipped(raw: seq<byte>, flips: seq<byte>)
    requires |raw| == |flips| >= 2 && Number(raw[0..2]) == MAGIC
    ensures Number(XorAll(raw, flips)[0..2]) == MAGIC <==> flips[0] == 0 && flips[1] == 0
  {
    hide Xor;
    var received := XorAll(raw, flips);
    NumberOfTwo(raw);
    NumberOfTwo(received);
    XorIsSame(raw[0], flips[0]);
    XorIsSame(raw[1], flips[1]);
  }

  lemma NumberOfTwo(s: seq<byte>)
    requires |s| >= 2
    ensures Number(s[0..2]) == s[0] as int + 256 * s[1] as int
  {
    var two := s[0..2];
    assert two[1..] == [s[1]];
    assert [s[1]][1..] == [];
    assert Number([s[1]]) == s[1] as int + 256 * Number([]);
  }

  /**
   Exactly which corruptions of a valid header pass the test: those that leave the magic number alone and whose flipped
   bits, taken as a header, match their own checksum.
   */
  lemma HeaderCorruptionUnnoticedIff(raw: seq<byte>, flips: seq<byte>)
    requires |raw| == |flips| == HEADER_SIZE && ValidHeader(raw)
    ensures ValidHeader(XorAll(raw, flips)) <==> flips[0] == 0 && flips[1] == 0 && Intact(flips)
  {
    hide Intact, Number, Xor;
    assert raw[..HEADER_SIZE] == raw && XorAll(raw, flips)[..HEADER_SIZE] == XorAll(raw, flips);
    CorruptionUnnoticedIff(raw, flips);
    MagicFlipped(raw, flips);
  }
}
