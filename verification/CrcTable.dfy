/** The table-driven form of the checksum, as the board computes it. */
module CrcTable {
  import opened Bytes
  import opened Crc

  // The table of the board: one function for every sixteen entries.

  function Row0(c: bv8): bv16 {
    match c
    case 0 => 0x0000 case 1 => 0x1021 case 2 => 0x2042 case 3 => 0x3063
    case 4 => 0x4084 case 5 => 0x50A5 case 6 => 0x60C6 case 7 => 0x70E7
    case 8 => 0x8108 case 9 => 0x9129 case 10 => 0xA14A case 11 => 0xB16B
    case 12 => 0xC18C case 13 => 0xD1AD case 14 => 0xE1CE case _ => 0xF1EF
  }

  function Row1(c: bv8): bv16 {
    match c
    case 0 => 0x1231 case 1 => 0x0210 case 2 => 0x3273 case 3 => 0x2252
    case 4 => 0x52B5 case 5 => 0x4294 case 6 => 0x72F7 case 7 => 0x62D6
    case 8 => 0x9339 case 9 => 0x8318 case 10 => 0xB37B case 11 => 0xA35A
    case 12 => 0xD3BD case 13 => 0xC39C case 14 => 0xF3FF case _ => 0xE3DE
  }

  function Row2(c: bv8): bv16 {
    match c
    case 0 => 0x2462 case 1 => 0x3443 case 2 => 0x0420 case 3 => 0x1401
    case 4 => 0x64E6 case 5 => 0x74C7 case 6 => 0x44A4 case 7 => 0x5485
    case 8 => 0xA56A case 9 => 0xB54B case 10 => 0x8528 case 11 => 0x9509
    case 12 => 0xE5EE case 13 => 0xF5CF case 14 => 0xC5AC case _ => 0xD58D
  }

  function Row3(c: bv8): bv16 {
    match c
    case 0 => 0x3653 case 1 => 0x2672 case 2 => 0x1611 case 3 => 0x0630
    case 4 => 0x76D7 case 5 => 0x66F6 case 6 => 0x5695 case 7 => 0x46B4
    case 8 => 0xB75B case 9 => 0xA77A case 10 => 0x9719 case 11 => 0x8738
    case 12 => 0xF7DF case 13 => 0xE7FE case 14 => 0xD79D case _ => 0xC7BC
  }

  function Row4(c: bv8): bv16 {
    match c
    case 0 => 0x48C4 case 1 => 0x58E5 case 2 => 0x6886 case 3 => 0x78A7
    case 4 => 0x0840 case 5 => 0x1861 case 6 => 0x2802 case 7 => 0x3823
    case 8 => 0xC9CC case 9 => 0xD9ED case 10 => 0xE98E case 11 => 0xF9AF
    case 12 => 0x8948 case 13 => 0x9969 case 14 => 0xA90A case _ => 0xB92B
  }

  function Row5(c: bv8): bv16 {
    match c
    case 0 => 0x5AF5 case 1 => 0x4AD4 case 2 => 0x7AB7 case 3 => 0x6A96
    case 4 => 0x1A71 case 5 => 0x0A50 case 6 => 0x3A33 case 7 => 0x2A12
    case 8 => 0xDBFD case 9 => 0xCBDC case 10 => 0xFBBF case 11 => 0xEB9E
    case 12 => 0x9B79 case 13 => 0x8B58 case 14 => 0xBB3B case _ => 0xAB1A
  }

  function Row6(c: bv8): bv16 {
    match c
    case 0 => 0x6CA6 case 1 => 0x7C87 case 2 => 0x4CE4 case 3 => 0x5CC5
    case 4 => 0x2C22 case 5 => 0x3C03 case 6 => 0x0C60 case 7 => 0x1C41
    case 8 => 0xEDAE case 9 => 0xFD8F case 10 => 0xCDEC case 11 => 0xDDCD
    case 12 => 0xAD2A case 13 => 0xBD0B case 14 => 0x8D68 case _ => 0x9D49
  }

  function Row7(c: bv8): bv16 {
    match c
    case 0 => 0x7E97 case 1 => 0x6EB6 case 2 => 0x5ED5 case 3 => 0x4EF4
    case 4 => 0x3E13 case 5 => 0x2E32 case 6 => 0x1E51 case 7 => 0x0E70
    case 8 => 0xFF9F case 9 => 0xEFBE case 10 => 0xDFDD case 11 => 0xCFFC
    case 12 => 0xBF1B case 13 => 0xAF3A case 14 => 0x9F59 case _ => 0x8F78
  }

  function Row8(c: bv8): bv16 {
    match c
    case 0 => 0x9188 case 1 => 0x81A9 case 2 => 0xB1CA case 3 => 0xA1EB
    case 4 => 0xD10C case 5 => 0xC12D case 6 => 0xF14E case 7 => 0xE16F
    case 8 => 0x1080 case 9 => 0x00A1 case 10 => 0x30C2 case 11 => 0x20E3
    case 12 => 0x5004 case 13 => 0x4025 case 14 => 0x7046 case _ => 0x6067
  }

  function Row9(c: bv8): bv16 {
    match c
    case 0 => 0x83B9 case 1 => 0x9398 case 2 => 0xA3FB case 3 => 0xB3DA
    case 4 => 0xC33D case 5 => 0xD31C case 6 => 0xE37F case 7 => 0xF35E
    case 8 => 0x02B1 case 9 => 0x1290 case 10 => 0x22F3 case 11 => 0x32D2
    case 12 => 0x4235 case 13 => 0x5214 case 14 => 0x6277 case _ => 0x7256
  }

  function RowA(c: bv8): bv16 {
    match c
    case 0 => 0xB5EA case 1 => 0xA5CB case 2 => 0x95A8 case 3 => 0x8589
    case 4 => 0xF56E case 5 => 0xE54F case 6 => 0xD52C case 7 => 0xC50D
    case 8 => 0x34E2 case 9 => 0x24C3 case 10 => 0x14A0 case 11 => 0x0481
    case 12 => 0x7466 case 13 => 0x6447 case 14 => 0x5424 case _ => 0x4405
  }

  function RowB(c: bv8): bv16 {
    match c
    case 0 => 0xA7DB case 1 => 0xB7FA case 2 => 0x8799 case 3 => 0x97B8
    case 4 => 0xE75F case 5 => 0xF77E case 6 => 0xC71D case 7 => 0xD73C
    case 8 => 0x26D3 case 9 => 0x36F2 case 10 => 0x0691 case 11 => 0x16B0
    case 12 => 0x6657 case 13 => 0x7676 case 14 => 0x4615 case _ => 0x5634
  }

  function RowC(c: bv8): bv16 {
    match c
    case 0 => 0xD94C case 1 => 0xC96D case 2 => 0xF90E case 3 => 0xE92F
    case 4 => 0x99C8 case 5 => 0x89E9 case 6 => 0xB98A case 7 => 0xA9AB
    case 8 => 0x5844 case 9 => 0x4865 case 10 => 0x7806 case 11 => 0x6827
    case 12 => 0x18C0 case 13 => 0x08E1 case 14 => 0x3882 case _ => 0x28A3
  }

  function RowD(c: bv8): bv16 {
    match c
    case 0 => 0xCB7D case 1 => 0xDB5C case 2 => 0xEB3F case 3 => 0xFB1E
    case 4 => 0x8BF9 case 5 => 0x9BD8 case 6 => 0xABBB case 7 => 0xBB9A
    case 8 => 0x4A75 case 9 => 0x5A54 case 10 => 0x6A37 case 11 => 0x7A16
    case 12 => 0x0AF1 case 13 => 0x1AD0 case 14 => 0x2AB3 case _ => 0x3A92
  }

  function RowE(c: bv8): bv16 {
    match c
    case 0 => 0xFD2E case 1 => 0xED0F case 2 => 0xDD6C case 3 => 0xCD4D
    case 4 => 0xBDAA case 5 => 0xAD8B case 6 => 0x9DE8 case 7 => 0x8DC9
    case 8 => 0x7C26 case 9 => 0x6C07 case 10 => 0x5C64 case 11 => 0x4C45
    case 12 => 0x3CA2 case 13 => 0x2C83 case 14 => 0x1CE0 case _ => 0x0CC1
  }

  function RowF(c: bv8): bv16 {
    match c
    case 0 => 0xEF1F case 1 => 0xFF3E case 2 => 0xCF5D case 3 => 0xDF7C
    case 4 => 0xAF9B case 5 => 0xBFBA case 6 => 0x8FD9 case 7 => 0x9FF8
    case 8 => 0x6E17 case 9 => 0x7E36 case 10 => 0x4E55 case 11 => 0x5E74
    case 12 => 0x2E93 case 13 => 0x3EB2 case 14 => 0x0ED1 case _ => 0x1EF0
  }

  function RowAt(h: bv8, c: bv8): bv16 {
    match h
    case 0 => Row0(c)
    case 1 => Row1(c)
    case 2 => Row2(c)
    case 3 => Row3(c)
    case 4 => Row4(c)
    case 5 => Row5(c)
    case 6 => Row6(c)
    case 7 => Row7(c)
    case 8 => Row8(c)
    case 9 => Row9(c)
    case 10 => RowA(c)
    case 11 => RowB(c)
    case 12 => RowC(c)
    case 13 => RowD(c)
    case 14 => RowE(c)
    case _ => RowF(c)
  }

  function TableAt(i: bv8): bv16 {
    RowAt(i >> 4, i & 0xF)
  }

  function TableIndex(crc: bv16, b: byte): bv8 {
    (((crc >> 8) ^ Wide(b)) & 0xFF) as bv8
  }

  /** The table-driven algorithm. It computes the same checksum as the bit-by-bit one. */
  method Crc16Ccitt(data: seq<byte>) returns (crc: bv16)
    ensures crc == Crc16(data)
  {
    crc := 0;
    for i := 0 to |data|
      invariant crc == Crc16(data[..i])
    {
      assert data[..i + 1][..i] == data[..i];
      TableStepIsFeedByte(crc, data[i]);
      crc := (crc << 8) ^ TableAt(TableIndex(crc, data[i]));
    }
    assert data[..|data|] == data;
  }

  // ---- The table holds eight bit steps of each index ----

  /** The contribution of one byte in closed form. */
  function ClosedForm(w: bv8): bv16 {
    var t := (w ^ (w >> 4)) as bv16;
    t ^ (t << 5) ^ (t << 12)
  }

  lemma EightStepsClosedForm(w: bv8)
    ensures LinearShift8((w as bv16) << 8) == ClosedForm(w)
  {
  }

  lemma RowsClosed(c: bv8)
    requires c < 16
    ensures Row0(c) == ClosedForm(c)
    ensures Row1(c) == ClosedForm(0x10 | c)
    ensures Row2(c) == ClosedForm(0x20 | c)
    ensures Row3(c) == ClosedForm(0x30 | c)
    ensures Row4(c) == ClosedForm(0x40 | c)
    ensures Row5(c) == ClosedForm(0x50 | c)
    ensures Row6(c) == ClosedForm(0x60 | c)
    ensures Row7(c) == ClosedForm(0x70 | c)
    ensures Row8(c) == ClosedForm(0x80 | c)
    ensures Row9(c) == ClosedForm(0x90 | c)
    ensures RowA(c) == ClosedForm(0xA0 | c)
    ensures RowB(c) == ClosedForm(0xB0 | c)
    ensures RowC(c) == ClosedForm(0xC0 | c)
    ensures RowD(c) == ClosedForm(0xD0 | c)
    ensures RowE(c) == ClosedForm(0xE0 | c)
    ensures RowF(c) == ClosedForm(0xF0 | c)
  {
  }

  lemma RowAtClosedForm(h: bv8, c: bv8)
    requires h < 16 && c < 16
    ensures RowAt(h, c) == ClosedForm((h << 4) | c)
  {
    hide ClosedForm, Row0, Row1, Row2, Row3, Row4, Row5, Row6, Row7, Row8, Row9, RowA, RowB, RowC, RowD, RowE, RowF;
    RowsClosed(c);
  }

  lemma TableAtClosedForm(i: bv8)
    ensures TableAt(i) == ClosedForm(i)
  {
    hide ClosedForm, RowAt;
    RowAtClosedForm(i >> 4, i & 0xF);
    assert i == ((i >> 4) << 4) | (i & 0xF);
  }

  function HighOf(i: bv8): bv16 {
    (i as bv16) << 8
  }

  /** Every entry of the table is eight bit steps of its index, placed in the high byte. */
  lemma TableEntry(i: bv8)
    ensures TableAt(i) == BitSteps(HighOf(i), 8)
  {
    hide BitSteps, LinearShift8, ClosedForm, TableAt;
    TableAtClosedForm(i);
    EightSteps(HighOf(i));
    EightStepsClosedForm(i);
  }

  function TableStep(crc: bv16, b: byte): bv16 {
    (crc << 8) ^ TableAt(TableIndex(crc, b))
  }

  /** One step of the table-driven loop is eight bit steps. */
  lemma TableStepIsFeedByte(crc: bv16, b: byte)
    ensures TableStep(crc, b) == FeedByte(crc, b)
  {
    hide *;
    var x := Plus(crc, High(b));
    FeedByteIsPlus(crc, b);
    HighAndLowByte(x);
    IndexBits(crc, b);
    TableEntry(TableIndex(crc, b));
    StepBits(crc, b);
    UpForgetsHigh(crc, b);
    PlusCommutes(Up(crc), TableAt(TableIndex(crc, b)));
  }

  lemma StepBits(crc: bv16, b: byte)
    ensures TableStep(crc, b) == Plus(Up(crc), TableAt(TableIndex(crc, b)))
  {
    hide TableAt, TableIndex, Plus;
    PlusIsXor(Up(crc), TableAt(TableIndex(crc, b)));
  }

  lemma PlusIsXor(x: bv16, y: bv16)
    ensures Plus(x, y) == x ^ y
  {
  }

  lemma UpForgetsHigh(crc: bv16, b: byte)
    ensures Up(Plus(crc, High(b))) == Up(crc)
  {
    hide Wide;
  }

  lemma IndexBits(crc: bv16, b: byte)
    ensures HighOf(TableIndex(crc, b)) == HighByte(Plus(crc, High(b)))
  {
    IndexBitsOf(crc, b as bv8);
  }

  lemma IndexBitsOf(crc: bv16, w: bv8)
    ensures ((((crc >> 8) ^ (w as bv16)) & 0xFF) as bv8 as bv16) << 8 == (crc ^ ((w as bv16) << 8)) & 0xFF00
  {
  }
}
