/** The table-driven CRC-16 of the RTU framing, and what it computes and detects. */
module MbCrc {
  import opened Bytes
  import opened Octets

  /** The two tables, sixteen entries a row. */
  const aucCRCHi: seq<seq<bv8>> := [
    [0x00, 0xC1, 0x81, 0x40, 0x01, 0xC0, 0x80, 0x41, 0x01, 0xC0, 0x80, 0x41, 0x00, 0xC1, 0x81, 0x40],
    [0x01, 0xC0, 0x80, 0x41, 0x00, 0xC1, 0x81, 0x40, 0x00, 0xC1, 0x81, 0x40, 0x01, 0xC0, 0x80, 0x41],
    [0x01, 0xC0, 0x80, 0x41, 0x00, 0xC1, 0x81, 0x40, 0x00, 0xC1, 0x81, 0x40, 0x01, 0xC0, 0x80, 0x41],
    [0x00, 0xC1, 0x81, 0x40, 0x01, 0xC0, 0x80, 0x41, 0x01, 0xC0, 0x80, 0x41, 0x00, 0xC1, 0x81, 0x40],
    [0x01, 0xC0, 0x80, 0x41, 0x00, 0xC1, 0x81, 0x40, 0x00, 0xC1, 0x81, 0x40, 0x01, 0xC0, 0x80, 0x41],
    [0x00, 0xC1, 0x81, 0x40, 0x01, 0xC0, 0x80, 0x41, 0x01, 0xC0, 0x80, 0x41, 0x00, 0xC1, 0x81, 0x40],
    [0x00, 0xC1, 0x81, 0x40, 0x01, 0xC0, 0x80, 0x41, 0x01, 0xC0, 0x80, 0x41, 0x00, 0xC1, 0x81, 0x40],
    [0x01, 0xC0, 0x80, 0x41, 0x00, 0xC1, 0x81, 0x40, 0x00, 0xC1, 0x81, 0x40, 0x01, 0xC0, 0x80, 0x41],
    [0x01, 0xC0, 0x80, 0x41, 0x00, 0xC1, 0x81, 0x40, 0x00, 0xC1, 0x81, 0x40, 0x01, 0xC0, 0x80, 0x41],
    [0x00, 0xC1, 0x81, 0x40, 0x01, 0xC0, 0x80, 0x41, 0x01, 0xC0, 0x80, 0x41, 0x00, 0xC1, 0x81, 0x40],
    [0x00, 0xC1, 0x81, 0x40, 0x01, 0xC0, 0x80, 0x41, 0x01, 0xC0, 0x80, 0x41, 0x00, 0xC1, 0x81, 0x40],
    [0x01, 0xC0, 0x80, 0x41, 0x00, 0xC1, 0x81, 0x40, 0x00, 0xC1, 0x81, 0x40, 0x01, 0xC0, 0x80, 0x41],
    [0x00, 0xC1, 0x81, 0x40, 0x01, 0xC0, 0x80, 0x41, 0x01, 0xC0, 0x80, 0x41, 0x00, 0xC1, 0x81, 0x40],
    [0x01, 0xC0, 0x80, 0x41, 0x00, 0xC1, 0x81, 0x40, 0x00, 0xC1, 0x81, 0x40, 0x01, 0xC0, 0x80, 0x41],
    [0x01, 0xC0, 0x80, 0x41, 0x00, 0xC1, 0x81, 0x40, 0x00, 0xC1, 0x81, 0x40, 0x01, 0xC0, 0x80, 0x41],
    [0x00, 0xC1, 0x81, 0x40, 0x01, 0xC0, 0x80, 0x41, 0x01, 0xC0, 0x80, 0x41, 0x00, 0xC1, 0x81, 0x40]
  ]

  const aucCRCLo: seq<seq<bv8>> := [
    [0x00, 0xC0, 0xC1, 0x01, 0xC3, 0x03, 0x02, 0xC2, 0xC6, 0x06, 0x07, 0xC7, 0x05, 0xC5, 0xC4, 0x04],
    [0xCC, 0x0C, 0x0D, 0xCD, 0x0F, 0xCF, 0xCE, 0x0E, 0x0A, 0xCA, 0xCB, 0x0B, 0xC9, 0x09, 0x08, 0xC8],
    [0xD8, 0x18, 0x19, 0xD9, 0x1B, 0xDB, 0xDA, 0x1A, 0x1E, 0xDE, 0xDF, 0x1F, 0xDD, 0x1D, 0x1C, 0xDC],
    [0x14, 0xD4, 0xD5, 0x15, 0xD7, 0x17, 0x16, 0xD6, 0xD2, 0x12, 0x13, 0xD3, 0x11, 0xD1, 0xD0, 0x10],
    [0xF0, 0x30, 0x31, 0xF1, 0x33, 0xF3, 0xF2, 0x32, 0x36, 0xF6, 0xF7, 0x37, 0xF5, 0x35, 0x34, 0xF4],
    [0x3C, 0xFC, 0xFD, 0x3D, 0xFF, 0x3F, 0x3E, 0xFE, 0xFA, 0x3A, 0x3B, 0xFB, 0x39, 0xF9, 0xF8, 0x38],
    [0x28, 0xE8, 0xE9, 0x29, 0xEB, 0x2B, 0x2A, 0xEA, 0xEE, 0x2E, 0x2F, 0xEF, 0x2D, 0xED, 0xEC, 0x2C],
    [0xE4, 0x24, 0x25, 0xE5, 0x27, 0xE7, 0xE6, 0x26, 0x22, 0xE2, 0xE3, 0x23, 0xE1, 0x21, 0x20, 0xE0],
    [0xA0, 0x60, 0x61, 0xA1, 0x63, 0xA3, 0xA2, 0x62, 0x66, 0xA6, 0xA7, 0x67, 0xA5, 0x65, 0x64, 0xA4],
    [0x6C, 0xAC, 0xAD, 0x6D, 0xAF, 0x6F, 0x6E, 0xAE, 0xAA, 0x6A, 0x6B, 0xAB, 0x69, 0xA9, 0xA8, 0x68],
    [0x78, 0xB8, 0xB9, 0x79, 0xBB, 0x7B, 0x7A, 0xBA, 0xBE, 0x7E, 0x7F, 0xBF, 0x7D, 0xBD, 0xBC, 0x7C],
    [0xB4, 0x74, 0x75, 0xB5, 0x77, 0xB7, 0xB6, 0x76, 0x72, 0xB2, 0xB3, 0x73, 0xB1, 0x71, 0x70, 0xB0],
    [0x50, 0x90, 0x91, 0x51, 0x93, 0x53, 0x52, 0x92, 0x96, 0x56, 0x57, 0x97, 0x55, 0x95, 0x94, 0x54],
    [0x9C, 0x5C, 0x5D, 0x9D, 0x5F, 0x9F, 0x9E, 0x5E, 0x5A, 0x9A, 0x9B, 0x5B, 0x99, 0x59, 0x58, 0x98],
    [0x88, 0x48, 0x49, 0x89, 0x4B, 0x8B, 0x8A, 0x4A, 0x4E, 0x8E, 0x8F, 0x4F, 0x8D, 0x4D, 0x4C, 0x8C],
    [0x44, 0x84, 0x85, 0x45, 0x87, 0x47, 0x46, 0x86, 0x82, 0x42, 0x43, 0x83, 0x41, 0x81, 0x80, 0x40]
  ]

  // ---------- The standard's bit-serial definition ----------

  /** One shift of the register: right by one, and 0xA001 added in when a 1 falls out. */
  function BitStep(c: bv16): bv16 {
    if c & 1 == 1 then (c >> 1) ^ 0xA001 else c >> 1
  }

  function TwoSteps(c: bv16): bv16 {
    BitStep(BitStep(c))
  }

  function ByteShift(c: bv16): bv16 {
    TwoSteps(TwoSteps(TwoSteps(TwoSteps(c))))
  }

  /** Addition over GF(2). */
  function Plus(c: bv16, d: bv16): bv16 {
    c ^ d
  }

  /** The register of eight shifts after the octet is added to its low end. */
  function ByteStep(c: bv16, b: bv8): bv16 {
    ByteShift(Plus(c, b as bv16))
  }

  /** The register after the octets of `s`, starting from `c`. */
  function Crc(c: bv16, s: seq<byte>): bv16 {
    if s == [] then c else ByteStep(Crc(c, s[..|s| - 1]), Octet(s[|s| - 1]))
  }

  function Crc16(s: seq<byte>): bv16 {
    Crc(0xFFFF, s)
  }

  // ---------- The tables ----------

  /** The step without its branch, which is how the solver reasons about it. */
  lemma BitStepForm(c: bv16)
    ensures BitStep(c) == (c >> 1) ^ ((c & 1) * 0xA001)
  {
    LowBit(c);
    if c & 1 == 0 {
      assert (c & 1) * 0xA001 == 0;
    }
  }

  lemma LowBit(c: bv16)
    ensures c & 1 == 0 || c & 1 == 1
  {
  }

  lemma BitStepLinear(c: bv16, d: bv16)
    ensures BitStep(Plus(c, d)) == Plus(BitStep(c), BitStep(d))
  {
    hide BitStep;
    BitStepForm(c);
    BitStepForm(d);
    BitStepForm(c ^ d);
  }

  lemma TwoStepsLinear(c: bv16, d: bv16)
    ensures TwoSteps(Plus(c, d)) == Plus(TwoSteps(c), TwoSteps(d))
  {
    hide BitStep, Plus;
    BitStepLinear(c, d);
    BitStepLinear(BitStep(c), BitStep(d));
  }

  lemma ByteShiftLinear(c: bv16, d: bv16)
    ensures ByteShift(Plus(c, d)) == Plus(ByteShift(c), ByteShift(d))
  {
    hide TwoSteps, Plus;
    TwoStepsLinear(c, d);
    TwoStepsLinear(TwoSteps(c), TwoSteps(d));
    TwoStepsLinear(TwoSteps(TwoSteps(c)), TwoSteps(TwoSteps(d)));
    TwoStepsLinear(TwoSteps(TwoSteps(TwoSteps(c))), TwoSteps(TwoSteps(TwoSteps(d))));
  }

  lemma LowNibbles()
    ensures ByteShift(0) == 0x0000
    ensures ByteShift(1) == 0xC0C1
    ensures ByteShift(2) == 0xC181
    ensures ByteShift(3) == 0x0140
    ensures ByteShift(4) == 0xC301
    ensures ByteShift(5) == 0x03C0
    ensures ByteShift(6) == 0x0280
    ensures ByteShift(7) == 0xC241
    ensures ByteShift(8) == 0xC601
    ensures ByteShift(9) == 0x06C0
    ensures ByteShift(10) == 0x0780
    ensures ByteShift(11) == 0xC741
    ensures ByteShift(12) == 0x0500
    ensures ByteShift(13) == 0xC5C1
    ensures ByteShift(14) == 0xC481
    ensures ByteShift(15) == 0x0440
  {
  }

  lemma HighNibbles()
    ensures ByteShift(0x00) == 0x0000
    ensures ByteShift(0x10) == 0xCC01
    ensures ByteShift(0x20) == 0xD801
    ensures ByteShift(0x30) == 0x1400
    ensures ByteShift(0x40) == 0xF001
    ensures ByteShift(0x50) == 0x3C00
    ensures ByteShift(0x60) == 0x2800
    ensures ByteShift(0x70) == 0xE401
    ensures ByteShift(0x80) == 0xA001
    ensures ByteShift(0x90) == 0x6C00
    ensures ByteShift(0xA0) == 0x7800
    ensures ByteShift(0xB0) == 0xB401
    ensures ByteShift(0xC0) == 0x5000
    ensures ByteShift(0xD0) == 0x9C01
    ensures ByteShift(0xE0) == 0x8801
    ensures ByteShift(0xF0) == 0x4400
  {
  }

  function Join(hi: bv8, lo: bv8): bv16 {
    ((hi as bv16) << 8) | (lo as bv16)
  }

  /** The entries `h` of `aucCRCHi` and `l` of `aucCRCLo` spell the register value `c`. */
  predicate Entry(h: bv8, l: bv8, c: bv16) {
    Join(l, h) == c
  }

  /** A table row: its entries are the row's base `c` plus the sixteen low-nibble patterns. */
  predicate RowHolds(h: seq<bv8>, l: seq<bv8>, c: bv16) {
    && |h| == 16 == |l|
    && Entry(h[0], l[0], Plus(c, 0x0000))
    && Entry(h[1], l[1], Plus(c, 0xC0C1))
    && Entry(h[2], l[2], Plus(c, 0xC181))
    && Entry(h[3], l[3], Plus(c, 0x0140))
    && Entry(h[4], l[4], Plus(c, 0xC301))
    && Entry(h[5], l[5], Plus(c, 0x03C0))
    && Entry(h[6], l[6], Plus(c, 0x0280))
    && Entry(h[7], l[7], Plus(c, 0xC241))
    && Entry(h[8], l[8], Plus(c, 0xC601))
    && Entry(h[9], l[9], Plus(c, 0x06C0))
    && Entry(h[10], l[10], Plus(c, 0x0780))
    && Entry(h[11], l[11], Plus(c, 0xC741))
    && Entry(h[12], l[12], Plus(c, 0x0500))
    && Entry(h[13], l[13], Plus(c, 0xC5C1))
    && Entry(h[14], l[14], Plus(c, 0xC481))
    && Entry(h[15], l[15], Plus(c, 0x0440))
  }

  lemma Row0()
    ensures |aucCRCHi| == 16 == |aucCRCLo|
    ensures RowHolds(aucCRCHi[0], aucCRCLo[0], 0x0000)
  {
  }

  lemma Row1()
    ensures |aucCRCHi| == 16 == |aucCRCLo|
    ensures RowHolds(aucCRCHi[1], aucCRCLo[1], 0xCC01)
  {
  }

  lemma Rows0()
    ensures |aucCRCHi| == 16 == |aucCRCLo|
    ensures RowHolds(aucCRCHi[0], aucCRCLo[0], 0x0000)
    ensures RowHolds(aucCRCHi[1], aucCRCLo[1], 0xCC01)
  {
    hide aucCRCHi, aucCRCLo, RowHolds;
    Row0();
    Row1();
  }

  lemma Row2()
    ensures |aucCRCHi| == 16 == |aucCRCLo|
    ensures RowHolds(aucCRCHi[2], aucCRCLo[2], 0xD801)
  {
  }

  lemma Row3()
    ensures |aucCRCHi| == 16 == |aucCRCLo|
    ensures RowHolds(aucCRCHi[3], aucCRCLo[3], 0x1400)
  {
  }

  lemma Rows2()
    ensures |aucCRCHi| == 16 == |aucCRCLo|
    ensures RowHolds(aucCRCHi[2], aucCRCLo[2], 0xD801)
    ensures RowHolds(aucCRCHi[3], aucCRCLo[3], 0x1400)
  {
    hide aucCRCHi, aucCRCLo, RowHolds;
    Row2();
    Row3();
  }

  lemma Row4()
    ensures |aucCRCHi| == 16 == |aucCRCLo|
    ensures RowHolds(aucCRCHi[4], aucCRCLo[4], 0xF001)
  {
  }

  lemma Row5()
    ensures |aucCRCHi| == 16 == |aucCRCLo|
    ensures RowHolds(aucCRCHi[5], aucCRCLo[5], 0x3C00)
  {
  }

  lemma Rows4()
    ensures |aucCRCHi| == 16 == |aucCRCLo|
    ensures RowHolds(aucCRCHi[4], aucCRCLo[4], 0xF001)
    ensures RowHolds(aucCRCHi[5], aucCRCLo[5], 0x3C00)
  {
    hide aucCRCHi, aucCRCLo, RowHolds;
    Row4();
    Row5();
  }

  lemma Row6()
    ensures |aucCRCHi| == 16 == |aucCRCLo|
    ensures RowHolds(aucCRCHi[6], aucCRCLo[6], 0x2800)
  {
  }

  lemma Row7()
    ensures |aucCRCHi| == 16 == |aucCRCLo|
    ensures RowHolds(aucCRCHi[7], aucCRCLo[7], 0xE401)
  {
  }

  lemma Rows6()
    ensures |aucCRCHi| == 16 == |aucCRCLo|
    ensures RowHolds(aucCRCHi[6], aucCRCLo[6], 0x2800)
    ensures RowHolds(aucCRCHi[7], aucCRCLo[7], 0xE401)
  {
    hide aucCRCHi, aucCRCLo, RowHolds;
    Row6();
    Row7();
  }

  lemma Row8()
    ensures |aucCRCHi| == 16 == |aucCRCLo|
    ensures RowHolds(aucCRCHi[8], aucCRCLo[8], 0xA001)
  {
  }

  lemma Row9()
    ensures |aucCRCHi| == 16 == |aucCRCLo|
    ensures RowHolds(aucCRCHi[9], aucCRCLo[9], 0x6C00)
  {
  }

  lemma Rows8()
    ensures |aucCRCHi| == 16 == |aucCRCLo|
    ensures RowHolds(aucCRCHi[8], aucCRCLo[8], 0xA001)
    ensures RowHolds(aucCRCHi[9], aucCRCLo[9], 0x6C00)
  {
    hide aucCRCHi, aucCRCLo, RowHolds;
    Row8();
    Row9();
  }

  lemma Row10()
    ensures |aucCRCHi| == 16 == |aucCRCLo|
    ensures RowHolds(aucCRCHi[10], aucCRCLo[10], 0x7800)
  {
  }

  lemma Row11()
    ensures |aucCRCHi| == 16 == |aucCRCLo|
    ensures RowHolds(aucCRCHi[11], aucCRCLo[11], 0xB401)
  {
  }

  lemma Rows10()
    ensures |aucCRCHi| == 16 == |aucCRCLo|
    ensures RowHolds(aucCRCHi[10], aucCRCLo[10], 0x7800)
    ensures RowHolds(aucCRCHi[11], aucCRCLo[11], 0xB401)
  {
    hide aucCRCHi, aucCRCLo, RowHolds;
    Row10();
    Row11();
  }

  lemma Row12()
    ensures |aucCRCHi| == 16 == |aucCRCLo|
    ensures RowHolds(aucCRCHi[12], aucCRCLo[12], 0x5000)
  {
  }

  lemma Row13()
    ensures |aucCRCHi| == 16 == |aucCRCLo|
    ensures RowHolds(aucCRCHi[13], aucCRCLo[13], 0x9C01)
  {
  }

  lemma Rows12()
    ensures |aucCRCHi| == 16 == |aucCRCLo|
    ensures RowHolds(aucCRCHi[12], aucCRCLo[12], 0x5000)
    ensures RowHolds(aucCRCHi[13], aucCRCLo[13], 0x9C01)
  {
    hide aucCRCHi, aucCRCLo, RowHolds;
    Row12();
    Row13();
  }

  lemma Row14()
    ensures |aucCRCHi| == 16 == |aucCRCLo|
    ensures RowHolds(aucCRCHi[14], aucCRCLo[14], 0x8801)
  {
  }

  lemma Row15()
    ensures |aucCRCHi| == 16 == |aucCRCLo|
    ensures RowHolds(aucCRCHi[15], aucCRCLo[15], 0x4400)
  {
  }

  lemma Rows14()
    ensures |aucCRCHi| == 16 == |aucCRCLo|
    ensures RowHolds(aucCRCHi[14], aucCRCLo[14], 0x8801)
    ensures RowHolds(aucCRCHi[15], aucCRCLo[15], 0x4400)
  {
    hide aucCRCHi, aucCRCLo, RowHolds;
    Row14();
    Row15();
  }

  lemma Rows()
    ensures IsTable(aucCRCHi) && IsTable(aucCRCLo)
  {
    Rows0();
    Rows2();
    Rows4();
    Rows6();
    Rows8();
    Rows10();
    Rows12();
    Rows14();
    forall r | 0 <= r < 16 ensures |aucCRCHi[r]| == 16 == |aucCRCLo[r]| {
      assert r == 0 || r == 1 || r == 2 || r == 3 || r == 4 || r == 5 || r == 6 || r == 7
          || r == 8 || r == 9 || r == 10 || r == 11 || r == 12 || r == 13 || r == 14 || r == 15;
    }
  }

  predicate IsTable(table: seq<seq<bv8>>) {
    |table| == 16 && forall r :: 0 <= r < 16 ==> |table[r]| == 16
  }

  function Look(table: seq<seq<bv8>>, i: bv8): bv8
    requires IsTable(table)
  {
    table[i >> 4][i & 15]
  }

  function Xor(a: bv8, b: bv8): bv8 {
    a ^ b
  }

  lemma RowEntry(h: seq<bv8>, l: seq<bv8>, c: bv16, k: bv8)
    requires k < 16 && RowHolds(h, l, c)
    ensures Entry(h[k], l[k], Plus(c, ByteShift(k as bv16)))
  {
    LowNibbles();
    hide Entry, ByteShift, Plus;
    assert k == 0 || k == 1 || k == 2 || k == 3 || k == 4 || k == 5 || k == 6 || k == 7
        || k == 8 || k == 9 || k == 10 || k == 11 || k == 12 || k == 13 || k == 14 || k == 15;
  }

  lemma RowAt(r: bv8)
    requires r < 16
    ensures |aucCRCHi| == 16 == |aucCRCLo|
    ensures RowHolds(aucCRCHi[r], aucCRCLo[r], ByteShift((r as bv16) << 4))
  {
    Rows0();
    Rows2();
    Rows4();
    Rows6();
    Rows8();
    Rows10();
    Rows12();
    Rows14();
    HighNibbles();
    hide *;
    assert r == 0 || r == 1 || r == 2 || r == 3 || r == 4 || r == 5 || r == 6 || r == 7
        || r == 8 || r == 9 || r == 10 || r == 11 || r == 12 || r == 13 || r == 14 || r == 15;
  }

  lemma NibblesJoin(i: bv8)
    ensures Plus(((i >> 4) as bv16) << 4, (i & 15) as bv16) == i as bv16
  {
  }

  /** Every table entry is the standard's eight shifts of its own index. */
  lemma TableEntry(i: bv8)
    ensures IsTable(aucCRCHi) && IsTable(aucCRCLo)
    ensures Entry(Look(aucCRCHi, i), Look(aucCRCLo, i), ByteShift(i as bv16))
  {
    hide aucCRCHi, aucCRCLo, Entry, RowHolds, ByteShift, Plus;
    var r, k := i >> 4, i & 15;
    NibblesJoin(i);
    Rows();
    RowAt(r);
    RowEntry(aucCRCHi[r], aucCRCLo[r], ByteShift((r as bv16) << 4), k);
    ByteShiftLinear((r as bv16) << 4, k as bv16);
  }

  // ---------- The algorithm ----------

  /** Shifting out an empty low octet moves the high octet down unchanged. */
  lemma ShiftDown(hi: bv8)
    ensures ByteShift(Join(hi, 0)) == hi as bv16
  {
  }

  lemma JoinPlus(hi: bv8, lo: bv8, b: bv8, h: bv8, l: bv8)
    ensures Plus(Join(hi, lo), b as bv16) == Plus(Join(hi, 0), Xor(lo, b) as bv16)
    ensures Plus(hi as bv16, Join(l, h)) == Join(l, Xor(hi, h))
  {
  }

  /** One turn of the table loop is one octet of the bit-serial definition. */
  lemma TableStep(hi: bv8, lo: bv8, b: bv8)
    ensures IsTable(aucCRCHi) && IsTable(aucCRCLo)
    ensures var i := Xor(lo, b);
            Join(Look(aucCRCLo, i), Xor(hi, Look(aucCRCHi, i))) == ByteStep(Join(hi, lo), b)
  {
    hide aucCRCHi, aucCRCLo, Look, Xor, ByteShift, Plus, Join;
    var i := Xor(lo, b);
    TableEntry(i);
    ShiftDown(hi);
    JoinPlus(hi, lo, b, Look(aucCRCHi, i), Look(aucCRCLo, i));
    ByteShiftLinear(Join(hi, 0), i as bv16);
  }

  /** The CRC of the `len` octets of `frame` from `off`. */
  method usMBCRC16(frame: array<byte>, off: nat, len: nat) returns (crc: bv16)
    requires off + len <= frame.Length
    ensures crc == Crc16(frame[off..off + len])
  {
    hide aucCRCHi, aucCRCLo, IsTable, Look, Xor, ByteStep, Join;
    var ucCRCHi: bv8, ucCRCLo: bv8 := 0xFF, 0xFF;
    var pos := 0;
    JoinOnes();
    while pos < len
      invariant 0 <= pos <= len
      invariant Join(ucCRCHi, ucCRCLo) == Crc16(frame[off..off + pos])
    {
      var b := Octet(frame[off + pos]);
      var iIndex := Xor(ucCRCLo, b);
      TableStep(ucCRCHi, ucCRCLo, b);
      ucCRCLo := Xor(ucCRCHi, Look(aucCRCHi, iIndex));
      ucCRCHi := Look(aucCRCLo, iIndex);
      assert frame[off..off + pos + 1] == frame[off..off + pos] + [frame[off + pos]];
      pos := pos + 1;
    }
    crc := Join(ucCRCHi, ucCRCLo);
  }

  lemma JoinOnes()
    ensures Join(0xFF, 0xFF) == 0xFFFF
  {
  }

  /** The two check octets in the order they are sent. */
  function CheckOctets(c: bv16): seq<byte> {
    [Value(LowOctet(c)), Value(HighOctet(c))]
  }

  lemma {:induction false} CrcSplit(c: bv16, s: seq<byte>, t: seq<byte>)
    ensures Crc(c, s + t) == Crc(Crc(c, s), t)
    decreases |t|
  {
    hide ByteStep;
    if t == [] {
      assert s + t == s;
    } else {
      var front := t[..|t| - 1];
      assert s + t == (s + front) + [t[|t| - 1]];
      CrcSplit(c, s, front);
    }
  }

  // ---------- What an accepted frame means ----------

  lemma HighLow(c: bv16)
    ensures Plus(c, LowOctet(c) as bv16) == Join(HighOctet(c), 0)
    ensures Plus(HighOctet(c) as bv16, HighOctet(c) as bv16) == 0
  {
  }

  function LowOctet(c: bv16): bv8 {
    (c & 0xFF) as bv8
  }

  function HighOctet(c: bv16): bv8 {
    (c >> 8) as bv8
  }

  lemma OwnOctetsCancel(c: bv16)
    ensures ByteStep(ByteStep(c, LowOctet(c)), HighOctet(c)) == 0
  {
    hide ByteShift, Plus, Join, LowOctet, HighOctet;
    HighLow(c);
    ShiftDown(HighOctet(c));
    ShiftZero();
  }

  /** A frame followed by its own check octets, low one first, leaves the register empty. */
  lemma ResidueZero(s: seq<byte>)
    ensures Crc16(s + CheckOctets(Crc16(s))) == 0
  {
    hide ByteStep, LowOctet, HighOctet, Crc16;
    var c := Crc16(s);
    OwnOctetsCancel(c);
    OctetOfValue(LowOctet(c));
    OctetOfValue(HighOctet(c));
    CrcAppendTwo(s, Value(LowOctet(c)), Value(HighOctet(c)));
  }

  lemma ShiftZero()
    ensures ByteShift(0) == 0
  {
  }

  lemma CrcAppendTwo(s: seq<byte>, a: byte, b: byte)
    ensures Crc16(s + [a, b]) == ByteStep(ByteStep(Crc16(s), Octet(a)), Octet(b))
  {
    hide ByteStep;
    CrcSplit(0xFFFF, s, [a, b]);
    assert [a, b][..1] == [a] && [a][..0] == [];
    assert Crc(Crc16(s), [a]) == ByteStep(Crc16(s), Octet(a));
  }

  // ---------- The register fed one bit at a time ----------

  function BitWord(b: bool): bv16 {
    if b then 1 else 0
  }

  function Feed(c: bv16, b: bool): bv16 {
    BitStep(Plus(c, BitWord(b)))
  }

  function BitCrc(c: bv16, bits: seq<bool>): bv16 {
    if bits == [] then c else Feed(BitCrc(c, bits[..|bits| - 1]), bits[|bits| - 1])
  }

  lemma LowestFirst(c: bv16, y: bv16)
    ensures BitStep(Plus(c, y)) == Plus(BitStep(Plus(c, y & 1)), y >> 1)
  {
    BitStepLinear(Plus(c, y & 1), y & 0xFFFE);
    SplitLowest(c, y);
    hide BitStep, Plus;
  }

  lemma SplitLowest(c: bv16, y: bv16)
    ensures Plus(Plus(c, y & 1), y & 0xFFFE) == Plus(c, y)
    ensures BitStep(y & 0xFFFE) == y >> 1
  {
    assert (y & 1) ^ (y & 0xFFFE) == y;
    assert (c ^ (y & 1)) ^ (y & 0xFFFE) == c ^ ((y & 1) ^ (y & 0xFFFE));
  }

  lemma LowestBit(y: bv16)
    ensures BitWord(y & 1 != 0) == y & 1
  {
  }

  /** Only the lowest bit of a pending octet meets the register in this shift. */
  lemma FeedLow(c: bv16, y: bv16)
    ensures BitStep(Plus(c, y)) == Plus(Feed(c, y & 1 != 0), y >> 1)
  {
    hide BitStep, Plus, BitWord;
    LowestFirst(c, y);
    LowestBit(y);
  }

  function FeedOctet(c: bv16, b: bv8): bv16 {
    Feed(Feed(Feed(Feed(Feed(Feed(Feed(Feed(c, b & 1 != 0), b & 2 != 0), b & 4 != 0), b & 8 != 0),
                             b & 16 != 0), b & 32 != 0), b & 64 != 0), b & 128 != 0)
  }

  lemma PendingBits(b: bv8)
    ensures var y := b as bv16;
            && (y & 1 != 0) == (b & 1 != 0)
            && ((y >> 1) & 1 != 0) == (b & 2 != 0)
            && ((y >> 1 >> 1) & 1 != 0) == (b & 4 != 0)
            && ((y >> 1 >> 1 >> 1) & 1 != 0) == (b & 8 != 0)
            && ((y >> 1 >> 1 >> 1 >> 1) & 1 != 0) == (b & 16 != 0)
            && ((y >> 1 >> 1 >> 1 >> 1 >> 1) & 1 != 0) == (b & 32 != 0)
            && ((y >> 1 >> 1 >> 1 >> 1 >> 1 >> 1) & 1 != 0) == (b & 64 != 0)
            && ((y >> 1 >> 1 >> 1 >> 1 >> 1 >> 1 >> 1) & 1 != 0) == (b & 128 != 0)
            && y >> 1 >> 1 >> 1 >> 1 >> 1 >> 1 >> 1 >> 1 == 0
  {
  }

  lemma PlusZero(c: bv16)
    ensures Plus(c, 0) == c
  {
  }

  lemma OctetIsEightBits(c: bv16, b: bv8)
    ensures ByteStep(c, b) == FeedOctet(c, b)
  {
    hide BitStep, Plus, Feed;
    var y0 := b as bv16;
    var y1 := y0 >> 1;
    var y2 := y1 >> 1;
    var y3 := y2 >> 1;
    var y4 := y3 >> 1;
    var y5 := y4 >> 1;
    var y6 := y5 >> 1;
    var y7 := y6 >> 1;
    PendingBits(b);
    var c1 := Feed(c, b & 1 != 0);
    var c2 := Feed(c1, b & 2 != 0);
    var c3 := Feed(c2, b & 4 != 0);
    var c4 := Feed(c3, b & 8 != 0);
    var c5 := Feed(c4, b & 16 != 0);
    var c6 := Feed(c5, b & 32 != 0);
    var c7 := Feed(c6, b & 64 != 0);
    FeedLow(c, y0);
    FeedLow(c1, y1);
    FeedLow(c2, y2);
    FeedLow(c3, y3);
    FeedLow(c4, y4);
    FeedLow(c5, y5);
    FeedLow(c6, y6);
    FeedLow(c7, y7);
    PlusZero(Feed(c7, b & 128 != 0));
  }

  lemma BitCrcFour(c: bv16, b: seq<bool>)
    requires |b| == 4
    ensures BitCrc(c, b) == Feed(Feed(Feed(Feed(c, b[0]), b[1]), b[2]), b[3])
  {
    hide Feed;
    assert b[..3][..2] == b[..2] && b[..2][..1] == b[..1] && b[..1][..0] == [];
    assert BitCrc(c, b[..1]) == Feed(c, b[0]);
    assert BitCrc(c, b[..2]) == Feed(BitCrc(c, b[..1]), b[1]);
  }

  lemma {:induction false} BitCrcSplit(c: bv16, u: seq<bool>, v: seq<bool>)
    ensures BitCrc(c, u + v) == BitCrc(BitCrc(c, u), v)
    decreases |v|
  {
    hide Feed;
    if v == [] {
      assert u + v == u;
    } else {
      var front := v[..|v| - 1];
      assert (u + v)[..|u + v| - 1] == u + front;
      BitCrcSplit(c, u, front);
    }
  }

  /** The octet-wise CRC is the bit-serial register over the bits as they pass on the line. */
  lemma {:induction false} CrcIsBitSerial(c: bv16, s: seq<byte>)
    ensures Crc(c, s) == BitCrc(c, BitString(s))
    decreases |s|
  {
    hide ByteStep, Feed, Unpack, Octet, Bits;
    if s != [] {
      var front, b := s[..|s| - 1], s[|s| - 1];
      CrcIsBitSerial(c, front);
      BitCrcSplit(c, BitString(front), Bits(b, 8));
      OctetFed(Crc(c, front), Octet(b));
      ValueOfOctet(b);
    }
  }

  lemma OctetFed(c: bv16, b: bv8)
    ensures ByteStep(c, b) == BitCrc(c, Unpack(b))
  {
    hide ByteStep, Feed;
    OctetIsEightBits(c, b);
    var bits := Unpack(b);
    BitCrcFour(c, bits[..4]);
    BitCrcFour(BitCrc(c, bits[..4]), bits[4..]);
    BitCrcSplit(c, bits[..4], bits[4..]);
    assert bits == bits[..4] + bits[4..];
  }

  // ---------- Error detection ----------

  /** Which bits of two bit strings differ. */
  function Diff(u: seq<bool>, v: seq<bool>): (e: seq<bool>)
    requires |u| == |v|
    ensures |e| == |u|
    ensures forall k :: 0 <= k < |e| ==> e[k] == (u[k] != v[k])
  {
    seq(|u|, k requires 0 <= k < |u| => u[k] != v[k])
  }

  lemma FeedLinear(c: bv16, d: bv16, a: bool, b: bool)
    ensures Plus(Feed(c, a), Feed(d, b)) == Feed(Plus(c, d), a != b)
  {
    BitStepLinear(Plus(c, BitWord(a)), Plus(d, BitWord(b)));
    PlusBits(c, d, a, b);
    hide BitStep, Plus;
  }

  lemma PlusBits(c: bv16, d: bv16, a: bool, b: bool)
    ensures Plus(Plus(c, BitWord(a)), Plus(d, BitWord(b))) == Plus(Plus(c, d), BitWord(a != b))
  {
    assert BitWord(a) ^ BitWord(b) == BitWord(a != b);
    assert (c ^ BitWord(a)) ^ (d ^ BitWord(b)) == (c ^ d) ^ (BitWord(a) ^ BitWord(b));
  }

  /** The registers of two bit strings differ by the register of their difference. */
  lemma {:induction false} BitCrcLinear(c: bv16, d: bv16, u: seq<bool>, v: seq<bool>)
    requires |u| == |v|
    ensures Plus(BitCrc(c, u), BitCrc(d, v)) == BitCrc(Plus(c, d), Diff(u, v))
    decreases |u|
  {
    hide Feed, Plus;
    if u != [] {
      var n := |u| - 1;
      BitCrcLinear(c, d, u[..n], v[..n]);
      assert Diff(u, v)[..n] == Diff(u[..n], v[..n]);
      FeedLinear(BitCrc(c, u[..n]), BitCrc(d, v[..n]), u[n], v[n]);
    }
  }

  /** Whether an odd number of the bits is set. */
  predicate Odd(bits: seq<bool>) {
    bits != [] && Odd(bits[..|bits| - 1]) != bits[|bits| - 1]
  }

  function Half(c: bv16): bv16 {
    c >> 1
  }

  predicate LowSet(c: bv16) {
    c & 1 != 0
  }

  /** Whether an odd number of the register's bits is set. */
  predicate Parity(c: bv16)
    decreases c
  {
    c != 0 && LowSet(c) != Parity(Half(c))
  }

  lemma Halves(c: bv16, d: bv16)
    ensures Half(Plus(c, d)) == Plus(Half(c), Half(d))
    ensures LowSet(Plus(c, d)) == (LowSet(c) != LowSet(d))
  {
  }

  lemma HalfShrinks(c: bv16)
    ensures if c == 0 then Half(c) == 0 && !LowSet(c) else Half(c) < c
  {
  }

  lemma {:induction false} ParityLinear(c: bv16, d: bv16)
    ensures Parity(Plus(c, d)) == (Parity(c) != Parity(d))
    decreases c, d
  {
    HalfShrinks(c);
    HalfShrinks(d);
    HalfShrinks(Plus(c, d));
    Halves(c, d);
    PlusZero(0);
    hide Plus, Half, LowSet;
    if c != 0 || d != 0 {
      ParityLinear(Half(c), Half(d));
    }
  }

  lemma ParityOfGenerator()
    ensures Parity(0xA001) && Parity(1) && !Parity(0)
  {
    assert Parity(1) && Parity(2) && Parity(4) && !Parity(5) && !Parity(10) && !Parity(20) && !Parity(40);
    assert !Parity(80) && !Parity(160) && !Parity(320) && !Parity(640) && !Parity(1280) && !Parity(2560);
    assert !Parity(5120) && !Parity(10240) && !Parity(20480);
  }

  lemma StepByHalf(x: bv16)
    ensures BitStep(x) == if LowSet(x) then Plus(Half(x), 0xA001) else Half(x)
  {
  }

  /** The generator has the factor x + 1, so a shift keeps the parity of register and input. */
  lemma ParityOfFeed(c: bv16, b: bool)
    ensures Parity(Feed(c, b)) == (Parity(c) != b)
  {
    ParityOfGenerator();
    hide Plus, Half, LowSet, BitStep;
    var x := Plus(c, BitWord(b));
    ParityLinear(c, BitWord(b));
    ParityLinear(Half(x), 0xA001);
    StepByHalf(x);
    HalfShrinks(x);
  }

  lemma {:induction false} ParityOfBits(c: bv16, bits: seq<bool>)
    ensures Parity(BitCrc(c, bits)) == (Parity(c) != Odd(bits))
    decreases |bits|
  {
    hide Feed, Parity;
    if bits != [] {
      ParityOfBits(c, bits[..|bits| - 1]);
      ParityOfFeed(BitCrc(c, bits[..|bits| - 1]), bits[|bits| - 1]);
    }
  }

  /** Flipping any odd number of bits of a frame, wherever they are, changes its CRC. */
  lemma OddErrorsDetected(f: seq<byte>, g: seq<byte>)
    requires |f| == |g| && Odd(Diff(BitString(f), BitString(g)))
    ensures Crc16(f) != Crc16(g)
  {
    Crc16IsBitSerial(f);
    Crc16IsBitSerial(g);
    CrcDifference(BitString(f), BitString(g));
    ParityOfBits(0, Diff(BitString(f), BitString(g)));
    ParityOfGenerator();
  }

  /** Two bit strings have the same CRC exactly when their difference has register 0. */
  lemma CrcDifference(u: seq<bool>, v: seq<bool>)
    requires |u| == |v|
    ensures BitCrc(0xFFFF, u) == BitCrc(0xFFFF, v) <==> BitCrc(0, Diff(u, v)) == 0
  {
    BitCrcLinear(0xFFFF, 0xFFFF, u, v);
    PlusSelf(0xFFFF, 0xFFFF);
    PlusSelf(BitCrc(0xFFFF, u), BitCrc(0xFFFF, v));
    hide Plus, BitCrc;
  }

  lemma PlusSelf(c: bv16, d: bv16)
    ensures Plus(c, d) == 0 <==> c == d
  {
  }

  // ---------- Bursts ----------

  /** The register with only bit `p` set. */
  function Place(p: nat): bv16
    requires p <= 15
  {
    if p == 0 then 1 else Place(p - 1) << 1
  }

  lemma PlaceIs(p: nat)
    requires p <= 15
    ensures p > 0 ==> Place(p) & 1 == 0 && Half(Place(p)) == Place(p - 1)
    ensures p == 15 ==> Place(p) == 0x8000
  {
    assert Place(0) == 1 && Place(1) == 2 && Place(2) == 4 && Place(3) == 8 && Place(4) == 0x10 && Place(5) == 0x20;
    assert Place(6) == 0x40 && Place(7) == 0x80 && Place(8) == 0x100 && Place(9) == 0x200 && Place(10) == 0x400;
    assert Place(11) == 0x800 && Place(12) == 0x1000 && Place(13) == 0x2000;
    assert Place(14) == 0x4000 && Place(15) == 0x8000;
    assert p == 0 || p == 1 || p == 2 || p == 3 || p == 4 || p == 5 || p == 6 || p == 7
        || p == 8 || p == 9 || p == 10 || p == 11 || p == 12 || p == 13 || p == 14 || p == 15;
  }

  predicate Has(d: bv16, t: bv16) {
    d & t != 0
  }

  lemma InputMissesPlace(d: bv16, b: bool, t: bv16)
    requires Has(d, t) && t & 1 == 0
    ensures Has(Plus(d, BitWord(b)), t)
  {
  }

  lemma OddStepSetsTop(x: bv16)
    requires LowSet(x)
    ensures Has(BitStep(x), 0x8000)
  {
  }

  lemma EvenStepShifts(x: bv16, t: bv16)
    requires !LowSet(x) && Has(x, t) && t & 1 == 0
    ensures Has(BitStep(x), Half(t))
  {
  }

  /** A register with bit `p` set is not emptied by `p` more bits, whatever they are. */
  lemma {:induction false} BitsKeepNonzero(d: bv16, w: seq<bool>, p: nat)
    requires |w| <= p <= 15 && Has(d, Place(p))
    ensures BitCrc(d, w) != 0
    decreases |w|
  {
    if w != [] {
      PlaceIs(p);
      PlaceIs(15);
      hide BitStep, Has, Half, LowSet, Place, Plus, BitWord;
      var x := Plus(d, BitWord(w[0]));
      InputMissesPlace(d, w[0], Place(p));
      if LowSet(x) {
        OddStepSetsTop(x);
        BitsKeepNonzero(BitStep(x), w[1..], 15);
      } else {
        EvenStepShifts(x, Place(p));
        BitsKeepNonzero(BitStep(x), w[1..], p - 1);
      }
      FirstBit(d, w);
    }
  }

  lemma FirstBit(d: bv16, w: seq<bool>)
    requires w != []
    ensures BitCrc(d, w) == BitCrc(Feed(d, w[0]), w[1..])
  {
    hide Feed;
    assert w == w[..1] + w[1..];
    BitCrcSplit(d, w[..1], w[1..]);
    assert w[..1][..0] == [];
  }

  lemma FeedZero()
    ensures Feed(0, false) == 0 && Feed(0, true) == 0xA001
  {
  }

  lemma FeedOfNonzero(d: bv16)
    requires d != 0
    ensures Feed(d, false) != 0
  {
    PlusZero(d);
    StepNonzero(d);
    hide BitStep, Plus;
  }

  lemma StepNonzero(d: bv16)
    requires d != 0
    ensures BitStep(d) != 0
  {
    BitStepForm(d);
  }

  predicate Clear(w: seq<bool>) {
    forall k :: 0 <= k < |w| ==> !w[k]
  }

  /** Error bits confined to sixteen places in a row never cancel. */
  lemma {:induction false} BurstNonzero(w: seq<bool>)
    requires |w| <= 16 && !Clear(w)
    ensures BitCrc(0, w) != 0
    decreases |w|
  {
    hide Feed;
    FirstBit(0, w);
    FeedZero();
    if w[0] {
      PlaceIs(15);
      BitsKeepNonzero(0xA001, w[1..], 15);
    } else {
      var k :| 0 <= k < |w| && w[k];
      assert w[1..][k - 1];
      BurstNonzero(w[1..]);
    }
  }

  lemma {:induction false} ClearBits(d: bv16, w: seq<bool>)
    requires Clear(w)
    ensures BitCrc(d, w) == 0 <==> d == 0
    decreases |w|
  {
    hide Feed;
    FeedZero();
    if w != [] {
      var front := w[..|w| - 1];
      ClearBits(d, front);
      if BitCrc(d, front) != 0 {
        FeedOfNonzero(BitCrc(d, front));
      }
    }
  }

  /** The register of an error pattern confined to at most sixteen places in a row. */
  lemma BurstPattern(a: seq<bool>, w: seq<bool>, z: seq<bool>)
    requires Clear(a) && |w| <= 16 && !Clear(w) && Clear(z)
    ensures BitCrc(0, a + (w + z)) != 0
  {
    BitCrcSplit(0, a, w + z);
    ClearBits(0, a);
    BitCrcSplit(0, w, z);
    BurstNonzero(w);
    ClearBits(BitCrc(0, w), z);
    hide BitCrc;
  }

  lemma ConfinedNonzero(e: seq<bool>, i: nat)
    requires !Clear(e)
    requires forall k :: 0 <= k < |e| && e[k] ==> i <= k < i + 16
    ensures BitCrc(0, e) != 0
  {
    hide BitCrc;
    var k :| 0 <= k < |e| && e[k];
    var j := if i + 16 <= |e| then i + 16 else |e|;
    var a, w, z := e[..i], e[i..j], e[j..];
    assert Clear(a) && Clear(z);
    assert w[k - i];
    BurstPattern(a, w, z);
    assert e == a + (w + z);
  }

  /** Bit strings that differ somewhere, but only within bits `i` to `i + 15`, have different CRCs. */
  lemma BurstDetected(u: seq<bool>, v: seq<bool>, i: nat)
    requires |u| == |v| && u != v
    requires forall k :: 0 <= k < |u| && u[k] != v[k] ==> i <= k < i + 16
    ensures BitCrc(0xFFFF, u) != BitCrc(0xFFFF, v)
  {
    hide BitCrc;
    var e := Diff(u, v);
    var k :| 0 <= k < |u| && u[k] != v[k];
    assert e[k];
    ConfinedNonzero(e, i);
    CrcDifference(u, v);
  }

  lemma BitsInjective(a: byte, b: byte)
    requires Bits(a, 8) == Bits(b, 8)
    ensures a == b
  {
    Power8();
    NumberOfBits(a, 8);
    NumberOfBits(b, 8);
  }

  lemma FramesDiffer(f: seq<byte>, g: seq<byte>)
    requires |f| == |g| && f != g
    ensures BitString(f) != BitString(g)
  {
    hide Bits, BitString;
    var i :| 0 <= i < |f| && f[i] != g[i];
    if Bits(f[i], 8) == Bits(g[i], 8) {
      BitsInjective(f[i], g[i]);
    }
    var j :| 0 <= j < 8 && Bits(f[i], 8)[j] != Bits(g[i], 8)[j];
    BitStringAt(f, i, j);
    BitStringAt(g, i, j);
  }

  lemma Crc16IsBitSerial(s: seq<byte>)
    ensures Crc16(s) == BitCrc(0xFFFF, BitString(s))
  {
    CrcIsBitSerial(0xFFFF, s);
  }

  lemma BitsDifferWithin(f: seq<byte>, g: seq<byte>, k: nat, n: nat)
    requires |f| == |g| && n < 8 * |f| && BitString(f)[n] != BitString(g)[n]
    requires forall i :: 0 <= i < |f| && f[i] != g[i] ==> i == k || i == k + 1
    ensures 8 * k <= n < 8 * k + 16
  {
    hide Bits, BitString;
    BitStringAt(f, n / 8, n % 8);
    BitStringAt(g, n / 8, n % 8);
  }

  /** Any change of one octet, or of two adjacent ones, changes the CRC. */
  lemma AdjacentOctetsDetected(f: seq<byte>, g: seq<byte>, k: nat)
    requires |f| == |g| && f != g
    requires forall i :: 0 <= i < |f| && f[i] != g[i] ==> i == k || i == k + 1
    ensures Crc16(f) != Crc16(g)
  {
    hide BitString, Crc16, BitCrc;
    var u, v := BitString(f), BitString(g);
    FramesDiffer(f, g);
    forall n | 0 <= n < |u| && u[n] != v[n] ensures 8 * k <= n < 8 * k + 16 {
      BitsDifferWithin(f, g, k, n);
    }
    BurstDetected(u, v, 8 * k);
    Crc16IsBitSerial(f);
    Crc16IsBitSerial(g);
  }

  /** Exactly one pair of check octets makes a frame acceptable. */
  lemma ResidueZeroIff(s: seq<byte>, a: byte, b: byte)
    ensures Crc16(s + [a, b]) == 0 <==> [a, b] == CheckOctets(Crc16(s))
  {
    hide Crc16, LowOctet, HighOctet;
    ResidueZero(s);
    var f, g := s + CheckOctets(Crc16(s)), s + [a, b];
    if f != g {
      AdjacentOctetsDetected(f, g, |s|);
    } else {
      assert f[|s|..] == CheckOctets(Crc16(s)) && g[|s|..] == [a, b];
    }
  }
}
