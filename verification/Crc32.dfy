/**
  The I.363.5 CRC-32 of omci_api.c: the table-driven loop is proved equal to
  bit-serial MSB-first division by 0x04C11DB7 (all-ones preset, complemented
  result). Bit-vector goals are kept to one case each.
 */
module Crc32 {
  import opened Folds

  // ----- 32-bit registers -----

  function Xor(x: bv32, y: bv32): bv32 { x ^ y }
  function Shl(x: bv32): bv32 { x << 1 }
  function Shl8(x: bv32): bv32 { x << 8 }
  function Top(x: bv32): bool { x & 0x80000000 != 0 }

  /** A message byte, aligned with the top of the register. */
  function Lift(b: bv8): bv32 { (b as bv32) << 24 }

  /** Reference: shift one message bit into the division register. */
  function SerialBit(r: bv32, bit: bool): bv32 {
    if (r & 0x80000000 != 0) != bit then (r << 1) ^ 0x04C11DB7 else r << 1
  }

  function BitsOf(b: bv8): seq<bool> { Leading(8, Top, Shl, Lift(b)) }

  /** The checksum as the standard defines it. */
  function SerialCrc(data: seq<bv8>): bv32 {
    Xor(Fold(SerialBit, 0xFFFFFFFF, Flatten(BitsOf, data)), 0xFFFFFFFF)
  }

  /** The register shifted without input. */
  function BitStep(r: bv32): bv32 {
    if r & 0x80000000 != 0 then (r << 1) ^ 0x04C11DB7 else r << 1
  }

  function Steps(n: nat, r: bv32): bv32 { if n == 0 then r else Steps(n - 1, BitStep(r)) }

  function ByteStep(r: bv32): bv32 { Iter(8, BitStep, r) }

  lemma {:induction false} StepsAreIter(n: nat, r: bv32)
    ensures Steps(n, r) == Iter(n, BitStep, r)
  {
    if n > 0 { StepsAreIter(n - 1, BitStep(r)); }
  }

  // ----- The table of omci_api.c, sixteen entries per row -----

  datatype Row<W> = Row(
    e0: W, e1: W, e2: W, e3: W, e4: W, e5: W, e6: W, e7: W,
    e8: W, e9: W, eA: W, eB: W, eC: W, eD: W, eE: W, eF: W)

  function Row0(): Row<bv32> {
    Row(0x00000000, 0x04c11db7, 0x09823b6e, 0x0d4326d9, 0x130476dc, 0x17c56b6b, 0x1a864db2, 0x1e475005,
        0x2608edb8, 0x22c9f00f, 0x2f8ad6d6, 0x2b4bcb61, 0x350c9b64, 0x31cd86d3, 0x3c8ea00a, 0x384fbdbd)
  }

  function Row1(): Row<bv32> {
    Row(0x4c11db70, 0x48d0c6c7, 0x4593e01e, 0x4152fda9, 0x5f15adac, 0x5bd4b01b, 0x569796c2, 0x52568b75,
        0x6a1936c8, 0x6ed82b7f, 0x639b0da6, 0x675a1011, 0x791d4014, 0x7ddc5da3, 0x709f7b7a, 0x745e66cd)
  }

  function Row2(): Row<bv32> {
    Row(0x9823b6e0, 0x9ce2ab57, 0x91a18d8e, 0x95609039, 0x8b27c03c, 0x8fe6dd8b, 0x82a5fb52, 0x8664e6e5,
        0xbe2b5b58, 0xbaea46ef, 0xb7a96036, 0xb3687d81, 0xad2f2d84, 0xa9ee3033, 0xa4ad16ea, 0xa06c0b5d)
  }

  function Row3(): Row<bv32> {
    Row(0xd4326d90, 0xd0f37027, 0xddb056fe, 0xd9714b49, 0xc7361b4c, 0xc3f706fb, 0xceb42022, 0xca753d95,
        0xf23a8028, 0xf6fb9d9f, 0xfbb8bb46, 0xff79a6f1, 0xe13ef6f4, 0xe5ffeb43, 0xe8bccd9a, 0xec7dd02d)
  }

  function Row4(): Row<bv32> {
    Row(0x34867077, 0x30476dc0, 0x3d044b19, 0x39c556ae, 0x278206ab, 0x23431b1c, 0x2e003dc5, 0x2ac12072,
        0x128e9dcf, 0x164f8078, 0x1b0ca6a1, 0x1fcdbb16, 0x018aeb13, 0x054bf6a4, 0x0808d07d, 0x0cc9cdca)
  }

  function Row5(): Row<bv32> {
    Row(0x7897ab07, 0x7c56b6b0, 0x71159069, 0x75d48dde, 0x6b93dddb, 0x6f52c06c, 0x6211e6b5, 0x66d0fb02,
        0x5e9f46bf, 0x5a5e5b08, 0x571d7dd1, 0x53dc6066, 0x4d9b3063, 0x495a2dd4, 0x44190b0d, 0x40d816ba)
  }

  function Row6(): Row<bv32> {
    Row(0xaca5c697, 0xa864db20, 0xa527fdf9, 0xa1e6e04e, 0xbfa1b04b, 0xbb60adfc, 0xb6238b25, 0xb2e29692,
        0x8aad2b2f, 0x8e6c3698, 0x832f1041, 0x87ee0df6, 0x99a95df3, 0x9d684044, 0x902b669d, 0x94ea7b2a)
  }

  function Row7(): Row<bv32> {
    Row(0xe0b41de7, 0xe4750050, 0xe9362689, 0xedf73b3e, 0xf3b06b3b, 0xf771768c, 0xfa325055, 0xfef34de2,
        0xc6bcf05f, 0xc27dede8, 0xcf3ecb31, 0xcbffd686, 0xd5b88683, 0xd1799b34, 0xdc3abded, 0xd8fba05a)
  }

  function Row8(): Row<bv32> {
    Row(0x690ce0ee, 0x6dcdfd59, 0x608edb80, 0x644fc637, 0x7a089632, 0x7ec98b85, 0x738aad5c, 0x774bb0eb,
        0x4f040d56, 0x4bc510e1, 0x46863638, 0x42472b8f, 0x5c007b8a, 0x58c1663d, 0x558240e4, 0x51435d53)
  }

  function Row9(): Row<bv32> {
    Row(0x251d3b9e, 0x21dc2629, 0x2c9f00f0, 0x285e1d47, 0x36194d42, 0x32d850f5, 0x3f9b762c, 0x3b5a6b9b,
        0x0315d626, 0x07d4cb91, 0x0a97ed48, 0x0e56f0ff, 0x1011a0fa, 0x14d0bd4d, 0x19939b94, 0x1d528623)
  }

  function RowA(): Row<bv32> {
    Row(0xf12f560e, 0xf5ee4bb9, 0xf8ad6d60, 0xfc6c70d7, 0xe22b20d2, 0xe6ea3d65, 0xeba91bbc, 0xef68060b,
        0xd727bbb6, 0xd3e6a601, 0xdea580d8, 0xda649d6f, 0xc423cd6a, 0xc0e2d0dd, 0xcda1f604, 0xc960ebb3)
  }

  function RowB(): Row<bv32> {
    Row(0xbd3e8d7e, 0xb9ff90c9, 0xb4bcb610, 0xb07daba7, 0xae3afba2, 0xaafbe615, 0xa7b8c0cc, 0xa379dd7b,
        0x9b3660c6, 0x9ff77d71, 0x92b45ba8, 0x9675461f, 0x8832161a, 0x8cf30bad, 0x81b02d74, 0x857130c3)
  }

  function RowC(): Row<bv32> {
    Row(0x5d8a9099, 0x594b8d2e, 0x5408abf7, 0x50c9b640, 0x4e8ee645, 0x4a4ffbf2, 0x470cdd2b, 0x43cdc09c,
        0x7b827d21, 0x7f436096, 0x7200464f, 0x76c15bf8, 0x68860bfd, 0x6c47164a, 0x61043093, 0x65c52d24)
  }

  function RowD(): Row<bv32> {
    Row(0x119b4be9, 0x155a565e, 0x18197087, 0x1cd86d30, 0x029f3d35, 0x065e2082, 0x0b1d065b, 0x0fdc1bec,
        0x3793a651, 0x3352bbe6, 0x3e119d3f, 0x3ad08088, 0x2497d08d, 0x2056cd3a, 0x2d15ebe3, 0x29d4f654)
  }

  function RowE(): Row<bv32> {
    Row(0xc5a92679, 0xc1683bce, 0xcc2b1d17, 0xc8ea00a0, 0xd6ad50a5, 0xd26c4d12, 0xdf2f6bcb, 0xdbee767c,
        0xe3a1cbc1, 0xe760d676, 0xea23f0af, 0xeee2ed18, 0xf0a5bd1d, 0xf464a0aa, 0xf9278673, 0xfde69bc4)
  }

  function RowF(): Row<bv32> {
    Row(0x89b8fd09, 0x8d79e0be, 0x803ac667, 0x84fbdbd0, 0x9abc8bd5, 0x9e7d9662, 0x933eb0bb, 0x97ffad0c,
        0xafb010b1, 0xab710d06, 0xa6322bdf, 0xa2f33668, 0xbcb4666d, 0xb8757bda, 0xb5365d03, 0xb1f740b4)
  }

  function Pick<W>(row: Row<W>, i: bv8): W {
    match i & 0x0F
    case 0x00 => row.e0 case 0x01 => row.e1 case 0x02 => row.e2 case 0x03 => row.e3
    case 0x04 => row.e4 case 0x05 => row.e5 case 0x06 => row.e6 case 0x07 => row.e7
    case 0x08 => row.e8 case 0x09 => row.e9 case 0x0A => row.eA case 0x0B => row.eB
    case 0x0C => row.eC case 0x0D => row.eD case 0x0E => row.eE case _ => row.eF
  }

  function TableAt(i: bv8): bv32 {
    match i & 0xF0
    case 0x00 => Pick(Row0(), i) case 0x10 => Pick(Row1(), i) case 0x20 => Pick(Row2(), i) case 0x30 => Pick(Row3(), i)
    case 0x40 => Pick(Row4(), i) case 0x50 => Pick(Row5(), i) case 0x60 => Pick(Row6(), i) case 0x70 => Pick(Row7(), i)
    case 0x80 => Pick(Row8(), i) case 0x90 => Pick(Row9(), i) case 0xA0 => Pick(RowA(), i) case 0xB0 => Pick(RowB(), i)
    case 0xC0 => Pick(RowC(), i) case 0xD0 => Pick(RowD(), i) case 0xE0 => Pick(RowE(), i) case _ => Pick(RowF(), i)
  }

  /** The values of f at the sixteen nibbles. */
  function RowOf<W>(f: bv8 -> W): Row<W> {
    Row(f(0x00), f(0x01), f(0x02), f(0x03),
        f(0x04), f(0x05), f(0x06), f(0x07),
        f(0x08), f(0x09), f(0x0A), f(0x0B),
        f(0x0C), f(0x0D), f(0x0E), f(0x0F))
  }

  /** The remainder of a byte given by its high bits and its low nibble. */
  function Remainder(hi: bv8, lo: bv8): bv32 { Steps(8, Lift(hi | lo)) }

  ghost predicate Quarter0(row: Row<bv32>, hi: bv8) {
    && row.e0 == Remainder(hi, 0x00)
    && row.e1 == Remainder(hi, 0x01)
    && row.e2 == Remainder(hi, 0x02)
    && row.e3 == Remainder(hi, 0x03)
  }

  ghost predicate Quarter1(row: Row<bv32>, hi: bv8) {
    && row.e4 == Remainder(hi, 0x04)
    && row.e5 == Remainder(hi, 0x05)
    && row.e6 == Remainder(hi, 0x06)
    && row.e7 == Remainder(hi, 0x07)
  }

  ghost predicate Quarter2(row: Row<bv32>, hi: bv8) {
    && row.e8 == Remainder(hi, 0x08)
    && row.e9 == Remainder(hi, 0x09)
    && row.eA == Remainder(hi, 0x0A)
    && row.eB == Remainder(hi, 0x0B)
  }

  ghost predicate Quarter3(row: Row<bv32>, hi: bv8) {
    && row.eC == Remainder(hi, 0x0C)
    && row.eD == Remainder(hi, 0x0D)
    && row.eE == Remainder(hi, 0x0E)
    && row.eF == Remainder(hi, 0x0F)
  }

  ghost predicate Remainders(row: Row<bv32>, hi: bv8) {
    Quarter0(row, hi) && Quarter1(row, hi) && Quarter2(row, hi) && Quarter3(row, hi)
  }

  lemma Row0Quarter0() ensures Quarter0(Row0(), 0x00) {}
  lemma Row0Quarter1() ensures Quarter1(Row0(), 0x00) {}
  lemma Row0Quarter2() ensures Quarter2(Row0(), 0x00) {}
  lemma Row0Quarter3() ensures Quarter3(Row0(), 0x00) {}

  lemma Row1Quarter0() ensures Quarter0(Row1(), 0x10) {}
  lemma Row1Quarter1() ensures Quarter1(Row1(), 0x10) {}
  lemma Row1Quarter2() ensures Quarter2(Row1(), 0x10) {}
  lemma Row1Quarter3() ensures Quarter3(Row1(), 0x10) {}

  lemma Row2Quarter0() ensures Quarter0(Row2(), 0x20) {}
  lemma Row2Quarter1() ensures Quarter1(Row2(), 0x20) {}
  lemma Row2Quarter2() ensures Quarter2(Row2(), 0x20) {}
  lemma Row2Quarter3() ensures Quarter3(Row2(), 0x20) {}

  lemma Row3Quarter0() ensures Quarter0(Row3(), 0x30) {}
  lemma Row3Quarter1() ensures Quarter1(Row3(), 0x30) {}
  lemma Row3Quarter2() ensures Quarter2(Row3(), 0x30) {}
  lemma Row3Quarter3() ensures Quarter3(Row3(), 0x30) {}

  lemma Row4Quarter0() ensures Quarter0(Row4(), 0x40) {}
  lemma Row4Quarter1() ensures Quarter1(Row4(), 0x40) {}
  lemma Row4Quarter2() ensures Quarter2(Row4(), 0x40) {}
  lemma Row4Quarter3() ensures Quarter3(Row4(), 0x40) {}

  lemma Row5Quarter0() ensures Quarter0(Row5(), 0x50) {}
  lemma Row5Quarter1() ensures Quarter1(Row5(), 0x50) {}
  lemma Row5Quarter2() ensures Quarter2(Row5(), 0x50) {}
  lemma Row5Quarter3() ensures Quarter3(Row5(), 0x50) {}

  lemma Row6Quarter0() ensures Quarter0(Row6(), 0x60) {}
  lemma Row6Quarter1() ensures Quarter1(Row6(), 0x60) {}
  lemma Row6Quarter2() ensures Quarter2(Row6(), 0x60) {}
  lemma Row6Quarter3() ensures Quarter3(Row6(), 0x60) {}

  lemma Row7Quarter0() ensures Quarter0(Row7(), 0x70) {}
  lemma Row7Quarter1() ensures Quarter1(Row7(), 0x70) {}
  lemma Row7Quarter2() ensures Quarter2(Row7(), 0x70) {}
  lemma Row7Quarter3() ensures Quarter3(Row7(), 0x70) {}

  lemma Row8Quarter0() ensures Quarter0(Row8(), 0x80) {}
  lemma Row8Quarter1() ensures Quarter1(Row8(), 0x80) {}
  lemma Row8Quarter2() ensures Quarter2(Row8(), 0x80) {}
  lemma Row8Quarter3() ensures Quarter3(Row8(), 0x80) {}

  lemma Row9Quarter0() ensures Quarter0(Row9(), 0x90) {}
  lemma Row9Quarter1() ensures Quarter1(Row9(), 0x90) {}
  lemma Row9Quarter2() ensures Quarter2(Row9(), 0x90) {}
  lemma Row9Quarter3() ensures Quarter3(Row9(), 0x90) {}

  lemma RowAQuarter0() ensures Quarter0(RowA(), 0xA0) {}
  lemma RowAQuarter1() ensures Quarter1(RowA(), 0xA0) {}
  lemma RowAQuarter2() ensures Quarter2(RowA(), 0xA0) {}
  lemma RowAQuarter3() ensures Quarter3(RowA(), 0xA0) {}

  lemma RowBQuarter0() ensures Quarter0(RowB(), 0xB0) {}
  lemma RowBQuarter1() ensures Quarter1(RowB(), 0xB0) {}
  lemma RowBQuarter2() ensures Quarter2(RowB(), 0xB0) {}
  lemma RowBQuarter3() ensures Quarter3(RowB(), 0xB0) {}

  lemma RowCQuarter0() ensures Quarter0(RowC(), 0xC0) {}
  lemma RowCQuarter1() ensures Quarter1(RowC(), 0xC0) {}
  lemma RowCQuarter2() ensures Quarter2(RowC(), 0xC0) {}
  lemma RowCQuarter3() ensures Quarter3(RowC(), 0xC0) {}

  lemma RowDQuarter0() ensures Quarter0(RowD(), 0xD0) {}
  lemma RowDQuarter1() ensures Quarter1(RowD(), 0xD0) {}
  lemma RowDQuarter2() ensures Quarter2(RowD(), 0xD0) {}
  lemma RowDQuarter3() ensures Quarter3(RowD(), 0xD0) {}

  lemma RowEQuarter0() ensures Quarter0(RowE(), 0xE0) {}
  lemma RowEQuarter1() ensures Quarter1(RowE(), 0xE0) {}
  lemma RowEQuarter2() ensures Quarter2(RowE(), 0xE0) {}
  lemma RowEQuarter3() ensures Quarter3(RowE(), 0xE0) {}

  lemma RowFQuarter0() ensures Quarter0(RowF(), 0xF0) {}
  lemma RowFQuarter1() ensures Quarter1(RowF(), 0xF0) {}
  lemma RowFQuarter2() ensures Quarter2(RowF(), 0xF0) {}
  lemma RowFQuarter3() ensures Quarter3(RowF(), 0xF0) {}


  lemma PickRowOf<W>(f: bv8 -> W, i: bv8)
    ensures Pick(RowOf(f), i) == f(i & 0x0F)
  {}

  lemma Nibbles(i: bv8)
    ensures (i & 0xF0) | (i & 0x0F) == i
  {}

  lemma PickCorrect(row: Row<bv32>, i: bv8)
    requires Remainders(row, i & 0xF0)
    ensures Pick(row, i) == Steps(8, Lift(i))
  {
    var f := (l: bv8) => Remainder(i & 0xF0, l);
    assert row == RowOf(f);
    PickRowOf(f, i);
    Nibbles(i);
  }

  lemma Entry0(i: bv8)
    requires i & 0xF0 == 0x00
    ensures Pick(Row0(), i) == Steps(8, Lift(i))
  {
    Row0Quarter0(); Row0Quarter1(); Row0Quarter2(); Row0Quarter3();
    PickCorrect(Row0(), i);
  }

  lemma Entry1(i: bv8)
    requires i & 0xF0 == 0x10
    ensures Pick(Row1(), i) == Steps(8, Lift(i))
  {
    Row1Quarter0(); Row1Quarter1(); Row1Quarter2(); Row1Quarter3();
    PickCorrect(Row1(), i);
  }

  lemma Entry2(i: bv8)
    requires i & 0xF0 == 0x20
    ensures Pick(Row2(), i) == Steps(8, Lift(i))
  {
    Row2Quarter0(); Row2Quarter1(); Row2Quarter2(); Row2Quarter3();
    PickCorrect(Row2(), i);
  }

  lemma Entry3(i: bv8)
    requires i & 0xF0 == 0x30
    ensures Pick(Row3(), i) == Steps(8, Lift(i))
  {
    Row3Quarter0(); Row3Quarter1(); Row3Quarter2(); Row3Quarter3();
    PickCorrect(Row3(), i);
  }

  lemma Entry4(i: bv8)
    requires i & 0xF0 == 0x40
    ensures Pick(Row4(), i) == Steps(8, Lift(i))
  {
    Row4Quarter0(); Row4Quarter1(); Row4Quarter2(); Row4Quarter3();
    PickCorrect(Row4(), i);
  }

  lemma Entry5(i: bv8)
    requires i & 0xF0 == 0x50
    ensures Pick(Row5(), i) == Steps(8, Lift(i))
  {
    Row5Quarter0(); Row5Quarter1(); Row5Quarter2(); Row5Quarter3();
    PickCorrect(Row5(), i);
  }

  lemma Entry6(i: bv8)
    requires i & 0xF0 == 0x60
    ensures Pick(Row6(), i) == Steps(8, Lift(i))
  {
    Row6Quarter0(); Row6Quarter1(); Row6Quarter2(); Row6Quarter3();
    PickCorrect(Row6(), i);
  }

  lemma Entry7(i: bv8)
    requires i & 0xF0 == 0x70
    ensures Pick(Row7(), i) == Steps(8, Lift(i))
  {
    Row7Quarter0(); Row7Quarter1(); Row7Quarter2(); Row7Quarter3();
    PickCorrect(Row7(), i);
  }

  lemma Entry8(i: bv8)
    requires i & 0xF0 == 0x80
    ensures Pick(Row8(), i) == Steps(8, Lift(i))
  {
    Row8Quarter0(); Row8Quarter1(); Row8Quarter2(); Row8Quarter3();
    PickCorrect(Row8(), i);
  }

  lemma Entry9(i: bv8)
    requires i & 0xF0 == 0x90
    ensures Pick(Row9(), i) == Steps(8, Lift(i))
  {
    Row9Quarter0(); Row9Quarter1(); Row9Quarter2(); Row9Quarter3();
    PickCorrect(Row9(), i);
  }

  lemma EntryA(i: bv8)
    requires i & 0xF0 == 0xA0
    ensures Pick(RowA(), i) == Steps(8, Lift(i))
  {
    RowAQuarter0(); RowAQuarter1(); RowAQuarter2(); RowAQuarter3();
    PickCorrect(RowA(), i);
  }

  lemma EntryB(i: bv8)
    requires i & 0xF0 == 0xB0
    ensures Pick(RowB(), i) == Steps(8, Lift(i))
  {
    RowBQuarter0(); RowBQuarter1(); RowBQuarter2(); RowBQuarter3();
    PickCorrect(RowB(), i);
  }

  lemma EntryC(i: bv8)
    requires i & 0xF0 == 0xC0
    ensures Pick(RowC(), i) == Steps(8, Lift(i))
  {
    RowCQuarter0(); RowCQuarter1(); RowCQuarter2(); RowCQuarter3();
    PickCorrect(RowC(), i);
  }

  lemma EntryD(i: bv8)
    requires i & 0xF0 == 0xD0
    ensures Pick(RowD(), i) == Steps(8, Lift(i))
  {
    RowDQuarter0(); RowDQuarter1(); RowDQuarter2(); RowDQuarter3();
    PickCorrect(RowD(), i);
  }

  lemma EntryE(i: bv8)
    requires i & 0xF0 == 0xE0
    ensures Pick(RowE(), i) == Steps(8, Lift(i))
  {
    RowEQuarter0(); RowEQuarter1(); RowEQuarter2(); RowEQuarter3();
    PickCorrect(RowE(), i);
  }

  lemma EntryF(i: bv8)
    requires i & 0xF0 == 0xF0
    ensures Pick(RowF(), i) == Steps(8, Lift(i))
  {
    RowFQuarter0(); RowFQuarter1(); RowFQuarter2(); RowFQuarter3();
    PickCorrect(RowF(), i);
  }

  /** Every one of the 256 table constants is the remainder of its index. */
  lemma TableCorrect(i: bv8)
    ensures TableAt(i) == Steps(8, Lift(i))
  {
    match i & 0xF0
    case 0x00 => Entry0(i); case 0x10 => Entry1(i); case 0x20 => Entry2(i); case 0x30 => Entry3(i);
    case 0x40 => Entry4(i); case 0x50 => Entry5(i); case 0x60 => Entry6(i); case 0x70 => Entry7(i);
    case 0x80 => Entry8(i); case 0x90 => Entry9(i); case 0xA0 => EntryA(i); case 0xB0 => EntryB(i);
    case 0xC0 => EntryC(i); case 0xD0 => EntryD(i); case 0xE0 => EntryE(i); case _ => EntryF(i);
  }

  // ----- One bit step is linear and injective -----

  lemma LinearLowLow(x: bv32, y: bv32)
    requires x & 0x80000000 == 0 && y & 0x80000000 == 0
    ensures BitStep(Xor(x, y)) == Xor(BitStep(x), BitStep(y))
  {}

  lemma LinearLowHigh(x: bv32, y: bv32)
    requires x & 0x80000000 == 0 && y & 0x80000000 != 0
    ensures BitStep(Xor(x, y)) == Xor(BitStep(x), BitStep(y))
  {}

  lemma LinearHighLow(x: bv32, y: bv32)
    requires x & 0x80000000 != 0 && y & 0x80000000 == 0
    ensures BitStep(Xor(x, y)) == Xor(BitStep(x), BitStep(y))
  {}

  lemma LinearHighHigh(x: bv32, y: bv32)
    requires x & 0x80000000 != 0 && y & 0x80000000 != 0
    ensures BitStep(Xor(x, y)) == Xor(BitStep(x), BitStep(y))
  {}

  lemma BitStepLinear(x: bv32, y: bv32)
    ensures BitStep(Xor(x, y)) == Xor(BitStep(x), BitStep(y))
  {
    if x & 0x80000000 == 0 {
      if y & 0x80000000 == 0 { LinearLowLow(x, y); } else { LinearLowHigh(x, y); }
    } else {
      if y & 0x80000000 == 0 { LinearHighLow(x, y); } else { LinearHighHigh(x, y); }
    }
  }

  lemma AllLinear()
    ensures forall a, b :: BitStep(Xor(a, b)) == Xor(BitStep(a), BitStep(b))
  {
    forall a, b ensures BitStep(Xor(a, b)) == Xor(BitStep(a), BitStep(b)) { BitStepLinear(a, b); }
  }

  lemma ByteStepLinear(x: bv32, y: bv32)
    ensures ByteStep(Xor(x, y)) == Xor(ByteStep(x), ByteStep(y))
  {
    AllLinear();
    IterLinear(8, BitStep, Xor, x, y);
  }

  lemma InjectiveLow(x: bv32, y: bv32)
    requires x & 0x80000000 == 0 && y & 0x80000000 == 0 && BitStep(x) == BitStep(y)
    ensures x == y
  {}

  lemma InjectiveHigh(x: bv32, y: bv32)
    requires x & 0x80000000 != 0 && y & 0x80000000 != 0 && BitStep(x) == BitStep(y)
    ensures x == y
  {}

  lemma LowBit(x: bv32)
    ensures (BitStep(x) & 1 != 0) == (x & 0x80000000 != 0)
  {}

  lemma BitStepInjective(x: bv32, y: bv32)
    requires BitStep(x) == BitStep(y)
    ensures x == y
  {
    LowBit(x); LowBit(y);
    if x & 0x80000000 == 0 { InjectiveLow(x, y); } else { InjectiveHigh(x, y); }
  }

  lemma ByteStepInjective(x: bv32, y: bv32)
    requires ByteStep(x) == ByteStep(y)
    ensures x == y
  {
    forall a, b | BitStep(a) == BitStep(b) ensures a == b { BitStepInjective(a, b); }
    IterInjective(8, BitStep, x, y);
  }

  // ----- Bits below the top byte only move left -----

  ghost predicate LowBits(y: bv32) { y & 0xFF000000 == 0 }

  lemma Clear0(y: bv32) requires LowBits(y) ensures BitStep(y) == y << 1 {}
  lemma Clear1(y: bv32) requires LowBits(y) ensures BitStep(y << 1) == y << 2 {}
  lemma Clear2(y: bv32) requires LowBits(y) ensures BitStep(y << 2) == y << 3 {}
  lemma Clear3(y: bv32) requires LowBits(y) ensures BitStep(y << 3) == y << 4 {}
  lemma Clear4(y: bv32) requires LowBits(y) ensures BitStep(y << 4) == y << 5 {}
  lemma Clear5(y: bv32) requires LowBits(y) ensures BitStep(y << 5) == y << 6 {}
  lemma Clear6(y: bv32) requires LowBits(y) ensures BitStep(y << 6) == y << 7 {}
  lemma Clear7(y: bv32) requires LowBits(y) ensures BitStep(y << 7) == Shl8(y) {}

  lemma LowByte(y: bv32)
    requires LowBits(y)
    ensures ByteStep(y) == Shl8(y)
  {
    Clear0(y); Clear1(y); Clear2(y); Clear3(y); Clear4(y); Clear5(y); Clear6(y); Clear7(y);
    Iter8(BitStep, y, y << 1, y << 2, y << 3, y << 4, y << 5, y << 6, y << 7, Shl8(y));
  }

  // ----- One table step is eight bit steps -----

  function Index(crc: bv32, b: bv8): bv8 { ((crc >> 24) as bv8) ^ b }
  function Low(crc: bv32): bv32 { crc & 0x00FFFFFF }

  /** One iteration of the C loop. */
  function TableStep(crc: bv32, b: bv8): bv32 { Xor(Shl8(crc), TableAt(Index(crc, b))) }

  lemma SplitRegister(crc: bv32, b: bv8)
    ensures Xor(Low(crc), Lift(Index(crc, b))) == Xor(crc, Lift(b))
  {}

  lemma SplitLow(crc: bv32)
    ensures Shl8(Low(crc)) == Shl8(crc) && LowBits(Low(crc))
  {}

  lemma {:induction false} TableStepIsByteStep(crc: bv32, b: bv8)
    ensures TableStep(crc, b) == ByteStep(Xor(crc, Lift(b)))
  {
    var i := Index(crc, b);
    TableCorrect(i);
    StepsAreIter(8, Lift(i));
    SplitRegister(crc, b);
    SplitLow(crc);
    LowByte(Low(crc));
    ByteStepLinear(Low(crc), Lift(i));
    assert TableAt(i) == ByteStep(Lift(i));
  }

  // ----- Bit-serial division -----

  lemma FeedLowLow(r: bv32, c: bv32)
    requires r & 0x80000000 == 0 && c & 0x80000000 == 0
    ensures Xor(SerialBit(r, false), Shl(c)) == BitStep(Xor(r, c))
  {
    LinearLowLow(r, c);
    SerialZero(r);
    ShlLow(c);
  }

  lemma SerialZero(r: bv32)
    ensures SerialBit(r, false) == BitStep(r)
  {}

  lemma ShlLow(c: bv32)
    requires c & 0x80000000 == 0
    ensures Shl(c) == BitStep(c)
  {}

  lemma FeedLowHigh(r: bv32, c: bv32)
    requires r & 0x80000000 == 0 && c & 0x80000000 != 0
    ensures Xor(SerialBit(r, true), Shl(c)) == BitStep(Xor(r, c))
  {}

  lemma FeedHighLow(r: bv32, c: bv32)
    requires r & 0x80000000 != 0 && c & 0x80000000 == 0
    ensures Xor(SerialBit(r, false), Shl(c)) == BitStep(Xor(r, c))
  {}

  lemma FeedHighHigh(r: bv32, c: bv32)
    requires r & 0x80000000 != 0 && c & 0x80000000 != 0
    ensures Xor(SerialBit(r, true), Shl(c)) == BitStep(Xor(r, c))
  {}

  lemma FeedBit(r: bv32, c: bv32)
    ensures Xor(SerialBit(r, Top(c)), Shl(c)) == BitStep(Xor(r, c))
  {
    if r & 0x80000000 == 0 {
      if c & 0x80000000 == 0 { FeedLowLow(r, c); } else { FeedLowHigh(r, c); }
    } else {
      if c & 0x80000000 == 0 { FeedHighLow(r, c); } else { FeedHighHigh(r, c); }
    }
  }

  lemma LiftShifts(b: bv8)
    ensures Iter(8, Shl, Lift(b)) == 0
  {
    var c := Lift(b);
    Shift0(c); Shift1(c); Shift2(c); Shift3(c); Shift4(c); Shift5(c); Shift6(c); Shift7(b);
    Iter8(Shl, c, c << 1, c << 2, c << 3, c << 4, c << 5, c << 6, c << 7, 0);
  }

  lemma Shift0(c: bv32) ensures Shl(c) == c << 1 {}
  lemma Shift1(c: bv32) ensures Shl(c << 1) == c << 2 {}
  lemma Shift2(c: bv32) ensures Shl(c << 2) == c << 3 {}
  lemma Shift3(c: bv32) ensures Shl(c << 3) == c << 4 {}
  lemma Shift4(c: bv32) ensures Shl(c << 4) == c << 5 {}
  lemma Shift5(c: bv32) ensures Shl(c << 5) == c << 6 {}
  lemma Shift6(c: bv32) ensures Shl(c << 6) == c << 7 {}
  lemma Shift7(b: bv8) ensures Shl(Lift(b) << 7) == 0 {}

  lemma AllFeed()
    ensures forall x, y :: Xor(SerialBit(x, Top(y)), Shl(y)) == BitStep(Xor(x, y))
  {
    forall x, y ensures Xor(SerialBit(x, Top(y)), Shl(y)) == BitStep(Xor(x, y)) { FeedBit(x, y); }
  }

  lemma XorZero()
    ensures forall x :: Xor(x, 0) == x
  {}

  /** Eight bits entering one after another act as their byte entering at once. */
  lemma SerialFeeds(r: bv32, b: bv8)
    ensures Fold(SerialBit, r, BitsOf(b)) == ByteStep(Xor(r, Lift(b)))
  {
    AllFeed();
    XorZero();
    LiftShifts(b);
    FeedEight(SerialBit, BitStep, Xor, Top, Shl, 0, r, Lift(b));
  }

  lemma SerialByte(r: bv32, b: bv8)
    ensures Fold(SerialBit, r, BitsOf(b)) == TableStep(r, b)
  {
    SerialFeeds(r, b);
    TableStepIsByteStep(r, b);
  }

  lemma AllSerialBytes()
    ensures forall r, b :: Fold(SerialBit, r, BitsOf(b)) == TableStep(r, b)
  {
    forall r, b ensures Fold(SerialBit, r, BitsOf(b)) == TableStep(r, b) { SerialByte(r, b); }
  }

  /** The table loop over any message is the division of its bits, from any register value. */
  lemma {:induction false} TableRunIsDivision(crc: bv32, data: seq<bv8>)
    ensures Fold(TableStep, crc, data) == Fold(SerialBit, crc, Flatten(BitsOf, data))
  {
    AllSerialBytes();
    FoldChunks(SerialBit, TableStep, BitsOf, crc, data);
  }

  /** omci_api_calc_checksum_crc32_i363 */
  method CalcChecksum(data: seq<bv8>) returns (crc: bv32)
    ensures crc == SerialCrc(data)
  {
    crc := 0xFFFFFFFF;
    for i := 0 to |data|
      invariant crc == Fold(TableStep, 0xFFFFFFFF, data[..i])
    {
      FoldPrefix(TableStep, 0xFFFFFFFF, data, i);
      crc := Xor(Shl8(crc), TableAt(Index(crc, data[i])));
    }
    assert data[..|data|] == data;
    TableRunIsDivision(0xFFFFFFFF, data);
    crc := Xor(crc, 0xFFFFFFFF);
  }
}
