/**
  A message followed by its checksum, most significant byte first: the checksum
  of the whole is one constant, and no other four bytes give it.
 */
module Crc32Trailer {
  import opened Folds
  import opened Crc32
  import opened Crc32Burst

  /** What the checksum of a message with its own checksum behind it always is. */
  const Residue: bv32 := 0x38FB2284

  /** A word as four bytes, most significant first. */
  function BytesOf(w: bv32): (s: seq<bv8>)
    ensures |s| == 4
  {
    [((w >> 24) & 0xFF) as bv8, Byte1(w), Byte2(w), Byte3(w)]
  }

  /** Adding the complement of a register to it sets every bit. */
  lemma LoadedComplement(r: bv32)
    ensures var c := Xor(r, 0xFFFFFFFF);
            Loaded(r, ((c >> 24) & 0xFF) as bv8, Byte1(c), Byte2(c), Byte3(c)) == 0xFFFFFFFF
  {}

  lemma Zero0() ensures TableStep(0xFFFFFFFF, 0) == 0x4E08BFB4 {}
  lemma Zero1() ensures TableStep(0x4E08BFB4, 0) == 0x00B7647D {}
  lemma Zero2() ensures TableStep(0x00B7647D, 0) == 0xB7647D00 {}
  lemma Zero3() ensures TableStep(0xB7647D00, 0) == 0xC704DD7B {}

  lemma LoadedZero()
    ensures Loaded(0xFFFFFFFF, 0, 0, 0, 0) == 0xFFFFFFFF
  {}

  lemma AllOnes()
    ensures ByteStep(ByteStep(ByteStep(ByteStep(0xFFFFFFFF)))) == 0xC704DD7B
  {
    Zero0(); Zero1(); Zero2(); Zero3();
    FourBytes(0xFFFFFFFF, 0, 0, 0, 0);
    LoadedZero();
  }

  lemma FourLead(r: bv32, b0: bv8, b1: bv8, b2: bv8, b3: bv8)
    requires Loaded(r, b0, b1, b2, b3) == 0xFFFFFFFF
    ensures After(TableStep, r, b0, b1, b2, b3) == 0xC704DD7B
  {
    FourBytes(r, b0, b1, b2, b3);
    AllOnes();
  }

  /** From any register value, its complement as trailer leads to the same value. */
  lemma TrailerLeads(r: bv32, t: seq<bv8>)
    requires t == BytesOf(Xor(r, 0xFFFFFFFF))
    ensures Fold(TableStep, r, t) == 0xC704DD7B
  {
    LoadedComplement(r);
    FourLead(r, t[0], t[1], t[2], t[3]);
    FoldFour(TableStep, r, t);
  }

  lemma Complement()
    ensures Xor(0xC704DD7B, 0xFFFFFFFF) == Residue
  {}

  lemma CrcAppend(data: seq<bv8>, t: seq<bv8>)
    ensures SerialCrc(data + t) == Xor(Fold(TableStep, Fold(TableStep, 0xFFFFFFFF, data), t), 0xFFFFFFFF)
  {
    TableRunIsDivision(0xFFFFFFFF, data + t);
    FoldAppend(TableStep, 0xFFFFFFFF, data, t);
  }

  /** Four bytes behind a message give the residue exactly when they are its checksum. */
  lemma {:induction false} TrailerExactly(data: seq<bv8>, t: seq<bv8>)
    requires |t| == 4
    ensures SerialCrc(data + t) == Residue <==> t == BytesOf(SerialCrc(data))
  {
    var r := Fold(TableStep, 0xFFFFFFFF, data);
    var own := BytesOf(SerialCrc(data));
    TableRunIsDivision(0xFFFFFFFF, data);
    CrcAppend(data, t);
    TrailerLeads(r, own);
    Complement();
    if SerialCrc(data + t) == Residue {
      XorCancel(Fold(TableStep, r, t), 0xC704DD7B, 0xFFFFFFFF);
      WindowDetermined(r, t, own);
    }
  }

  lemma Digit1() ensures TableStep(0xFFFFFFFF, 0x31) == 0x9EFBCF93 {}
  lemma Digit2() ensures TableStep(0x9EFBCF93, 0x32) == 0x3FEC5E6A {}
  lemma Digit3() ensures TableStep(0x3FEC5E6A, 0x33) == 0xD952F164 {}
  lemma Digit4() ensures TableStep(0xD952F164, 0x34) == 0xA695C4AA {}

  lemma Final4()
    ensures Xor(0xA695C4AA, 0xFFFFFFFF) == 0x596A3B55
  {}

  lemma Chain(s: seq<bv8>, r1: bv32, r2: bv32, r3: bv32, r4: bv32)
    requires |s| == 4 && TableStep(0xFFFFFFFF, s[0]) == r1
    requires TableStep(r1, s[1]) == r2 && TableStep(r2, s[2]) == r3 && TableStep(r3, s[3]) == r4
    ensures SerialCrc(s) == Xor(r4, 0xFFFFFFFF)
  {
    TableRunIsDivision(0xFFFFFFFF, s);
    FoldFour(TableStep, 0xFFFFFFFF, s);
  }

  /** The checksum of the digits 1 to 4. */
  lemma {:induction false} KnownAnswer(digits: seq<bv8>)
    requires |digits| == 4 && digits[0] == 0x31 && digits[1] == 0x32 && digits[2] == 0x33 && digits[3] == 0x34
    ensures SerialCrc(digits) == 0x596A3B55
  {
    Digit1(); Digit2(); Digit3(); Digit4();
    Chain(digits, 0x9EFBCF93, 0x3FEC5E6A, 0xD952F164, 0xA695C4AA);
    Final4();
  }
}
