/**
  What the checksum is for: every error confined to 32 adjacent bits changes it.
 */
module Crc32Burst {
  import opened Folds
  import opened Crc32

  lemma XorCancel(x: bv32, y: bv32, c: bv32)
    requires Xor(x, c) == Xor(y, c)
    ensures x == y
  {}

  /** Bits added in behind a step could have been added in before it. */
  lemma Absorb(x: bv32, y: bv32)
    requires LowBits(y)
    ensures Xor(ByteStep(x), Shl8(y)) == ByteStep(Xor(x, y))
  {
    LowByte(y);
    ByteStepLinear(x, y);
  }

  function Word1(b: bv8): bv32 { (b as bv32) << 16 }
  function Word2(b: bv8): bv32 { (b as bv32) << 8 }
  function Word3(b: bv8): bv32 { b as bv32 }

  lemma Shifts1(b: bv8) ensures Shl8(Word1(b)) == Lift(b) && LowBits(Word1(b)) {}
  lemma Shifts2(b: bv8) ensures Shl8(Word2(b)) == Word1(b) && LowBits(Word2(b)) {}
  lemma Shifts3(b: bv8) ensures Shl8(Word3(b)) == Word2(b) && LowBits(Word3(b)) {}

  /** A register with four bytes added in at once. */
  function Loaded(r: bv32, b0: bv8, b1: bv8, b2: bv8, b3: bv8): bv32 {
    Xor(Xor(Xor(Xor(r, Lift(b0)), Word1(b1)), Word2(b2)), Word3(b3))
  }

  lemma Second(w: bv32, b: bv8)
    ensures Xor(ByteStep(w), Lift(b)) == ByteStep(Xor(w, Word1(b)))
  {
    Shifts1(b);
    Absorb(w, Word1(b));
  }

  lemma Third(w: bv32, b: bv8)
    ensures Xor(ByteStep(ByteStep(w)), Lift(b)) == ByteStep(ByteStep(Xor(w, Word2(b))))
  {
    Second(ByteStep(w), b);
    Shifts2(b);
    Absorb(w, Word2(b));
  }

  lemma Fourth(w: bv32, b: bv8)
    ensures Xor(ByteStep(ByteStep(ByteStep(w))), Lift(b)) == ByteStep(ByteStep(ByteStep(Xor(w, Word3(b)))))
  {
    Third(ByteStep(w), b);
    Shifts3(b);
    Absorb(w, Word3(b));
  }

  /** Four bytes entering one after another act as their word entering at once. */
  lemma FourBytes(r: bv32, b0: bv8, b1: bv8, b2: bv8, b3: bv8)
    ensures TableStep(TableStep(TableStep(TableStep(r, b0), b1), b2), b3) ==
      ByteStep(ByteStep(ByteStep(ByteStep(Loaded(r, b0, b1, b2, b3)))))
  {
    TableStepIsByteStep(r, b0);
    var w0 := Xor(r, Lift(b0));
    var w1 := Xor(w0, Word1(b1));
    var w2 := Xor(w1, Word2(b2));
    TableStepIsByteStep(ByteStep(w0), b1);
    Second(w0, b1);
    TableStepIsByteStep(ByteStep(ByteStep(w1)), b2);
    Third(w1, b2);
    TableStepIsByteStep(ByteStep(ByteStep(ByteStep(w2))), b3);
    Fourth(w2, b3);
  }

  function Byte0(w: bv32): bv32 { w & 0xFF000000 }
  function Byte1(w: bv32): bv8 { ((w >> 16) & 0xFF) as bv8 }
  function Byte2(w: bv32): bv8 { ((w >> 8) & 0xFF) as bv8 }
  function Byte3(w: bv32): bv8 { (w & 0xFF) as bv8 }

  lemma TopKept(x: bv32, y: bv32) requires LowBits(y) ensures Byte0(Xor(x, y)) == Byte0(x) {}

  lemma TopDetermines(r: bv32, a: bv8, b: bv8)
    requires Byte0(Xor(r, Lift(a))) == Byte0(Xor(r, Lift(b)))
    ensures a == b
  {}

  lemma Unloaded0(r: bv32, b0: bv8, b1: bv8, b2: bv8, b3: bv8)
    ensures Byte0(Loaded(r, b0, b1, b2, b3)) == Byte0(Xor(r, Lift(b0)))
  {
    var w0 := Xor(r, Lift(b0));
    var w1 := Xor(w0, Word1(b1));
    Shifts1(b1); Shifts2(b2); Shifts3(b3);
    TopKept(w0, Word1(b1));
    TopKept(w1, Word2(b2));
    TopKept(Xor(w1, Word2(b2)), Word3(b3));
  }

  lemma Unloaded1(r: bv32, b0: bv8, b1: bv8, b2: bv8, b3: bv8) ensures Byte1(Xor(Loaded(r, b0, b1, b2, b3), r)) == b1 {}
  lemma Unloaded2(r: bv32, b0: bv8, b1: bv8, b2: bv8, b3: bv8) ensures Byte2(Xor(Loaded(r, b0, b1, b2, b3), r)) == b2 {}
  lemma Unloaded3(r: bv32, b0: bv8, b1: bv8, b2: bv8, b3: bv8) ensures Byte3(Xor(Loaded(r, b0, b1, b2, b3), r)) == b3 {}

  lemma LoadedDetermines(r: bv32, a0: bv8, a1: bv8, a2: bv8, a3: bv8, b0: bv8, b1: bv8, b2: bv8, b3: bv8)
    requires Loaded(r, a0, a1, a2, a3) == Loaded(r, b0, b1, b2, b3)
    ensures a0 == b0 && a1 == b1 && a2 == b2 && a3 == b3
  {
    Unloaded0(r, a0, a1, a2, a3); Unloaded1(r, a0, a1, a2, a3);
    Unloaded2(r, a0, a1, a2, a3); Unloaded3(r, a0, a1, a2, a3);
    Unloaded0(r, b0, b1, b2, b3); Unloaded1(r, b0, b1, b2, b3);
    Unloaded2(r, b0, b1, b2, b3); Unloaded3(r, b0, b1, b2, b3);
    TopDetermines(r, a0, b0);
  }

  lemma FourSteps(x: bv32, y: bv32)
    requires ByteStep(ByteStep(ByteStep(ByteStep(x)))) == ByteStep(ByteStep(ByteStep(ByteStep(y))))
    ensures x == y
  {
    ByteStepInjective(ByteStep(ByteStep(ByteStep(x))), ByteStep(ByteStep(ByteStep(y))));
    ByteStepInjective(ByteStep(ByteStep(x)), ByteStep(ByteStep(y)));
    ByteStepInjective(ByteStep(x), ByteStep(y));
    ByteStepInjective(x, y);
  }

  lemma StepsDetermine(r: bv32, a0: bv8, a1: bv8, a2: bv8, a3: bv8, b0: bv8, b1: bv8, b2: bv8, b3: bv8)
    requires After(TableStep, r, a0, a1, a2, a3) == After(TableStep, r, b0, b1, b2, b3)
    ensures Loaded(r, a0, a1, a2, a3) == Loaded(r, b0, b1, b2, b3)
  {
    FourBytes(r, a0, a1, a2, a3);
    FourBytes(r, b0, b1, b2, b3);
    FourSteps(Loaded(r, a0, a1, a2, a3), Loaded(r, b0, b1, b2, b3));
  }

  lemma FourDetermine(r: bv32, a0: bv8, a1: bv8, a2: bv8, a3: bv8, b0: bv8, b1: bv8, b2: bv8, b3: bv8)
    ensures After(TableStep, r, a0, a1, a2, a3) == After(TableStep, r, b0, b1, b2, b3) ==>
      a0 == b0 && a1 == b1 && a2 == b2 && a3 == b3
  {
    if After(TableStep, r, a0, a1, a2, a3) == After(TableStep, r, b0, b1, b2, b3) {
      StepsDetermine(r, a0, a1, a2, a3, b0, b1, b2, b3);
      LoadedDetermines(r, a0, a1, a2, a3, b0, b1, b2, b3);
    }
  }

  lemma WindowDetermined(r: bv32, a: seq<bv8>, b: seq<bv8>)
    requires |a| == 4 && |b| == 4 && Fold(TableStep, r, a) == Fold(TableStep, r, b)
    ensures a == b
  {
    FourDetermine(r, a[0], a[1], a[2], a[3], b[0], b[1], b[2], b[3]);
    SameFour(TableStep, r, a, b);
  }

  // ----- Bursts at any bit position -----

  lemma SerialOneLow(x: bv32, y: bv32)
    requires x & 0x80000000 == 0 && y & 0x80000000 == 0 && SerialBit(x, true) == SerialBit(y, true)
    ensures x == y
  {}

  lemma SerialOneHigh(x: bv32, y: bv32)
    requires x & 0x80000000 != 0 && y & 0x80000000 != 0 && SerialBit(x, true) == SerialBit(y, true)
    ensures x == y
  {}

  lemma SerialOneBit(x: bv32)
    ensures (SerialBit(x, true) & 1 != 0) == (x & 0x80000000 == 0)
  {}

  lemma SerialInjective(x: bv32, y: bv32, bit: bool)
    requires SerialBit(x, bit) == SerialBit(y, bit)
    ensures x == y
  {
    if bit {
      SerialOneBit(x);
      SerialOneBit(y);
      if x & 0x80000000 == 0 { SerialOneLow(x, y); } else { SerialOneHigh(x, y); }
    } else {
      SerialZero(x);
      SerialZero(y);
      BitStepInjective(x, y);
    }
  }

  /** The byte with these bits. */
  function ByteFrom(s: seq<bool>): bv8
    requires |s| == 8
  {
    (if s[0] then 0x80 else 0) | (if s[1] then 0x40 else 0) | (if s[2] then 0x20 else 0) | (if s[3] then 0x10 else 0) |
    (if s[4] then 0x08 else 0) | (if s[5] then 0x04 else 0) | (if s[6] then 0x02 else 0) | (if s[7] then 0x01 else 0)
  }

  lemma Top0(b: bv8) ensures Top(Lift(b)) == (b & 0x80 != 0) {}
  lemma Top1(b: bv8) ensures Top(Lift(b) << 1) == (b & 0x40 != 0) {}
  lemma Top2(b: bv8) ensures Top(Lift(b) << 2) == (b & 0x20 != 0) {}
  lemma Top3(b: bv8) ensures Top(Lift(b) << 3) == (b & 0x10 != 0) {}
  lemma Top4(b: bv8) ensures Top(Lift(b) << 4) == (b & 0x08 != 0) {}
  lemma Top5(b: bv8) ensures Top(Lift(b) << 5) == (b & 0x04 != 0) {}
  lemma Top6(b: bv8) ensures Top(Lift(b) << 6) == (b & 0x02 != 0) {}
  lemma Top7(b: bv8) ensures Top(Lift(b) << 7) == (b & 0x01 != 0) {}

  lemma BitsAre(b: bv8)
    ensures BitsOf(b) == [b & 0x80 != 0, b & 0x40 != 0, b & 0x20 != 0, b & 0x10 != 0,
                          b & 0x08 != 0, b & 0x04 != 0, b & 0x02 != 0, b & 0x01 != 0]
  {
    var c := Lift(b);
    Shift0(c); Shift1(c); Shift2(c); Shift3(c); Shift4(c); Shift5(c); Shift6(c);
    Leading8(Top, Shl, c, c << 1, c << 2, c << 3, c << 4, c << 5, c << 6, c << 7);
    Top0(b); Top1(b); Top2(b); Top3(b); Top4(b); Top5(b); Top6(b); Top7(b);
  }

  lemma ByteFromBits(s: seq<bool>)
    requires |s| == 8
    ensures BitsOf(ByteFrom(s)) == s
  {
    BitsAre(ByteFrom(s));
  }

  /** Any 32 bits are the bits of four bytes. */
  function BytesFrom(w: seq<bool>): seq<bv8>
    requires |w| == 32
  {
    [ByteFrom(w[..8]), ByteFrom(w[8..16]), ByteFrom(w[16..24]), ByteFrom(w[24..])]
  }

  lemma BytesFromBits(w: seq<bool>)
    requires |w| == 32
    ensures Flatten(BitsOf, BytesFrom(w)) == w
  {
    ByteFromBits(w[..8]); ByteFromBits(w[8..16]); ByteFromBits(w[16..24]); ByteFromBits(w[24..]);
    FlattenFour(BitsOf, ByteFrom(w[..8]), ByteFrom(w[8..16]), ByteFrom(w[16..24]), ByteFrom(w[24..]));
    FourParts(w);
  }

  lemma BitsDetermined(r: bv32, v: seq<bool>, w: seq<bool>)
    requires |v| == 32 && |w| == 32 && Fold(SerialBit, r, v) == Fold(SerialBit, r, w)
    ensures v == w
  {
    BytesFromBits(v);
    BytesFromBits(w);
    TableRunIsDivision(r, BytesFrom(v));
    TableRunIsDivision(r, BytesFrom(w));
    WindowDetermined(r, BytesFrom(v), BytesFrom(w));
  }

  lemma AllSerialInjective()
    ensures forall x, y, bit :: SerialBit(x, bit) == SerialBit(y, bit) ==> x == y
  {
    forall x, y, bit | SerialBit(x, bit) == SerialBit(y, bit) ensures x == y { SerialInjective(x, y, bit); }
  }

  lemma SameRegister(r: bv32, before: seq<bool>, v: seq<bool>, w: seq<bool>, after: seq<bool>)
    requires |v| == 32 && |w| == 32
    requires Fold(SerialBit, r, before + v + after) == Fold(SerialBit, r, before + w + after)
    ensures v == w
  {
    FoldWindow(SerialBit, r, before, v, after);
    FoldWindow(SerialBit, r, before, w, after);
    AllSerialInjective();
    var s := Fold(SerialBit, r, before);
    FoldInjective(SerialBit, Fold(SerialBit, s, v), Fold(SerialBit, s, w), after);
    BitsDetermined(s, v, w);
  }

  function Bits(x: seq<bv8>): seq<bool> { Flatten(BitsOf, x) }

  /** p and q agree except within 32 adjacent bits. */
  ghost predicate Burst(p: seq<bool>, q: seq<bool>, at: nat) {
    |p| == |q| && at + 32 <= |p| && p[..at] == q[..at] && p[at + 32..] == q[at + 32..]
  }

  lemma SameChecksum(x: seq<bv8>, y: seq<bv8>, at: nat)
    requires Burst(Bits(x), Bits(y), at) && SerialCrc(x) == SerialCrc(y)
    ensures Bits(x) == Bits(y)
  {
    var p, q := Bits(x), Bits(y);
    XorCancel(Fold(SerialBit, 0xFFFFFFFF, p), Fold(SerialBit, 0xFFFFFFFF, q), 0xFFFFFFFF);
    Windowed(p, at);
    Windowed(q, at);
    SameRegister(0xFFFFFFFF, p[..at], p[at..at + 32], q[at..at + 32], p[at + 32..]);
  }

  /** Messages of one length are determined by their bits. */
  lemma {:induction false} BitsDetermine(x: seq<bv8>, y: seq<bv8>)
    requires |x| == |y| && Bits(x) == Bits(y)
    ensures x == y
    decreases |x|
  {
    if x != [] {
      BitsAre(x[0]);
      BitsAre(y[0]);
      SplitHeads(BitsOf(x[0]), Bits(x[1..]), BitsOf(y[0]), Bits(y[1..]));
      BitsOfInjective(x[0], y[0]);
      BitsDetermine(x[1..], y[1..]);
    }
  }

  lemma SplitHeads(a: seq<bool>, r: seq<bool>, b: seq<bool>, s: seq<bool>)
    requires |a| == |b| && a + r == b + s
    ensures a == b && r == s
  {
    assert a == (a + r)[..|a|] && b == (b + s)[..|a|];
    assert r == (a + r)[|a|..] && s == (b + s)[|a|..];
  }

  lemma BitsOfInjective(a: bv8, b: bv8)
    requires BitsOf(a) == BitsOf(b)
    ensures a == b
  {
    BitsAre(a);
    BitsAre(b);
    var s, t := BitsOf(a), BitsOf(b);
    assert s[0] == t[0] && s[1] == t[1] && s[2] == t[2] && s[3] == t[3];
    assert s[4] == t[4] && s[5] == t[5] && s[6] == t[6] && s[7] == t[7];
    SameBits(a, b);
  }

  lemma SameBits(a: bv8, b: bv8)
    requires (a & 0x80 != 0) == (b & 0x80 != 0) && (a & 0x40 != 0) == (b & 0x40 != 0)
    requires (a & 0x20 != 0) == (b & 0x20 != 0) && (a & 0x10 != 0) == (b & 0x10 != 0)
    requires (a & 0x08 != 0) == (b & 0x08 != 0) && (a & 0x04 != 0) == (b & 0x04 != 0)
    requires (a & 0x02 != 0) == (b & 0x02 != 0) && (a & 0x01 != 0) == (b & 0x01 != 0)
    ensures a == b
  {}

  /** Two messages of one length that differ only within 32 adjacent bits, at any
      bit position, have different checksums. */
  lemma {:induction false} BurstDetected(x: seq<bv8>, y: seq<bv8>, at: nat)
    requires |x| == |y| && x != y && Burst(Bits(x), Bits(y), at)
    ensures SerialCrc(x) != SerialCrc(y)
  {
    if SerialCrc(x) == SerialCrc(y) {
      SameChecksum(x, y, at);
      BitsDetermine(x, y);
      assert false;
    }
  }
}
