/**
  Performance-monitoring counters of omci_pm.c for internally managed PM MEs:
  modular differences of the absolute hardware counts are added, saturating,
  to the current 15-minute buffer; at the interval end the current and history
  buffers are swapped. Thresholds raise each alert at most once per interval.
 */
module Pm {

  const U64: nat := 0x1_0000_0000_0000_0000

  predicate CounterSize(size: nat) { size == 1 || size == 2 || size == 4 }

  /** One more than the largest value of a counter of this many bytes. */
  function Limit(size: nat): (l: nat)
    ensures l >= 1
  {
    match size
    case 1 => 0x100
    case 2 => 0x1_0000
    case 4 => 0x1_0000_0000
    case _ => 1
  }

  /** That is, 2 to the number of bits. */
  lemma LimitIsPower(size: nat)
    requires CounterSize(size)
    ensures Limit(size) == Power256(size)
  {
    assert Power256(1) == 256 && Power256(2) == 256 * 256 && Power256(3) == 256 * 256 * 256;
  }

  function Power256(n: nat): nat { if n == 0 then 1 else 256 * Power256(n - 1) }

  /** attr_sub, on uint64_t operands. */
  function AttrSub(lhs: nat, rhs: nat, size: nat): nat {
    if !CounterSize(size) then 0
    else if lhs % Limit(size) < rhs % Limit(size) then (Limit(size) - 1 - rhs + lhs + 1) % U64
    else (lhs - rhs) % U64
  }

  /** attr_add, on uint64_t operands. */
  function AttrAdd(lhs: nat, rhs: nat, size: nat): nat {
    if !CounterSize(size) then 0
    else if (lhs + rhs) % Limit(size) < lhs % Limit(size) then Limit(size) - 1
    else (lhs + rhs) % U64
  }

  /** A count that sticks at the largest value. */
  function Sat(x: nat, size: nat): nat { if x < Limit(size) then x else Limit(size) - 1 }

  /** attr_sub is subtraction modulo the counter range. */
  lemma AttrSubIsModular(lhs: nat, rhs: nat, size: nat)
    requires CounterSize(size) && lhs < Limit(size) && rhs < Limit(size)
    ensures AttrSub(lhs, rhs, size) == AttrDiff(lhs, rhs, Limit(size))
    ensures AttrSub(lhs, rhs, size) < Limit(size)
  {
    var l := Limit(size);
    ModBy(lhs, l);
    ModBy(rhs, l);
    ModBy(AttrDiff(lhs, rhs, l), U64);
  }

  function AttrDiff(lhs: nat, rhs: nat, l: nat): nat
    requires lhs < l && rhs < l
  {
    if rhs <= lhs then lhs - rhs else lhs + l - rhs
  }

  /** attr_add saturates instead of wrapping. */
  lemma AttrAddSaturates(lhs: nat, rhs: nat, size: nat)
    requires CounterSize(size) && lhs < Limit(size) && rhs < Limit(size)
    ensures AttrAdd(lhs, rhs, size) == if lhs + rhs < Limit(size) then lhs + rhs else Limit(size) - 1
  {
    var l := Limit(size);
    ModBy(lhs, l);
    ModBy(lhs + rhs, l);
    assert lhs + rhs < 2 * l <= U64;
    ModBy(lhs + rhs, U64);
  }

  lemma ModBy(x: nat, l: nat)
    requires 0 < l && x < 2 * l
    ensures x % l == (if x < l then x else x - l)
  {
    if x < l { DivUnique(x, l, 0, x); } else { DivUnique(x, l, 1, x - l); }
  }

  lemma {:induction false} MulMono(l: nat, a: nat, b: nat)
    requires a < b
    ensures l * a + l <= l * b
  {
    assert l * b == l * (b - 1) + l;
    if a < b - 1 { MulMono(l, a, b - 1); }
  }

  lemma DivUnique(x: nat, l: nat, q: nat, r: nat)
    requires 0 < l && r < l && x == l * q + r
    ensures x % l == r && x / l == q
  {
    if x / l < q { MulMono(l, x / l, q); assert false; }
    if q < x / l { MulMono(l, q, x / l); assert false; }
  }

  /** Differences of wrapped counts recover any rise below the range. */
  lemma {:induction false} RiseRecovered(before: nat, after: nat, size: nat)
    requires CounterSize(size) && before <= after < before + Limit(size)
    ensures AttrSub(after % Limit(size), before % Limit(size), size) == after - before
  {
    var l := Limit(size);
    AttrSubIsModular(after % l, before % l, size);
    var q, r := before / l, before % l;
    assert before == l * q + r;
    var d := after - before;
    if r + d < l {
      DivUnique(after, l, q, r + d);
    } else {
      assert after == l * (q + 1) + (r + d - l);
      DivUnique(after, l, q + 1, r + d - l);
    }
  }

  /** One update of counters_update on one counter. */
  function Accumulate(current: nat, oldAbs: nat, newAbs: nat, size: nat): nat {
    AttrAdd(current, AttrSub(newAbs, oldAbs, size), size)
  }

  /** The update is exact precisely when the rise fits the counter, or the
      counter ends saturated anyway. */
  lemma {:induction false} AccumulateExactly(current: nat, before: nat, after: nat, size: nat)
    requires CounterSize(size) && current < Limit(size) && before <= after
    ensures Accumulate(current, before % Limit(size), after % Limit(size), size) ==
            Sat(current + (after - before), size)
       <==> after - before < Limit(size) || current + (after - before) % Limit(size) >= Limit(size) - 1
  {
    var l := Limit(size);
    var d := after - before;
    var e := d % l;
    DiffMod(before, after, l);
    AttrSubIsModular(after % l, before % l, size);
    AttrAddSaturates(current, e, size);
    if d < l { DivUnique(d, l, 0, d); }
  }

  lemma MulDiff(l: nat, p: nat, q: nat)
    requires q <= p
    ensures l * p == l * q + l * (p - q)
  {}

  lemma DiffModAt(l: nat, p: nat, x: nat, q: nat, y: nat)
    requires 0 < l && x < l && y < l && l * q + y <= l * p + x
    ensures (l * p + x - (l * q + y)) % l == AttrDiff(x, y, l)
  {
    if p < q {
      MulMono(l, p, q);
      assert false;
    }
    MulDiff(l, p, q);
    var n := p - q;
    if y <= x {
      DivUnique(l * n + (x - y), l, n, x - y);
    } else {
      assert n > 0;
      MulDiff(l, n, 1);
      DivUnique(l * (n - 1) + (x + l - y), l, n - 1, x + l - y);
    }
  }

  lemma DivMod(x: nat, l: nat) returns (q: nat, r: nat)
    requires 0 < l
    ensures x == l * q + r && r < l && r == x % l
  {
    q, r := x / l, x % l;
  }

  lemma DiffMod(before: nat, after: nat, l: nat)
    requires 0 < l && before <= after
    ensures (after - before) % l == AttrDiff(after % l, before % l, l)
  {
    var p, x := DivMod(after, l);
    var q, y := DivMod(before, l);
    DiffModAt(l, p, x, q, y);
  }

  // ----- Alarm bitmaps -----

  const BITMAP_SIZE: nat := 28

  type Bitmap = b: seq<bv8> | |b| == 28 witness seq(28, _ => 0)

  const NO_ALARMS: Bitmap := seq(28, _ => 0)

  /** 1 << (7 - k) */
  function Mask(k: nat): bv8
    requires k < 8
  {
    match k
    case 0 => 0x80 case 1 => 0x40 case 2 => 0x20 case 3 => 0x10
    case 4 => 0x08 case 5 => 0x04 case 6 => 0x02 case _ => 0x01
  }

  /** b & Mask(k) != 0 */
  predicate BitSet(b: bv8, k: nat)
    requires k < 8
  {
    match k
    case 0 => b & 0x80 != 0 case 1 => b & 0x40 != 0 case 2 => b & 0x20 != 0 case 3 => b & 0x10 != 0
    case 4 => b & 0x08 != 0 case 5 => b & 0x04 != 0 case 6 => b & 0x02 != 0 case _ => b & 0x01 != 0
  }

  /** alarm_get */
  predicate Alarm(b: Bitmap, n: nat)
    requires n < 224
  {
    BitSet(b[n / 8], n % 8)
  }

  /** alarm_set with active == true */
  function AlarmSet(b: Bitmap, n: nat): Bitmap
    requires n < 224
  {
    b[n / 8 := b[n / 8] | Mask(n % 8)]
  }

  ghost function Alarms(b: Bitmap): set<nat> { set n: nat | n < 224 && Alarm(b, n) }

  lemma MaskIsShift(k: nat)
    requires k < 8
    ensures Mask(k) == (1 as bv8) << (7 - k)
  {
    match k
    case 0 => case 1 => case 2 => case 3 => case 4 => case 5 => case 6 => case _ =>
  }

  lemma BitIsMasked(b: bv8, k: nat)
    requires k < 8
    ensures BitSet(b, k) <==> b & Mask(k) != 0
  {}

  /** Alarm n is bit 7 - n % 8 of byte n / 8, when it is read ... */
  lemma AlarmRead(b: Bitmap, n: nat)
    requires n < 224
    ensures Alarm(b, n) <==> b[n / 8] & ((1 as bv8) << (7 - n % 8)) != 0
  {
    MaskIsShift(n % 8);
    BitIsMasked(b[n / 8], n % 8);
  }

  /** ... and when it is set. */
  lemma AlarmWritten(b: Bitmap, n: nat)
    requires n < 224
    ensures AlarmSet(b, n) == b[n / 8 := b[n / 8] | ((1 as bv8) << (7 - n % 8))]
  {
    MaskIsShift(n % 8);
  }

  lemma OrMask(x: bv8, j: nat, k: nat)
    requires j < 8 && k < 8
    ensures BitSet(x | Mask(j), k) <==> BitSet(x, k) || j == k
  {}

  lemma AlarmSetAt(b: Bitmap, n: nat, m: nat)
    requires n < 224 && m < 224
    ensures Alarm(AlarmSet(b, n), m) <==> Alarm(b, m) || m == n
  {
    OrMask(b[n / 8], n % 8, m % 8);
    SameNumber(n, m);
  }

  lemma SameNumber(n: nat, m: nat)
    ensures m == n <==> m / 8 == n / 8 && m % 8 == n % 8
  {}

  lemma {:induction false} AlarmSetAdds(b: Bitmap, n: nat)
    requires n < 224
    ensures Alarms(AlarmSet(b, n)) == Alarms(b) + {n}
  {
    forall m: nat | m < 224 ensures m in Alarms(AlarmSet(b, n)) <==> m in Alarms(b) || m == n {
      AlarmSetAt(b, n, m);
    }
  }

  lemma Mask0(x: bv8, y: bv8, r: bv8, t: bv8)
    requires r == (x ^ y) & x && t == y | r
    ensures BitSet(r, 0) == (BitSet(x, 0) && !BitSet(y, 0)) && BitSet(t, 0) == (BitSet(x, 0) || BitSet(y, 0))
  {}

  lemma Mask1(x: bv8, y: bv8, r: bv8, t: bv8)
    requires r == (x ^ y) & x && t == y | r
    ensures BitSet(r, 1) == (BitSet(x, 1) && !BitSet(y, 1)) && BitSet(t, 1) == (BitSet(x, 1) || BitSet(y, 1))
  {}

  lemma Mask2(x: bv8, y: bv8, r: bv8, t: bv8)
    requires r == (x ^ y) & x && t == y | r
    ensures BitSet(r, 2) == (BitSet(x, 2) && !BitSet(y, 2)) && BitSet(t, 2) == (BitSet(x, 2) || BitSet(y, 2))
  {}

  lemma Mask3(x: bv8, y: bv8, r: bv8, t: bv8)
    requires r == (x ^ y) & x && t == y | r
    ensures BitSet(r, 3) == (BitSet(x, 3) && !BitSet(y, 3)) && BitSet(t, 3) == (BitSet(x, 3) || BitSet(y, 3))
  {}

  lemma Mask4(x: bv8, y: bv8, r: bv8, t: bv8)
    requires r == (x ^ y) & x && t == y | r
    ensures BitSet(r, 4) == (BitSet(x, 4) && !BitSet(y, 4)) && BitSet(t, 4) == (BitSet(x, 4) || BitSet(y, 4))
  {}

  lemma Mask5(x: bv8, y: bv8, r: bv8, t: bv8)
    requires r == (x ^ y) & x && t == y | r
    ensures BitSet(r, 5) == (BitSet(x, 5) && !BitSet(y, 5)) && BitSet(t, 5) == (BitSet(x, 5) || BitSet(y, 5))
  {}

  lemma Mask6(x: bv8, y: bv8, r: bv8, t: bv8)
    requires r == (x ^ y) & x && t == y | r
    ensures BitSet(r, 6) == (BitSet(x, 6) && !BitSet(y, 6)) && BitSet(t, 6) == (BitSet(x, 6) || BitSet(y, 6))
  {}

  lemma Mask7(x: bv8, y: bv8, r: bv8, t: bv8)
    requires r == (x ^ y) & x && t == y | r
    ensures BitSet(r, 7) == (BitSet(x, 7) && !BitSet(y, 7)) && BitSet(t, 7) == (BitSet(x, 7) || BitSet(y, 7))
  {}

  lemma MaskFirst(x: bv8, y: bv8, r: bv8, t: bv8, k: nat)
    requires k < 4 && r == (x ^ y) & x && t == y | r
    ensures BitSet(r, k) == (BitSet(x, k) && !BitSet(y, k)) && BitSet(t, k) == (BitSet(x, k) || BitSet(y, k))
  {
    match k
    case 0 => Mask0(x, y, r, t);
    case 1 => Mask1(x, y, r, t);
    case 2 => Mask2(x, y, r, t);
    case _ => Mask3(x, y, r, t);
  }

  lemma MaskLast(x: bv8, y: bv8, r: bv8, t: bv8, k: nat)
    requires 4 <= k < 8 && r == (x ^ y) & x && t == y | r
    ensures BitSet(r, k) == (BitSet(x, k) && !BitSet(y, k)) && BitSet(t, k) == (BitSet(x, k) || BitSet(y, k))
  {
    match k
    case 4 => Mask4(x, y, r, t);
    case 5 => Mask5(x, y, r, t);
    case 6 => Mask6(x, y, r, t);
    case _ => Mask7(x, y, r, t);
  }

  /** The byte arithmetic of me_thr_check: new alerts are those not yet recorded. */
  lemma MaskBit(x: bv8, y: bv8, r: bv8, t: bv8, k: nat)
    requires k < 8 && r == (x ^ y) & x && t == y | r
    ensures BitSet(r, k) == (BitSet(x, k) && !BitSet(y, k)) && BitSet(t, k) == (BitSet(x, k) || BitSet(y, k))
  {
    if k < 4 { MaskFirst(x, y, r, t, k); } else { MaskLast(x, y, r, t, k); }
  }
}
