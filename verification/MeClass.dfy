/**
  Managed entity classes (omci_me.h): sixteen attributes with offset, size and
  properties over one packed data block. Attribute masks are sets of attribute
  numbers 1..16.
 */
module MeClass {

  type byte = x: int | 0 <= x < 256
  type Data = seq<byte>
  type Mask = set<nat>

  /** The attribute properties the daemon tests. */
  datatype Prop = Prop(rd: bool, wr: bool, notSupported: bool, table: bool, noUpload: bool, other: bool) {
    predicate None() { !rd && !wr && !notSupported && !table && !noUpload && !other }
  }

  /** struct me_attr; `volatile` says that there is a get handler. */
  datatype Attr = Attr(offset: nat, size: nat, prop: Prop, volatile: bool)

  datatype Class = Class(id: nat, attrs: seq<Attr>, dataSize: nat, noUpload: bool, pm: bool)

  ghost predicate Shaped(c: Class) { |c.attrs| == 16 }

  predicate Number(i: int) { 1 <= i <= 16 }

  function At(c: Class, i: nat): Attr
    requires |c.attrs| == 16 && Number(i)
  {
    c.attrs[i - 1]
  }

  /** Total size of the attributes before number i. */
  function SizeBefore(c: Class, i: nat): nat
    requires |c.attrs| == 16 && 1 <= i <= 17
  {
    if i == 1 then 0 else SizeBefore(c, i - 1) + At(c, i - 1).size
  }

  /** What mib_create checks, and that the attributes lie packed in number order. */
  ghost predicate WellFormed(c: Class) {
    && Shaped(c) && SizeBefore(c, 17) == c.dataSize
    && forall i: nat :: Number(i) ==> Packed(c, i)
  }

  ghost predicate Packed(c: Class, i: nat)
    requires |c.attrs| == 16 && Number(i)
  {
    if At(c, i).prop.None() then At(c, i).size == 0 else At(c, i).offset == SizeBefore(c, i)
  }

  // ----- Masks mib_create computes -----

  function All(): Mask { {1, 2, 3, 4, 5, 6, 7, 8, 9, 10, 11, 12, 13, 14, 15, 16} }
  function InvMask(c: Class): Mask requires |c.attrs| == 16 { set i: nat | 1 <= i <= 16 && At(c, i).prop.None() }
  function OptMask(c: Class): Mask requires |c.attrs| == 16 { set i: nat | 1 <= i <= 16 && At(c, i).prop.notSupported }
  function WrMask(c: Class): Mask requires |c.attrs| == 16 { set i: nat | 1 <= i <= 16 && At(c, i).prop.wr }

  /** is_me_attr_exist */
  predicate Exists(c: Class, i: nat)
    requires |c.attrs| == 16
  {
    Number(i) && !At(c, i).prop.notSupported && !At(c, i).prop.None()
  }

  // ----- Slices of the data block -----

  lemma {:induction false} SizesGrow(c: Class, i: nat, j: nat)
    requires Shaped(c) && 1 <= i <= j <= 17
    ensures SizeBefore(c, i) <= SizeBefore(c, j)
    ensures i < j ==> SizeBefore(c, i) + At(c, i).size <= SizeBefore(c, j)
  {
    if i < j { SizesGrow(c, i, j - 1); }
  }

  /** Every attribute lies within the block. */
  lemma Fits(c: Class, i: nat)
    requires WellFormed(c) && Number(i)
    ensures At(c, i).prop.None() ==> At(c, i).size == 0
    ensures !At(c, i).prop.None() ==>
      At(c, i).offset == SizeBefore(c, i) && At(c, i).offset + At(c, i).size <= c.dataSize
  {
    assert Packed(c, i);
    SizesGrow(c, i, 17);
  }

  /** The bytes of attribute i; an undefined attribute has none. */
  function Slice(c: Class, d: Data, i: nat): Data
    requires |c.attrs| == 16 && Number(i)
  {
    var a := At(c, i);
    if a.prop.None() || a.offset + a.size > |d| then [] else d[a.offset..a.offset + a.size]
  }

  /** The block with the bytes of attribute i replaced: memcpy to its offset. */
  function Put(c: Class, d: Data, i: nat, v: Data): (r: Data)
    requires |c.attrs| == 16 && Number(i) && At(c, i).offset + |v| <= |d|
    ensures |r| == |d|
  {
    d[..At(c, i).offset] + v + d[At(c, i).offset + |v|..]
  }

  lemma PutSlice(c: Class, d: Data, i: nat, v: Data, j: nat)
    requires WellFormed(c) && |d| == c.dataSize && Number(i) && Number(j)
    requires !At(c, i).prop.None() && |v| == At(c, i).size && At(c, i).offset + |v| <= |d|
    ensures Slice(c, Put(c, d, i, v), j) == if i == j then v else Slice(c, d, j)
  {
    var b := At(c, j);
    if !b.prop.None() {
      Fits(c, i);
      Fits(c, j);
      if i < j { SizesGrow(c, i, j); } else if j < i { SizesGrow(c, j, i); }
      if i != j { SpliceOutside(d, At(c, i).offset, v, b.offset, b.size); } else { SpliceInside(d, b.offset, v); }
    }
  }

  lemma SpliceOutside(d: Data, off: nat, v: Data, from: nat, size: nat)
    requires off + |v| <= |d| && from + size <= |d| && (from + size <= off || off + |v| <= from)
    ensures (d[..off] + v + d[off + |v|..])[from..from + size] == d[from..from + size]
  {
    var r := d[..off] + v + d[off + |v|..];
    assert forall k :: from <= k < from + size ==> r[k] == d[k];
  }

  lemma SpliceInside(d: Data, off: nat, v: Data)
    requires off + |v| <= |d|
    ensures (d[..off] + v + d[off + |v|..])[off..off + |v|] == v
  {}

  lemma {:induction false} SamePrefix(c: Class, d: Data, e: Data, i: nat)
    requires WellFormed(c) && |d| == |e| == c.dataSize && 1 <= i <= 17
    requires forall j: nat :: Number(j) ==> Slice(c, d, j) == Slice(c, e, j)
    ensures SizeBefore(c, i) <= c.dataSize && d[..SizeBefore(c, i)] == e[..SizeBefore(c, i)]
  {
    SizesGrow(c, i, 17);
    if i > 1 {
      SamePrefix(c, d, e, i - 1);
      var a := At(c, i - 1);
      Fits(c, i - 1);
      assert Slice(c, d, i - 1) == Slice(c, e, i - 1);
      if !a.prop.None() {
        PrefixGrows(d, a.offset, a.size);
        PrefixGrows(e, a.offset, a.size);
      }
    }
  }

  lemma PrefixGrows(d: Data, off: nat, size: nat)
    requires off + size <= |d|
    ensures d[..off + size] == d[..off] + d[off..off + size]
  {}

  /** A block is determined by its attributes. */
  lemma SlicesDetermine(c: Class, d: Data, e: Data)
    requires WellFormed(c) && |d| == |e| == c.dataSize
    requires forall j: nat :: Number(j) ==> Slice(c, d, j) == Slice(c, e, j)
    ensures d == e
  {
    SamePrefix(c, d, e, 17);
    assert d[..c.dataSize] == d && e[..c.dataSize] == e;
  }

  // ----- Attribute lists -----

  /** The members of a mask below number i, in attribute order. */
  function Below(m: Mask, i: nat): (l: seq<nat>)
    requires 1 <= i <= 17
    ensures forall k :: 0 <= k < |l| ==> 1 <= l[k] < i && l[k] in m
  {
    if i == 1 then [] else if i - 1 in m then Below(m, i - 1) + [i - 1] else Below(m, i - 1)
  }

  function ListOf(m: Mask): seq<nat> { Below(m, 17) }

  /** Total size and concatenated bytes of a list of attributes. */
  function TotalSize(c: Class, l: seq<nat>): nat
    requires |c.attrs| == 16 && forall k :: 0 <= k < |l| ==> Number(l[k])
  {
    if l == [] then 0 else TotalSize(c, l[..|l| - 1]) + At(c, l[|l| - 1]).size
  }

  function Values(c: Class, d: Data, l: seq<nat>): Data
    requires |c.attrs| == 16 && forall k :: 0 <= k < |l| ==> Number(l[k])
  {
    if l == [] then [] else Values(c, d, l[..|l| - 1]) + Slice(c, d, l[|l| - 1])
  }

  lemma SliceSize(c: Class, d: Data, i: nat)
    requires WellFormed(c) && |d| == c.dataSize && Number(i)
    ensures |Slice(c, d, i)| == At(c, i).size
  {
    Fits(c, i);
  }

  lemma {:induction false} ValuesSize(c: Class, d: Data, l: seq<nat>)
    requires WellFormed(c) && |d| == c.dataSize && forall k :: 0 <= k < |l| ==> Number(l[k])
    ensures |Values(c, d, l)| == TotalSize(c, l)
  {
    if l != [] {
      ValuesSize(c, d, l[..|l| - 1]);
      SliceSize(c, d, l[|l| - 1]);
    }
  }

  /** Decoding: cut the bytes of a list of attributes back into the attributes. */
  function Unpack(c: Class, l: seq<nat>, bytes: Data): map<nat, Data>
    requires |c.attrs| == 16 && forall k :: 0 <= k < |l| ==> Number(l[k])
  {
    if l == [] then map[]
    else
      var last := l[|l| - 1];
      var size := At(c, last).size;
      if size > |bytes| then map[]
      else Unpack(c, l[..|l| - 1], bytes[..|bytes| - size])[last := bytes[|bytes| - size..]]
  }

  ghost predicate Increasing(l: seq<nat>) { forall i, j :: 0 <= i < j < |l| ==> l[i] < l[j] }

  /** Unpacking by mask and sizes recovers every attribute. */
  lemma {:induction false} UnpackValues(c: Class, d: Data, l: seq<nat>)
    requires WellFormed(c) && |d| == c.dataSize && (forall k :: 0 <= k < |l| ==> Number(l[k])) && Increasing(l)
    ensures var m := Unpack(c, l, Values(c, d, l));
            (forall i :: i in m <==> i in l) && forall i :: i in l ==> m[i] == Slice(c, d, i)
  {
    if l != [] {
      var front, last := l[..|l| - 1], l[|l| - 1];
      UnpackValues(c, d, front);
      SliceSize(c, d, last);
      var bytes := Values(c, d, l);
      assert bytes[..|bytes| - At(c, last).size] == Values(c, d, front);
      assert bytes[|bytes| - At(c, last).size..] == Slice(c, d, last);
      assert forall i :: i in l <==> i in front || i == last;
    }
  }

  /** A mask's list holds exactly its members, in increasing order. */
  lemma {:induction false} BelowExact(m: Mask, i: nat)
    requires 1 <= i <= 17
    ensures Increasing(Below(m, i))
    ensures forall k: nat :: k in Below(m, i) <==> k in m && 1 <= k < i
  {
    if i > 1 {
      BelowExact(m, i - 1);
      var front := Below(m, i - 1);
      if i - 1 in m {
        AppendIncreases(front, i - 1);
        assert forall k: nat :: k in front + [i - 1] <==> k in front || k == i - 1;
      }
    }
  }

  lemma AppendIncreases(front: seq<nat>, x: nat)
    requires Increasing(front) && forall k :: 0 <= k < |front| ==> front[k] < x
    ensures Increasing(front + [x])
  {}

  /** The mask of a list, and back. */
  function MaskOf(l: seq<nat>): Mask { set i | i in l }

  lemma {:induction false} SameMembers(a: seq<nat>, b: seq<nat>)
    requires Increasing(a) && Increasing(b) && forall k :: k in a <==> k in b
    ensures a == b
  {
    assert |b| > 0 ==> b[0] in b;
    assert |a| > 0 ==> a[0] in a;
    if a != [] {
      var x, y := a[|a| - 1], b[|b| - 1];
      assert x in b && y in a;
      assert x == y;
      var a', b' := a[..|a| - 1], b[..|b| - 1];
      assert forall k :: k in a' <==> k in a && k != x;
      assert forall k :: k in b' <==> k in b && k != x;
      SameMembers(a', b');
    }
  }

  lemma ListOfMask(l: seq<nat>)
    requires Increasing(l) && forall k :: 0 <= k < |l| ==> Number(l[k])
    ensures ListOf(MaskOf(l)) == l
  {
    BelowExact(MaskOf(l), 17);
    SameMembers(ListOf(MaskOf(l)), l);
  }
}
