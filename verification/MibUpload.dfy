/**
  The MIB upload snapshot (mib_copy in omci_mib.c): the readable attributes of
  every managed entity are packed greedily, in attribute order, into upload
  messages of 26 value bytes.
 */
module MibUpload {
  import opened MeClass
  import MeData
  import MibStore

  const Cap := 26

  /** struct mib_copy_entry: the value bytes written so far; the rest of the message is zero. */
  datatype Entry = Entry(classId: nat, instance: nat, mask: Mask, values: Data)

  /** One managed entity of the MIB: its stored data and what its get handlers deliver. */
  datatype Me = Me(cls: Class, instance: nat, data: Data, got: MeData.Readings)

  ghost predicate MeOk(me: Me) {
    WellFormed(me.cls) && |me.data| == me.cls.dataSize && MeData.Delivers(me.cls, me.got)
  }

  predicate Listed(c: Class) { !c.noUpload && !c.pm }

  predicate Uploadable(c: Class, i: nat)
    requires |c.attrs| == 16
  {
    Exists(c, i) && !At(c, i).prop.noUpload && !At(c, i).prop.table && At(c, i).prop.rd
  }

  function UploadMask(c: Class): Mask requires |c.attrs| == 16 { set i: nat | 1 <= i <= 16 && Uploadable(c, i) }

  ghost predicate Numbers(l: seq<nat>) { forall k :: 0 <= k < |l| ==> Number(l[k]) }
  ghost predicate AllNumbers(bs: seq<seq<nat>>) { forall k :: 0 <= k < |bs| ==> Numbers(bs[k]) }

  // ----- The greedy split -----

  /** Total size of the last block; 0 when there is none. */
  ghost function LastSum(c: Class, bs: seq<seq<nat>>): nat
    requires |c.attrs| == 16 && AllNumbers(bs)
  {
    if bs == [] then 0 else TotalSize(c, bs[|bs| - 1])
  }

  /** Attribute x opens a new block. */
  ghost predicate Opens(c: Class, bs: seq<seq<nat>>, x: nat)
    requires |c.attrs| == 16 && AllNumbers(bs) && Number(x)
  {
    bs == [] || LastSum(c, bs) + At(c, x).size > Cap
  }

  /** Add attribute x to a packing. */
  ghost function Pack(c: Class, bs: seq<seq<nat>>, x: nat): (r: seq<seq<nat>>)
    requires |c.attrs| == 16 && AllNumbers(bs) && Number(x)
    ensures AllNumbers(r)
  {
    if Opens(c, bs, x) then bs + [[x]]
    else bs[..|bs| - 1] + [bs[|bs| - 1] + [x]]
  }

  ghost function Blocks(c: Class, l: seq<nat>): (r: seq<seq<nat>>)
    requires |c.attrs| == 16 && Numbers(l)
    ensures AllNumbers(r)
  {
    if l == [] then [] else Pack(c, Blocks(c, l[..|l| - 1]), l[|l| - 1])
  }

  /** The attributes the packer keeps: an oversize one is dropped only while the current sum is 0. */
  ghost function Kept(c: Class, l: seq<nat>): (r: seq<nat>)
    requires |c.attrs| == 16 && Numbers(l)
    ensures Numbers(r) && forall x :: x in r ==> x in l
  {
    if l == [] then []
    else
      var front, x := Kept(c, l[..|l| - 1]), l[|l| - 1];
      if At(c, x).size > Cap && LastSum(c, Blocks(c, front)) == 0 then front else front + [x]
  }

  ghost function Flatten(bs: seq<seq<nat>>): seq<nat> {
    if bs == [] then [] else Flatten(bs[..|bs| - 1]) + bs[|bs| - 1]
  }

  lemma PackFlatten(c: Class, bs: seq<seq<nat>>, x: nat)
    requires Shaped(c) && AllNumbers(bs) && Number(x)
    ensures Flatten(Pack(c, bs, x)) == Flatten(bs) + [x]
  {
    var r := Pack(c, bs, x);
    assert bs != [] ==> r[..|r| - 1] == bs[..|r| - 1];
    if bs == [] || LastSum(c, bs) + At(c, x).size > Cap {
      assert r[..|r| - 1] == bs;
    } else {
      assert r[..|r| - 1] == bs[..|bs| - 1];
    }
  }

  ghost predicate NoneEmpty(bs: seq<seq<nat>>) { forall k :: 0 <= k < |bs| ==> |bs[k]| > 0 }

  lemma PackNoneEmpty(c: Class, bs: seq<seq<nat>>, x: nat)
    requires Shaped(c) && AllNumbers(bs) && Number(x) && NoneEmpty(bs)
    ensures NoneEmpty(Pack(c, bs, x)) && |Pack(c, bs, x)| > 0
  {}

  lemma BlocksSnoc(c: Class, l: seq<nat>, x: nat)
    requires Shaped(c) && Numbers(l) && Number(x)
    ensures Blocks(c, l + [x]) == Pack(c, Blocks(c, l), x)
  {
    assert (l + [x])[..|l|] == l;
  }

  lemma {:induction false} BlocksNoneEmpty(c: Class, l: seq<nat>)
    requires Shaped(c) && Numbers(l)
    ensures NoneEmpty(Blocks(c, l)) && (l != [] ==> |Blocks(c, l)| > 0)
  {
    if l != [] {
      BlocksNoneEmpty(c, l[..|l| - 1]);
      PackNoneEmpty(c, Blocks(c, l[..|l| - 1]), l[|l| - 1]);
    }
  }

  /** The blocks hold the packed attributes, each once and in order. */
  lemma {:induction false} BlocksPartition(c: Class, l: seq<nat>)
    requires Shaped(c) && Numbers(l)
    ensures Flatten(Blocks(c, l)) == l
  {
    if l != [] {
      var front, x := l[..|l| - 1], l[|l| - 1];
      assert front + [x] == l;
      BlocksPartition(c, front);
      PackFlatten(c, Blocks(c, front), x);
      BlocksSnoc(c, front, x);
    }
  }

  // ----- Which attributes are kept, and when every message fits -----

  ghost predicate AllFit(c: Class, bs: seq<seq<nat>>)
    requires |c.attrs| == 16 && AllNumbers(bs)
  {
    forall k :: 0 <= k < |bs| ==> TotalSize(c, bs[k]) <= Cap
  }

  ghost predicate Small(c: Class, x: nat)
    requires |c.attrs| == 16 && Number(x)
  {
    0 < At(c, x).size <= Cap
  }

  /** Some attribute of 1..26 bytes is followed by one of more than 26 bytes. */
  ghost predicate LateOversize(c: Class, l: seq<nat>)
    requires |c.attrs| == 16 && Numbers(l)
  {
    exists a, b :: 0 <= a < b < |l| && Small(c, l[a]) && At(c, l[b]).size > Cap
  }

  ghost predicate HasSmall(c: Class, l: seq<nat>)
    requires |c.attrs| == 16 && Numbers(l)
  {
    exists a :: 0 <= a < |l| && Small(c, l[a])
  }

  lemma TotalSnoc(c: Class, l: seq<nat>, x: nat)
    requires Shaped(c) && Numbers(l) && Number(x)
    ensures TotalSize(c, l + [x]) == TotalSize(c, l) + At(c, x).size
  {
    assert (l + [x])[..|l|] == l;
  }

  lemma PackStep(c: Class, bs: seq<seq<nat>>, x: nat)
    requires Shaped(c) && AllNumbers(bs) && Number(x)
    ensures Opens(c, bs, x) ==> |Pack(c, bs, x)| == |bs| + 1 && LastSum(c, Pack(c, bs, x)) == At(c, x).size
    ensures !Opens(c, bs, x) ==>
      |Pack(c, bs, x)| == |bs| && LastSum(c, Pack(c, bs, x)) == LastSum(c, bs) + At(c, x).size
  {
    TotalSnoc(c, [], x);
    assert [] + [x] == [x];
    if bs != [] { TotalSnoc(c, bs[|bs| - 1], x); }
  }

  lemma PackedAt(c: Class, bs: seq<seq<nat>>, x: nat, k: nat)
    requires Shaped(c) && AllNumbers(bs) && Number(x) && k < |Pack(c, bs, x)|
    ensures var r := Pack(c, bs, x);
            r[k] == if k < |r| - 1 then bs[k] else if Opens(c, bs, x) then [x] else bs[k] + [x]
  {}

  lemma PackKeepsFit(c: Class, bs: seq<seq<nat>>, x: nat)
    requires Shaped(c) && AllNumbers(bs) && Number(x) && AllFit(c, bs) && At(c, x).size <= Cap
    ensures AllFit(c, Pack(c, bs, x))
  {
    var r := Pack(c, bs, x);
    PackStep(c, bs, x);
    forall k | 0 <= k < |r| ensures TotalSize(c, r[k]) <= Cap {
      PackedAt(c, bs, x, k);
      if k < |r| - 1 { assert TotalSize(c, bs[k]) <= Cap; }
    }
  }

  lemma PackFitsOnly(c: Class, bs: seq<seq<nat>>, x: nat)
    requires Shaped(c) && AllNumbers(bs) && Number(x) && AllFit(c, Pack(c, bs, x))
    ensures AllFit(c, bs) && At(c, x).size <= Cap
  {
    var r := Pack(c, bs, x);
    PackStep(c, bs, x);
    assert TotalSize(c, r[|r| - 1]) <= Cap;
    forall k | 0 <= k < |bs| ensures TotalSize(c, bs[k]) <= Cap {
      PackedAt(c, bs, x, k);
      assert TotalSize(c, r[k]) <= Cap;
      if k < |r| - 1 { assert bs[k] == r[k]; }
    }
  }

  lemma PackFits(c: Class, bs: seq<seq<nat>>, x: nat)
    requires Shaped(c) && AllNumbers(bs) && Number(x)
    ensures AllFit(c, Pack(c, bs, x)) <==> AllFit(c, bs) && At(c, x).size <= Cap
  {
    if AllFit(c, bs) && At(c, x).size <= Cap { PackKeepsFit(c, bs, x); }
    if AllFit(c, Pack(c, bs, x)) { PackFitsOnly(c, bs, x); }
  }

  /** Every message fits exactly when no oversize attribute comes after a small one. */
  lemma {:induction false} FitsExactly(c: Class, l: seq<nat>)
    requires Shaped(c) && Numbers(l)
    ensures AllFit(c, Blocks(c, Kept(c, l))) <==> !LateOversize(c, l)
    ensures !LateOversize(c, l) ==> (LastSum(c, Blocks(c, Kept(c, l))) != 0 <==> HasSmall(c, l))
  {
    if l != [] {
      var front, x := l[..|l| - 1], l[|l| - 1];
      FitsExactly(c, front);
      LateSnoc(c, front, x);
      assert front + [x] == l;
      var kept := Kept(c, front);
      PackFits(c, Blocks(c, kept), x);
      PackStep(c, Blocks(c, kept), x);
      BlocksSnoc(c, kept, x);
      KeptSnoc(c, front, x);
      if !LateOversize(c, front) { LastFits(c, Blocks(c, kept)); }
    }
  }

  lemma LastFits(c: Class, bs: seq<seq<nat>>)
    requires Shaped(c) && AllNumbers(bs) && AllFit(c, bs)
    ensures LastSum(c, bs) <= Cap
  {}

  lemma KeptSnoc(c: Class, l: seq<nat>, x: nat)
    requires Shaped(c) && Numbers(l) && Number(x)
    ensures Kept(c, l + [x]) ==
      if At(c, x).size > Cap && LastSum(c, Blocks(c, Kept(c, l))) == 0 then Kept(c, l) else Kept(c, l) + [x]
  {
    assert (l + [x])[..|l|] == l;
  }

  lemma LateSnoc(c: Class, l: seq<nat>, x: nat)
    requires Shaped(c) && Numbers(l) && Number(x)
    ensures LateOversize(c, l + [x]) <==> LateOversize(c, l) || (HasSmall(c, l) && At(c, x).size > Cap)
    ensures HasSmall(c, l + [x]) <==> HasSmall(c, l) || Small(c, x)
  {
    var r := l + [x];
    assert r[|l|] == x && forall k :: 0 <= k < |l| ==> r[k] == l[k];
  }

  lemma InSnoc(y: nat, l: seq<nat>, x: nat)
    ensures y in l + [x] <==> y in l || y == x
  {}

  /** No attribute that fits is lost. */
  lemma {:induction false} FittingKept(c: Class, l: seq<nat>, y: nat)
    requires Shaped(c) && Numbers(l) && Number(y) && y in l && At(c, y).size <= Cap
    ensures y in Kept(c, l)
  {
    var front, x := l[..|l| - 1], l[|l| - 1];
    assert front + [x] == l;
    InSnoc(y, front, x);
    InSnoc(y, Kept(c, front), x);
    KeptSnoc(c, front, x);
    if y in front { FittingKept(c, front, y); }
  }

  /** Without late oversize attributes, only fitting ones are kept. */
  lemma {:induction false} KeptFits(c: Class, l: seq<nat>, y: nat)
    requires Shaped(c) && Numbers(l) && Number(y) && y in Kept(c, l) && !LateOversize(c, l)
    ensures At(c, y).size <= Cap
  {
    if l != [] {
      var front, x := l[..|l| - 1], l[|l| - 1];
      assert front + [x] == l;
      InSnoc(y, Kept(c, front), x);
      KeptSnoc(c, front, x);
      LateSnoc(c, front, x);
      FitsExactly(c, front);
      if y in Kept(c, front) { KeptFits(c, front, y); }
    }
  }

  lemma {:induction false} KeptIncreases(c: Class, l: seq<nat>)
    requires Shaped(c) && Numbers(l) && Increasing(l)
    ensures Increasing(Kept(c, l))
  {
    if l != [] {
      var front, x := l[..|l| - 1], l[|l| - 1];
      KeptIncreases(c, front);
      var kept := Kept(c, front);
      forall k | 0 <= k < |kept| ensures kept[k] < x {
        assert kept[k] in front;
      }
    }
  }

  /** The packing of a class. */
  ghost function UploadBlocks(c: Class): (bs: seq<seq<nat>>)
    requires |c.attrs| == 16
    ensures AllNumbers(bs)
  {
    Blocks(c, Kept(c, ListOf(UploadMask(c))))
  }

  /** A class with an attribute of 1 byte followed by one of 27 bytes. */
  function Mixed(): (c: Class)
    ensures |c.attrs| == 16 && Uploadable(c, 1) && Uploadable(c, 2) && At(c, 1).size == 1 && At(c, 2).size == 27
    ensures forall i: nat :: 3 <= i <= 16 ==> At(c, i).prop.None() && At(c, i).size == 0
  {
    var p := Prop(true, false, false, false, false, false);
    var none := Prop(false, false, false, false, false, false);
    Class(7, [Attr(0, 1, p, false), Attr(1, 27, p, false)] + seq(14, i => Attr(0, 0, none, false)), 28, false, false)
  }

  lemma {:induction false} MixedSize(i: nat)
    requires 3 <= i <= 17
    ensures SizeBefore(Mixed(), i) == 28
  {
    var c := Mixed();
    if i == 3 {
      assert SizeBefore(c, 1) == 0 && SizeBefore(c, 2) == 1;
    } else {
      MixedSize(i - 1);
      assert At(c, i - 1).size == 0;
    }
  }

  lemma MixedWellFormed()
    ensures WellFormed(Mixed())
  {
    var c := Mixed();
    MixedSize(17);
    assert SizeBefore(c, 1) == 0 && SizeBefore(c, 2) == 1;
    assert Packed(c, 1) && Packed(c, 2);
  }

  lemma {:induction false} MixedList(i: nat)
    requires 3 <= i <= 17
    ensures Below(UploadMask(Mixed()), i) == [1, 2]
  {
    var c := Mixed();
    if i == 3 {
      assert Below(UploadMask(c), 1) == [] && Below(UploadMask(c), 2) == [1];
    } else {
      MixedList(i - 1);
      assert !Uploadable(c, i - 1);
    }
  }

  lemma MixedIsLate()
    ensures LateOversize(Mixed(), ListOf(UploadMask(Mixed())))
  {
    var c, l := Mixed(), ListOf(UploadMask(Mixed()));
    MixedList(17);
    assert Small(c, l[0]) && At(c, l[1]).size > Cap;
  }

  /** The guard against oversize attributes can be missed, in a well-formed class. */
  lemma {:induction false} OversizeOverflows()
    ensures WellFormed(Mixed()) && !AllFit(Mixed(), UploadBlocks(Mixed()))
  {
    MixedWellFormed();
    MixedIsLate();
    FitsExactly(Mixed(), ListOf(UploadMask(Mixed())));
  }

  // ----- Minimality -----

  lemma {:induction false} GreedyIsAhead(c: Class, l: seq<nat>, split: seq<seq<nat>>)
    requires Shaped(c) && Numbers(l) && AllNumbers(split)
    requires Flatten(split) == l && AllFit(c, split)
    ensures |Blocks(c, l)| <= |split|
    ensures split != [] && |Blocks(c, l)| == |split| ==> LastSum(c, Blocks(c, l)) <= LastSum(c, split)
    decreases |l|, |split|
  {
    if split == [] {
    } else if split[|split| - 1] == [] {
      GreedyIsAhead(c, l, split[..|split| - 1]);
    } else {
      var n := |split| - 1;
      var last := split[n];
      var x := last[|last| - 1];
      var short := split[..n] + [last[..|last| - 1]];
      var front := l[..|l| - 1];
      assert short[..n] == split[..n];
      assert last[..|last| - 1] + [x] == last;
      assert Flatten(short) == front && l[|l| - 1] == x;
      TotalSnoc(c, last[..|last| - 1], x);
      assert forall k :: 0 <= k < n ==> short[k] == split[k];
      assert AllFit(c, short);
      GreedyIsAhead(c, front, short);
      PackStep(c, Blocks(c, front), x);
    }
  }

  /** No in-order split into messages that fit uses fewer of them. */
  lemma {:induction false} PackingIsMinimal(c: Class, l: seq<nat>, split: seq<seq<nat>>)
    requires Shaped(c) && Numbers(l) && AllNumbers(split) && Flatten(split) == l && AllFit(c, split)
    ensures |Blocks(c, l)| <= |split|
  {
    GreedyIsAhead(c, l, split);
  }

  // ----- Entries and decoding -----

  ghost function EntryOf(me: Me, shown: Data, b: seq<nat>): Entry
    requires |me.cls.attrs| == 16 && Numbers(b)
  {
    Entry(me.cls.id, me.instance, MaskOf(b), Values(me.cls, shown, b))
  }

  ghost function EntriesOf(me: Me, shown: Data, bs: seq<seq<nat>>): (r: seq<Entry>)
    requires |me.cls.attrs| == 16 && AllNumbers(bs)
    ensures |r| == |bs|
  {
    seq(|bs|, k requires 0 <= k < |bs| => EntryOf(me, shown, bs[k]))
  }

  /** The value field of the upload message made from an entry. */
  function Message(e: Entry): Data
    requires |e.values| <= Cap
  {
    e.values + seq(Cap - |e.values|, i => 0)
  }

  /** How the receiver cuts the value field, knowing the class and the mask. */
  function Decode(c: Class, mask: Mask, message: Data): map<nat, Data>
    requires |c.attrs| == 16
  {
    var l := ListOf(mask);
    if TotalSize(c, l) > |message| then map[] else Unpack(c, l, message[..TotalSize(c, l)])
  }

  /** Decoding a message gives back exactly the attributes packed into it. */
  lemma {:induction false} EntryDecodes(me: Me, shown: Data, b: seq<nat>)
    requires WellFormed(me.cls) && |shown| == me.cls.dataSize && Numbers(b) && Increasing(b)
    requires TotalSize(me.cls, b) <= Cap
    ensures var e := EntryOf(me, shown, b);
            && |e.values| <= Cap
            && Decode(me.cls, e.mask, Message(e)).Keys == MaskOf(b)
            && forall i :: i in b ==> Decode(me.cls, e.mask, Message(e))[i] == Slice(me.cls, shown, i)
  {
    var e := EntryOf(me, shown, b);
    ListOfMask(b);
    ValuesSize(me.cls, shown, b);
    assert Message(e)[..TotalSize(me.cls, b)] == e.values;
    UnpackValues(me.cls, shown, b);
  }

  // ----- The whole snapshot -----

  /** What a read shows of every supported attribute of the entity. */
  ghost predicate IsImage(me: Me, shown: Data)
    requires |me.cls.attrs| == 16
  {
    |shown| == me.cls.dataSize &&
    forall i: nat :: Exists(me.cls, i) ==> Slice(me.cls, shown, i) == MeData.Shown(me.cls, me.data, me.got, i)
  }

  /** The entries after the uploadable attributes of l. */
  ghost function PackedEntries(me: Me, shown: Data, l: seq<nat>): seq<Entry>
    requires |me.cls.attrs| == 16 && Numbers(l)
  {
    EntriesOf(me, shown, Blocks(me.cls, Kept(me.cls, l)))
  }

  function Blank(me: Me): Entry { Entry(me.cls.id, me.instance, {}, []) }

  /** An entity's entries: an entity without packed attributes still gets one. */
  ghost function MeEntries(me: Me, shown: Data): seq<Entry>
    requires |me.cls.attrs| == 16
  {
    if !Listed(me.cls) then [] else OrBlank(me, PackedEntries(me, shown, ListOf(UploadMask(me.cls))))
  }

  function OrBlank(me: Me, es: seq<Entry>): seq<Entry> { if es == [] then [Blank(me)] else es }

  ghost predicate MesOk(mes: seq<Me>) { forall k :: 0 <= k < |mes| ==> MeOk(mes[k]) }

  /** The entries of one entity, for some image of it. */
  ghost predicate IsPart(me: Me, part: seq<Entry>) {
    |me.cls.attrs| == 16 && exists shown :: IsImage(me, shown) && part == MeEntries(me, shown)
  }

  ghost predicate AreParts(mes: seq<Me>, parts: seq<seq<Entry>>) {
    |parts| == |mes| && forall k :: 0 <= k < |mes| ==> IsPart(mes[k], parts[k])
  }

  ghost function Concat(parts: seq<seq<Entry>>): seq<Entry> {
    if parts == [] then [] else Concat(parts[..|parts| - 1]) + parts[|parts| - 1]
  }

  lemma {:induction false} ConcatAppend(a: seq<seq<Entry>>, b: seq<seq<Entry>>)
    ensures Concat(a + b) == Concat(a) + Concat(b)
  {
    if b == [] {
      assert a + b == a;
    } else {
      var n := |b| - 1;
      ConcatAppend(a, b[..n]);
      assert (a + b)[..|a| + n] == a + b[..n];
      EntriesAssoc(Concat(a), Concat(b[..n]), b[n]);
    }
  }

  /** The MIB as the class array holds it: one instance list per slot. */
  ghost function Flat(mib: seq<seq<Me>>): seq<Me> {
    if mib == [] then [] else Flat(mib[..|mib| - 1]) + mib[|mib| - 1]
  }

  ghost predicate MibOk(mib: seq<seq<Me>>) { forall k :: 0 <= k < |mib| ==> MesOk(mib[k]) }

  /** The running sum after them. */
  ghost function Sum(c: Class, l: seq<nat>): nat
    requires |c.attrs| == 16 && Numbers(l)
  {
    LastSum(c, Blocks(c, Kept(c, l)))
  }

  function Extended(e: Entry, x: nat, v: Data): Entry { e.(mask := e.mask + {x}, values := e.values + v) }

  /** One more attribute of `size` bytes: dropped, put into a new entry, or appended to the last one. */
  function Placed(es: seq<Entry>, sum: nat, blank: Entry, x: nat, size: nat, v: Data): seq<Entry> {
    if sum == 0 && size > Cap then es
    else if sum + size > Cap || es == [] then es + [Extended(blank, x, v)]
    else es[|es| - 1 := Extended(es[|es| - 1], x, v)]
  }

  lemma NextAttribute(me: Me, shown: Data, l: seq<nat>, x: nat)
    requires Shaped(me.cls) && Numbers(l) && Number(x)
    ensures PackedEntries(me, shown, l + [x]) ==
      Placed(PackedEntries(me, shown, l), Sum(me.cls, l), Blank(me), x, At(me.cls, x).size, Slice(me.cls, shown, x))
    ensures Sum(me.cls, l + [x]) == NextSum(PackedEntries(me, shown, l), Sum(me.cls, l), At(me.cls, x).size)
  {
    var c := me.cls;
    var kept := Kept(c, l);
    KeptSnoc(c, l, x);
    BlocksSnoc(c, kept, x);
    if At(c, x).size <= Cap || LastSum(c, Blocks(c, kept)) != 0 { PlacedPack(me, shown, Blocks(c, kept), x); }
  }

  lemma PlacedPack(me: Me, shown: Data, bs: seq<seq<nat>>, x: nat)
    requires Shaped(me.cls) && AllNumbers(bs) && Number(x) && (At(me.cls, x).size <= Cap || LastSum(me.cls, bs) != 0)
    ensures EntriesOf(me, shown, Pack(me.cls, bs, x)) ==
      Placed(EntriesOf(me, shown, bs), LastSum(me.cls, bs), Blank(me), x, At(me.cls, x).size, Slice(me.cls, shown, x))
    ensures LastSum(me.cls, Pack(me.cls, bs, x)) ==
      NextSum(EntriesOf(me, shown, bs), LastSum(me.cls, bs), At(me.cls, x).size)
  {
    PackStep(me.cls, bs, x);
    if Opens(me.cls, bs, x) { PlacedOpen(me, shown, bs, x); } else { PlacedExtend(me, shown, bs, x); }
  }

  lemma PlacedOpen(me: Me, shown: Data, bs: seq<seq<nat>>, x: nat)
    requires Shaped(me.cls) && AllNumbers(bs) && Number(x) && (At(me.cls, x).size <= Cap || LastSum(me.cls, bs) != 0)
    requires Opens(me.cls, bs, x)
    ensures EntriesOf(me, shown, Pack(me.cls, bs, x)) ==
      Placed(EntriesOf(me, shown, bs), LastSum(me.cls, bs), Blank(me), x, At(me.cls, x).size, Slice(me.cls, shown, x))
  {
    OpenEntry(me, shown, bs, x);
  }

  lemma PlacedExtend(me: Me, shown: Data, bs: seq<seq<nat>>, x: nat)
    requires Shaped(me.cls) && AllNumbers(bs) && Number(x) && !Opens(me.cls, bs, x)
    ensures EntriesOf(me, shown, Pack(me.cls, bs, x)) ==
      Placed(EntriesOf(me, shown, bs), LastSum(me.cls, bs), Blank(me), x, At(me.cls, x).size, Slice(me.cls, shown, x))
  {
    ExtendEntry(me, shown, bs, x);
  }

  lemma OpenEntry(me: Me, shown: Data, bs: seq<seq<nat>>, x: nat)
    requires Shaped(me.cls) && AllNumbers(bs) && Number(x)
    ensures EntriesOf(me, shown, bs + [[x]]) ==
      EntriesOf(me, shown, bs) + [Extended(Blank(me), x, Slice(me.cls, shown, x))]
  {
    assert MaskOf([x]) == {} + {x};
    assert [x][..0] == [] && Values(me.cls, shown, [x]) == [] + Slice(me.cls, shown, x);
  }

  lemma ExtendEntry(me: Me, shown: Data, bs: seq<seq<nat>>, x: nat)
    requires Shaped(me.cls) && AllNumbers(bs) && Number(x) && bs != []
    ensures var es := EntriesOf(me, shown, bs);
      EntriesOf(me, shown, bs[..|bs| - 1] + [bs[|bs| - 1] + [x]]) ==
        es[|bs| - 1 := Extended(es[|bs| - 1], x, Slice(me.cls, shown, x))]
  {
    var b := bs[|bs| - 1];
    assert MaskOf(b + [x]) == MaskOf(b) + {x};
    assert (b + [x])[..|b|] == b;
  }

  lemma LastAppended(a: seq<Entry>, e: Entry, f: Entry)
    ensures (a + [e])[|a| := f] == a + [f]
  {}

  lemma LastOfTwo(a: seq<Entry>, b: seq<Entry>, f: Entry)
    requires b != []
    ensures (a + b)[|a + b| - 1 := f] == a + b[|b| - 1 := f]
  {}

  lemma EntriesAssoc(a: seq<Entry>, b: seq<Entry>, c: seq<Entry>)
    ensures (a + b) + c == a + (b + c)
  {}

  lemma BelowStep(c: Class, i: nat)
    requires Shaped(c) && Number(i)
    ensures Below(UploadMask(c), i + 1) ==
      if Uploadable(c, i) then Below(UploadMask(c), i) + [i] else Below(UploadMask(c), i)
  {}

  ghost function PackedBelow(me: Me, data: Data, i: nat): seq<Entry>
    requires |me.cls.attrs| == 16 && 1 <= i <= 17
  {
    PackedEntries(me, data, Below(UploadMask(me.cls), i))
  }

  ghost function SumBelow(c: Class, i: nat): nat
    requires |c.attrs| == 16 && 1 <= i <= 17
  {
    Sum(c, Below(UploadMask(c), i))
  }

  function NextSum(es: seq<Entry>, sum: nat, size: nat): nat {
    if sum == 0 && size > Cap then sum else if sum + size > Cap || es == [] then size else sum + size
  }

  ghost predicate Within(c: Class, data: Data, i: nat)
    requires |c.attrs| == 16 && Number(i)
  {
    Uploadable(c, i) ==> At(c, i).offset + At(c, i).size <= |data|
  }

  /** Attribute i takes the entries and the sum from a to b. */
  ghost predicate StepOk(me: Me, data: Data, i: nat, a: seq<Entry>, sumA: nat, b: seq<Entry>, sumB: nat)
    requires |me.cls.attrs| == 16 && Number(i) && Within(me.cls, data, i)
  {
    if Uploadable(me.cls, i) then
      var v := data[At(me.cls, i).offset..At(me.cls, i).offset + At(me.cls, i).size];
      b == Placed(a, sumA, Blank(me), i, |v|, v) && sumB == NextSum(a, sumA, |v|)
    else
      b == a && sumB == sumA
  }

  lemma DataSlice(c: Class, data: Data, i: nat)
    requires WellFormed(c) && |data| == c.dataSize && Number(i) && Uploadable(c, i)
    ensures At(c, i).offset + At(c, i).size <= |data|
    ensures Slice(c, data, i) == data[At(c, i).offset..At(c, i).offset + At(c, i).size]
  {
    Fits(c, i);
  }

  lemma NextUploadable(me: Me, data: Data, i: nat)
    requires WellFormed(me.cls) && |data| == me.cls.dataSize && Number(i) && Uploadable(me.cls, i)
    ensures PackedBelow(me, data, i + 1) ==
      Placed(PackedBelow(me, data, i), SumBelow(me.cls, i), Blank(me), i, At(me.cls, i).size, Slice(me.cls, data, i))
    ensures SumBelow(me.cls, i + 1) == NextSum(PackedBelow(me, data, i), SumBelow(me.cls, i), At(me.cls, i).size)
  {
    BelowStep(me.cls, i);
    NextAttribute(me, data, Below(UploadMask(me.cls), i), i);
  }

  lemma StepFrom(me: Me, data: Data, i: nat, a: seq<Entry>, sumA: nat, b: seq<Entry>, sumB: nat)
    requires WellFormed(me.cls) && |data| == me.cls.dataSize && Number(i)
    requires Uploadable(me.cls, i) ==>
      && b == Placed(a, sumA, Blank(me), i, At(me.cls, i).size, Slice(me.cls, data, i))
      && sumB == NextSum(a, sumA, At(me.cls, i).size)
    requires !Uploadable(me.cls, i) ==> b == a && sumB == sumA
    ensures Within(me.cls, data, i) && StepOk(me, data, i, a, sumA, b, sumB)
  {
    if Uploadable(me.cls, i) {
      DataSlice(me.cls, data, i);
      SliceSize(me.cls, data, i);
    }
  }

  lemma NextNumber(me: Me, data: Data, i: nat)
    requires WellFormed(me.cls) && |data| == me.cls.dataSize && Number(i)
    ensures Within(me.cls, data, i)
    ensures StepOk(me, data, i, PackedBelow(me, data, i), SumBelow(me.cls, i),
                   PackedBelow(me, data, i + 1), SumBelow(me.cls, i + 1))
  {
    if Uploadable(me.cls, i) { NextUploadable(me, data, i); } else { BelowStep(me.cls, i); }
    StepFrom(me, data, i, PackedBelow(me, data, i), SumBelow(me.cls, i),
             PackedBelow(me, data, i + 1), SumBelow(me.cls, i + 1));
  }

  lemma Closing(me: Me, before: seq<Entry>, es: seq<Entry>)
    ensures before + OrBlank(me, es) == if es == [] then (before + es) + [Blank(me)] else before + es
  {}

  lemma ConcatSnoc(parts: seq<seq<Entry>>, part: seq<Entry>)
    ensures Concat(parts + [part]) == Concat(parts) + part
  {
    assert (parts + [part])[..|parts|] == parts;
  }

  lemma PackedStart(me: Me, data: Data)
    requires Shaped(me.cls)
    ensures PackedBelow(me, data, 1) == [] && SumBelow(me.cls, 1) == 0
  {}

  lemma AppendAt<X>(a: seq<X>, b: seq<X>, k: nat)
    requires k < |a| + |b|
    ensures (a + b)[k] == if k < |a| then a[k] else b[k - |a|]
  {}

  lemma PartsAppend(a: seq<Me>, pa: seq<seq<Entry>>, b: seq<Me>, pb: seq<seq<Entry>>)
    requires AreParts(a, pa) && AreParts(b, pb)
    ensures AreParts(a + b, pa + pb)
  {
    forall k | 0 <= k < |a + b| ensures IsPart((a + b)[k], (pa + pb)[k]) {
      AppendAt(a, b, k);
      AppendAt(pa, pb, k);
      if k < |a| { assert IsPart(a[k], pa[k]); } else { assert IsPart(b[k - |a|], pb[k - |a|]); }
    }
  }

  lemma OneMore(mes: seq<Me>, j: nat, parts: seq<seq<Entry>>, part: seq<Entry>)
    requires j < |mes| && AreParts(mes[..j], parts) && IsPart(mes[j], part)
    ensures AreParts(mes[..j + 1], parts + [part])
  {
    forall k | 0 <= k <= j ensures IsPart(mes[..j + 1][k], (parts + [part])[k]) {
      if k < j { assert IsPart(mes[..j][k], parts[k]); }
    }
  }

  lemma MoreEntries(before: seq<Entry>, parts: seq<seq<Entry>>, part: seq<Entry>)
    ensures before + Concat(parts + [part]) == (before + Concat(parts)) + part
  {
    EntriesAssoc(before, Concat(parts), part);
    ConcatSnoc(parts, part);
  }

  lemma FlatStep(mib: seq<seq<Me>>, i: nat)
    requires i < |mib|
    ensures Flat(mib[..i + 1]) == Flat(mib[..i]) + mib[i]
  {
    assert mib[..i + 1][..i] == mib[..i];
  }

  class Snapshot {
    var list: seq<Entry>
    var num: nat

    constructor ()
      ensures list == [] && num == 0
    {
      list, num := [], 0;
    }

    /** The part of mib_copy for one managed entity. */
    method AddMe(me: Me) returns (ghost part: seq<Entry>)
      requires MeOk(me) && num == |list|
      modifies this
      ensures IsPart(me, part) && num == |list| && list == old(list) + part
    {
      var _, data := MeData.Read(me.cls, me.data, me.got);
      part := MeEntries(me, data);
      assert IsImage(me, data);
      if Listed(me.cls) { PackMe(me, data); }
    }

    /** The entity's entries so far, the last of which is open and not yet counted. */
    ghost predicate Tracks(before: seq<Entry>, es: seq<Entry>, open: bool)
      reads this
    {
      open == (es != []) && list == before + es && num == |list| - if open then 1 else 0
    }

    /** One uploadable attribute; es are the entity's entries so far. */
    method PackAttribute(
      blank: Entry, i: nat, v: Data, ghost before: seq<Entry>, ghost es: seq<Entry>, sum0: nat, open0: bool)
      returns (sum: nat, open: bool)
      requires Tracks(before, es, open0)
      modifies this
      ensures Tracks(before, Placed(es, sum0, blank, i, |v|, v), open) && sum == NextSum(es, sum0, |v|)
    {
      sum, open := sum0, open0;
      if sum + |v| > Cap && sum == 0 { return; }
      if sum + |v| > Cap || !open {
        sum := 0;
        if open { num := num + 1; }
        list := list + [blank];
        open := true;
        LastAppended(before + es, blank, Extended(blank, i, v));
      } else {
        LastOfTwo(before, es, Extended(list[|list| - 1], i, v));
      }
      list := list[|list| - 1 := Extended(list[|list| - 1], i, v)];
      sum := sum + |v|;
    }

    /** The body of the loop over the attributes; a and b are the entries before and after it. */
    method PackNumber(me: Me, data: Data, ghost before: seq<Entry>, i: nat, ghost a: seq<Entry>, ghost b: seq<Entry>,
                      ghost sumAfter: nat, sum0: nat, open0: bool)
      returns (sum: nat, open: bool)
      requires |me.cls.attrs| == 16 && Number(i) && Within(me.cls, data, i) && StepOk(me, data, i, a, sum0, b, sumAfter)
      requires Tracks(before, a, open0)
      modifies this
      ensures Tracks(before, b, open) && sum == sumAfter
    {
      var c := me.cls;
      sum, open := sum0, open0;
      if Uploadable(c, i) {
        var v := data[At(c, i).offset..At(c, i).offset + At(c, i).size];
        sum, open := PackAttribute(Blank(me), i, v, before, a, sum, open);
      }
    }

    /** The loop over the attributes; es and sums are its states. */
    method PackAll(me: Me, data: Data, ghost es: seq<seq<Entry>>, ghost sums: seq<nat>)
      requires |me.cls.attrs| == 16 && forall i: nat :: Number(i) ==> Within(me.cls, data, i)
      requires |es| == 17 && |sums| == 17 && es[0] == [] && sums[0] == 0 && num == |list|
      requires forall i: nat :: Number(i) ==> StepOk(me, data, i, es[i - 1], sums[i - 1], es[i], sums[i])
      modifies this
      ensures num == |list| && list == old(list) + OrBlank(me, es[16])
    {
      ghost var before := list;
      var sum, open, i := 0, false, 1;
      while i <= 16
        invariant 1 <= i <= 17 && Tracks(before, es[i - 1], open) && sum == sums[i - 1]
      {
        sum, open := PackNumber(me, data, before, i, es[i - 1], es[i], sums[i], sum, open);
        i := i + 1;
      }
      Closing(me, before, es[16]);
      if !open { list := list + [Blank(me)]; }
      num := num + 1;
    }

    /** Packing one entity whose data has been read. */
    method PackMe(me: Me, data: Data)
      requires WellFormed(me.cls) && |data| == me.cls.dataSize && num == |list|
      modifies this
      ensures num == |list| && list == old(list) + OrBlank(me, PackedBelow(me, data, 17))
    {
      ghost var es := seq(17, i requires 0 <= i < 17 => PackedBelow(me, data, i + 1));
      ghost var sums := seq(17, i requires 0 <= i < 17 => SumBelow(me.cls, i + 1));
      PackedStart(me, data);
      forall i: nat | Number(i)
        ensures Within(me.cls, data, i) && StepOk(me, data, i, es[i - 1], sums[i - 1], es[i], sums[i])
      {
        NextNumber(me, data, i);
      }
      PackAll(me, data, es, sums);
    }

    /** The instances of one class. */
    method AddInstances(mes: seq<Me>) returns (ghost parts: seq<seq<Entry>>)
      requires MesOk(mes) && num == |list|
      modifies this
      ensures AreParts(mes, parts) && list == old(list) + Concat(parts) && num == |list|
    {
      parts := [];
      ghost var before := list;
      var j := 0;
      while j < |mes|
        invariant 0 <= j <= |mes| && AreParts(mes[..j], parts)
        invariant list == before + Concat(parts) && num == |list|
      {
        ghost var part := AddMe(mes[j]);
        OneMore(mes, j, parts, part);
        MoreEntries(before, parts, part);
        parts := parts + [part];
        j := j + 1;
      }
      assert mes[..j] == mes;
    }

    /** mib_copy: the snapshot lists the entries of every entity in MIB order and counts them. */
    method Copy(mib: seq<seq<Me>>) returns (ghost parts: seq<seq<Entry>>)
      requires MibOk(mib)
      modifies this
      ensures AreParts(Flat(mib), parts) && list == Concat(parts) && num == |list|
    {
      list, num := [], 0;
      parts := [];
      var i := 0;
      while i < |mib|
        invariant 0 <= i <= |mib| && AreParts(Flat(mib[..i]), parts)
        invariant list == Concat(parts) && num == |list|
      {
        ghost var more := AddInstances(mib[i]);
        ConcatAppend(parts, more);
        PartsAppend(Flat(mib[..i]), parts, mib[i], more);
        FlatStep(mib, i);
        parts := parts + more;
        i := i + 1;
      }
      assert mib[..i] == mib;
    }
  }

  // ----- Decoding the whole snapshot -----

  ghost predicate For(e: Entry, me: Me) { e.classId == me.cls.id && e.instance == me.instance }

  ghost function Learned(me: Me, e: Entry): map<nat, Data>
    requires |me.cls.attrs| == 16
  {
    if For(e, me) && |e.values| <= Cap then Decode(me.cls, e.mask, Message(e)) else map[]
  }

  /** What the receiver learns about one entity from a list of messages. */
  ghost function Collect(me: Me, es: seq<Entry>): map<nat, Data>
    requires |me.cls.attrs| == 16
  {
    if es == [] then map[] else Collect(me, es[..|es| - 1]) + Learned(me, es[|es| - 1])
  }

  lemma MapAssoc(a: map<nat, Data>, b: map<nat, Data>, c: map<nat, Data>)
    ensures (a + b) + c == a + (b + c)
  {}

  lemma {:induction false} CollectAppend(me: Me, a: seq<Entry>, b: seq<Entry>)
    requires Shaped(me.cls)
    ensures Collect(me, a + b) == Collect(me, a) + Collect(me, b)
  {
    if b == [] {
      assert a + b == a;
    } else {
      var n := |b| - 1;
      CollectAppend(me, a, b[..n]);
      assert (a + b)[..|a| + n] == a + b[..n] && (a + b)[|a| + n] == b[n];
      MapAssoc(Collect(me, a), Collect(me, b[..n]), Learned(me, b[n]));
    }
  }

  lemma {:induction false} CollectNothing(me: Me, es: seq<Entry>)
    requires Shaped(me.cls) && forall k :: 0 <= k < |es| ==> !For(es[k], me)
    ensures Collect(me, es) == map[]
  {
    if es != [] { CollectNothing(me, es[..|es| - 1]); }
  }

  /** m holds exactly the attributes of l, with the values of the block. */
  ghost predicate Holds(c: Class, shown: Data, m: map<nat, Data>, l: seq<nat>)
    requires |c.attrs| == 16 && Numbers(l)
  {
    (forall i :: i in m <==> i in l) && forall k :: 0 <= k < |l| ==> m[l[k]] == Slice(c, shown, l[k])
  }

  lemma HoldsAppend(c: Class, shown: Data, m: map<nat, Data>, l: seq<nat>, m': map<nat, Data>, l': seq<nat>)
    requires Shaped(c) && Numbers(l) && Numbers(l') && Holds(c, shown, m, l) && Holds(c, shown, m', l')
    ensures Numbers(l + l') && Holds(c, shown, m + m', l + l')
  {
    forall k | 0 <= k < |l + l'| ensures (m + m')[(l + l')[k]] == Slice(c, shown, (l + l')[k]) {
      var i := (l + l')[k];
      if i in l' { var j :| 0 <= j < |l'| && l'[j] == i; } else { assert i == l[k]; }
    }
  }

  lemma {:induction false} FlattenNumbers(bs: seq<seq<nat>>)
    requires AllNumbers(bs)
    ensures Numbers(Flatten(bs))
  {
    if bs != [] { FlattenNumbers(bs[..|bs| - 1]); }
  }

  lemma IncreasingParts(a: seq<nat>, b: seq<nat>)
    requires Increasing(a + b)
    ensures Increasing(a) && Increasing(b)
  {
    assert forall k :: 0 <= k < |a| ==> a[k] == (a + b)[k];
    assert forall k :: 0 <= k < |b| ==> b[k] == (a + b)[|a| + k];
  }

  lemma {:induction false} CollectBlocks(me: Me, shown: Data, bs: seq<seq<nat>>)
    requires WellFormed(me.cls) && |shown| == me.cls.dataSize && AllNumbers(bs) && AllFit(me.cls, bs)
    requires Increasing(Flatten(bs))
    ensures Numbers(Flatten(bs)) && Holds(me.cls, shown, Collect(me, EntriesOf(me, shown, bs)), Flatten(bs))
  {
    FlattenNumbers(bs);
    if bs != [] {
      var n := |bs| - 1;
      IncreasingParts(Flatten(bs[..n]), bs[n]);
      CollectBlocks(me, shown, bs[..n]);
      LearnedEntry(me, shown, bs[n]);
      assert EntriesOf(me, shown, bs)[..n] == EntriesOf(me, shown, bs[..n]);
      HoldsAppend(me.cls, shown, Collect(me, EntriesOf(me, shown, bs[..n])), Flatten(bs[..n]),
        Learned(me, EntryOf(me, shown, bs[n])), bs[n]);
    }
  }

  lemma LearnedEntry(me: Me, shown: Data, b: seq<nat>)
    requires WellFormed(me.cls) && |shown| == me.cls.dataSize && Numbers(b) && Increasing(b)
    requires TotalSize(me.cls, b) <= Cap
    ensures Holds(me.cls, shown, Learned(me, EntryOf(me, shown, b)), b)
  {
    EntryDecodes(me, shown, b);
  }

  /** Attribute i may be uploaded: readable, supported, no table and not kept out of uploads. */
  ghost predicate Sendable(c: Class, i: nat)
    requires |c.attrs| == 16
  {
    1 <= i <= 16 && var p := c.attrs[i - 1].prop; p.rd && !p.notSupported && !p.table && !p.noUpload
  }

  /** Attribute i may be uploaded and fits one message. */
  ghost predicate Carried(c: Class, i: nat)
    requires |c.attrs| == 16
  {
    Sendable(c, i) && c.attrs[i - 1].size <= 26
  }

  /** Everything the receiver should learn. */
  ghost function Expected(c: Class): Mask
    requires |c.attrs| == 16
  {
    set i: nat | 1 <= i <= 16 && Carried(c, i)
  }

  lemma SendableExactly(c: Class)
    requires Shaped(c)
    ensures forall i: nat :: Sendable(c, i) <==> Uploadable(c, i)
    ensures forall i: nat :: Sendable(c, i) <==> i in ListOf(UploadMask(c))
    ensures Increasing(ListOf(UploadMask(c)))
  {
    BelowExact(UploadMask(c), 17);
  }

  /** Attribute i is too large and follows a small one. */
  ghost predicate Follows(c: Class, j: nat, i: nat)
    requires |c.attrs| == 16
  {
    j < i && Carried(c, j) && Sendable(c, i) && c.attrs[j - 1].size > 0 && c.attrs[i - 1].size > 26
  }

  /** No attribute of more than 26 bytes comes after one of 1..26 bytes. */
  ghost predicate Fitting(c: Class)
    requires |c.attrs| == 16
  {
    forall j: nat, i: nat :: !Follows(c, j, i)
  }

  lemma LateFollows(c: Class, l: seq<nat>)
    requires Shaped(c) && Numbers(l) && Increasing(l) && (forall i :: i in l ==> Sendable(c, i)) && LateOversize(c, l)
    ensures !Fitting(c)
  {
    var a, b :| 0 <= a < b < |l| && Small(c, l[a]) && At(c, l[b]).size > Cap;
    assert l[a] in l && l[b] in l;
    assert Follows(c, l[a], l[b]);
  }

  lemma FollowsLate(c: Class, l: seq<nat>)
    requires Shaped(c) && Numbers(l) && Increasing(l) && (forall i: nat :: Sendable(c, i) ==> i in l) && !Fitting(c)
    ensures LateOversize(c, l)
  {
    var j: nat, i: nat :| Follows(c, j, i);
    var a, b :| 0 <= a < |l| && 0 <= b < |l| && l[a] == j && l[b] == i;
    assert Small(c, l[a]);
  }

  /** Every message of a class fits exactly when no oversize attribute follows a small one. */
  lemma {:induction false} FittingExactly(c: Class)
    requires Shaped(c)
    ensures Fitting(c) <==> AllFit(c, UploadBlocks(c))
    ensures Fitting(c) <==> !LateOversize(c, ListOf(UploadMask(c)))
  {
    var l := ListOf(UploadMask(c));
    SendableExactly(c);
    FitsExactly(c, l);
    if LateOversize(c, l) { LateFollows(c, l); }
    if !Fitting(c) { FollowsLate(c, l); }
  }

  /** m has exactly the attributes that may be uploaded and fit, as a read shows them:
      the stored value of each without a get handler, and the handler's value of the
      others when none fails. */
  ghost predicate Complete(me: Me, m: map<nat, Data>)
    requires |me.cls.attrs| == 16
  {
    && m.Keys == Expected(me.cls)
    && (forall i :: i in m ==> m[i] == MeData.Shown(me.cls, me.data, me.got, i))
    && (forall i :: i in m && !me.cls.attrs[i - 1].volatile ==> m[i] == Slice(me.cls, me.data, i))
    && (AllDeliver(me) ==> forall i :: i in m && me.cls.attrs[i - 1].volatile ==> i in me.got && m[i] == me.got[i])
  }

  /** The get handler of every supported attribute that has one succeeds. */
  ghost predicate AllDeliver(me: Me)
    requires |me.cls.attrs| == 16
  {
    forall i: nat :: MeData.Supported(me.cls, i) && me.cls.attrs[i - 1].volatile ==> i in me.got
  }

  lemma KeptIsExpected(c: Class)
    requires Shaped(c) && Fitting(c)
    ensures MaskOf(Kept(c, ListOf(UploadMask(c)))) == Expected(c)
    ensures Increasing(Kept(c, ListOf(UploadMask(c))))
  {
    var l := ListOf(UploadMask(c));
    SendableExactly(c);
    FittingExactly(c);
    KeptIncreases(c, l);
    forall i: nat ensures i in Kept(c, l) <==> i in Expected(c) {
      if i in Kept(c, l) { KeptFits(c, l, i); }
      if i in Expected(c) { FittingKept(c, l, i); }
    }
  }

  /** The attributes kept, with what a read shows of them, are all the receiver should learn. */
  lemma ShownIsComplete(me: Me, shown: Data, m: map<nat, Data>)
    requires Shaped(me.cls) && IsImage(me, shown) && m.Keys == Expected(me.cls)
    requires forall i :: i in m ==> m[i] == Slice(me.cls, shown, i)
    ensures Complete(me, m)
  {
    MeData.SupportedExactly(me.cls);
    forall i | i in m
      ensures m[i] == MeData.Shown(me.cls, me.data, me.got, i)
      ensures !At(me.cls, i).volatile ==> m[i] == Slice(me.cls, me.data, i)
      ensures AllDeliver(me) && At(me.cls, i).volatile ==> i in me.got && m[i] == me.got[i]
    {
      assert Exists(me.cls, i);
      assert Slice(me.cls, shown, i) == MeData.Shown(me.cls, me.data, me.got, i);
      if AllDeliver(me) {
        MeData.HandlersFine(me.cls, me.got);
        assert !MeData.FailedUpTo(me.cls, me.got, i);
      }
    }
  }

  /** One entity's messages give back exactly its attributes. */
  lemma {:induction false} MeDecodes(me: Me, shown: Data)
    requires MeOk(me) && Listed(me.cls) && Fitting(me.cls) && IsImage(me, shown)
    ensures Complete(me, Collect(me, MeEntries(me, shown)))
  {
    var c := me.cls;
    var kept := Kept(c, ListOf(UploadMask(c)));
    var bs := UploadBlocks(c);
    KeptIsExpected(c);
    FittingExactly(c);
    BlocksPartition(c, kept);
    CollectBlocks(me, shown, bs);
    if bs == [] {
      EmptyEntry(me, Blank(me));
      assert [Blank(me)][..0] == [];
    }
    var m := Collect(me, MeEntries(me, shown));
    assert Holds(c, shown, m, kept);
    assert m.Keys == MaskOf(kept);
    ShownIsComplete(me, shown, m);
  }

  lemma EmptyEntry(me: Me, e: Entry)
    requires Shaped(me.cls) && e.mask == {} && e.values == []
    ensures Learned(me, e) == map[]
  {
    BelowExact({}, 17);
    SameMembers(ListOf({}), []);
  }

  lemma EntriesAreFor(me: Me, shown: Data)
    requires Shaped(me.cls)
    ensures forall k :: 0 <= k < |MeEntries(me, shown)| ==> For(MeEntries(me, shown)[k], me)
  {}

  ghost predicate Differ(a: Me, b: Me) { a.cls.id != b.cls.id || a.instance != b.instance }

  ghost predicate Distinct(mes: seq<Me>) { forall i, j :: 0 <= i < j < |mes| ==> Differ(mes[i], mes[j]) }

  /** As the store keeps it: a slot holds one class, instances strictly increase,
      and no class is spread over two slots. */
  ghost predicate Arranged(mib: seq<seq<Me>>) {
    && (forall k :: 0 <= k < |mib| ==> SlotOk(mib[k]))
    && forall k, l :: 0 <= k < l < |mib| ==> Apart(mib[k], mib[l])
  }

  ghost predicate SlotOk(l: seq<Me>) { forall i, j :: 0 <= i < j < |l| ==> l[i].instance < l[j].instance }

  ghost predicate Apart(a: seq<Me>, b: seq<Me>) {
    forall i, j :: 0 <= i < |a| && 0 <= j < |b| ==> a[i].cls.id != b[j].cls.id
  }

  lemma {:induction false} FlatApart(mib: seq<seq<Me>>, b: seq<Me>)
    requires forall k :: 0 <= k < |mib| ==> Apart(mib[k], b)
    ensures Apart(Flat(mib), b)
  {
    if mib != [] {
      var n := |mib| - 1;
      FlatApart(mib[..n], b);
      assert Apart(mib[n], b);
      var f := Flat(mib[..n]);
      assert forall i :: 0 <= i < |f + mib[n]| ==> (f + mib[n])[i] == if i < |f| then f[i] else mib[n][i - |f|];
    }
  }

  lemma DistinctAppend(a: seq<Me>, b: seq<Me>)
    requires Distinct(a) && SlotOk(b) && Apart(a, b)
    ensures Distinct(a + b)
  {
    forall i, j | 0 <= i < j < |a + b| ensures Differ((a + b)[i], (a + b)[j]) {
      if j < |a| {
        assert Differ(a[i], a[j]);
      } else if i < |a| {
        assert a[i].cls.id != b[j - |a|].cls.id;
      } else {
        assert b[i - |a|].instance < b[j - |a|].instance;
      }
    }
  }

  /** The entities of a MIB store, in the order of its class array. */
  ghost predicate Holding(s: MibStore.Store, mib: seq<seq<Me>>) {
    && |mib| == |s.lists| == |s.ids|
    && forall k :: 0 <= k < |mib| ==> HoldingAt(s, mib, k)
  }

  ghost predicate HoldingAt(s: MibStore.Store, mib: seq<seq<Me>>, k: nat)
    requires k < |mib| == |s.lists| == |s.ids|
  {
    && |mib[k]| == |s.lists[k]|
    && forall i :: 0 <= i < |mib[k]| ==> mib[k][i].cls.id == s.ids[k] && mib[k][i].instance == s.lists[k][i].instance
  }

  /** The store's invariant gives that arrangement. */
  lemma {:induction false} StoreIsArranged(s: MibStore.Store, mib: seq<seq<Me>>)
    requires MibStore.Valid(s) && Holding(s, mib)
    ensures Arranged(mib)
  {
    forall k | 0 <= k < |mib| ensures SlotOk(mib[k]) {
      assert HoldingAt(s, mib, k) && MibStore.ListOk(s, k);
    }
    forall k, l | 0 <= k < l < |mib| ensures Apart(mib[k], mib[l]) {
      assert HoldingAt(s, mib, k) && MibStore.ListOk(s, k);
      assert HoldingAt(s, mib, l) && MibStore.ListOk(s, l);
    }
  }

  /** So the entities of a MIB are told apart by class and instance. */
  lemma {:induction false} ArrangedDistinct(mib: seq<seq<Me>>)
    requires Arranged(mib)
    ensures Distinct(Flat(mib))
  {
    if mib != [] {
      var n := |mib| - 1;
      assert forall k :: 0 <= k < n ==> Apart(mib[k], mib[n]);
      assert SlotOk(mib[n]);
      ArrangedDistinct(mib[..n]);
      FlatApart(mib[..n], mib[n]);
      DistinctAppend(Flat(mib[..n]), mib[n]);
    }
  }

  ghost predicate NoneFor(me: Me, es: seq<Entry>) { forall k :: 0 <= k < |es| ==> !For(es[k], me) }

  /** Only part k concerns the entity. */
  ghost predicate OnlyPart(me: Me, parts: seq<seq<Entry>>, k: int) {
    forall j :: 0 <= j < |parts| && j != k ==> NoneFor(me, parts[j])
  }

  lemma NoneLearned(me: Me, parts: seq<seq<Entry>>, n: nat, k: int)
    requires Shaped(me.cls) && OnlyPart(me, parts, k) && n < |parts| && n != k
    ensures Collect(me, parts[n]) == map[]
  {
    assert NoneFor(me, parts[n]);
    CollectNothing(me, parts[n]);
  }

  lemma PlusNothing(m: map<nat, Data>)
    ensures m + map[] == m && map[] + m == m
  {}

  lemma {:induction false} CollectNoPart(me: Me, parts: seq<seq<Entry>>, k: int)
    requires Shaped(me.cls) && OnlyPart(me, parts, k) && k >= |parts|
    ensures Collect(me, Concat(parts)) == map[]
  {
    if parts != [] {
      var n := |parts| - 1;
      assert OnlyPart(me, parts[..n], k);
      CollectNoPart(me, parts[..n], k);
      CollectAppend(me, Concat(parts[..n]), parts[n]);
      NoneLearned(me, parts, n, k);
    }
  }

  lemma {:induction false} CollectPart(me: Me, parts: seq<seq<Entry>>, k: int)
    requires Shaped(me.cls) && OnlyPart(me, parts, k) && 0 <= k < |parts|
    ensures Collect(me, Concat(parts)) == Collect(me, parts[k])
  {
    var n := |parts| - 1;
    assert OnlyPart(me, parts[..n], k);
    CollectAppend(me, Concat(parts[..n]), parts[n]);
    if k == n {
      CollectNoPart(me, parts[..n], k);
      PlusNothing(Collect(me, parts[n]));
    } else {
      CollectPart(me, parts[..n], k);
      NoneLearned(me, parts, n, k);
      PlusNothing(Collect(me, parts[k]));
    }
  }

  lemma {:induction false} OthersAbsent(mes: seq<Me>, parts: seq<seq<Entry>>, k: nat)
    requires AreParts(mes, parts) && Distinct(mes) && k < |mes|
    ensures OnlyPart(mes[k], parts, k)
  {
    forall j | 0 <= j < |mes| && j != k ensures NoneFor(mes[k], parts[j]) {
      assert IsPart(mes[j], parts[j]);
      var shown :| IsImage(mes[j], shown) && parts[j] == MeEntries(mes[j], shown);
      EntriesAreFor(mes[j], shown);
      assert if j < k then Differ(mes[j], mes[k]) else Differ(mes[k], mes[j]);
    }
  }

  /** From the snapshot of a whole MIB the receiver recovers, for every listed
      entity, exactly its uploadable attributes with the values a read shows. */
  lemma {:induction false} SnapshotDecodes(mes: seq<Me>, parts: seq<seq<Entry>>, k: nat)
    requires AreParts(mes, parts) && Distinct(mes) && k < |mes| && MeOk(mes[k])
    requires !mes[k].cls.noUpload && !mes[k].cls.pm && Fitting(mes[k].cls)
    ensures Complete(mes[k], Collect(mes[k], Concat(parts)))
  {
    OthersAbsent(mes, parts, k);
    CollectPart(mes[k], parts, k);
    assert IsPart(mes[k], parts[k]);
    var shown :| IsImage(mes[k], shown) && parts[k] == MeEntries(mes[k], shown);
    MeDecodes(mes[k], shown);
  }

  lemma {:induction false} FlatOk(mib: seq<seq<Me>>)
    requires MibOk(mib)
    ensures MesOk(Flat(mib))
  {
    if mib != [] {
      var n := |mib| - 1;
      FlatOk(mib[..n]);
      assert MesOk(mib[n]);
    }
  }

  /** The same for the snapshot mib_copy takes of any MIB the store can hold. */
  lemma {:induction false} UploadDecodes(s: MibStore.Store, mib: seq<seq<Me>>, parts: seq<seq<Entry>>, k: nat)
    requires MibStore.Valid(s) && Holding(s, mib) && MibOk(mib) && AreParts(Flat(mib), parts) && k < |Flat(mib)|
    requires !Flat(mib)[k].cls.noUpload && !Flat(mib)[k].cls.pm
    requires |Flat(mib)[k].cls.attrs| == 16 && Fitting(Flat(mib)[k].cls)
    ensures Complete(Flat(mib)[k], Collect(Flat(mib)[k], Concat(parts)))
  {
    StoreIsArranged(s, mib);
    ArrangedDistinct(mib);
    FlatOk(mib);
    SnapshotDecodes(Flat(mib), parts, k);
  }

  ghost predicate Present(me: Me, es: seq<Entry>) { exists k :: 0 <= k < |es| && For(es[k], me) }

  lemma PresentAppend(me: Me, a: seq<Entry>, b: seq<Entry>)
    ensures Present(me, a + b) <==> Present(me, a) || Present(me, b)
  {
    if Present(me, a) { var k :| 0 <= k < |a| && For(a[k], me); assert (a + b)[k] == a[k]; }
    if Present(me, b) { var k :| 0 <= k < |b| && For(b[k], me); assert (a + b)[|a| + k] == b[k]; }
  }

  lemma {:induction false} PresentPart(me: Me, parts: seq<seq<Entry>>, k: int)
    requires OnlyPart(me, parts, k)
    ensures Present(me, Concat(parts)) <==> 0 <= k < |parts| && Present(me, parts[k])
  {
    if parts != [] {
      var n := |parts| - 1;
      assert OnlyPart(me, parts[..n], k);
      PresentPart(me, parts[..n], k);
      PresentAppend(me, Concat(parts[..n]), parts[n]);
      assert n != k ==> NoneFor(me, parts[n]);
    }
  }

  /** An entity appears in the snapshot exactly when its class is neither kept out of
      uploads nor a performance monitoring class, even without attributes. */
  lemma {:induction false} PresentExactly(mes: seq<Me>, parts: seq<seq<Entry>>, k: nat)
    requires AreParts(mes, parts) && Distinct(mes) && k < |mes|
    ensures Present(mes[k], Concat(parts)) <==> !mes[k].cls.noUpload && !mes[k].cls.pm
  {
    OthersAbsent(mes, parts, k);
    PresentPart(mes[k], parts, k);
    assert IsPart(mes[k], parts[k]);
    var shown :| IsImage(mes[k], shown) && parts[k] == MeEntries(mes[k], shown);
    EntriesAreFor(mes[k], shown);
    var es := MeEntries(mes[k], shown);
    assert Listed(mes[k].cls) ==> |es| > 0;
    assert |es| > 0 ==> For(es[0], mes[k]);
  }

  /** An entity without an attribute to carry gets exactly one empty entry. */
  lemma {:induction false} EmptyEntryExactly(me: Me, part: seq<Entry>)
    requires IsPart(me, part) && !me.cls.noUpload && !me.cls.pm && forall i: nat :: !Carried(me.cls, i)
    ensures part == [Entry(me.cls.id, me.instance, {}, [])]
  {
    var c := me.cls;
    var kept := Kept(c, ListOf(UploadMask(c)));
    KeptIsExpected(c);
    assert Expected(c) == {};
    assert forall i :: i in kept ==> i in MaskOf(kept);
    SameMembers(kept, []);
  }

  /** A class that is not uploaded gets no entry. */
  lemma NoEntryExactly(me: Me, part: seq<Entry>)
    requires IsPart(me, part)
    ensures part == [] <==> me.cls.noUpload || me.cls.pm
  {
    if !me.cls.noUpload && !me.cls.pm { assert part != []; }
  }

  /** An entity takes as few messages as any way to cut its attributes, in order,
      into messages that fit. */
  lemma {:induction false} UploadIsMinimal(me: Me, part: seq<Entry>, split: seq<seq<nat>>)
    requires IsPart(me, part) && Fitting(me.cls) && AllNumbers(split) && AllFit(me.cls, split)
    requires Flatten(split) == ListOf(Expected(me.cls))
    ensures |part| <= 1 || |part| <= |split|
  {
    var c := me.cls;
    var kept := Kept(c, ListOf(UploadMask(c)));
    KeptIsExpected(c);
    ListOfMask(kept);
    PackingIsMinimal(c, kept, split);
  }
}
