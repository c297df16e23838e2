/**
  Table attributes: a Get takes a snapshot into one of five copy slots
  (me_tbl_copy_empty_get, me_tbl_copy_find in omci_core.c), Get-next delivers it
  in pieces of 29 bytes, and a timeout clears it (omci_me_handlers.c).
 */
module TableCopy {
  import opened MeClass

  const SlotNum := 5
  const NextSize := 29
  const Word := 0x1_0000_0000

  datatype Option<T> = None | Some(value: T)

  /** Which attribute a copy is of; attr 0 marks a slot never used. */
  datatype Key = Key(classId: nat, instance: nat, attr: nat)

  datatype Slot = Slot(key: Key, valid: bool, data: Data)

  // ----- Choosing a slot -----

  function FirstMatch(s: seq<Slot>, key: Key, i: nat): (r: nat)
    requires i <= |s|
    ensures i <= r <= |s| && (forall k :: i <= k < r ==> s[k].key != key) && (r < |s| ==> s[r].key == key)
    decreases |s| - i
  {
    if i == |s| || s[i].key == key then i else FirstMatch(s, key, i + 1)
  }

  function FirstInvalid(s: seq<Slot>, i: nat): (r: nat)
    requires i <= |s|
    ensures i <= r <= |s| && (forall k :: i <= k < r ==> s[k].valid) && (r < |s| ==> !s[r].valid)
    decreases |s| - i
  {
    if i == |s| || !s[i].valid then i else FirstInvalid(s, i + 1)
  }

  /** The slot a new copy goes to: one with the same key, else a free one, else the first. */
  function Target(s: seq<Slot>, key: Key): (i: nat)
    requires |s| > 0
    ensures i < |s|
  {
    if FirstMatch(s, key, 0) < |s| then FirstMatch(s, key, 0)
    else if FirstInvalid(s, 0) < |s| then FirstInvalid(s, 0)
    else 0
  }

  /** Never two slots for one attribute; a valid slot is of some attribute. */
  ghost predicate Inv(s: seq<Slot>) {
    && |s| == SlotNum
    && (forall i, j :: 0 <= i < j < |s| && s[i].key == s[j].key ==> s[i].key.attr == 0)
    && forall i :: 0 <= i < |s| && s[i].valid ==> s[i].key.attr != 0
  }

  ghost predicate Holds(s: seq<Slot>, key: Key, d: Data) { exists i :: 0 <= i < |s| && s[i] == Slot(key, true, d) }

  // ----- Get-next pieces -----

  /** 32-bit size arithmetic of get_next_action_handle; 0 means refused. */
  function PieceSize(n: nat, seqNum: nat): (size: nat)
    requires n < Word && seqNum < 0x1_0000
    ensures size <= 29
    ensures size > 0 <==> seqNum * 29 < n
    ensures size > 0 ==> size == if seqNum * 29 + 29 <= n then 29 else n - seqNum * 29
  {
    var offset := (NextSize * seqNum) % Word;
    var size := if (offset + NextSize) % Word > n then (n - offset) % Word else NextSize;
    if size <= 0 || size > NextSize then 0 else size
  }

  function Piece(d: Data, seqNum: nat): (p: Option<Data>)
    requires |d| < Word && seqNum < 0x1_0000
    ensures p.Some? <==> seqNum * NextSize < |d|
  {
    var size := PieceSize(|d|, seqNum);
    if size == 0 then None else Some(d[seqNum * NextSize..seqNum * NextSize + size])
  }

  /** Number of pieces of n bytes. */
  function Pieces(n: nat): nat { (n + NextSize - 1) / NextSize }

  lemma AcceptedExactly(d: Data, seqNum: nat)
    requires |d| < Word && seqNum < 0x1_0000
    ensures Piece(d, seqNum).Some? <==> seqNum < Pieces(|d|)
  {}

  /** The pieces below k, put together. */
  function Reassembled(d: Data, k: nat): Data
    requires |d| < Word && k <= 0x1_0000
  {
    if k == 0 then []
    else Reassembled(d, k - 1) + match Piece(d, k - 1) case Some(p) => p case None => []
  }

  lemma {:induction false} PrefixReassembled(d: Data, k: nat)
    requires |d| < Word && k <= 0x1_0000
    ensures Reassembled(d, k) == d[..if k * NextSize <= |d| then k * NextSize else |d|]
  {
    if k > 0 { PrefixReassembled(d, k - 1); }
  }

  /** All pieces together are the snapshot exactly when 16-bit sequence numbers reach its end. */
  lemma {:induction false} ReassembledExactly(d: Data)
    requires |d| < Word
    ensures Reassembled(d, 0x1_0000) == d <==> |d| <= 0x1_0000 * NextSize
    ensures |d| <= 0x1_0000 * NextSize ==> Pieces(|d|) <= 0x1_0000 && Reassembled(d, Pieces(|d|)) == d
  {
    PrefixReassembled(d, 0x1_0000);
    if |d| <= 0x1_0000 * NextSize { PrefixReassembled(d, Pieces(|d|)); }
  }

  // ----- Operations of a run -----

  /** TableGet: the copy handler delivers a snapshot, or fails and leaves no data.
      Clean: the clean timeout of an attribute fires. */
  datatype Op = TableGet(key: Key, snapshot: Option<Data>) | Clean(key: Key)

  ghost predicate OpOk(op: Op) { op.key.attr != 0 }
  ghost predicate OpsOk(ops: seq<Op>) { forall i :: 0 <= i < |ops| ==> OpOk(ops[i]) }

  function DataOf(snapshot: Option<Data>): Data { if snapshot.Some? then snapshot.value else [] }

  function Exec(s: seq<Slot>, op: Op): (r: seq<Slot>)
    requires |s| == SlotNum
    ensures |r| == SlotNum
  {
    match op
    case TableGet(key, snapshot) => s[Target(s, key) := Slot(key, true, DataOf(snapshot))]
    case Clean(key) =>
      var i := FirstMatch(s, key, 0);
      if i < |s| && s[i].valid then s[i := Slot(key, false, [])] else s
  }

  function Start(): (s: seq<Slot>) ensures |s| == SlotNum { seq(SlotNum, i => Slot(Key(0, 0, 0), false, [])) }

  function Run(s: seq<Slot>, ops: seq<Op>): (r: seq<Slot>)
    requires |s| == SlotNum
    ensures |r| == SlotNum
  {
    if ops == [] then s else Exec(Run(s, ops[..|ops| - 1]), ops[|ops| - 1])
  }

  lemma {:induction false} StepKeepsInv(s: seq<Slot>, op: Op)
    requires Inv(s) && OpOk(op)
    ensures Inv(Exec(s, op))
  {}

  lemma {:induction false} RunsKeepInv(s: seq<Slot>, ops: seq<Op>)
    requires Inv(s) && OpsOk(ops)
    ensures Inv(Run(s, ops))
  {
    if ops != [] {
      RunsKeepInv(s, ops[..|ops| - 1]);
      assert OpOk(ops[|ops| - 1]);
      StepKeepsInv(Run(s, ops[..|ops| - 1]), ops[|ops| - 1]);
    }
  }

  /** A new copy would push out the copy in the first slot. */
  predicate Evicts(s: seq<Slot>, key: Key) { FirstMatch(s, key, 0) == |s| && FirstInvalid(s, 0) == |s| }

  /** What one operation does to the copies: only the attribute itself changes,
      and a copy of another one is lost exactly when it is evicted. */
  lemma {:induction false} StepExactly(s: seq<Slot>, op: Op, key: Key, d: Data)
    requires Inv(s) && OpOk(op) && key.attr != 0
    ensures Holds(Exec(s, op), key, d) <==>
      if key == op.key then op.TableGet? && d == DataOf(op.snapshot)
      else Holds(s, key, d) && !(op.TableGet? && Evicts(s, op.key) && s[0].key == key)
  {
    var r := Exec(s, op);
    if Holds(s, key, d) {
      var i :| 0 <= i < |s| && s[i] == Slot(key, true, d);
      var changed := if op.TableGet? then Slot(op.key, true, DataOf(op.snapshot)) else Slot(op.key, false, []);
      assert r[i] == s[i] || r[i] == changed;
    }
    if Holds(r, key, d) {
      var i :| 0 <= i < |r| && r[i] == Slot(key, true, d);
    }
    if op.TableGet? { assert r[Target(s, op.key)] == Slot(op.key, true, DataOf(op.snapshot)); }
  }

  /** The snapshot of the latest Get of an attribute in a run. */
  function Latest(ops: seq<Op>, key: Key): Option<Data> {
    if ops == [] then None
    else
      var op := ops[|ops| - 1];
      if op.key == key then (if op.TableGet? then Some(DataOf(op.snapshot)) else None)
      else Latest(ops[..|ops| - 1], key)
  }

  /** In every run a copy that is found is the latest one. */
  lemma {:induction false} FoundIsLatest(ops: seq<Op>, key: Key, d: Data)
    requires OpsOk(ops) && key.attr != 0 && Holds(Run(Start(), ops), key, d)
    ensures Latest(ops, key) == Some(d)
  {
    if ops != [] {
      var front, op := ops[..|ops| - 1], ops[|ops| - 1];
      RunsKeepInv(Start(), front);
      assert OpOk(op);
      StepExactly(Run(Start(), front), op, key, d);
      if op.key != key { FoundIsLatest(front, key, d); }
    }
  }

  // ----- Runs without eviction -----

  ghost predicate Within(s: seq<Slot>, used: set<Key>) { forall i :: 0 <= i < |s| && s[i].valid ==> s[i].key in used }

  /** Five valid slots hold five different attributes, so a sixth is needed to evict. */
  lemma FiveKeys(s: seq<Slot>, used: set<Key>, key: Key)
    requires Inv(s) && Within(s, used) && |used| <= SlotNum && key in used
    ensures !Evicts(s, key)
  {
    if Evicts(s, key) {
      var five := {s[0].key, s[1].key, s[2].key, s[3].key, s[4].key};
      assert s[0].valid && s[1].valid && s[2].valid && s[3].valid && s[4].valid;
      assert |five| == 5;
      assert key !in five;
      assert five + {key} <= used;
      CardLe(five + {key}, used);
      assert false;
    }
  }

  lemma {:induction false} CardLe(a: set<Key>, b: set<Key>)
    requires a <= b
    ensures |a| <= |b|
  {
    if a != {} {
      var x :| x in a;
      CardLe(a - {x}, b - {x});
    }
  }

  lemma {:induction false} RunWithin(ops: seq<Op>, used: set<Key>)
    requires OpsOk(ops) && forall i :: 0 <= i < |ops| ==> ops[i].key in used
    ensures Within(Run(Start(), ops), used)
  {
    if ops != [] { RunWithin(ops[..|ops| - 1], used); }
  }

  /** If at most five attributes are ever read as tables, find succeeds exactly
      while the latest Get of the attribute has not been cleaned. */
  lemma {:induction false} LatestIsFound(ops: seq<Op>, used: set<Key>, key: Key, d: Data)
    requires OpsOk(ops) && (forall i :: 0 <= i < |ops| ==> ops[i].key in used) && |used| <= SlotNum && key.attr != 0
    ensures Holds(Run(Start(), ops), key, d) <==> Latest(ops, key) == Some(d)
  {
    if ops != [] {
      var front, op := ops[..|ops| - 1], ops[|ops| - 1];
      assert OpOk(op);
      LatestIsFound(front, used, key, d);
      RunsKeepInv(Start(), front);
      RunWithin(front, used);
      FiveKeys(Run(Start(), front), used, op.key);
      StepExactly(Run(Start(), front), op, key, d);
    }
  }

  lemma RunSnoc(s: seq<Slot>, ops: seq<Op>, op: Op)
    requires |s| == SlotNum
    ensures Run(s, ops + [op]) == Exec(Run(s, ops), op)
  {
    assert (ops + [op])[..|ops|] == ops;
  }

  /** Different attributes of one entity, read as tables one after another. */
  function KeyNo(n: nat): Key { Key(1, 1, n + 1) }

  function Gets(n: nat, d: Data): seq<Op> { seq(n, i requires 0 <= i < n => TableGet(KeyNo(i), Some(d))) }

  /** The first n slots hold the first n copies, the rest is unused. */
  ghost predicate Filled(s: seq<Slot>, n: nat, d: Data) {
    && |s| == SlotNum
    && forall i :: 0 <= i < SlotNum ==>
         s[i] == if i < n then Slot(KeyNo(i), true, d) else Slot(Key(0, 0, 0), false, [])
  }

  lemma FillOne(s: seq<Slot>, n: nat, d: Data)
    requires n < SlotNum && Filled(s, n, d)
    ensures Filled(Exec(s, TableGet(KeyNo(n), Some(d))), n + 1, d)
  {
    NoMatch(s, KeyNo(n));
    FirstFree(s, n);
  }

  /** The first five fill the slots in order. */
  lemma {:induction false} SlotsFill(n: nat, d: Data)
    requires n <= SlotNum
    ensures Filled(Run(Start(), Gets(n, d)), n, d)
  {
    if n > 0 {
      SlotsFill(n - 1, d);
      FillOne(Run(Start(), Gets(n - 1, d)), n - 1, d);
      GetsSnoc(n - 1, d);
      RunSnoc(Start(), Gets(n - 1, d), TableGet(KeyNo(n - 1), Some(d)));
    }
  }

  lemma GetsSnoc(n: nat, d: Data)
    ensures Gets(n + 1, d) == Gets(n, d) + [TableGet(KeyNo(n), Some(d))]
  {}

  lemma NoMatch(s: seq<Slot>, key: Key)
    requires forall i :: 0 <= i < |s| ==> s[i].key != key
    ensures FirstMatch(s, key, 0) == |s|
  {}

  lemma FirstFree(s: seq<Slot>, n: nat)
    requires n <= |s| && (forall i :: 0 <= i < n ==> s[i].valid) && (n < |s| ==> !s[n].valid)
    ensures FirstInvalid(s, 0) == n
  {}

  /** The sixth pushes the first copy out, although nobody has cleaned it. */
  lemma {:induction false} SixthEvicts(d: Data)
    ensures Holds(Run(Start(), Gets(5, d)), KeyNo(0), d)
    ensures forall e :: !Holds(Run(Start(), Gets(5, d) + [TableGet(KeyNo(5), Some(d))]), KeyNo(0), e)
  {
    var s := Run(Start(), Gets(5, d));
    SlotsFill(5, d);
    assert s[0] == Slot(KeyNo(0), true, d);
    NoMatch(s, KeyNo(5));
    FirstFree(s, 5);
    var t := Run(Start(), Gets(5, d) + [TableGet(KeyNo(5), Some(d))]);
    RunSnoc(Start(), Gets(5, d), TableGet(KeyNo(5), Some(d)));
    forall i | 0 <= i < SlotNum ensures t[i].key != KeyNo(0) {
      assert t[i] == if i == 0 then Slot(KeyNo(5), true, d) else s[i];
    }
  }

  // ----- The slots in place -----

  datatype NextRsp = NextRsp(ok: bool, values: Data)

  /** get_next_action_handle's search for the only attribute of a mask: -1 none, -2 several. */
  method SingleAttr(mask: Mask) returns (attr: int)
    ensures attr >= 1 <==> exists i: nat :: Number(i) && mask * All() == {i}
    ensures attr >= 1 ==> Number(attr) && mask * All() == {attr}
  {
    attr := -1;
    var i := 1;
    while i <= 16
      invariant 1 <= i <= 17 && attr != -2
      invariant attr == -1 ==> forall k: nat :: 1 <= k < i ==> k !in mask
      invariant attr != -1 ==> 1 <= attr < i && attr in mask && forall k: nat :: 1 <= k < i && k in mask ==> k == attr
    {
      if i in mask {
        if attr == -1 {
          attr := i;
        } else {
          assert i in mask * All() && attr in mask * All();
          attr := -2;
          return;
        }
      }
      i := i + 1;
    }
    if attr == -1 {
      assert mask * All() == {};
    } else {
      assert mask * All() == {attr};
    }
  }

  /** The request names exactly one attribute, and d is its valid copy. */
  ghost predicate Addressed(s: seq<Slot>, classId: nat, instance: nat, mask: Mask, attr: nat, d: Data) {
    Number(attr) && mask * All() == {attr} && Holds(s, Key(classId, instance, attr), d)
  }

  class Copies {
    const slots: array<Slot>

    ghost predicate Valid() reads this, slots { slots.Length == SlotNum && Inv(slots[..]) }

    constructor ()
      ensures Valid() && fresh(slots) && slots[..] == Start()
    {
      slots := new Slot[SlotNum](i => Slot(Key(0, 0, 0), false, []));
    }

    /** me_tbl_copy_empty_get: never fails; the slot is emptied and becomes valid. */
    method EmptyGet(key: Key) returns (at: nat)
      requires Valid() && key.attr != 0
      modifies slots
      ensures Valid() && at == Target(old(slots[..]), key)
      ensures slots[..] == old(slots[..])[at := Slot(key, true, [])]
    {
      ghost var s := slots[..];
      at := 0;
      while at < SlotNum && slots[at].key != key
        invariant at <= SlotNum && FirstMatch(s, key, at) == FirstMatch(s, key, 0)
      {
        at := at + 1;
      }
      if at == SlotNum {
        at := 0;
        while at < SlotNum && slots[at].valid
          invariant at <= SlotNum && FirstInvalid(s, at) == FirstInvalid(s, 0)
        {
          at := at + 1;
        }
        if at == SlotNum { at := 0; }
      }
      StepKeepsInv(s, TableGet(key, Some([])));
      slots[at] := Slot(key, true, []);
    }

    /** me_tbl_copy_find */
    method Find(key: Key) returns (at: Option<nat>)
      requires Valid() && key.attr != 0
      ensures at.None? <==> forall d :: !Holds(slots[..], key, d)
      ensures at.Some? ==> at.value < SlotNum && slots[at.value].valid && slots[at.value].key == key
      ensures at == if FirstMatch(slots[..], key, 0) < SlotNum && slots[FirstMatch(slots[..], key, 0)].valid
                    then Some(FirstMatch(slots[..], key, 0)) else None
    {
      at := None;
      var i := 0;
      while i < SlotNum
        invariant 0 <= i <= SlotNum
        invariant at.None? ==> forall k :: 0 <= k < i ==> slots[k].key != key
        invariant at.Some? ==> at.value < i && slots[at.value].valid && slots[at.value].key == key
      {
        if slots[i].key == key {
          if slots[i].valid { at := Some(i); } else { break; }
        }
        i := i + 1;
      }
      if at.Some? {
        ghost var d := slots[at.value].data;
        assert Holds(slots[..], key, d) by { assert slots[..][at.value] == Slot(key, true, d); }
      } else {
        assert forall k :: 0 <= k < SlotNum ==> slots[..][k].key == key ==> !slots[..][k].valid;
      }
    }

    /** get_next_tbl_copy_clean_timeout_handler */
    method CleanTimeout(key: Key)
      requires Valid() && key.attr != 0
      modifies slots
      ensures Valid() && slots[..] == Exec(old(slots[..]), Clean(key))
    {
      ghost var s := slots[..];
      StepKeepsInv(s, Clean(key));
      var at := Find(key);
      if at.Some? { slots[at.value] := Slot(key, false, []); }
    }

    /** The table part of get_action_handle: the answer is the size of the snapshot. */
    method Get(key: Key, hasHandler: bool, snapshot: Option<Data>, timerAdded: bool) returns (size: Option<nat>)
      requires Valid() && key.attr != 0
      modifies slots
      ensures Valid()
      ensures slots[..] == if hasHandler then Exec(old(slots[..]), TableGet(key, snapshot)) else old(slots[..])
      ensures size.Some? <==> hasHandler && snapshot.Some? && timerAdded
      ensures size.Some? ==> size.value == |snapshot.value| && Holds(slots[..], key, snapshot.value)
    {
      if !hasHandler { return None; }
      ghost var s := slots[..];
      StepKeepsInv(s, TableGet(key, snapshot));
      var at := EmptyGet(key);
      if snapshot.None? { return None; }
      slots[at] := Slot(key, true, snapshot.value);
      assert slots[..][at] == Slot(key, true, snapshot.value);
      size := if timerAdded then Some(|snapshot.value|) else None;
    }

    /** get_next_action_handle: piece `seqNum` of the valid copy, or a parameter error. */
    method GetNext(classId: nat, instance: nat, mask: Mask, seqNum: nat, timerAdded: bool) returns (rsp: NextRsp)
      requires Valid() && seqNum < 0x1_0000 && forall i :: 0 <= i < SlotNum ==> |slots[i].data| < Word
      ensures rsp.ok <==> timerAdded && exists attr: nat, d ::
        Addressed(slots[..], classId, instance, mask, attr, d) && seqNum < Pieces(|d|)
      ensures rsp.ok ==> exists attr: nat, d ::
        Addressed(slots[..], classId, instance, mask, attr, d) && |d| < Word && Piece(d, seqNum) == Some(rsp.values)
    {
      var attr := SingleAttr(mask);
      if attr < 1 { return NextRsp(false, []); }
      var key := Key(classId, instance, attr);
      var at := Find(key);
      if at.None? { return NextRsp(false, []); }
      var d := slots[at.value].data;
      assert Holds(slots[..], key, d) by { assert slots[..][at.value] == Slot(key, true, d); }
      AcceptedExactly(d, seqNum);
      assert Addressed(slots[..], classId, instance, mask, attr, d);
      forall a: nat, e | Addressed(slots[..], classId, instance, mask, a, e) ensures a == attr && e == d {
        assert a in mask * All();
        OneCopy(slots[..], key, d, e);
      }
      var p := Piece(d, seqNum);
      if p.None? || !timerAdded { return NextRsp(false, []); }
      rsp := NextRsp(true, p.value);
    }

    /** One request for a piece of a copy that is held. */
    method Ask(key: Key, seqNum: nat, ghost d: Data) returns (p: Option<Data>)
      requires Valid() && Number(key.attr) && Holds(slots[..], key, d) && |d| < Word && seqNum < 0x1_0000
      requires forall i :: 0 <= i < SlotNum ==> |slots[i].data| < Word
      ensures p == Piece(d, seqNum)
    {
      var rsp := GetNext(key.classId, key.instance, {key.attr}, seqNum, true);
      OnlyAttr(key.attr);
      AcceptedExactly(d, seqNum);
      assert Addressed(slots[..], key.classId, key.instance, {key.attr}, key.attr, d);
      forall a: nat, e | Addressed(slots[..], key.classId, key.instance, {key.attr}, a, e) ensures e == d {
        OneCopy(slots[..], key, d, e);
      }
      p := if rsp.ok then Some(rsp.values) else None;
    }

    /** Asking for the pieces 0, 1, 2, ... until one is refused gives back the whole copy. */
    method Transfer(key: Key, ghost d: Data) returns (bytes: Data, asked: nat)
      requires Valid() && Number(key.attr) && Holds(slots[..], key, d) && |d| <= 0x1_0000 * NextSize
      requires forall i :: 0 <= i < SlotNum ==> |slots[i].data| < Word
      ensures bytes == d && asked == Pieces(|d|)
    {
      bytes, asked := [], 0;
      ReassembledExactly(d);
      var more := true;
      while more && asked < 0x1_0000
        invariant asked <= Pieces(|d|) <= 0x1_0000 && bytes == Reassembled(d, asked)
        invariant !more ==> asked == Pieces(|d|)
        decreases 0x1_0000 - asked, more
      {
        var p := Ask(key, asked, d);
        AcceptedExactly(d, asked);
        if p.Some? { bytes, asked := bytes + p.value, asked + 1; } else { more := false; }
      }
    }
  }

  lemma OnlyAttr(attr: nat)
    requires Number(attr)
    ensures {attr} * All() == {attr} && forall i: nat :: {attr} * All() == {i} ==> i == attr
  {
    assert attr in All();
    assert attr in {attr} * All();
  }

  lemma OneCopy(s: seq<Slot>, key: Key, d: Data, e: Data)
    requires Inv(s) && key.attr != 0 && Holds(s, key, d) && Holds(s, key, e)
    ensures d == e
  {
    var i :| 0 <= i < |s| && s[i] == Slot(key, true, d);
    var j :| 0 <= j < |s| && s[j] == Slot(key, true, e);
  }
}
