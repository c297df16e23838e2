/**
  Scatter/gather between the wire and a managed entity's data block
  (me_data_fetch, me_data_read, is_data_updated in omci_me.c) and the Set
  action built on it (omci_me_handlers.c).
 */
module MeData {
  import opened MeClass

  datatype Option<T> = None | Some(value: T)

  /** What the get handler of each volatile attribute delivers; absent: it fails. */
  type Readings = map<nat, Data>

  ghost predicate Delivers(c: Class, g: Readings)
    requires |c.attrs| == 16
  {
    forall i: nat :: Number(i) && i in g ==> |g[i]| == At(c, i).size
  }

  datatype Outcome = Success | Bounds | HandlerError

  // ----- Specification of the gather loop -----

  /** Where attribute i lies among the packed values of the attributes in dm. */
  function OffsetIn(c: Class, dm: Mask, i: nat): nat
    requires |c.attrs| == 16 && 1 <= i <= 17
  {
    if i == 1 then 0 else OffsetIn(c, dm, i - 1) + if i - 1 in dm then At(c, i - 1).size else 0
  }

  /** The gather source: n packed bytes of the attributes in dm, and the handlers. */
  datatype Wire = Wire(dm: Mask, bytes: Data, got: Readings)

  ghost predicate OutOfBounds(c: Class, w: Wire, i: nat)
    requires |c.attrs| == 16 && Number(i)
  {
    OffsetIn(c, w.dm, i) + At(c, i).size > |w.bytes|
  }

  /** Attribute i is where a fetch of mask fails. */
  ghost predicate Bad(c: Class, mask: Mask, w: Wire, i: nat)
    requires |c.attrs| == 16 && Number(i)
  {
    i in mask && (OutOfBounds(c, w, i) || (At(c, i).volatile && i !in w.got))
  }

  ghost predicate Clean(c: Class, mask: Mask, w: Wire, i: nat)
    requires |c.attrs| == 16 && 1 <= i <= 17
  {
    forall j: nat :: 1 <= j < i ==> !Bad(c, mask, w, j)
  }

  /** The value a fetch gives attribute i. */
  ghost function NewValue(c: Class, w: Wire, i: nat): (v: Data)
    requires |c.attrs| == 16 && Number(i) && Delivers(c, w.got) && !OutOfBounds(c, w, i)
    requires At(c, i).volatile ==> i in w.got
    ensures |v| == At(c, i).size
  {
    if At(c, i).volatile then w.got[i] else w.bytes[OffsetIn(c, w.dm, i)..OffsetIn(c, w.dm, i) + At(c, i).size]
  }

  /** `d` is `old` with exactly the attributes of mask below i fetched. */
  ghost predicate Overlaid(c: Class, before: Data, mask: Mask, w: Wire, i: nat, d: Data)
    requires |c.attrs| == 16 && 1 <= i <= 17 && Delivers(c, w.got) && Clean(c, mask, w, i)
  {
    && |d| == |before|
    && forall j: nat :: Number(j) ==> OverlaidAt(c, before, mask, w, i, d, j)
  }

  ghost predicate OverlaidAt(c: Class, before: Data, mask: Mask, w: Wire, i: nat, d: Data, j: nat)
    requires |c.attrs| == 16 && 1 <= i <= 17 && Delivers(c, w.got) && Clean(c, mask, w, i) && Number(j)
  {
    if j in mask && j < i then
      (assert !Bad(c, mask, w, j); Slice(c, d, j) == NewValue(c, w, j))
    else
      Slice(c, d, j) == Slice(c, before, j)
  }

  /** There is at most one such block. */
  lemma {:induction false} OverlaidUnique(c: Class, before: Data, mask: Mask, w: Wire, i: nat, d: Data, e: Data)
    requires WellFormed(c) && |before| == c.dataSize && 1 <= i <= 17 && Delivers(c, w.got) && Clean(c, mask, w, i)
    requires Overlaid(c, before, mask, w, i, d) && Overlaid(c, before, mask, w, i, e)
    ensures d == e
  {
    forall j: nat | Number(j) ensures Slice(c, d, j) == Slice(c, e, j) {
      assert OverlaidAt(c, before, mask, w, i, d, j) && OverlaidAt(c, before, mask, w, i, e, j);
    }
    SlicesDetermine(c, d, e);
  }

  lemma CleanStep(c: Class, mask: Mask, w: Wire, i: nat)
    requires Shaped(c) && Number(i) && Clean(c, mask, w, i) && !Bad(c, mask, w, i)
    ensures Clean(c, mask, w, i + 1)
  {}

  lemma FetchStart(c: Class, before: Data, mask: Mask, w: Wire)
    requires Shaped(c) && Delivers(c, w.got)
    ensures Clean(c, mask, w, 1) && Overlaid(c, before, mask, w, 1, before)
  {
    forall j: nat | Number(j) ensures OverlaidAt(c, before, mask, w, 1, before, j) {}
  }

  lemma FetchNone(c: Class, before: Data, mask: Mask, w: Wire, i: nat, d: Data)
    requires Shaped(c) && Number(i) && Delivers(c, w.got) && i !in mask
    requires Clean(c, mask, w, i) && Overlaid(c, before, mask, w, i, d)
    ensures Clean(c, mask, w, i + 1) && Overlaid(c, before, mask, w, i + 1, d)
  {
    CleanStep(c, mask, w, i);
    forall j: nat | Number(j) ensures OverlaidAt(c, before, mask, w, i + 1, d, j) {
      assert OverlaidAt(c, before, mask, w, i, d, j);
    }
  }

  /** Copying the value of attribute i extends the overlay to it. */
  lemma FetchOne(c: Class, before: Data, mask: Mask, w: Wire, i: nat, d: Data, v: Data)
    requires WellFormed(c) && |before| == |d| == c.dataSize && Number(i) && Delivers(c, w.got)
    requires Clean(c, mask, w, i) && Overlaid(c, before, mask, w, i, d)
    requires i in mask && !Bad(c, mask, w, i) && v == NewValue(c, w, i)
    ensures Clean(c, mask, w, i + 1) && (|v| > 0 ==> At(c, i).offset + |v| <= |d|)
    ensures Overlaid(c, before, mask, w, i + 1, if |v| > 0 then Put(c, d, i, v) else d)
  {
    CleanStep(c, mask, w, i);
    Fits(c, i);
    SliceSize(c, d, i);
    var out := if |v| > 0 then Put(c, d, i, v) else d;
    forall j: nat | Number(j) ensures OverlaidAt(c, before, mask, w, i + 1, out, j) {
      assert OverlaidAt(c, before, mask, w, i, d, j);
      if |v| > 0 { PutSlice(c, d, i, v, j); }
    }
  }

  /** me_data_fetch. On failure the attributes before the failing one have been fetched. */
  method Fetch(c: Class, data: Data, mask: Mask, w: Wire) returns (r: Outcome, out: Data, ghost stop: nat)
    requires WellFormed(c) && |data| == c.dataSize && Delivers(c, w.got)
    ensures 1 <= stop <= 17 && Clean(c, mask, w, stop) && Overlaid(c, data, mask, w, stop, out)
    ensures r == Success <==> stop == 17
    ensures r != Success ==> Bad(c, mask, w, stop)
    ensures r == Bounds <==> stop < 17 && OutOfBounds(c, w, stop)
  {
    out := data;
    var offset := 0;
    var i := 1;
    stop := 17;
    FetchStart(c, data, mask, w);
    while i <= 16
      invariant 1 <= i <= 17 && offset == OffsetIn(c, w.dm, i)
      invariant Clean(c, mask, w, i) && Overlaid(c, data, mask, w, i, out)
    {
      var size := At(c, i).size;
      if i in mask {
        if offset + size > |w.bytes| { return Bounds, out, i; }
        if At(c, i).volatile && i !in w.got { return HandlerError, out, i; }
        var v := if At(c, i).volatile then w.got[i] else w.bytes[offset..offset + size];
        FetchOne(c, data, mask, w, i, out, v);
        if size > 0 { out := Put(c, out, i, v); }
      } else {
        FetchNone(c, data, mask, w, i, out);
      }
      if i in w.dm { offset := offset + size; }
      i := i + 1;
    }
    r := Success;
  }

  // ----- Reading a whole managed entity -----

  /** Packed over all defined attributes, wire offsets are block offsets. */
  lemma {:induction false} FullOffsets(c: Class, i: nat)
    requires WellFormed(c) && 1 <= i <= 17
    ensures OffsetIn(c, All() - InvMask(c), i) == SizeBefore(c, i)
  {
    if i > 1 {
      FullOffsets(c, i - 1);
      assert Packed(c, i - 1);
    }
  }

  function SelfWire(c: Class, data: Data, g: Readings): Wire
    requires |c.attrs| == 16
  {
    Wire(All() - InvMask(c), data, g)
  }

  function ReadMask(c: Class): Mask requires |c.attrs| == 16 { All() - (InvMask(c) + OptMask(c)) }

  /** Reading the block through its own offsets never leaves it. */
  lemma SelfInBounds(c: Class, data: Data, g: Readings, i: nat)
    requires WellFormed(c) && |data| == c.dataSize && Number(i) && Delivers(c, g)
    ensures !OutOfBounds(c, SelfWire(c, data, g), i)
    ensures !At(c, i).prop.None() && !At(c, i).volatile ==> NewValue(c, SelfWire(c, data, g), i) == Slice(c, data, i)
  {
    FullOffsets(c, i);
    SizesGrow(c, i, 17);
    Fits(c, i);
  }

  /** Attribute i was not read: a handler at or before it failed. */
  ghost predicate FailedUpTo(c: Class, g: Readings, i: nat)
    requires |c.attrs| == 16
  {
    exists j: nat :: 1 <= j <= i && Number(j) && j in ReadMask(c) && At(c, j).volatile && j !in g
  }

  /** What a read shows of attribute i. */
  ghost function Shown(c: Class, data: Data, g: Readings, i: nat): Data
    requires |c.attrs| == 16 && Number(i)
  {
    if At(c, i).volatile && Exists(c, i) && !FailedUpTo(c, g, i) && i in g then g[i] else Slice(c, data, i)
  }

  lemma NothingExists(c: Class)
    requires Shaped(c) && InvMask(c) + OptMask(c) == All()
    ensures forall i: nat :: !Exists(c, i)
    ensures ReadMask(c) == {}
  {
    forall i: nat | Number(i) ensures !Exists(c, i) { assert i in All(); }
  }

  /** Attribute i is defined and supported. */
  ghost predicate Supported(c: Class, i: nat)
    requires |c.attrs| == 16
  {
    && 1 <= i <= 16
    && var p := c.attrs[i - 1].prop;
       !p.notSupported && (p.rd || p.wr || p.table || p.noUpload || p.other)
  }

  lemma SupportedExactly(c: Class)
    requires Shaped(c)
    ensures forall i: nat :: Supported(c, i) <==> Exists(c, i)
    ensures forall i: nat :: Supported(c, i) <==> i in ReadMask(c)
  {
    forall i: nat ensures Supported(c, i) <==> i in ReadMask(c) {
      assert i in All() <==> 1 <= i <= 16;
    }
  }

  /** me_data_read: a read shows the stored value of every supported attribute
      without a get handler, the handler's value of the others, and succeeds
      exactly when no handler fails. A class without supported attributes reads
      as zeros. */
  method Read(c: Class, data: Data, g: Readings) returns (r: Outcome, out: Data)
    requires WellFormed(c) && |data| == c.dataSize && Delivers(c, g)
    ensures |out| == c.dataSize && (r == Success || r == HandlerError)
    ensures r == Success <==> forall i: nat :: Supported(c, i) && c.attrs[i - 1].volatile ==> i in g
    ensures forall i: nat :: Supported(c, i) && !c.attrs[i - 1].volatile ==> Slice(c, out, i) == Slice(c, data, i)
    ensures r == Success ==> forall i: nat :: Supported(c, i) && c.attrs[i - 1].volatile ==> Slice(c, out, i) == g[i]
    ensures r == Success <==> !FailedUpTo(c, g, 16)
    ensures forall i: nat :: Exists(c, i) ==> Slice(c, out, i) == Shown(c, data, g, i)
  {
    SupportedExactly(c);
    if InvMask(c) + OptMask(c) == All() {
      out := seq(c.dataSize, i => 0);
      NothingExists(c);
      return Success, out;
    }
    ghost var stop;
    var w := SelfWire(c, data, g);
    r, out, stop := Fetch(c, data, ReadMask(c), w);
    if stop < 17 { SelfInBounds(c, data, g, stop); }
    ReadHandlers(c, data, g, stop);
    HandlersFine(c, g);
    forall i: nat | Exists(c, i) ensures Slice(c, out, i) == Shown(c, data, g, i) {
      ReadShows(c, data, g, stop, out, i);
    }
  }

  lemma HandlersFine(c: Class, g: Readings)
    requires Shaped(c)
    ensures !FailedUpTo(c, g, 16) <==> forall i: nat :: Supported(c, i) && c.attrs[i - 1].volatile ==> i in g
  {
    SupportedExactly(c);
    if FailedUpTo(c, g, 16) {
      var j: nat :| 1 <= j <= 16 && j in ReadMask(c) && At(c, j).volatile && j !in g;
      assert Supported(c, j);
    }
  }

  /** Below the stop no handler failed, and at it one did. */
  lemma ReadHandlers(c: Class, data: Data, g: Readings, stop: nat)
    requires WellFormed(c) && |data| == c.dataSize && Delivers(c, g) && 1 <= stop <= 17
    requires Clean(c, ReadMask(c), SelfWire(c, data, g), stop)
    requires stop < 17 ==> Bad(c, ReadMask(c), SelfWire(c, data, g), stop)
    ensures forall i: nat :: i < stop ==> !FailedUpTo(c, g, i)
    ensures forall i: nat :: stop <= i <= 16 ==> FailedUpTo(c, g, i)
  {
    var w := SelfWire(c, data, g);
    forall j: nat | 1 <= j < stop && j in ReadMask(c) && At(c, j).volatile ensures j in g {
      assert !Bad(c, ReadMask(c), w, j);
    }
    if stop < 17 { SelfInBounds(c, data, g, stop); }
  }

  lemma ReadShows(c: Class, data: Data, g: Readings, stop: nat, out: Data, i: nat)
    requires WellFormed(c) && |data| == c.dataSize && Delivers(c, g) && 1 <= stop <= 17 && Exists(c, i)
    requires Clean(c, ReadMask(c), SelfWire(c, data, g), stop)
    requires Overlaid(c, data, ReadMask(c), SelfWire(c, data, g), stop, out)
    requires i < stop <==> !FailedUpTo(c, g, i)
    ensures Slice(c, out, i) == Shown(c, data, g, i)
  {
    assert OverlaidAt(c, data, ReadMask(c), SelfWire(c, data, g), stop, out, i);
    SelfInBounds(c, data, g, i);
    assert i in All() && i in ReadMask(c);
    if i < stop { assert !Bad(c, ReadMask(c), SelfWire(c, data, g), i); }
  }

  // ----- Change detection -----

  /** The attribute is a table, or its bytes are not the stored ones. */
  ghost predicate Differs(c: Class, data: Data, upd: Data, i: nat)
    requires |c.attrs| == 16 && Number(i)
  {
    c.attrs[i - 1].prop.table || Slice(c, upd, i) != Slice(c, data, i)
  }

  /** is_data_updated. With `collect` the changed attributes are added to a mask. */
  method IsDataUpdated(c: Class, initialized: bool, data: Data, upd: Data, mask: Mask, collect: bool, seen: Mask)
    returns (updated: bool, changes: Mask)
    requires |c.attrs| == 16
    ensures !collect ==>
      (updated <==> !initialized || exists i: nat :: 1 <= i <= 16 && i in mask && Differs(c, data, upd, i))
    ensures collect && !initialized ==> updated && changes == All() - InvMask(c)
    ensures collect && initialized ==>
      && changes == seen + (set i: nat | 1 <= i <= 16 && i in mask && Differs(c, data, upd, i))
      && updated == (changes != {})
  {
    changes := seen;
    if !initialized { return true, if collect then All() - InvMask(c) else seen; }
    var i := 1;
    while i <= 16
      invariant 1 <= i <= 17
      invariant collect ==>
        changes == seen + set k: nat | 1 <= k < i && i <= 17 && k in mask && Differs(c, data, upd, k)
      invariant !collect ==> forall k: nat :: 1 <= k < i && k in mask ==> !Differs(c, data, upd, k)
    {
      var differs := At(c, i).prop.table || Slice(c, upd, i) != Slice(c, data, i);
      assert differs == Differs(c, data, upd, i);
      if i in mask && differs {
        if !collect { return true, changes; }
        changes := changes + {i};
      }
      i := i + 1;
    }
    updated := collect && changes != {};
  }

  // ----- The Set action -----

  datatype Result = CmdSuccess | CmdError | ParamError | AttrFailed
  datatype SetRsp = SetRsp(result: Result, exec: Mask, opt: Mask)

  datatype Verdict = Refused | Checked(exec: Mask)

  /** The class's handlers: get, validate (optional) and update, which may rewrite the new data. */
  datatype Handlers = Handlers(got: Readings, validate: Option<Data -> Verdict>, update: (Data, Mask) -> Option<Data>)

  const SetSize := 30

  ghost predicate KeepsSize(c: Class, h: Handlers) {
    forall d, m :: |d| == c.dataSize && h.update(d, m).Some? ==> |h.update(d, m).value| == c.dataSize
  }

  ghost predicate IdentityUpdate(h: Handlers) {
    forall d, m :: h.update(d, m).Some? ==> h.update(d, m) == Some(d)
  }

  predicate Valid(h: Handlers, d: Data) {
    h.validate.None? || h.validate.value(d) == Checked({})
  }

  /** The validator names a requested attribute. */
  predicate Rejects(h: Handlers, d: Data, mask: Mask) {
    h.validate.Some? && h.validate.value(d).Checked? && h.validate.value(d).exec * mask != {}
  }

  /** The validator fails, or names attributes none of which was requested. */
  predicate Breaks(h: Handlers, d: Data, mask: Mask) {
    && h.validate.Some?
    && (h.validate.value(d).Refused? || (h.validate.value(d).exec != {} && h.validate.value(d).exec * mask == {}))
  }

  /** The values the request asks for can be fetched. */
  ghost predicate Fetchable(c: Class, mask: Mask, w: Wire)
    requires |c.attrs| == 16
  {
    Clean(c, mask, w, 17)
  }

  /** The request is acceptable before any handler is asked. */
  predicate Settable(c: Class, mask: Mask)
    requires |c.attrs| == 16
  {
    mask * InvMask(c) == {} && mask * OptMask(c) == {} && mask - WrMask(c) == {}
  }

  /** Attribute i is writable and supported. */
  ghost predicate CanSet(c: Class, i: nat)
    requires |c.attrs| == 16
  {
    1 <= i <= 16 && c.attrs[i - 1].prop.wr && !c.attrs[i - 1].prop.notSupported
  }

  ghost function Unsupported(c: Class): Mask
    requires |c.attrs| == 16
  {
    set i: nat | 1 <= i <= 16 && At(c, i).prop.notSupported
  }

  lemma SettableExactly(c: Class, mask: Mask)
    requires Shaped(c)
    ensures Settable(c, mask) <==> forall i :: i in mask ==> CanSet(c, i)
    ensures OptMask(c) == Unsupported(c)
  {
    if Settable(c, mask) {
      forall i | i in mask ensures CanSet(c, i) {
        assert i !in mask - WrMask(c) && i !in mask * OptMask(c);
      }
    }
  }

  function SetWire(mask: Mask, values: Data, h: Handlers): Wire { Wire(mask, values, h.got) }

  /** The bytes of attribute i among the packed values of the attributes in mask. */
  function OnWire(c: Class, mask: Mask, values: Data, i: nat): Data
    requires |c.attrs| == 16 && Number(i)
  {
    var from := OffsetIn(c, mask, i);
    var to := from + At(c, i).size;
    if to > |values| then [] else values[from..to]
  }

  lemma {:induction false} OffsetsGrow(c: Class, m: Mask, i: nat, j: nat)
    requires Shaped(c) && 1 <= i <= j <= 17
    ensures OffsetIn(c, m, i) <= OffsetIn(c, m, j)
    ensures i < j && i in m ==> OffsetIn(c, m, i) + At(c, i).size <= OffsetIn(c, m, j)
  {
    if i < j { OffsetsGrow(c, m, i, j - 1); }
  }

  lemma {:induction false} CleanFits(c: Class, w: Wire, i: nat)
    requires Shaped(c) && 1 <= i <= 17 && Clean(c, w.dm, w, i)
    ensures OffsetIn(c, w.dm, i) <= |w.bytes|
  {
    if i > 1 {
      CleanFits(c, w, i - 1);
      assert !Bad(c, w.dm, w, i - 1);
    }
  }

  /** A request is fetchable exactly when its values fit the message in total
      and no get handler it involves fails. */
  lemma {:induction false} FetchableExactly(c: Class, w: Wire)
    requires Shaped(c)
    ensures Fetchable(c, w.dm, w) <==>
      && OffsetIn(c, w.dm, 17) <= |w.bytes|
      && forall i: nat :: Number(i) && i in w.dm && At(c, i).volatile ==> i in w.got
  {
    if Fetchable(c, w.dm, w) {
      CleanFits(c, w, 17);
      assert forall i: nat :: Number(i) ==> !Bad(c, w.dm, w, i);
    } else {
      var i: nat :| 1 <= i < 17 && Bad(c, w.dm, w, i);
      OffsetsGrow(c, w.dm, i, 17);
    }
  }

  /** What a complete overlay gives one attribute without a get handler. */
  lemma OverlaySlice(c: Class, before: Data, mask: Mask, w: Wire, d: Data, i: nat)
    requires Shaped(c) && Delivers(c, w.got) && Clean(c, mask, w, 17) && Overlaid(c, before, mask, w, 17, d)
    requires Number(i) && !At(c, i).volatile
    ensures Slice(c, d, i) == if i in mask then OnWire(c, w.dm, w.bytes, i) else Slice(c, before, i)
  {
    assert !Bad(c, mask, w, i);
    assert OverlaidAt(c, before, mask, w, 17, d, i);
  }

  class ManagedEntity {
    const cls: Class
    var data: Data
    var active: bool
    var initialized: bool

    ghost predicate Ok() reads this { WellFormed(cls) && |data| == cls.dataSize }

    constructor (c: Class, d: Data, on: bool, ready: bool)
      requires WellFormed(c) && |d| == c.dataSize
      ensures Ok() && cls == c && data == d && active == on && initialized == ready
    {
      cls, data, active, initialized := c, d, on, ready;
    }

    /** The update handler is consulted: something changed and the entity is active. */
    ghost predicate AsksUpdate(mask: Mask, upd: Data)
      reads this
      requires Ok()
    {
      active && Updates(mask, upd)
    }

    ghost predicate Updates(mask: Mask, upd: Data)
      reads this
      requires Ok()
    {
      !initialized || exists i: nat :: 1 <= i <= 16 && i in mask && Differs(cls, data, upd, i)
    }

    /** set_action_handle. `upd` is the old data overlaid with exactly the
        requested attributes. The action succeeds exactly when the request is
        settable, fetchable and, if it changes anything, valid and accepted by
        the update handler of an active entity; only then does the data change. */
    method Set(mask: Mask, values: Data, h: Handlers) returns (rsp: SetRsp, ghost upd: Data)
      requires Ok() && |values| == SetSize && Delivers(cls, h.got) && KeepsSize(cls, h)
      modifies this`data
      ensures Ok()
      ensures rsp.result == CmdSuccess <==>
        && (forall i :: i in mask ==> CanSet(cls, i)) && Fetchable(cls, mask, SetWire(mask, values, h))
        && (old(Updates(mask, upd)) ==> Valid(h, upd) && (active ==> h.update(upd, mask).Some?))
      ensures rsp.result != CmdSuccess ==> data == old(data)
      ensures (forall i :: i in mask ==> CanSet(cls, i)) && Fetchable(cls, mask, SetWire(mask, values, h)) ==>
        Overlaid(cls, old(data), mask, SetWire(mask, values, h), 17, upd)
      ensures rsp.result == CmdSuccess && old(AsksUpdate(mask, upd)) ==> Some(data) == h.update(upd, mask)
      ensures rsp.result == CmdSuccess && !old(AsksUpdate(mask, upd)) ==> data == upd
      ensures rsp.result == AttrFailed <==> exists i :: i in mask && !CanSet(cls, i)
      ensures rsp.result == AttrFailed ==> rsp.exec == mask && rsp.opt == Unsupported(cls) - mask
      ensures rsp.result == CmdError <==>
        && (forall i :: i in mask ==> CanSet(cls, i))
        && (!Fetchable(cls, mask, SetWire(mask, values, h)) || (old(Updates(mask, upd)) && Breaks(h, upd, mask)))
      ensures rsp.result == ParamError && Rejects(h, upd, mask) ==>
        rsp.exec == h.validate.value(upd).exec * mask && rsp.opt == Unsupported(cls) - h.validate.value(upd).exec
      ensures rsp.result == ParamError && !Rejects(h, upd, mask) ==> rsp.exec == mask && rsp.opt == {}
      ensures rsp.result == CmdSuccess ==> rsp.exec == {} && rsp.opt == {}
    {
      upd := data;
      SettableExactly(cls, mask);
      if mask * InvMask(cls) != {} || mask * OptMask(cls) != {} || mask - WrMask(cls) != {} {
        return SetRsp(AttrFailed, mask, OptMask(cls) - mask), upd;
      }
      var w := SetWire(mask, values, h);
      ghost var stop;
      var r, fetched;
      r, fetched, stop := Fetch(cls, data, mask, w);
      upd := fetched;
      if r != Success { return SetRsp(CmdError, {}, {}), upd; }
      var updated, _ := IsDataUpdated(cls, initialized, data, fetched, mask, false, {});
      if !updated {
        Unchanged(cls, data, mask, w, fetched);
        return SetRsp(CmdSuccess, {}, {}), upd;
      }
      if h.validate.Some? {
        match h.validate.value(fetched) {
          case Refused => return SetRsp(CmdError, {}, {}), upd;
          case Checked(exec) =>
            if exec * mask != {} { return SetRsp(ParamError, exec * mask, OptMask(cls) - exec), upd; }
            if exec != {} { return SetRsp(CmdError, {}, {}), upd; }
        }
      }
      if active {
        match h.update(fetched, mask) {
          case None => return SetRsp(ParamError, mask, {}), upd;
          case Some(d) => data := d;
        }
      } else {
        data := fetched;
      }
      return SetRsp(CmdSuccess, {}, {}), upd;
    }

    /** Set with an update handler that leaves the data alone, then a read. */
    method SetAndRead(mask: Mask, values: Data, h: Handlers, g: Readings) returns (rsp: SetRsp, r: Outcome, out: Data)
      requires Ok() && |values| == SetSize && Delivers(cls, h.got) && IdentityUpdate(h) && Delivers(cls, g)
      modifies this`data
      ensures Ok() && (rsp.result != CmdSuccess ==> data == old(data))
      ensures r == Success <==> forall i: nat :: Supported(cls, i) && cls.attrs[i - 1].volatile ==> i in g
      ensures rsp.result == CmdSuccess ==>
        && Fetchable(cls, mask, SetWire(mask, values, h))
        && Overlaid(cls, old(data), mask, SetWire(mask, values, h), 17, data)
      ensures forall i: nat :: Supported(cls, i) && !At(cls, i).volatile ==>
        Slice(cls, out, i) == if rsp.result == CmdSuccess && i in mask
                              then OnWire(cls, mask, values, i)
                              else Slice(cls, old(data), i)
    {
      ghost var upd;
      ghost var before := data;
      rsp, upd := Set(mask, values, h);
      r, out := Read(cls, data, g);
      forall i: nat | Supported(cls, i) && !At(cls, i).volatile
        ensures Slice(cls, out, i) == if rsp.result == CmdSuccess && i in mask
                                      then OnWire(cls, mask, values, i)
                                      else Slice(cls, before, i)
      {
        assert Slice(cls, out, i) == Slice(cls, data, i);
        if rsp.result == CmdSuccess { OverlaySlice(cls, before, mask, SetWire(mask, values, h), data, i); }
      }
    }

    /** Two Sets in a row: each attribute without a get handler has the value of the
        last request that succeeded and asked for it, else its old one. */
    method SetTwice(m1: Mask, v1: Data, h1: Handlers, m2: Mask, v2: Data, h2: Handlers) returns (r1: SetRsp, r2: SetRsp)
      requires Ok() && |v1| == SetSize && Delivers(cls, h1.got) && IdentityUpdate(h1)
      requires |v2| == SetSize && Delivers(cls, h2.got) && IdentityUpdate(h2)
      modifies this`data
      ensures Ok()
      ensures forall i: nat :: Number(i) && !At(cls, i).volatile ==>
        Slice(cls, data, i) == if r2.result == CmdSuccess && i in m2 then OnWire(cls, m2, v2, i)
                               else if r1.result == CmdSuccess && i in m1 then OnWire(cls, m1, v1, i)
                               else Slice(cls, old(data), i)
    {
      ghost var upd;
      ghost var d0 := data;
      r1, upd := Set(m1, v1, h1);
      ghost var d1 := data;
      r2, upd := Set(m2, v2, h2);
      forall i: nat | Number(i) && !At(cls, i).volatile
        ensures Slice(cls, data, i) == if r2.result == CmdSuccess && i in m2 then OnWire(cls, m2, v2, i)
                                       else if r1.result == CmdSuccess && i in m1 then OnWire(cls, m1, v1, i)
                                       else Slice(cls, d0, i)
      {
        if r1.result == CmdSuccess { OverlaySlice(cls, d0, m1, SetWire(m1, v1, h1), d1, i); }
        if r2.result == CmdSuccess { OverlaySlice(cls, d1, m2, SetWire(m2, v2, h2), data, i); }
      }
    }
  }

  /** A fetch that changes nothing gives back the stored block. */
  lemma Unchanged(c: Class, data: Data, mask: Mask, w: Wire, upd: Data)
    requires WellFormed(c) && |data| == c.dataSize && Delivers(c, w.got) && Clean(c, mask, w, 17)
    requires Overlaid(c, data, mask, w, 17, upd)
    requires forall i: nat :: Number(i) && i in mask ==> !Differs(c, data, upd, i)
    ensures upd == data
  {
    forall j: nat | Number(j) ensures Slice(c, upd, j) == Slice(c, data, j) {
      assert OverlaidAt(c, data, mask, w, 17, upd, j);
    }
    SlicesDetermine(c, upd, data);
  }

  // ----- What the sender packs is what arrives -----

  lemma {:induction false} OffsetIsSize(c: Class, mask: Mask, i: nat)
    requires Shaped(c) && 1 <= i <= 17
    ensures OffsetIn(c, mask, i) == TotalSize(c, Below(mask, i))
  {
    if i > 1 {
      OffsetIsSize(c, mask, i - 1);
      var l := Below(mask, i - 1);
      assert (l + [i - 1])[..|l|] == l;
    }
  }

  lemma PrefixOfMore(p: Data, a: Data, v: Data)
    requires StartsWith(a, p)
    ensures StartsWith(a + v, p)
  {}

  ghost predicate StartsWith(a: Data, p: Data) { |p| <= |a| && a[..|p|] == p }

  /** The packed values of the attributes of mask below i. */
  function ValuesBelow(c: Class, d: Data, mask: Mask, i: nat): Data
    requires |c.attrs| == 16 && 1 <= i <= 17
  {
    Values(c, d, Below(mask, i))
  }

  lemma {:induction false} PrefixStays(c: Class, d: Data, mask: Mask, i: nat, n: nat, p: Data)
    requires Shaped(c) && 1 <= i <= n <= 17 && StartsWith(ValuesBelow(c, d, mask, i), p)
    ensures StartsWith(ValuesBelow(c, d, mask, n), p)
  {
    if i < n {
      PrefixStays(c, d, mask, i, n - 1, p);
      PrefixStep(c, d, mask, n - 1, p);
    }
  }

  lemma PrefixStep(c: Class, d: Data, mask: Mask, n: nat, p: Data)
    requires Shaped(c) && Number(n) && StartsWith(ValuesBelow(c, d, mask, n), p)
    ensures StartsWith(ValuesBelow(c, d, mask, n + 1), p)
  {
    if n in mask {
      ValuesSnoc(c, d, Below(mask, n), n);
      PrefixOfMore(p, ValuesBelow(c, d, mask, n), Slice(c, d, n));
    }
  }

  lemma ValuesSnoc(c: Class, d: Data, l: seq<nat>, x: nat)
    requires Shaped(c) && Number(x) && forall k :: 0 <= k < |l| ==> Number(l[k])
    ensures Values(c, d, l + [x]) == Values(c, d, l) + Slice(c, d, x)
  {
    assert (l + [x])[..|l|] == l;
  }

  lemma ValuesStep(c: Class, d: Data, mask: Mask, i: nat)
    requires Shaped(c) && Number(i) && i in mask
    ensures ValuesBelow(c, d, mask, i + 1) == ValuesBelow(c, d, mask, i) + Slice(c, d, i)
  {
    ValuesSnoc(c, d, Below(mask, i), i);
  }

  lemma BelowSize(c: Class, d: Data, mask: Mask, i: nat)
    requires WellFormed(c) && |d| == c.dataSize && Number(i)
    ensures |ValuesBelow(c, d, mask, i)| == OffsetIn(c, mask, i)
  {
    OffsetIsSize(c, mask, i);
    ValuesSize(c, d, Below(mask, i));
  }

  lemma Itself(p: Data)
    ensures StartsWith(p, p)
  {}

  lemma CutOnWire(c: Class, mask: Mask, bytes: Data, before: Data, v: Data, i: nat)
    requires Shaped(c) && Number(i) && |before| == OffsetIn(c, mask, i) && |v| == At(c, i).size
    requires StartsWith(bytes, before + v)
    ensures OnWire(c, mask, bytes, i) == v
  {
    assert forall k :: 0 <= k < |before| + |v| ==> bytes[k] == (before + v)[k];
  }

  /** A request that carries the attributes of some block d, packed in attribute
      order and padded, delivers each of them. */
  lemma {:induction false} WireRoundTrip(c: Class, d: Data, mask: Mask, pad: Data, i: nat)
    requires WellFormed(c) && |d| == c.dataSize && Number(i) && i in mask
    ensures OnWire(c, mask, ValuesBelow(c, d, mask, 17) + pad, i) == Slice(c, d, i)
  {
    var all, before, v := ValuesBelow(c, d, mask, 17), ValuesBelow(c, d, mask, i), Slice(c, d, i);
    ValuesStep(c, d, mask, i);
    Itself(before + v);
    PrefixStays(c, d, mask, i + 1, 17, before + v);
    PrefixOfMore(before + v, all, pad);
    BelowSize(c, d, mask, i);
    SliceSize(c, d, i);
    CutOnWire(c, mask, all + pad, before, v, i);
  }
}
