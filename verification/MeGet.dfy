/**
  The Get action (get_action_handle in omci_me_handlers.c): the requested
  attributes are gathered in attribute order into 25 value bytes; what does not
  fit is left for a later request.
 */
module MeGet {
  import opened MeClass
  import MeData

  const GetSize := 25

  /** Got: success; TableRead(i): the request goes to the table copy of attribute i. */
  datatype GetRsp = Got(mask: Mask, values: Data) | CmdError | AttrFailed(exec: Mask, opt: Mask) | TableRead(attr: nat)

  /** What the get handlers deliver each time the entity is read, by the attribute it is read for. */
  type Reads = seq<MeData.Readings>

  ghost predicate ReadsOk(c: Class, rd: Reads)
    requires |c.attrs| == 16
  {
    |rd| == 17 && forall k :: 0 <= k < |rd| ==> MeData.Delivers(c, rd[k])
  }

  function Readable(c: Class, m: Mask): Mask
    requires |c.attrs| == 16
  {
    set i: nat | 1 <= i <= 16 && i in m && Exists(c, i) && At(c, i).prop.rd
  }

  predicate AsTable(c: Class, i: nat)
    requires |c.attrs| == 16 && Number(i)
  {
    At(c, i).size > GetSize || At(c, i).prop.table
  }

  /** Reading the entity for attribute i fails. */
  ghost predicate ReadFails(c: Class, rd: Reads, i: nat)
    requires |c.attrs| == 16 && |rd| == 17 && Number(i)
  {
    MeData.FailedUpTo(c, rd[i], 16)
  }

  /** The requested attributes below number i that cannot be delivered. */
  ghost function Refused(c: Class, m: Mask, rd: Reads, i: nat): Mask
    requires |c.attrs| == 16 && |rd| == 17 && 1 <= i <= 17
  {
    set k: nat | 1 <= k < i && i <= 17 && k in m && (k !in Readable(c, m) || ReadFails(c, rd, k))
  }

  ghost function SizeOf(c: Class, m: Mask, i: nat): nat
    requires |c.attrs| == 16 && 1 <= i <= 17
  {
    TotalSize(c, Below(Readable(c, m), i))
  }

  /** The values of the attributes of l, each as the read made for it shows it. */
  ghost function Gathered(c: Class, data: Data, rd: Reads, l: seq<nat>): Data
    requires |c.attrs| == 16 && |rd| == 17 && forall k :: 0 <= k < |l| ==> Number(l[k])
  {
    if l == [] then []
    else
      var x: nat := l[|l| - 1];
      assert Number(x);
      Gathered(c, data, rd, l[..|l| - 1]) + MeData.Shown(c, data, rd[x], x)
  }

  /** Attribute i stops the scan: it is a table, or does not fit any more. */
  ghost predicate Stops(c: Class, m: Mask, i: nat)
    requires |c.attrs| == 16 && Number(i)
  {
    i in Readable(c, m) && (AsTable(c, i) || SizeOf(c, m, i) + At(c, i).size > GetSize)
  }

  lemma ReadableStep(c: Class, m: Mask, i: nat)
    requires Shaped(c) && Number(i)
    ensures Below(Readable(c, m), i + 1) ==
      if i in Readable(c, m) then Below(Readable(c, m), i) + [i] else Below(Readable(c, m), i)
    ensures SizeOf(c, m, i + 1) == SizeOf(c, m, i) + if i in Readable(c, m) then At(c, i).size else 0
  {
    var l := Below(Readable(c, m), i);
    assert (l + [i])[..|l|] == l;
  }

  lemma SizeStep(c: Class, m: Mask, i: nat)
    requires Shaped(c) && Number(i)
    ensures SizeOf(c, m, i + 1) == SizeOf(c, m, i) + if i in Readable(c, m) then At(c, i).size else 0
  {
    ReadableStep(c, m, i);
  }

  lemma GatheredSnoc(c: Class, data: Data, rd: Reads, l: seq<nat>, x: nat)
    requires Shaped(c) && |rd| == 17 && Number(x) && forall k :: 0 <= k < |l| ==> Number(l[k])
    ensures Gathered(c, data, rd, l + [x]) == Gathered(c, data, rd, l) + MeData.Shown(c, data, rd[x], x)
  {
    assert (l + [x])[..|l|] == l;
  }

  lemma RefusedStep(c: Class, m: Mask, rd: Reads, i: nat)
    requires Shaped(c) && |rd| == 17 && Number(i)
    ensures Refused(c, m, rd, i + 1) ==
      Refused(c, m, rd, i) + if i in m && (i !in Readable(c, m) || ReadFails(c, rd, i)) then {i} else {}
  {}

  /** What the scan has gathered so far. */
  datatype Scan = Scan(sum: nat, exec: Mask, done: Mask, values: Data)

  ghost predicate Holds(c: Class, data: Data, m: Mask, rd: Reads, i: nat, done: Mask, values: Data)
    requires |c.attrs| == 16 && |rd| == 17 && 1 <= i <= 17
  {
    done == MaskOf(Below(Readable(c, m), i)) && values == Gathered(c, data, rd, Below(Readable(c, m), i))
  }

  ghost predicate Scanned(c: Class, data: Data, m: Mask, rd: Reads, i: nat, s: Scan)
    requires |c.attrs| == 16 && |rd| == 17 && 1 <= i <= 17
  {
    && s.sum == SizeOf(c, m, i) && s.sum <= GetSize && s.exec == Refused(c, m, rd, i)
    && (s.exec == {} ==> Holds(c, data, m, rd, i, s.done, s.values))
  }

  /** Attribute i is requested but cannot be delivered. */
  lemma ScanRefuses(c: Class, data: Data, m: Mask, rd: Reads, i: nat, s: Scan)
    requires Shaped(c) && |rd| == 17 && Number(i) && Scanned(c, data, m, rd, i, s) && i in m
    requires i in Readable(c, m) ==> s.sum + At(c, i).size <= GetSize && ReadFails(c, rd, i)
    ensures Scanned(c, data, m, rd, i + 1,
                    s.(sum := if i in Readable(c, m) then s.sum + At(c, i).size else s.sum, exec := s.exec + {i}))
  {
    var t := s.(sum := if i in Readable(c, m) then s.sum + At(c, i).size else s.sum, exec := s.exec + {i});
    SizeStep(c, m, i);
    RefusedStep(c, m, rd, i);
    assert i in t.exec;
    RefusedScan(c, data, m, rd, i + 1, t);
  }

  lemma RefusedScan(c: Class, data: Data, m: Mask, rd: Reads, i: nat, s: Scan)
    requires Shaped(c) && |rd| == 17 && 1 <= i <= 17
    requires s.sum == SizeOf(c, m, i) && s.sum <= GetSize && s.exec == Refused(c, m, rd, i) && s.exec != {}
    ensures Scanned(c, data, m, rd, i, s)
  {}

  lemma MaskSnoc(l: seq<nat>, x: nat)
    ensures MaskOf(l + [x]) == MaskOf(l) + {x}
  {}

  lemma HoldsNext(c: Class, data: Data, m: Mask, rd: Reads, i: nat, done: Mask, values: Data)
    requires Shaped(c) && |rd| == 17 && Number(i) && Holds(c, data, m, rd, i, done, values) && i in Readable(c, m)
    ensures Holds(c, data, m, rd, i + 1, done + {i}, values + MeData.Shown(c, data, rd[i], i))
  {
    ReadableStep(c, m, i);
    var l := Below(Readable(c, m), i);
    GatheredSnoc(c, data, rd, l, i);
    MaskSnoc(l, i);
  }

  lemma ScanGathers(c: Class, data: Data, m: Mask, rd: Reads, i: nat, s: Scan)
    requires Shaped(c) && |rd| == 17 && Number(i) && Scanned(c, data, m, rd, i, s)
    requires i in Readable(c, m) && s.sum + At(c, i).size <= GetSize && !ReadFails(c, rd, i)
    ensures Scanned(c, data, m, rd, i + 1,
                    Scan(s.sum + At(c, i).size, s.exec, s.done + {i}, s.values + MeData.Shown(c, data, rd[i], i)))
  {
    ReadableStep(c, m, i);
    RefusedStep(c, m, rd, i);
    if s.exec == {} { HoldsNext(c, data, m, rd, i, s.done, s.values); }
  }

  lemma ScanSkips(c: Class, data: Data, m: Mask, rd: Reads, i: nat, s: Scan)
    requires Shaped(c) && |rd| == 17 && Number(i) && Scanned(c, data, m, rd, i, s) && i !in m
    ensures Scanned(c, data, m, rd, i + 1, s)
  {
    ReadableStep(c, m, i);
    RefusedStep(c, m, rd, i);
  }

  /** The answer to a scan that was not diverted to a table. */
  ghost predicate Answers(c: Class, data: Data, m: Mask, rd: Reads, stop: nat, rsp: GetRsp)
    requires |c.attrs| == 16 && |rd| == 17 && 1 <= stop <= 17
  {
    var refused := Refused(c, m, rd, stop);
    var taken := Below(Readable(c, m), stop);
    if refused == {} then rsp == Got(MaskOf(taken), Gathered(c, data, rd, taken))
    else if refused * InvMask(c) != {} then rsp == CmdError
    else rsp == AttrFailed(refused, {})
  }

  /** me_attr_read_with_interval: one attribute out of a read of the whole entity. */
  method ReadAttr(c: Class, data: Data, g: MeData.Readings, i: nat) returns (ok: bool, v: Data)
    requires WellFormed(c) && |data| == c.dataSize && MeData.Delivers(c, g) && Exists(c, i)
    ensures ok <==> !MeData.FailedUpTo(c, g, 16)
    ensures ok ==> v == MeData.Shown(c, data, g, i)
  {
    var r, block := MeData.Read(c, data, g);
    ok := r == MeData.Success;
    v := [];
    if ok {
      Fits(c, i);
      v := block[At(c, i).offset..At(c, i).offset + At(c, i).size];
    }
  }

  datatype Next = Continue | Break | Table

  /** The body of the loop over the attributes; `opt` would report unsupported attributes. */
  method ScanOne(c: Class, data: Data, m: Mask, rd: Reads, i: nat, s0: Scan, opt0: Mask)
    returns (next: Next, s: Scan, opt: Mask)
    requires WellFormed(c) && |data| == c.dataSize && ReadsOk(c, rd) && Number(i) && Scanned(c, data, m, rd, i, s0)
    ensures opt == opt0
    ensures next == Continue <==> !Stops(c, m, i)
    ensures next == Continue ==> Scanned(c, data, m, rd, i + 1, s)
    ensures next != Continue ==> s == s0 && (next == Table <==> AsTable(c, i))
  {
    next, s, opt := Continue, s0, opt0;
    var unsupported := OptMask(c);
    if i !in m {
      ScanSkips(c, data, m, rd, i, s);
    } else if !Exists(c, i) {
      ScanRefuses(c, data, m, rd, i, s);
      s := s.(exec := s.exec + {i});
    } else if At(c, i).prop.notSupported {
      opt := unsupported;
    } else if !At(c, i).prop.rd {
      ScanRefuses(c, data, m, rd, i, s);
      s := s.(exec := s.exec + {i});
    } else if AsTable(c, i) {
      next := Table;
    } else if s.sum + At(c, i).size > GetSize {
      next := Break;
    } else {
      var ok, v := ReadAttr(c, data, rd[i], i);
      if ok {
        ScanGathers(c, data, m, rd, i, s);
        s := Scan(s.sum + At(c, i).size, s.exec, s.done + {i}, s.values + v);
      } else {
        ScanRefuses(c, data, m, rd, i, s);
        s := s.(sum := s.sum + At(c, i).size, exec := s.exec + {i});
      }
    }
  }

  /** No attribute below i stops the scan. */
  ghost predicate NoneStops(c: Class, m: Mask, i: nat)
    requires |c.attrs| == 16 && 1 <= i <= 17
  {
    forall k: nat :: 1 <= k < i ==> !Stops(c, m, k)
  }

  lemma OneMore(c: Class, m: Mask, i: nat)
    requires Shaped(c) && Number(i) && NoneStops(c, m, i) && !Stops(c, m, i)
    ensures NoneStops(c, m, i + 1)
  {}

  // ----- The same over the class's fields alone -----

  /** Attribute i is requested, readable and supported. */
  ghost predicate Asked(c: Class, m: Mask, i: nat)
    requires |c.attrs| == 16
  {
    1 <= i <= 16 && i in m && c.attrs[i - 1].prop.rd && !c.attrs[i - 1].prop.notSupported
  }

  /** The bytes of the attributes asked for below number i. */
  ghost function AskedSize(c: Class, m: Mask, i: nat): nat
    requires |c.attrs| == 16 && 1 <= i <= 17
  {
    if i == 1 then 0 else AskedSize(c, m, i - 1) + if Asked(c, m, i - 1) then c.attrs[i - 2].size else 0
  }

  /** Attribute i is asked for and is a table or larger than one message. */
  ghost predicate TableAt(c: Class, m: Mask, i: nat)
    requires |c.attrs| == 16
  {
    Asked(c, m, i) && (c.attrs[i - 1].prop.table || c.attrs[i - 1].size > 25)
  }

  /** Attribute i is asked for and does not fit behind those before it. */
  ghost predicate FullAt(c: Class, m: Mask, i: nat)
    requires |c.attrs| == 16
  {
    Asked(c, m, i) && AskedSize(c, m, i) + c.attrs[i - 1].size > 25
  }

  /** The scan reaches attribute i. */
  ghost predicate Reached(c: Class, m: Mask, i: nat)
    requires |c.attrs| == 16
  {
    1 <= i <= 17 && forall k: nat :: 1 <= k < i ==> !TableAt(c, m, k) && !FullAt(c, m, k)
  }

  /** Every get handler of a supported attribute delivers. */
  ghost predicate AllRead(c: Class, g: MeData.Readings)
    requires |c.attrs| == 16
  {
    forall j: nat :: MeData.Supported(c, j) && c.attrs[j - 1].volatile ==> j in g
  }

  /** Attribute k is requested and cannot be delivered. */
  ghost predicate Fails(c: Class, m: Mask, rd: Reads, k: nat)
    requires |c.attrs| == 16 && |rd| == 17
  {
    1 <= k <= 16 && k in m && (!Asked(c, m, k) || !AllRead(c, rd[k]))
  }

  /** Attribute k is requested and not defined in the class. */
  ghost predicate Undefined(c: Class, m: Mask, k: nat)
    requires |c.attrs| == 16
  {
    && 1 <= k <= 16 && k in m
    && var p := c.attrs[k - 1].prop;
       !p.rd && !p.wr && !p.notSupported && !p.table && !p.noUpload && !p.other
  }

  lemma AskedExactly(c: Class, m: Mask)
    requires Shaped(c)
    ensures forall i: nat :: Asked(c, m, i) <==> i in Readable(c, m)
  {}

  lemma {:induction false} AskedSizeExactly(c: Class, m: Mask, i: nat)
    requires Shaped(c) && 1 <= i <= 17
    ensures AskedSize(c, m, i) == SizeOf(c, m, i)
  {
    if i > 1 {
      AskedSizeExactly(c, m, i - 1);
      SizeStep(c, m, i - 1);
      AskedExactly(c, m);
    }
  }

  lemma StopsExactly(c: Class, m: Mask, i: nat)
    requires Shaped(c) && Number(i)
    ensures Stops(c, m, i) <==> TableAt(c, m, i) || FullAt(c, m, i)
    ensures Stops(c, m, i) ==> (AsTable(c, i) <==> TableAt(c, m, i))
  {
    AskedExactly(c, m);
    AskedSizeExactly(c, m, i);
  }

  lemma ReachedExactly(c: Class, m: Mask, i: nat)
    requires Shaped(c) && 1 <= i <= 17
    ensures NoneStops(c, m, i) <==> Reached(c, m, i)
  {
    forall k: nat | 1 <= k < i ensures Stops(c, m, k) <==> TableAt(c, m, k) || FullAt(c, m, k) {
      StopsExactly(c, m, k);
    }
  }

  lemma RefusedExactly(c: Class, m: Mask, rd: Reads, i: nat)
    requires Shaped(c) && |rd| == 17 && 1 <= i <= 17
    ensures forall k: nat :: k in Refused(c, m, rd, i) <==> k < i && Fails(c, m, rd, k)
  {
    AskedExactly(c, m);
    forall k: nat | 1 <= k < i ensures ReadFails(c, rd, k) <==> !AllRead(c, rd[k]) {
      MeData.HandlersFine(c, rd[k]);
    }
  }

  lemma TakenExactly(c: Class, m: Mask, rd: Reads, stop: nat)
    requires Shaped(c) && |rd| == 17 && 1 <= stop <= 17 && Refused(c, m, rd, stop) == {}
    ensures Increasing(Below(Readable(c, m), stop))
    ensures forall k: nat :: k in MaskOf(Below(Readable(c, m), stop)) <==> 1 <= k < stop && k in m
  {
    BelowExact(Readable(c, m), stop);
    forall k: nat | 1 <= k < stop && k in m ensures k in Readable(c, m) {
      assert k !in Refused(c, m, rd, stop);
    }
  }

  /** What an answer that is no table read says. */
  lemma {:induction false} AnswersExactly(c: Class, data: Data, m: Mask, rd: Reads, stop: nat, rsp: GetRsp)
    requires Shaped(c) && |rd| == 17 && 1 <= stop <= 17 && Answers(c, data, m, rd, stop, rsp)
    ensures rsp.Got? <==> forall k: nat :: k < stop ==> !Fails(c, m, rd, k)
    ensures rsp.CmdError? <==> exists k: nat :: k < stop && Undefined(c, m, k)
    ensures rsp.AttrFailed? ==> rsp.opt == {} && forall k: nat :: k in rsp.exec <==> k < stop && Fails(c, m, rd, k)
    ensures rsp.Got? ==> forall k: nat :: k in rsp.mask <==> 1 <= k < stop && k in m
  {
    var refused := Refused(c, m, rd, stop);
    RefusedExactly(c, m, rd, stop);
    if refused == {} { TakenExactly(c, m, rd, stop); }
    UndefinedExactly(c, m, rd, stop);
    if rsp.Got? {
      forall k: nat | k < stop ensures !Fails(c, m, rd, k) { assert k !in refused; }
    }
  }

  lemma UndefinedExactly(c: Class, m: Mask, rd: Reads, stop: nat)
    requires Shaped(c) && |rd| == 17 && 1 <= stop <= 17
    ensures Refused(c, m, rd, stop) * InvMask(c) != {} <==> exists k: nat :: k < stop && Undefined(c, m, k)
  {
    RefusedExactly(c, m, rd, stop);
    var both := Refused(c, m, rd, stop) * InvMask(c);
    if both != {} {
      var k: nat :| k in both;
      assert Undefined(c, m, k);
    }
    if k: nat :| k < stop && Undefined(c, m, k) {
      assert Fails(c, m, rd, k);
      assert k in both;
    }
  }

  /** The values of an answer, cut by mask and sizes: the stored value of every
      attribute without a get handler, the handler's value of every other one. */
  lemma {:induction false} ValuesExactly(c: Class, data: Data, m: Mask, rd: Reads, stop: nat, rsp: GetRsp, i: nat)
    requires WellFormed(c) && |data| == c.dataSize && ReadsOk(c, rd) && 1 <= stop <= 17
    requires Answers(c, data, m, rd, stop, rsp) && rsp.Got? && i in rsp.mask
    ensures Number(i) && i in Unpack(c, ListOf(rsp.mask), rsp.values)
    ensures !At(c, i).volatile ==> Unpack(c, ListOf(rsp.mask), rsp.values)[i] == Slice(c, data, i)
    ensures At(c, i).volatile ==> i in rd[i] && Unpack(c, ListOf(rsp.mask), rsp.values)[i] == rd[i][i]
  {
    var taken := Below(Readable(c, m), stop);
    BelowExact(Readable(c, m), stop);
    OneAnswer(c, data, rd, taken);
    assert i in taken;
    AnswersExactly(c, data, m, rd, stop, rsp);
    assert !Fails(c, m, rd, i);
    ShownFresh(c, data, rd[i], i);
  }

  lemma ShownFresh(c: Class, data: Data, g: MeData.Readings, i: nat)
    requires Shaped(c) && Number(i) && AllRead(c, g) && At(c, i).prop.rd && !At(c, i).prop.notSupported
    ensures At(c, i).volatile ==> i in g
    ensures MeData.Shown(c, data, g, i) == if At(c, i).volatile then g[i] else Slice(c, data, i)
  {
    MeData.HandlersFine(c, g);
    assert MeData.Supported(c, i);
    assert !MeData.FailedUpTo(c, g, i);
  }

  /** get_action_handle. Attributes from the stopping one on are not looked at,
      so not reported either; the optional-attribute mask is never set. */
  method Get(c: Class, data: Data, m: Mask, rd: Reads) returns (rsp: GetRsp, ghost stop: nat)
    requires WellFormed(c) && |data| == c.dataSize && ReadsOk(c, rd)
    ensures 1 <= stop <= 17 && SizeOf(c, m, stop) <= GetSize
    ensures NoneStops(c, m, stop) && (stop < 17 ==> Stops(c, m, stop))
    ensures if stop < 17 && AsTable(c, stop) then rsp == TableRead(stop) else Answers(c, data, m, rd, stop, rsp)
    ensures Reached(c, m, stop) && (stop < 17 ==> TableAt(c, m, stop) || FullAt(c, m, stop))
    ensures forall i: nat :: rsp == TableRead(i) <==> Reached(c, m, i) && TableAt(c, m, i)
    ensures rsp.Got? <==> !rsp.TableRead? && forall k: nat :: k < stop ==> !Fails(c, m, rd, k)
    ensures rsp.CmdError? <==> !rsp.TableRead? && exists k: nat :: k < stop && Undefined(c, m, k)
    ensures rsp.AttrFailed? ==> rsp.opt == {} && forall k: nat :: k in rsp.exec <==> k < stop && Fails(c, m, rd, k)
    ensures rsp.Got? ==> forall k: nat :: k in rsp.mask <==> 1 <= k < stop && k in m
  {
    var s, opt: Mask, next := Scan(0, {}, {}, []), {}, Continue;
    ScanStarts(c, data, m, rd);
    var i := 1;
    while i <= 16
      invariant 1 <= i <= 17 && opt == {} && Scanned(c, data, m, rd, i, s)
      invariant NoneStops(c, m, i)
    {
      next, s, opt := ScanOne(c, data, m, rd, i, s, opt);
      if next == Table {
        TableExactly(c, m, i);
        return TableRead(i), i;
      }
      if next == Break { break; }
      OneMore(c, m, i);
      i := i + 1;
    }
    stop := i;
    ReplyAnswers(c, data, m, rd, i, s);
    rsp := Reply(c, s, opt);
    NoTable(c, m, i);
    AnswersExactly(c, data, m, rd, i, rsp);
  }

  lemma TableExactly(c: Class, m: Mask, i: nat)
    requires Shaped(c) && Number(i) && NoneStops(c, m, i) && Stops(c, m, i) && AsTable(c, i)
    ensures Reached(c, m, i) && TableAt(c, m, i)
    ensures forall j: nat :: Reached(c, m, j) && TableAt(c, m, j) ==> i == j
  {
    ReachedExactly(c, m, i);
    StopsExactly(c, m, i);
  }

  lemma NoTable(c: Class, m: Mask, i: nat)
    requires Shaped(c) && 1 <= i <= 17 && NoneStops(c, m, i) && (i < 17 ==> Stops(c, m, i) && !AsTable(c, i))
    ensures Reached(c, m, i) && (i < 17 ==> FullAt(c, m, i))
    ensures forall j: nat :: Reached(c, m, j) ==> !TableAt(c, m, j)
  {
    ReachedExactly(c, m, i);
    if i < 17 { StopsExactly(c, m, i); }
  }

  /** The answer made from what the scan has gathered. */
  function Reply(c: Class, s: Scan, opt: Mask): GetRsp
    requires |c.attrs| == 16
  {
    if s.exec != {} || opt != {} then
      (if s.exec * InvMask(c) != {} then CmdError else AttrFailed(s.exec, opt))
    else
      Got(s.done, s.values)
  }

  lemma ReplyAnswers(c: Class, data: Data, m: Mask, rd: Reads, i: nat, s: Scan)
    requires Shaped(c) && |rd| == 17 && 1 <= i <= 17 && Scanned(c, data, m, rd, i, s)
    ensures Answers(c, data, m, rd, i, Reply(c, s, {}))
  {}

  lemma ScanStarts(c: Class, data: Data, m: Mask, rd: Reads)
    requires Shaped(c) && |rd| == 17
    ensures Scanned(c, data, m, rd, 1, Scan(0, {}, {}, []))
  {}

  // ----- Repeated requests -----

  /** Every requested attribute exists, is readable, is no table and fits one message. */
  ghost predicate Plain(c: Class, m: Mask)
    requires |c.attrs| == 16
  {
    forall i :: i in m ==> Asked(c, m, i) && !TableAt(c, m, i)
  }

  ghost predicate Healthy(c: Class, rd: Reads)
    requires |c.attrs| == 16
  {
    ReadsOk(c, rd) && forall k :: 0 <= k < |rd| ==> AllRead(c, rd[k])
  }

  lemma PlainReadable(c: Class, m: Mask, rd: Reads, i: nat)
    requires Shaped(c) && Plain(c, m) && Healthy(c, rd) && 1 <= i <= 17
    ensures Readable(c, m) == m && Refused(c, m, rd, i) == {}
  {}

  lemma {:induction false} SizesMonotone(c: Class, m: Mask, i: nat, j: nat)
    requires Shaped(c) && 1 <= i <= j <= 17
    ensures SizeOf(c, m, i) <= SizeOf(c, m, j)
  {
    if i < j {
      SizesMonotone(c, m, i, j - 1);
      ReadableStep(c, m, j - 1);
    }
  }

  /** The answer to a plain request is the longest prefix, in attribute order,
      that fits the message; it is never empty unless the request is. */
  lemma {:induction false} LongestPrefix(c: Class, data: Data, m: Mask, rd: Reads, stop: nat, rsp: GetRsp)
    requires Shaped(c) && Plain(c, m) && Healthy(c, rd) && 1 <= stop <= 17
    requires SizeOf(c, m, stop) <= GetSize && (stop < 17 ==> Stops(c, m, stop))
    requires Answers(c, data, m, rd, stop, rsp)
    ensures rsp == Got(MaskOf(Below(m, stop)), Gathered(c, data, rd, Below(m, stop)))
    ensures TotalSize(c, Below(m, stop)) <= GetSize
    ensures forall k: nat :: 1 <= k <= 17 && TotalSize(c, Below(m, k)) <= GetSize ==> MaskOf(Below(m, k)) <= rsp.mask
    ensures rsp.mask <= m && (m != {} ==> rsp.mask != {})
  {
    PlainReadable(c, m, rd, stop);
    BelowExact(m, stop);
    forall k: nat | 1 <= k <= 17 && TotalSize(c, Below(m, k)) <= GetSize ensures MaskOf(Below(m, k)) <= rsp.mask {
      BelowExact(m, k);
      if k > stop {
        ReadableStep(c, m, stop);
        SizesMonotone(c, m, stop + 1, k);
        assert false;
      }
    }
    if m != {} {
      var x :| x in m;
      assert Number(x);
      if rsp.mask == {} {
        NothingBelow(m, stop);
        assert false;
      }
    }
  }

  lemma NothingBelow(m: Mask, stop: nat)
    requires 1 <= stop <= 17 && MaskOf(Below(m, stop)) == {}
    ensures Below(m, stop) == []
    ensures forall k :: 1 <= k < stop ==> k !in m
  {
    BelowExact(m, stop);
    var l := Below(m, stop);
    assert forall k :: k in l ==> k in MaskOf(l);
    SameMembers(l, []);
    forall k | 1 <= k < stop ensures k !in m {
      assert k !in MaskOf(Below(m, stop));
    }
  }

  lemma ShownSize(c: Class, data: Data, g: MeData.Readings, i: nat)
    requires WellFormed(c) && |data| == c.dataSize && Number(i) && MeData.Delivers(c, g)
    ensures |MeData.Shown(c, data, g, i)| == At(c, i).size
  {
    SliceSize(c, data, i);
  }

  lemma CutTail(a: Data, b: Data)
    ensures (a + b)[..|a + b| - |b|] == a && (a + b)[|a + b| - |b|..] == b
  {}

  lemma UnpackStep(c: Class, l: seq<nat>, front: seq<nat>, x: nat, a: Data, b: Data)
    requires Shaped(c) && Number(x) && l == front + [x] && |b| == At(c, x).size
    requires forall k :: 0 <= k < |l| ==> Number(l[k])
    ensures forall k :: 0 <= k < |front| ==> Number(front[k])
    ensures Unpack(c, l, a + b) == Unpack(c, front, a)[x := b]
  {
    assert forall k :: 0 <= k < |front| ==> front[k] == l[k];
    assert l[..|l| - 1] == front && l[|l| - 1] == x;
    CutTail(a, b);
  }

  /** Cutting the answer by mask and sizes recovers what each read showed. */
  lemma {:induction false} UnpackGathered(c: Class, data: Data, rd: Reads, l: seq<nat>, i: nat)
    requires WellFormed(c) && |data| == c.dataSize && ReadsOk(c, rd) && Number(i)
    requires Increasing(l) && forall k :: 0 <= k < |l| ==> Number(l[k])
    ensures i in l <==> i in Unpack(c, l, Gathered(c, data, rd, l))
    ensures i in l ==> Unpack(c, l, Gathered(c, data, rd, l))[i] == MeData.Shown(c, data, rd[i], i)
  {
    if l != [] {
      var front, x := l[..|l| - 1], l[|l| - 1];
      assert l == front + [x];
      UnpackGathered(c, data, rd, front, i);
      ShownSize(c, data, rd[x], x);
      UnpackStep(c, l, front, x, Gathered(c, data, rd, front), MeData.Shown(c, data, rd[x], x));
    }
  }

  lemma {:induction false} UnpackKeys(c: Class, l: seq<nat>, bytes: Data, i: nat)
    requires Shaped(c) && forall k :: 0 <= k < |l| ==> Number(l[k])
    ensures i in Unpack(c, l, bytes) ==> Number(i)
  {
    if l != [] && At(c, l[|l| - 1]).size <= |bytes| {
      UnpackKeys(c, l[..|l| - 1], bytes[..|bytes| - At(c, l[|l| - 1]).size], i);
    }
  }

  /** Attribute i was delivered as one of the reads of the first n rounds showed it. */
  ghost predicate Delivered(c: Class, data: Data, rounds: seq<Reads>, n: nat, i: nat, v: Data)
    requires |c.attrs| == 16 && n <= |rounds|
  {
    Number(i) && exists r :: 0 <= r < n && |rounds[r]| == 17 && v == MeData.Shown(c, data, rounds[r][i], i)
  }

  lemma OneAnswer(c: Class, data: Data, rd: Reads, l: seq<nat>)
    requires WellFormed(c) && |data| == c.dataSize && ReadsOk(c, rd)
    requires Increasing(l) && forall k :: 0 <= k < |l| ==> Number(l[k])
    ensures var u := Unpack(c, ListOf(MaskOf(l)), Gathered(c, data, rd, l));
            u.Keys == MaskOf(l) && forall i :: i in u ==> Number(i) && u[i] == MeData.Shown(c, data, rd[i], i)
  {
    ListOfMask(l);
    var u := Unpack(c, l, Gathered(c, data, rd, l));
    forall i: nat
      ensures i in u <==> i in l
      ensures i in u ==> Number(i) && u[i] == MeData.Shown(c, data, rd[i], i)
    {
      UnpackKeys(c, l, Gathered(c, data, rd, l), i);
      if Number(i) { UnpackGathered(c, data, rd, l, i); }
    }
  }

  /** One round of a plain request. */
  method Ask(c: Class, data: Data, m: Mask, rd: Reads) returns (answered: Mask, piece: map<nat, Data>)
    requires WellFormed(c) && |data| == c.dataSize && Plain(c, m) && Healthy(c, rd) && m != {}
    ensures answered <= m && answered != {} && piece.Keys == answered
    ensures forall i :: i in piece ==> Number(i) && piece[i] == MeData.Shown(c, data, rd[i], i)
  {
    var rsp; ghost var stop;
    rsp, stop := Get(c, data, m, rd);
    PlainReadable(c, m, rd, stop);
    LongestPrefix(c, data, m, rd, stop, rsp);
    BelowExact(m, stop);
    OneAnswer(c, data, rd, Below(m, stop));
    answered, piece := rsp.mask, Unpack(c, ListOf(rsp.mask), rsp.values);
  }

  ghost predicate AllHealthy(c: Class, rounds: seq<Reads>)
    requires |c.attrs| == 16
  {
    forall r :: 0 <= r < |rounds| ==> Healthy(c, rounds[r])
  }

  /** After some rounds: m is still missing, the rest has been delivered. */
  ghost predicate Underway(
    c: Class, data: Data, rounds: seq<Reads>, asked: nat, request: Mask, m: Mask, got: map<nat, Data>)
    requires |c.attrs| == 16
  {
    && m <= request && got.Keys == request - m && asked + |m| <= |request| == |rounds|
    && forall i :: i in got ==> Delivered(c, data, rounds, asked, i, got[i])
  }

  lemma OneRound(
    c: Class, data: Data, rounds: seq<Reads>, asked: nat, request: Mask, m: Mask, got: map<nat, Data>,
    answered: Mask, piece: map<nat, Data>)
    requires Shaped(c) && Underway(c, data, rounds, asked, request, m, got)
    requires answered <= m && answered != {} && piece.Keys == answered && asked < |rounds| && |rounds[asked]| == 17
    requires forall i :: i in piece ==> Number(i) && piece[i] == MeData.Shown(c, data, rounds[asked][i], i)
    ensures Underway(c, data, rounds, asked + 1, request, m - answered, got + piece) && |m - answered| < |m|
  {
    Merge(c, data, rounds, asked, got, piece);
    Smaller(m, answered);
    KeysMerge(request, m, answered, got, piece);
  }

  lemma KeysMerge(request: Mask, m: Mask, answered: Mask, got: map<nat, Data>, piece: map<nat, Data>)
    requires answered <= m <= request && got.Keys == request - m && piece.Keys == answered
    ensures (got + piece).Keys == request - (m - answered) && m - answered <= request
  {
    assert (got + piece).Keys == got.Keys + piece.Keys;
  }

  /** Asking again for what is missing: every round makes progress, the rounds
      end, and together the answers give exactly the requested attributes: the
      stored value of each one without a get handler, what the handler delivered of
      every other one. `rounds` are the reads of
      as many rounds as there are attributes to ask for. */
  method GetAll(c: Class, data: Data, request: Mask, rounds: seq<Reads>) returns (got: map<nat, Data>, asked: nat)
    requires WellFormed(c) && |data| == c.dataSize && Plain(c, request) && |rounds| == |request|
    requires AllHealthy(c, rounds)
    ensures asked <= |request| && got.Keys == request
    ensures forall i :: i in request ==> Delivered(c, data, rounds, asked, i, got[i])
    ensures forall i :: i in request && !At(c, i).volatile ==> got[i] == Slice(c, data, i)
    ensures forall i :: i in request && At(c, i).volatile ==> FromHandler(rounds, asked, i, got[i])
  {
    got, asked := map[], 0;
    var m := request;
    while m != {}
      invariant Underway(c, data, rounds, asked, request, m, got)
      decreases |m|
    {
      assert |m| > 0;
      assert Healthy(c, rounds[asked]);
      PlainSubset(c, request, m);
      var answered, piece := Ask(c, data, m, rounds[asked]);
      OneRound(c, data, rounds, asked, request, m, got, answered, piece);
      got, m, asked := got + piece, m - answered, asked + 1;
    }
    forall i | i in request && !At(c, i).volatile ensures got[i] == Slice(c, data, i) {
      DeliveredStored(c, data, rounds, asked, i, got[i]);
    }
    forall i | i in request && At(c, i).volatile ensures FromHandler(rounds, asked, i, got[i]) {
      DeliveredByHandler(c, data, rounds, asked, i, got[i]);
    }
  }

  /** The get handler of attribute i delivered v in one of the first n rounds, read for i. */
  ghost predicate FromHandler(rounds: seq<Reads>, n: nat, i: nat, v: Data)
    requires n <= |rounds|
  {
    exists r :: 0 <= r < n && i < |rounds[r]| && i in rounds[r][i] && v == rounds[r][i][i]
  }

  lemma DeliveredByHandler(c: Class, data: Data, rounds: seq<Reads>, n: nat, i: nat, v: Data)
    requires Shaped(c) && n <= |rounds| && Delivered(c, data, rounds, n, i, v) && AllHealthy(c, rounds)
    requires At(c, i).volatile && At(c, i).prop.rd && !At(c, i).prop.notSupported
    ensures FromHandler(rounds, n, i, v)
  {
    var r :| 0 <= r < n && |rounds[r]| == 17 && v == MeData.Shown(c, data, rounds[r][i], i);
    assert Healthy(c, rounds[r]);
    ShownFresh(c, data, rounds[r][i], i);
  }

  lemma PlainSubset(c: Class, request: Mask, m: Mask)
    requires Shaped(c) && Plain(c, request) && m <= request
    ensures Plain(c, m)
  {}

  lemma DeliveredStored(c: Class, data: Data, rounds: seq<Reads>, n: nat, i: nat, v: Data)
    requires Shaped(c) && n <= |rounds| && Delivered(c, data, rounds, n, i, v) && !At(c, i).volatile
    ensures v == Slice(c, data, i)
  {}

  lemma Smaller(m: Mask, part: Mask)
    requires part <= m && part != {}
    ensures |m - part| < |m|
  {
    var x :| x in part;
    assert m - part <= m - {x};
    SubsetSize(m - part, m - {x});
  }

  lemma {:induction false} SubsetSize(a: Mask, b: Mask)
    requires a <= b
    ensures |a| <= |b|
  {
    if a != {} {
      var x :| x in a;
      SubsetSize(a - {x}, b - {x});
    }
  }

  lemma Merge(c: Class, data: Data, rounds: seq<Reads>, n: nat, got: map<nat, Data>, piece: map<nat, Data>)
    requires Shaped(c) && n < |rounds| && |rounds[n]| == 17
    requires forall i :: i in got ==> Delivered(c, data, rounds, n, i, got[i])
    requires forall i :: i in piece ==> Number(i) && piece[i] == MeData.Shown(c, data, rounds[n][i], i)
    ensures forall i :: i in got + piece ==> Delivered(c, data, rounds, n + 1, i, (got + piece)[i])
  {
    forall i | i in got + piece ensures Delivered(c, data, rounds, n + 1, i, (got + piece)[i]) {
      if i !in piece { assert Delivered(c, data, rounds, n, i, got[i]); }
    }
  }
}
