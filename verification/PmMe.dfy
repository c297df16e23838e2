/**
  One internally managed PM managed entity (omci_pm.c): its three data buffers,
  its thresholds and its record of alerts, and what they hold over whole runs of
  polls, reads and interval ends.
 */
module PmMe {
  import opened Pm

  /** Attribute numbers of the counters start here; 1 and 2 are the header. */
  const FIRST_COUNTER: nat := 3
  const THR_NUM: nat := 15

  /** A row of the threshold crossing table. */
  datatype Tca = Tca(thrNum: nat, attr: nat, thrAttr: nat)

  /** Counter sizes in bytes (0 where the class has no such attribute) and the alert table. */
  datatype Class = Class(sizes: seq<nat>, tca: seq<Tca>)

  /** The walk over the table stops at the first row with a zero field. */
  function Rows(t: seq<Tca>): (r: seq<Tca>)
    ensures forall e :: e in r ==> e in t && e.thrNum != 0 && e.attr != 0 && e.thrAttr != 0
  {
    if t == [] || t[0].thrNum == 0 || t[0].attr == 0 || t[0].thrAttr == 0 then []
    else [t[0]] + Rows(t[1..])
  }

  ghost predicate ClassOk(c: Class) {
    && (forall i :: 0 <= i < |c.sizes| ==> c.sizes[i] == 0 || CounterSize(c.sizes[i]))
    && (forall e :: e in c.tca ==> e.thrNum < 224 && e.thrAttr <= THR_NUM)
    && (forall e :: e in Rows(c.tca) ==> FIRST_COUNTER <= e.attr < FIRST_COUNTER + |c.sizes|)
  }

  // ----- The ME as a value -----

  datatype Buf = Buf(header: seq<nat>, counters: seq<nat>)

  datatype State = State(curr: Buf, hist: Buf, abs: seq<nat>, alerts: set<nat>)

  /** Every stored counter fits its attribute. */
  ghost predicate Fits(c: Class, v: seq<nat>) {
    |v| == |c.sizes| && forall i :: 0 <= i < |v| && c.sizes[i] != 0 ==> v[i] < Limit(c.sizes[i])
  }

  ghost predicate StateOk(c: Class, s: State) {
    Fits(c, s.curr.counters) && Fits(c, s.hist.counters) && Fits(c, s.abs)
  }

  function UpdateOne(c: Class, curr: seq<nat>, oldAbs: seq<nat>, newAbs: seq<nat>, i: nat): nat
    requires |c.sizes| == |curr| == |oldAbs| == |newAbs| && i < |curr|
  {
    if c.sizes[i] == 0 then curr[i] else Accumulate(curr[i], oldAbs[i], newAbs[i], c.sizes[i])
  }

  /** counters_update */
  function Update(c: Class, curr: seq<nat>, oldAbs: seq<nat>, newAbs: seq<nat>): (r: seq<nat>)
    requires |c.sizes| == |curr| == |oldAbs| == |newAbs|
    ensures |r| == |curr|
  {
    seq(|curr|, i requires 0 <= i < |curr| => UpdateOne(c, curr, oldAbs, newAbs, i))
  }

  predicate RowCrossed(e: Tca, counters: seq<nat>, thr: seq<nat>)
    requires FIRST_COUNTER <= e.attr < FIRST_COUNTER + |counters| && 1 <= e.thrAttr <= |thr|
  {
    thr[e.thrAttr - 1] != 0 && counters[e.attr - FIRST_COUNTER] > thr[e.thrAttr - 1]
  }

  /** The alerts whose nonzero threshold the counters exceed. */
  ghost function Crossed(c: Class, counters: seq<nat>, thr: seq<nat>): set<nat>
    requires ClassOk(c) && |counters| == |c.sizes| && |thr| == THR_NUM
  {
    set e | e in Rows(c.tca) && RowCrossed(e, counters, thr) :: e.thrNum
  }

  /** pm_me_counters_get: a poll, or a read of the current or history interval. */
  ghost function Poll(c: Class, thr: seq<nat>, s: State, newAbs: seq<nat>): State
    requires ClassOk(c) && StateOk(c, s) && Fits(c, newAbs) && |thr| == THR_NUM
  {
    var counters := Update(c, s.curr.counters, s.abs, newAbs);
    s.(curr := s.curr.(counters := counters), abs := newAbs, alerts := s.alerts + Crossed(c, counters, thr))
  }

  /** The alerts a poll sends. */
  ghost function Report(c: Class, thr: seq<nat>, s: State, newAbs: seq<nat>): set<nat>
    requires ClassOk(c) && StateOk(c, s) && Fits(c, newAbs) && |thr| == THR_NUM
  {
    Crossed(c, Update(c, s.curr.counters, s.abs, newAbs), thr) - s.alerts
  }

  function Zeros(n: nat): seq<nat> { seq(n, _ => 0) }

  /** interval_end_walker: a last poll, then the swap and the clearing. */
  ghost function End(c: Class, thr: seq<nat>, s: State, newAbs: seq<nat>): State
    requires ClassOk(c) && StateOk(c, s) && Fits(c, newAbs) && |thr| == THR_NUM
  {
    var p := Poll(c, thr, s, newAbs);
    State(Buf(p.curr.header, Zeros(|c.sizes|)), p.curr, p.abs, {})
  }

  // ----- The ME as the daemon updates it -----

  class Buffer {
    var header: seq<nat>
    var counters: seq<nat>

    constructor (n: nat)
      ensures header == [0, 0, 0] && counters == Zeros(n)
    {
      header, counters := [0, 0, 0], Zeros(n);
    }
  }

  class ManagedEntity {
    const cls: Class
    var curr: Buffer
    var hist: Buffer
    var abs: Buffer
    var thr: seq<nat>
    var tca: Bitmap

    ghost predicate Valid()
      reads this, curr, hist, abs
    {
      && curr != hist && curr != abs && hist != abs
      && ClassOk(cls) && |thr| == THR_NUM
      && |curr.header| == |hist.header| == 3
      && StateOk(cls, View())
    }

    ghost function View(): State
      reads this, curr, hist, abs
    {
      State(Buf(curr.header, curr.counters), Buf(hist.header, hist.counters), abs.counters, Alarms(tca))
    }

    /** pm_me_context_alloc: the buffers are cleared, the alert record is not. */
    constructor (cls: Class, thr: seq<nat>, garbage: Bitmap)
      requires ClassOk(cls) && |thr| == THR_NUM
      ensures Valid() && fresh(curr) && fresh(hist) && fresh(abs) && this.cls == cls && this.thr == thr
      ensures View() == State(Buf([0, 0, 0], Zeros(|cls.sizes|)), Buf([0, 0, 0], Zeros(|cls.sizes|)),
                              Zeros(|cls.sizes|), Alarms(garbage))
    {
      this.cls := cls;
      this.thr := thr;
      curr := new Buffer(|cls.sizes|);
      hist := new Buffer(|cls.sizes|);
      abs := new Buffer(|cls.sizes|);
      tca := garbage;
    }

    /** counters_update, one counter after another. */
    method CountersUpdate(oldAbs: seq<nat>)
      requires Valid() && Fits(cls, oldAbs)
      modifies curr`counters
      ensures curr.counters == Update(cls, old(curr.counters), oldAbs, abs.counters)
    {
      ghost var before := curr.counters;
      for i := 0 to |cls.sizes|
        invariant |curr.counters| == |before|
        invariant forall j :: 0 <= j < i ==> curr.counters[j] == UpdateOne(cls, before, oldAbs, abs.counters, j)
        invariant forall j :: i <= j < |before| ==> curr.counters[j] == before[j]
      {
        if cls.sizes[i] != 0 {
          var diff := AttrSub(abs.counters[i], oldAbs[i], cls.sizes[i]);
          var sum := AttrAdd(curr.counters[i], diff, cls.sizes[i]);
          curr.counters := curr.counters[i := sum];
        }
      }
    }

    /** me_thr_fill */
    method ThrFill() returns (b: Bitmap)
      requires ClassOk(cls) && |thr| == THR_NUM && |curr.counters| == |cls.sizes|
      ensures Alarms(b) == Crossed(cls, curr.counters, thr)
    {
      b := NO_ALARMS;
      NoAlarms();
      var rows := Rows(cls.tca);
      for i := 0 to |rows|
        invariant Alarms(b) == set e | e in rows[..i] && RowCrossed(e, curr.counters, thr) :: e.thrNum
      {
        assert rows[i] in rows;
        assert rows[..i + 1] == rows[..i] + [rows[i]];
        if thr[rows[i].thrAttr - 1] != 0 && curr.counters[rows[i].attr - FIRST_COUNTER] > thr[rows[i].thrAttr - 1] {
          AlarmSetAdds(b, rows[i].thrNum);
          b := AlarmSet(b, rows[i].thrNum);
        }
      }
      assert rows[..|rows|] == rows;
    }

    /** me_thr_check: returns the bitmap handed to tca_send, and whether it is sent. */
    method ThrCheck() returns (send: bool, report: Bitmap)
      requires ClassOk(cls) && |thr| == THR_NUM && |curr.counters| == |cls.sizes|
      modifies this`tca
      ensures Alarms(tca) == old(Alarms(tca)) + Crossed(cls, curr.counters, thr)
      ensures Alarms(report) == Crossed(cls, curr.counters, thr) - old(Alarms(tca))
      ensures send <==> Alarms(report) != {}
    {
      var crossed := ThrFill();
      report := crossed;
      send := false;
      ghost var before := tca;
      for i := 0 to BITMAP_SIZE
        invariant forall j :: 0 <= j < i ==> ByteDone(crossed[j], before[j], report[j], tca[j])
        invariant forall j :: i <= j < BITMAP_SIZE ==> report[j] == crossed[j] && tca[j] == before[j]
        invariant send <==> exists j :: 0 <= j < i && report[j] != 0
      {
        var fresh', after := CheckByte(crossed[i], tca[i]);
        report := report[i := fresh'];
        if fresh' != 0 { send := true; }
        tca := tca[i := after];
      }
      NewAlarms(crossed, before, report, tca);
      NonzeroIsAlarm(report);
    }

    /** pm_me_counters_get; newAbs is what the hardware oracle writes. */
    method CountersGet(newAbs: seq<nat>) returns (send: bool, report: Bitmap)
      requires Valid() && Fits(cls, newAbs)
      modifies this`tca, curr`counters, abs`counters
      ensures Valid() && View() == Poll(cls, thr, old(View()), newAbs)
      ensures Alarms(report) == Report(cls, thr, old(View()), newAbs)
      ensures send <==> Alarms(report) != {}
    {
      var oldAbs := abs.counters;
      UpdateFits(cls, curr.counters, oldAbs, newAbs);
      abs.counters := newAbs;
      CountersUpdate(oldAbs);
      send, report := ThrCheck();
    }

    /** interval_end_walker */
    method IntervalEnd(newAbs: seq<nat>) returns (send: bool, report: Bitmap)
      requires Valid() && Fits(cls, newAbs)
      modifies this`curr, this`hist, this`tca, curr, hist, abs`counters
      ensures Valid() && View() == End(cls, thr, old(View()), newAbs)
      ensures Alarms(report) == Report(cls, thr, old(View()), newAbs)
      ensures curr == old(hist) && hist == old(curr)
      ensures send <==> Alarms(report) != {}
    {
      send, report := CountersGet(newAbs);
      var tmp := hist;
      hist := curr;
      curr := tmp;
      tmp.counters := Zeros(|tmp.counters|);
      tmp.header := hist.header[..3];
      tca := NO_ALARMS;
      NoAlarms();
    }
  }

  lemma NoAlarms()
    ensures Alarms(NO_ALARMS) == {}
  {
    forall n: nat | n < 224 ensures !Alarm(NO_ALARMS, n) {
      assert NO_ALARMS[n / 8] == 0;
    }
  }

  ghost function Bits(b: bv8): set<nat> { set k: nat | k < 8 && BitSet(b, k) }

  /** What the loop of me_thr_check does to one byte: new alerts are reported and recorded. */
  ghost predicate ByteDone(crossed: bv8, before: bv8, report: bv8, after: bv8) {
    Bits(report) == Bits(crossed) - Bits(before) && Bits(after) == Bits(before) + Bits(crossed)
  }

  lemma BitDone(crossed: bv8, recorded: bv8, report: bv8, after: bv8, k: nat)
    requires report == (crossed ^ recorded) & crossed && after == recorded | report && k < 8
    ensures k in Bits(report) <==> k in Bits(crossed) && k !in Bits(recorded)
    ensures k in Bits(after) <==> k in Bits(crossed) || k in Bits(recorded)
  {
    MaskBit(crossed, recorded, report, after, k);
  }

  lemma FromMembers(c: set<nat>, b: set<nat>, r: set<nat>, a: set<nat>)
    requires forall k :: k in r <==> k in c && k !in b
    requires forall k :: k in a <==> k in c || k in b
    ensures r == c - b && a == b + c
  {}

  lemma BitsDone(crossed: bv8, recorded: bv8, report: bv8, after: bv8)
    requires report == (crossed ^ recorded) & crossed && after == recorded | report
    ensures ByteDone(crossed, recorded, report, after)
  {
    forall k: nat
      ensures k in Bits(report) <==> k in Bits(crossed) && k !in Bits(recorded)
      ensures k in Bits(after) <==> k in Bits(crossed) || k in Bits(recorded)
    {
      if k < 8 { BitDone(crossed, recorded, report, after, k); }
    }
    FromMembers(Bits(crossed), Bits(recorded), Bits(report), Bits(after));
  }

  /** The body of that loop. */
  method CheckByte(crossed: bv8, recorded: bv8) returns (report: bv8, after: bv8)
    ensures ByteDone(crossed, recorded, report, after)
  {
    report := (crossed ^ recorded) & crossed;
    after := recorded | report;
    BitsDone(crossed, recorded, report, after);
  }

  lemma AlarmIsBit(b: Bitmap, n: nat)
    requires n < 224
    ensures n in Alarms(b) <==> n % 8 in Bits(b[n / 8])
  {}

  lemma NewAlarms(crossed: Bitmap, before: Bitmap, report: Bitmap, after: Bitmap)
    requires forall j :: 0 <= j < BITMAP_SIZE ==> ByteDone(crossed[j], before[j], report[j], after[j])
    ensures Alarms(report) == Alarms(crossed) - Alarms(before)
    ensures Alarms(after) == Alarms(before) + Alarms(crossed)
  {
    forall n: nat | n < 224
      ensures n in Alarms(report) <==> n in Alarms(crossed) && n !in Alarms(before)
      ensures n in Alarms(after) <==> n in Alarms(before) || n in Alarms(crossed)
    {
      AlarmIsBit(crossed, n);
      AlarmIsBit(before, n);
      AlarmIsBit(report, n);
      AlarmIsBit(after, n);
      assert ByteDone(crossed[n / 8], before[n / 8], report[n / 8], after[n / 8]);
    }
  }

  lemma SomeBit(b: bv8)
    requires b != 0
    ensures exists k: nat :: k < 8 && BitSet(b, k)
  {
    assert BitSet(b, 0) || BitSet(b, 1) || BitSet(b, 2) || BitSet(b, 3)
        || BitSet(b, 4) || BitSet(b, 5) || BitSet(b, 6) || BitSet(b, 7);
  }

  lemma NonzeroIsAlarm(b: Bitmap)
    ensures Alarms(b) != {} <==> exists j :: 0 <= j < BITMAP_SIZE && b[j] != 0
  {
    if j :| 0 <= j < BITMAP_SIZE && b[j] != 0 {
      SomeBit(b[j]);
      var k: nat :| k < 8 && BitSet(b[j], k);
      assert (8 * j + k) / 8 == j && (8 * j + k) % 8 == k;
      assert Alarm(b, 8 * j + k);
      assert 8 * j + k in Alarms(b);
    }
    if n :| n in Alarms(b) { ZeroHasNoBit(b[n / 8], n % 8); }
  }

  lemma ZeroHasNoBit(b: bv8, k: nat)
    requires k < 8 && BitSet(b, k)
    ensures b != 0
  {}

  // ----- Counters -----

  lemma UpdateFits(c: Class, curr: seq<nat>, oldAbs: seq<nat>, newAbs: seq<nat>)
    requires ClassOk(c) && Fits(c, curr) && Fits(c, oldAbs) && Fits(c, newAbs)
    ensures Fits(c, Update(c, curr, oldAbs, newAbs))
    ensures forall i :: 0 <= i < |curr| ==> curr[i] <= Update(c, curr, oldAbs, newAbs)[i]
  {
    forall i | 0 <= i < |curr| && c.sizes[i] != 0
      ensures curr[i] <= UpdateOne(c, curr, oldAbs, newAbs, i) < Limit(c.sizes[i])
    {
      AttrSubIsModular(newAbs[i], oldAbs[i], c.sizes[i]);
      AttrAddSaturates(curr[i], AttrSub(newAbs[i], oldAbs[i], c.sizes[i]), c.sizes[i]);
    }
  }

  // ----- Runs -----

  /** One observation: the true, unbounded hardware counts, and whether the interval ends here. */
  datatype Obs = Obs(end: bool, truth: seq<nat>)

  /** What the hardware registers show: the counts modulo their ranges. */
  ghost function Shown(c: Class, truth: seq<nat>): (r: seq<nat>)
    requires |truth| == |c.sizes|
    ensures Fits(c, r)
  {
    seq(|truth|, i requires 0 <= i < |truth| => truth[i] % Limit(c.sizes[i]))
  }

  ghost predicate Initial(c: Class, s: State) {
    s.curr.counters == Zeros(|c.sizes|) && s.hist.counters == Zeros(|c.sizes|) && s.abs == Zeros(|c.sizes|)
  }

  ghost predicate StepAt(c: Class, thr: seq<nat>, run: seq<State>, obs: seq<Obs>, i: nat)
    requires ClassOk(c) && |thr| == THR_NUM && |run| == |obs| + 1 && i < |obs|
  {
    && StateOk(c, run[i]) && |obs[i].truth| == |c.sizes|
    && run[i + 1] == if obs[i].end then End(c, thr, run[i], Shown(c, obs[i].truth))
                     else Poll(c, thr, run[i], Shown(c, obs[i].truth))
  }

  ghost predicate Run(c: Class, thr: seq<nat>, run: seq<State>, obs: seq<Obs>) {
    && ClassOk(c) && |thr| == THR_NUM && |run| == |obs| + 1 && Initial(c, run[0])
    && forall i :: 0 <= i < |obs| ==> StepAt(c, thr, run, obs, i)
  }

  /** The true count at observation n; counting starts from 0. */
  ghost function Truth(obs: seq<Obs>, n: nat, k: nat): nat
    requires n <= |obs| && forall i :: 0 <= i < |obs| ==> k < |obs[i].truth|
  {
    if n == 0 then 0 else obs[n - 1].truth[k]
  }

  /** The true count at the last interval end. */
  ghost function Base(obs: seq<Obs>, n: nat, k: nat): nat
    requires n <= |obs| && forall i :: 0 <= i < |obs| ==> k < |obs[i].truth|
  {
    if n == 0 then 0 else if obs[n - 1].end then obs[n - 1].truth[k] else Base(obs, n - 1, k)
  }

  /** The true count at the interval end before the last. */
  ghost function PreviousBase(obs: seq<Obs>, n: nat, k: nat): nat
    requires n <= |obs| && forall i :: 0 <= i < |obs| ==> k < |obs[i].truth|
  {
    if n == 0 then 0 else if obs[n - 1].end then Base(obs, n - 1, k) else PreviousBase(obs, n - 1, k)
  }

  /** Counter k rises by less than its range between observations. */
  ghost predicate SlowRise(c: Class, obs: seq<Obs>, k: nat)
    requires k < |c.sizes| && forall i :: 0 <= i < |obs| ==> |obs[i].truth| == |c.sizes|
  {
    forall n :: 0 <= n < |obs| ==> Truth(obs, n, k) <= Truth(obs, n + 1, k) < Truth(obs, n, k) + Limit(c.sizes[k])
  }

  lemma StepCounter(c: Class, s: State, newAbs: seq<nat>, before: nat, after: nat, base: nat, k: nat)
    requires ClassOk(c) && StateOk(c, s) && Fits(c, newAbs) && k < |c.sizes| && CounterSize(c.sizes[k])
    requires base <= before <= after < before + Limit(c.sizes[k])
    requires s.abs[k] == before % Limit(c.sizes[k]) && newAbs[k] == after % Limit(c.sizes[k])
    requires s.curr.counters[k] == Sat(before - base, c.sizes[k])
    ensures Update(c, s.curr.counters, s.abs, newAbs)[k] == Sat(after - base, c.sizes[k])
  {
    RiseRecovered(before, after, c.sizes[k]);
    AttrAddSaturates(s.curr.counters[k], after - before, c.sizes[k]);
  }

  /** Counter k shows the true count, given the counts at the last two interval ends. */
  ghost predicate ExactAt(c: Class, s: State, k: nat, truth: nat, base: nat, previous: nat) {
    && k < |c.sizes| == |s.abs| == |s.curr.counters| == |s.hist.counters| && CounterSize(c.sizes[k])
    && previous <= base <= truth && s.abs[k] == truth % Limit(c.sizes[k])
    && s.curr.counters[k] == Sat(truth - base, c.sizes[k])
    && s.hist.counters[k] == Sat(base - previous, c.sizes[k])
  }

  lemma PollExact(
    c: Class, thr: seq<nat>, s: State, newAbs: seq<nat>, k: nat, truth: nat, base: nat, previous: nat, now: nat)
    requires ClassOk(c) && StateOk(c, s) && Fits(c, newAbs) && |thr| == THR_NUM
    requires ExactAt(c, s, k, truth, base, previous)
    requires truth <= now < truth + Limit(c.sizes[k]) && newAbs[k] == now % Limit(c.sizes[k])
    ensures StateOk(c, Poll(c, thr, s, newAbs)) && ExactAt(c, Poll(c, thr, s, newAbs), k, now, base, previous)
  {
    UpdateFits(c, s.curr.counters, s.abs, newAbs);
    StepCounter(c, s, newAbs, truth, now, base, k);
  }

  lemma EndExact(
    c: Class, thr: seq<nat>, s: State, newAbs: seq<nat>, k: nat, truth: nat, base: nat, previous: nat, now: nat)
    requires ClassOk(c) && StateOk(c, s) && Fits(c, newAbs) && |thr| == THR_NUM
    requires ExactAt(c, s, k, truth, base, previous)
    requires truth <= now < truth + Limit(c.sizes[k]) && newAbs[k] == now % Limit(c.sizes[k])
    ensures StateOk(c, End(c, thr, s, newAbs)) && ExactAt(c, End(c, thr, s, newAbs), k, now, now, base)
  {
    PollExact(c, thr, s, newAbs, k, truth, base, previous, now);
    EndOfPoll(c, thr, s, newAbs);
  }

  lemma EndOfPoll(c: Class, thr: seq<nat>, s: State, newAbs: seq<nat>)
    requires ClassOk(c) && StateOk(c, s) && Fits(c, newAbs) && |thr| == THR_NUM
    ensures var e, p := End(c, thr, s, newAbs), Poll(c, thr, s, newAbs);
            e.hist == p.curr && e.abs == p.abs && e.curr.counters == Zeros(|c.sizes|)
  {}

  /** In every run the current counter is the saturated true rise since the last
      interval end, and the history counter the saturated rise over the interval
      before it: nothing is lost or counted twice across the swap. */
  lemma {:induction false} CountersExact(c: Class, thr: seq<nat>, run: seq<State>, obs: seq<Obs>, n: nat, k: nat)
    requires Run(c, thr, run, obs) && n < |run| && k < |c.sizes| && CounterSize(c.sizes[k])
    requires forall i :: 0 <= i < |obs| ==> |obs[i].truth| == |c.sizes|
    requires SlowRise(c, obs, k)
    ensures StateOk(c, run[n]) && ExactAt(c, run[n], k, Truth(obs, n, k), Base(obs, n, k), PreviousBase(obs, n, k))
  {
    if n > 0 {
      CountersExact(c, thr, run, obs, n - 1, k);
      assert StepAt(c, thr, run, obs, n - 1);
      assert Truth(obs, n - 1, k) <= Truth(obs, n - 1 + 1, k) < Truth(obs, n - 1, k) + Limit(c.sizes[k]);
      ObservedExact(c, thr, run[n - 1], obs[n - 1], k, Truth(obs, n - 1, k), Base(obs, n - 1, k),
        PreviousBase(obs, n - 1, k));
    }
  }

  lemma ObservedExact(c: Class, thr: seq<nat>, s: State, o: Obs, k: nat, truth: nat, base: nat, previous: nat)
    requires ClassOk(c) && StateOk(c, s) && |thr| == THR_NUM && ExactAt(c, s, k, truth, base, previous)
    requires |o.truth| == |c.sizes| && truth <= o.truth[k] < truth + Limit(c.sizes[k])
    ensures var t := if o.end then End(c, thr, s, Shown(c, o.truth)) else Poll(c, thr, s, Shown(c, o.truth));
            && StateOk(c, t)
            && ExactAt(c, t, k, o.truth[k], if o.end then o.truth[k] else base, if o.end then base else previous)
  {
    var newAbs := Shown(c, o.truth);
    if o.end {
      EndExact(c, thr, s, newAbs, k, truth, base, previous, o.truth[k]);
    } else {
      PollExact(c, thr, s, newAbs, k, truth, base, previous, o.truth[k]);
    }
  }

  // ----- Alerts -----

  /** Some interval end came before position n. */
  ghost predicate Bounded(obs: seq<Obs>, n: nat)
    requires n <= |obs|
  {
    exists i :: 0 <= i < n && obs[i].end
  }

  lemma CrossedGrows(c: Class, thr: seq<nat>, u: seq<nat>, v: seq<nat>)
    requires ClassOk(c) && |thr| == THR_NUM && |u| == |v| == |c.sizes|
    requires forall i :: 0 <= i < |u| ==> u[i] <= v[i]
    ensures Crossed(c, u, thr) <= Crossed(c, v, thr)
  {}

  lemma NothingCrossedAtZero(c: Class, thr: seq<nat>)
    requires ClassOk(c) && |thr| == THR_NUM
    ensures Crossed(c, Zeros(|c.sizes|), thr) == {}
  {}

  /** The table has a row for alert a, before any row with a zero field, whose
      threshold is not zero and is exceeded. */
  ghost predicate Exceeded(c: Class, thr: seq<nat>, counters: seq<nat>, a: nat) {
    exists j :: 0 <= j < |c.tca| && ExceededBy(c, thr, counters, a, j)
  }

  ghost predicate ExceededBy(c: Class, thr: seq<nat>, counters: seq<nat>, a: nat, j: nat)
    requires j < |c.tca|
  {
    var row := c.tca[j];
    && (forall i :: 0 <= i <= j ==> c.tca[i].thrNum != 0 && c.tca[i].attr != 0 && c.tca[i].thrAttr != 0)
    && row.thrNum == a && 3 <= row.attr < 3 + |counters| && 1 <= row.thrAttr <= |thr|
    && thr[row.thrAttr - 1] != 0 && counters[row.attr - 3] > thr[row.thrAttr - 1]
  }

  lemma {:induction false} RowsArePrefix(t: seq<Tca>)
    ensures |Rows(t)| <= |t| && Rows(t) == t[..|Rows(t)|]
    ensures |Rows(t)| < |t| ==> var e := t[|Rows(t)|]; e.thrNum == 0 || e.attr == 0 || e.thrAttr == 0
  {
    if t != [] && t[0].thrNum != 0 && t[0].attr != 0 && t[0].thrAttr != 0 { RowsArePrefix(t[1..]); }
  }

  lemma RowInPrefix(c: Class, j: nat)
    requires j < |Rows(c.tca)|
    ensures j < |c.tca| && c.tca[j] == Rows(c.tca)[j]
    ensures forall i :: 0 <= i <= j ==> c.tca[i].thrNum != 0 && c.tca[i].attr != 0 && c.tca[i].thrAttr != 0
  {
    RowsArePrefix(c.tca);
    forall i | 0 <= i <= j ensures c.tca[i].thrNum != 0 && c.tca[i].attr != 0 && c.tca[i].thrAttr != 0 {
      assert Rows(c.tca)[i] in Rows(c.tca);
    }
  }

  lemma PrefixIsRow(c: Class, j: nat)
    requires j < |c.tca|
    requires forall i :: 0 <= i <= j ==> c.tca[i].thrNum != 0 && c.tca[i].attr != 0 && c.tca[i].thrAttr != 0
    ensures c.tca[j] in Rows(c.tca)
  {
    RowsArePrefix(c.tca);
    assert j < |Rows(c.tca)|;
    assert Rows(c.tca)[j] == c.tca[j];
  }

  lemma CrossedExceeds(c: Class, counters: seq<nat>, thr: seq<nat>, a: nat)
    requires ClassOk(c) && |counters| == |c.sizes| && |thr| == THR_NUM && a in Crossed(c, counters, thr)
    ensures Exceeded(c, thr, counters, a)
  {
    var e :| e in Rows(c.tca) && RowCrossed(e, counters, thr) && e.thrNum == a;
    var j :| 0 <= j < |Rows(c.tca)| && Rows(c.tca)[j] == e;
    RowInPrefix(c, j);
    assert ExceededBy(c, thr, counters, a, j);
  }

  lemma ExceededCrosses(c: Class, counters: seq<nat>, thr: seq<nat>, a: nat)
    requires ClassOk(c) && |counters| == |c.sizes| && |thr| == THR_NUM && Exceeded(c, thr, counters, a)
    ensures a in Crossed(c, counters, thr)
  {
    var j :| 0 <= j < |c.tca| && ExceededBy(c, thr, counters, a, j);
    PrefixIsRow(c, j);
  }

  lemma CrossedIsExceeded(c: Class, counters: seq<nat>, thr: seq<nat>, a: nat)
    requires ClassOk(c) && |counters| == |c.sizes| && |thr| == THR_NUM
    ensures a in Crossed(c, counters, thr) <==> Exceeded(c, thr, counters, a)
  {
    if a in Crossed(c, counters, thr) { CrossedExceeds(c, counters, thr, a); }
    if Exceeded(c, thr, counters, a) { ExceededCrosses(c, counters, thr, a); }
  }

  lemma {:induction false} AlertsAreCrossed(c: Class, thr: seq<nat>, run: seq<State>, obs: seq<Obs>, n: nat)
    requires Run(c, thr, run, obs) && n < |run|
    ensures StateOk(c, run[n])
    ensures run[n].alerts == Crossed(c, run[n].curr.counters, thr) + (if Bounded(obs, n) then {} else run[0].alerts)
  {
    NothingCrossedAtZero(c, thr);
    if n > 0 {
      AlertsAreCrossed(c, thr, run, obs, n - 1);
      assert StepAt(c, thr, run, obs, n - 1);
      var s := run[n - 1];
      var newAbs := Shown(c, obs[n - 1].truth);
      UpdateFits(c, s.curr.counters, s.abs, newAbs);
      CrossedGrows(c, thr, s.curr.counters, Update(c, s.curr.counters, s.abs, newAbs));
    }
  }

  /** With fixed thresholds the alert record is exactly the set of thresholds the
      current counters exceed, plus, until the first interval end, whatever the
      uninitialised record held. */
  lemma {:induction false} AlertsExact(c: Class, thr: seq<nat>, run: seq<State>, obs: seq<Obs>, n: nat, a: nat)
    requires Run(c, thr, run, obs) && n < |run|
    ensures a in run[n].alerts <==>
      Exceeded(c, thr, run[n].curr.counters, a) || (!Bounded(obs, n) && a in run[0].alerts)
  {
    AlertsAreCrossed(c, thr, run, obs, n);
    CrossedIsExceeded(c, run[n].curr.counters, thr, a);
  }

  // ----- The header: interval end time and threshold data pointer -----

  lemma StepHeader(c: Class, thr: seq<nat>, s: State, newAbs: seq<nat>)
    requires ClassOk(c) && StateOk(c, s) && Fits(c, newAbs) && |thr| == THR_NUM
    ensures Poll(c, thr, s, newAbs).curr.header == s.curr.header && Poll(c, thr, s, newAbs).hist == s.hist
    ensures End(c, thr, s, newAbs).curr.header == s.curr.header && End(c, thr, s, newAbs).hist.header == s.curr.header
  {}

  /** In every run the current buffer keeps the header it started with; from the first
      interval end on the history buffer has it too. */
  lemma {:induction false} HeaderKept(c: Class, thr: seq<nat>, run: seq<State>, obs: seq<Obs>, n: nat)
    requires Run(c, thr, run, obs) && n < |run|
    ensures run[n].curr.header == run[0].curr.header
    ensures run[n].hist.header == if Bounded(obs, n) then run[0].curr.header else run[0].hist.header
  {
    if n > 0 {
      HeaderKept(c, thr, run, obs, n - 1);
      assert StepAt(c, thr, run, obs, n - 1);
      StepHeader(c, thr, run[n - 1], Shown(c, obs[n - 1].truth));
      assert Bounded(obs, n) <==> Bounded(obs, n - 1) || obs[n - 1].end;
    }
  }

  /** A poll leaves the history alone. */
  lemma {:induction false} PollKeepsHistory(c: Class, thr: seq<nat>, run: seq<State>, obs: seq<Obs>, n: nat)
    requires Run(c, thr, run, obs) && n < |obs| && !obs[n].end
    ensures run[n + 1].hist == run[n].hist
  {
    assert StepAt(c, thr, run, obs, n);
    StepHeader(c, thr, run[n], Shown(c, obs[n].truth));
  }

  /** The alerts sent at observation i. */
  ghost function ReportAt(c: Class, thr: seq<nat>, run: seq<State>, obs: seq<Obs>, i: nat): set<nat>
    requires Run(c, thr, run, obs) && i < |obs| && StepAt(c, thr, run, obs, i)
  {
    Report(c, thr, run[i], Shown(c, obs[i].truth))
  }

  /** Within an interval the record keeps everything already reported. */
  lemma {:induction false} ReportsRecorded(c: Class, thr: seq<nat>, run: seq<State>, obs: seq<Obs>, i: nat, j: nat)
    requires Run(c, thr, run, obs) && i < j <= |obs| && StepAt(c, thr, run, obs, i)
    requires forall k :: i <= k < j ==> !obs[k].end
    ensures ReportAt(c, thr, run, obs, i) <= run[j].alerts
  {
    assert StepAt(c, thr, run, obs, j - 1);
    if i < j - 1 { ReportsRecorded(c, thr, run, obs, i, j - 1); }
  }

  /** Between two interval ends no alert is reported twice. */
  lemma {:induction false} ReportsDisjoint(c: Class, thr: seq<nat>, run: seq<State>, obs: seq<Obs>, i: nat, j: nat)
    requires Run(c, thr, run, obs) && i < j < |obs|
    requires StepAt(c, thr, run, obs, i) && StepAt(c, thr, run, obs, j)
    requires forall k :: i <= k < j ==> !obs[k].end
    ensures ReportAt(c, thr, run, obs, i) !! ReportAt(c, thr, run, obs, j)
  {
    ReportsRecorded(c, thr, run, obs, i, j);
  }

  /** The counters an observation leaves; at an interval end they are in the history. */
  ghost function CountersAfter(run: seq<State>, obs: seq<Obs>, i: nat): seq<nat>
    requires |run| == |obs| + 1 && i < |obs|
  {
    if obs[i].end then run[i + 1].hist.counters else run[i + 1].curr.counters
  }

  /** After the first interval end an observation reports exactly the thresholds it newly exceeds. */
  lemma {:induction false} ReportsAreCrossings(c: Class, thr: seq<nat>, run: seq<State>, obs: seq<Obs>, i: nat, a: nat)
    requires Run(c, thr, run, obs) && i < |obs| && StepAt(c, thr, run, obs, i) && Bounded(obs, i)
    ensures a in ReportAt(c, thr, run, obs, i) <==>
      Exceeded(c, thr, CountersAfter(run, obs, i), a) && !Exceeded(c, thr, run[i].curr.counters, a)
  {
    AlertsAreCrossed(c, thr, run, obs, i);
    CrossedIsExceeded(c, run[i].curr.counters, thr, a);
    CrossedIsExceeded(c, CountersAfter(run, obs, i), thr, a);
  }
}
