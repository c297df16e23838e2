/**
  The timeout queue of omci_timeout.c: events kept sorted by deadline on the
  circular list, picked from the front when due.
 */
module TimeoutQueue {
  import opened DList

  /** struct timeout_list_entry: identifier, deadline in milliseconds, handler with its arguments. */
  datatype Timeout = Timeout(id: nat, time: int, handler: nat)

  const ULONG_MAX: nat := 0xFFFF_FFFF

  datatype Option<+T> = None | Some(value: T)

  // ----- The queue as a value -----

  ghost predicate Sorted(q: seq<Timeout>) {
    forall i, j :: 0 <= i < j < |q| ==> q[i].time <= q[j].time
  }

  /** How many entries stay before a new one: those with deadlines not later than t, up to the first later one. */
  ghost function Rank(q: seq<Timeout>, t: int): (r: nat)
    ensures r <= |q| && (forall i :: 0 <= i < r ==> q[i].time <= t) && (r < |q| ==> q[r].time > t)
  {
    if q == [] || q[0].time > t then 0
    else
      var r := Rank(q[1..], t);
      assert forall i :: 0 < i < r + 1 ==> q[i] == q[1..][i - 1];
      r + 1
  }

  ghost function Insert(q: seq<Timeout>, e: Timeout): seq<Timeout> { Inserted(q, Rank(q, e.time), e) }

  /** Position of the first entry with this identifier; |q| if there is none. */
  ghost function PositionOf(q: seq<Timeout>, id: nat): (at: nat)
    ensures at <= |q| && (forall i :: 0 <= i < at ==> q[i].id != id) && (at < |q| ==> q[at].id == id)
  {
    if q == [] || q[0].id == id then 0
    else
      var at := PositionOf(q[1..], id);
      assert forall i :: 0 < i < at + 1 ==> q[i] == q[1..][i - 1];
      at + 1
  }

  ghost function RemovedIf(q: seq<Timeout>, at: nat): seq<Timeout> { if at < |q| then Removed(q, at) else q }

  /** Without the first entry that has this identifier. */
  ghost function Without(q: seq<Timeout>, id: nat): seq<Timeout> { RemovedIf(q, PositionOf(q, id)) }

  /** The identifier event_entry_add generates after `last`; 0 is skipped. */
  function NextId(last: nat): nat { if last == ULONG_MAX then 1 else last + 1 }

  class Queue {
    const list: List<Timeout>
    var lastId: nat
    var picked: Option<Timeout>  // the event the timeout thread is handling

    ghost predicate Valid()
      reads this, list, list.used, list.entries
    {
      list.Valid() && lastId <= ULONG_MAX
    }

    ghost function Q(): seq<Timeout>
      reads this, list, list.entries
    {
      list.Contents()
    }

    /** The state the run theorems speak of. */
    ghost function S(): State
      reads this, list, list.entries
    {
      State(Q(), lastId, picked)
    }

    /** timeout_init */
    constructor ()
      ensures Valid() && S() == State([], 0, None) && fresh(list) && fresh(list.used)
    {
      list := new List<Timeout>(Timeout(0, 0, 0));
      lastId, picked := 0, None;
    }

    /** event_entry_add; now is the clock in milliseconds. */
    method EventAdd(now: int, delay: int, handler: nat) returns (id: nat)
      requires Valid()
      modifies this`lastId, list`entries, list.used, list.entries
      ensures Valid() && forall j :: 0 <= j < |list.entries| ==>
        list.entries[j] in old(list.entries) || fresh(list.entries[j])
      ensures S() == Step(old(S()), Add(now, delay, handler))
      ensures id == (if old(lastId) == 0xFFFF_FFFF then 1 else old(lastId) + 1) && lastId == id && id != 0
      ensures Q() == Insert(old(Q()), Timeout(id, now + delay, handler))
    {
      lastId := if lastId == ULONG_MAX then 0 else lastId + 1;
      if lastId == 0 { lastId := lastId + 1; }
      id := lastId;
      AddEntry(Timeout(id, now + delay, handler));
    }

    /** A new entry for t is placed. */
    method AddEntry(t: Timeout)
      requires Valid()
      modifies list`entries, list.used, list.entries
      ensures Valid() && Q() == Insert(old(Q()), t)
      ensures forall j :: 0 <= j < |list.entries| ==> list.entries[j] in old(list.entries) || fresh(list.entries[j])
    {
      var entry := new Entry(t);
      InsertEntry(entry);
    }

    /** The placing loop of event_entry_add. */
    method InsertEntry(entry: Entry<Timeout>)
      requires Valid() && entry != list.used && entry !in list.entries
      modifies list`entries, list.used, list.entries, entry`next, entry`prev
      ensures Valid() && Q() == Insert(old(Q()), entry.data)
      ensures forall j :: 0 <= j < |list.entries| ==> list.entries[j] in old(list.entries) || list.entries[j] == entry
    {
      ghost var q := Q();
      var deadline := entry.data.time;
      var later, at := list.Find((t: Timeout) => t.time > deadline);
      RankUnique(q, deadline, at);
      if later != null {
        list.AddBefore(later, entry, at + 1);
      } else {
        list.AddTail(entry);
      }
    }

    /** next_active_event_get: the front event, if it is due. */
    method NextActive(now: int) returns (event: Option<Timeout>)
      requires Valid()
      ensures event == if Q() != [] && Q()[0].time <= now then Some(Q()[0]) else None
    {
      var empty := list.IsEmpty();
      if empty { return None; }
      assert list.Linked(0);
      var first := list.used.next;
      if first.data.time <= now { return Some(first.data); }
      return None;
    }

    /** lockless_event_remove: frees the first entry with this identifier, if any. */
    method EventRemove(id: nat)
      requires Valid()
      modifies list`entries, list.used, list.entries
      ensures Valid() && S() == Step(old(S()), Drop(id)) && Q() == Without(old(Q()), id)
      ensures forall j :: 0 <= j < |list.entries| ==> list.entries[j] in old(list.entries)
    {
      var empty := list.IsEmpty();
      if empty { return; }
      ghost var q := Q();
      var entry, at := list.Find((t: Timeout) => t.id == id);
      PositionUnique(q, id, at);
      if entry != null { list.Free(entry, at); }
    }

    /** The first locked section of timeout_thread_main: the due front event is
        copied and will be handled; it stays in the queue meanwhile. */
    method Pick(now: int)
      requires Valid() && picked.None?
      modifies this`picked
      ensures S() == Step(old(S()), Op.Pick(now))
      ensures picked == if Q() != [] && Q()[0].time <= now then Some(Q()[0]) else None
    {
      picked := NextActive(now);
    }

    /** The second locked section, after the handler has returned. */
    method Finish()
      requires Valid() && picked.Some?
      modifies this`picked, list`entries, list.used, list.entries
      ensures Valid() && S() == Step(old(S()), Op.Finish)
      ensures picked == None && Q() == Without(old(Q()), old(picked).value.id)
      ensures forall j :: 0 <= j < |list.entries| ==> list.entries[j] in old(list.entries)
    {
      EventRemove(picked.value.id);
      picked := None;
    }

    /** One turn of the loop of timeout_shutdown: the front event is handled and removed. */
    method DrainOne() returns (first: Timeout, empty: bool)
      requires Valid() && Q() != []
      modifies list`entries, list.used, list.entries
      ensures Valid() && [first] + Q() == old(Q()) && (empty <==> Q() == [])
      ensures forall j :: 0 <= j < |list.entries| ==> list.entries[j] in old(list.entries)
    {
      assert list.Linked(0);
      first := list.used.next.data;
      assert first == Q()[0];
      RemovedFirst(Q(), first.id);
      EventRemove(first.id);
      empty := list.IsEmpty();
    }

    /** timeout_shutdown: every pending event is handled, in deadline order, and the queue ends empty. */
    method Shutdown() returns (handled: seq<Timeout>)
      requires Valid()
      modifies list`entries, list.used, list.entries
      ensures Valid() && Q() == [] && handled == old(Q())
    {
      handled := [];
      ghost var q := Q();
      var empty := list.IsEmpty();
      while !empty
        invariant Valid() && handled + Q() == q && (empty <==> Q() == [])
        invariant forall j :: 0 <= j < |list.entries| ==> list.entries[j] in old(list.entries)
        decreases |Q()|
      {
        var first;
        ghost var done := handled;
        first, empty := DrainOne();
        Advance(done, first, Q());
        handled := handled + [first];
      }
    }
  }

  lemma RemovedFirst(q: seq<Timeout>, id: nat)
    requires q != [] && q[0].id == id
    ensures Without(q, id) == q[1..]
  {
    assert Removed(q, 0) == q[1..];
  }

  lemma Advance(done: seq<Timeout>, first: Timeout, rest: seq<Timeout>)
    ensures (done + [first]) + rest == done + ([first] + rest) && |[first] + rest| == 1 + |rest|
  {}

  lemma {:induction false} RankUnique(q: seq<Timeout>, t: int, at: nat)
    requires at <= |q| && (forall i :: 0 <= i < at ==> q[i].time <= t) && (at < |q| ==> q[at].time > t)
    ensures Rank(q, t) == at
  {
    var r := Rank(q, t);
    if r < at { assert false; }
    if at < r { assert false; }
  }

  lemma {:induction false} PositionUnique(q: seq<Timeout>, id: nat, at: nat)
    requires at <= |q| && (forall i :: 0 <= i < at ==> q[i].id != id) && (at < |q| ==> q[at].id == id)
    ensures PositionOf(q, id) == at
  {
    var p := PositionOf(q, id);
    if p < at { assert false; }
    if at < p { assert false; }
  }

  // ----- What the order means -----

  lemma {:induction false} InsertKeepsSorted(q: seq<Timeout>, e: Timeout)
    requires Sorted(q)
    ensures Sorted(Insert(q, e))
  {
    var r := Rank(q, e.time);
    forall i | r <= i < |q| ensures q[i].time > e.time {
      if i > r { assert q[r].time <= q[i].time; }
    }
  }

  lemma RemovedAt(q: seq<Timeout>, p: nat)
    requires p < |q|
    ensures forall i :: 0 <= i < |q| - 1 ==> Removed(q, p)[i] == if i < p then q[i] else q[i + 1]
  {
    var t := Removed(q, p);
    assert forall i :: 0 <= i < |t| ==> t[i] == if i < p then q[i] else q[i + 1];
  }

  lemma WithoutKeepsSorted(q: seq<Timeout>, id: nat)
    requires Sorted(q)
    ensures Sorted(Without(q, id))
  {
    var p := PositionOf(q, id);
    if p < |q| { RemovedAt(q, p); }
  }

  // ----- Runs -----

  /** Add and Drop: timeout_event_add and timeout_event_remove, by any thread, the
      handler included. Pick and Finish: the two locked sections of the timeout
      thread, between which the handler of the picked event runs. */
  datatype Op = Add(now: int, delay: int, handler: nat) | Drop(id: nat) | Pick(now: int) | Finish

  datatype State = State(q: seq<Timeout>, lastId: nat, picked: Option<Timeout>)

  function NewEvent(s: State, op: Op): Timeout
    requires op.Add?
  {
    Timeout(NextId(s.lastId), op.now + op.delay, op.handler)
  }

  ghost function Step(s: State, op: Op): State {
    match op
    case Add(_, _, _) => s.(q := Insert(s.q, NewEvent(s, op)), lastId := NextId(s.lastId))
    case Drop(id) => s.(q := Without(s.q, id))
    case Pick(now) => if s.picked.None? && s.q != [] && s.q[0].time <= now then s.(picked := Some(s.q[0])) else s
    case Finish => if s.picked.Some? then s.(q := Without(s.q, s.picked.value.id), picked := None) else s
  }

  ghost predicate Run(run: seq<State>, ops: seq<Op>) {
    && |run| == |ops| + 1 && run[0] == State([], 0, None)
    && forall i :: 0 <= i < |ops| ==> StepAt(run, ops, i)
  }

  ghost predicate StepAt(run: seq<State>, ops: seq<Op>, i: nat)
    requires |run| == |ops| + 1 && i < |ops|
  {
    run[i + 1] == Step(run[i], ops[i])
  }

  lemma StepKeepsSorted(s: State, op: Op)
    requires Sorted(s.q)
    ensures Sorted(Step(s, op).q)
  {
    match op
    case Add(_, _, _) => InsertKeepsSorted(s.q, NewEvent(s, op));
    case Drop(id) => WithoutKeepsSorted(s.q, id);
    case Pick(_) =>
    case Finish => if s.picked.Some? { WithoutKeepsSorted(s.q, s.picked.value.id); }
  }

  /** In every run the queue stays sorted by deadline. */
  lemma {:induction false} RunsStaySorted(run: seq<State>, ops: seq<Op>, n: nat)
    requires Run(run, ops) && n < |run|
    ensures Sorted(run[n].q)
  {
    if n > 0 {
      RunsStaySorted(run, ops, n - 1);
      assert StepAt(run, ops, n - 1);
      StepKeepsSorted(run[n - 1], ops[n - 1]);
    }
  }

  /** Step i takes the front event for handling. */
  ghost predicate Picks(run: seq<State>, ops: seq<Op>, i: nat, e: Timeout)
    requires |run| == |ops| + 1
  {
    i < |ops| && ops[i].Pick? && run[i].picked.None? && run[i].q != [] && run[i].q[0] == e && e.time <= ops[i].now
  }

  /** A picked event is due and no pending event has an earlier deadline; if
      none is picked, none is due. */
  lemma {:induction false} PickedIsEarliest(run: seq<State>, ops: seq<Op>, i: nat)
    requires Run(run, ops) && i < |ops| && ops[i].Pick? && run[i].picked.None?
    ensures var q := run[i].q;
            if run[i + 1].picked.Some?
            then
              && run[i + 1].picked.value in q && Picks(run, ops, i, run[i + 1].picked.value)
              && forall f :: f in q ==> q[0].time <= f.time
            else forall f :: f in q ==> ops[i].now < f.time
  {
    RunsStaySorted(run, ops, i);
    assert StepAt(run, ops, i);
  }

  lemma LaterThanRank(q: seq<Timeout>, t: int)
    requires Sorted(q)
    ensures forall i :: 0 <= i < |q| ==> (q[i].time <= t <==> i < Rank(q, t))
  {
    var r := Rank(q, t);
    forall i | r <= i < |q| ensures q[i].time > t {
      if i > r { assert q[r].time <= q[i].time; }
    }
  }

  // ----- First in, first out -----

  /** e comes before f: an earlier deadline, or the same and added earlier. */
  ghost predicate Before(e: Timeout, f: Timeout) { e.time < f.time || (e.time == f.time && e.id < f.id) }

  ghost predicate Fifo(q: seq<Timeout>) { forall i, j :: 0 <= i < j < |q| ==> Before(q[i], q[j]) }

  /** Identifiers in the queue are pairwise different and were handed out already. */
  ghost predicate Unique(q: seq<Timeout>, lastId: nat) {
    && (forall i :: 0 <= i < |q| ==> 1 <= q[i].id <= lastId)
    && (forall i, j :: 0 <= i < j < |q| ==> q[i].id != q[j].id)
  }

  ghost predicate Inv(s: State) { Fifo(s.q) && Unique(s.q, s.lastId) }

  lemma FifoSorted(q: seq<Timeout>)
    requires Fifo(q)
    ensures Sorted(q)
  {
    forall i, j | 0 <= i < j < |q| ensures q[i].time <= q[j].time { assert Before(q[i], q[j]); }
  }

  lemma InsertedAt(q: seq<Timeout>, r: nat, e: Timeout)
    requires r <= |q|
    ensures forall i :: 0 <= i <= |q| ==> Inserted(q, r, e)[i] == if i < r then q[i] else if i == r then e else q[i - 1]
  {
    var t := Inserted(q, r, e);
    assert forall i :: 0 <= i < |t| ==> t[i] == if i < r then q[i] else if i == r then e else q[i - 1];
  }

  lemma InsertKeepsFifo(q: seq<Timeout>, e: Timeout)
    requires Fifo(q) && forall i :: 0 <= i < |q| ==> q[i].id < e.id
    ensures Fifo(Insert(q, e))
  {
    FifoSorted(q);
    LaterThanRank(q, e.time);
    var r, t := Rank(q, e.time), Insert(q, e);
    InsertedAt(q, r, e);
    forall i, j | 0 <= i < j < |t| ensures Before(t[i], t[j]) {
      if i != r && j != r {
        assert Before(q[if i < r then i else i - 1], q[if j < r then j else j - 1]);
      }
    }
  }

  lemma InsertKeepsUnique(q: seq<Timeout>, e: Timeout, lastId: nat)
    requires Unique(q, lastId) && e.id == lastId + 1
    ensures Unique(Insert(q, e), e.id)
  {
    InsertedAt(q, Rank(q, e.time), e);
  }

  lemma RemovedFifo(q: seq<Timeout>, p: nat)
    requires Fifo(q) && p < |q|
    ensures Fifo(Removed(q, p))
  {
    var r := Removed(q, p);
    RemovedAt(q, p);
    forall i, j | 0 <= i < j < |r| ensures Before(r[i], r[j]) {
      assert Before(q[if i < p then i else i + 1], q[if j < p then j else j + 1]);
    }
  }

  lemma RemovedUnique(q: seq<Timeout>, p: nat, lastId: nat)
    requires Unique(q, lastId) && p < |q|
    ensures Unique(Removed(q, p), lastId)
  {
    RemovedAt(q, p);
  }

  lemma WithoutKeeps(q: seq<Timeout>, id: nat, lastId: nat)
    requires Fifo(q) && Unique(q, lastId)
    ensures Fifo(Without(q, id)) && Unique(Without(q, id), lastId)
  {
    var p := PositionOf(q, id);
    if p < |q| {
      RemovedFifo(q, p);
      RemovedUnique(q, p, lastId);
    }
  }

  lemma WithoutMembers(q: seq<Timeout>, id: nat, lastId: nat, f: Timeout)
    requires Unique(q, lastId)
    ensures f in Without(q, id) <==> f in q && f.id != id
  {
    var p := PositionOf(q, id);
    if p < |q| { InRemoved(q, p, f); }
  }

  lemma InRemoved(q: seq<Timeout>, p: nat, f: Timeout)
    requires p < |q| && forall i :: 0 <= i < |q| && i != p ==> q[i].id != q[p].id
    ensures f in Removed(q, p) <==> f in q && f.id != q[p].id
  {
    var r := Removed(q, p);
    RemovedAt(q, p);
    if f in q && f.id != q[p].id {
      var i :| 0 <= i < |q| && q[i] == f;
      assert r[if i < p then i else i - 1] == f;
    }
  }

  lemma StepKeepsInv(s: State, op: Op)
    requires Inv(s) && s.lastId < ULONG_MAX
    ensures Inv(Step(s, op)) && s.lastId <= Step(s, op).lastId <= s.lastId + 1
  {
    match op
    case Add(_, _, _) =>
      InsertKeepsFifo(s.q, NewEvent(s, op));
      InsertKeepsUnique(s.q, NewEvent(s, op), s.lastId);
    case Drop(id) => WithoutKeeps(s.q, id, s.lastId);
    case Pick(_) =>
    case Finish => if s.picked.Some? { WithoutKeeps(s.q, s.picked.value.id, s.lastId); }
  }

  /** How many of the first n operations add an event. */
  ghost function Adds(ops: seq<Op>, n: nat): (k: nat)
    requires n <= |ops|
    ensures k <= n
  {
    if n == 0 then 0 else Adds(ops, n - 1) + if ops[n - 1].Add? then 1 else 0
  }

  /** In every run, until the identifier counter wraps around, identifiers count the
      events added and are unique, and events of equal deadline stand in the order they were added. */
  lemma {:induction false} RunsStayFifo(run: seq<State>, ops: seq<Op>, n: nat)
    requires Run(run, ops) && n < |run| && n <= ULONG_MAX
    ensures run[n].lastId == Adds(ops, n) && Inv(run[n])
  {
    if n > 0 {
      RunsStayFifo(run, ops, n - 1);
      assert StepAt(run, ops, n - 1);
      StepKeepsInv(run[n - 1], ops[n - 1]);
    }
  }

  /** e was added by step a. */
  ghost predicate AddedAt(ops: seq<Op>, a: nat, e: Timeout) {
    a < |ops| && ops[a].Add? && e == Timeout(Adds(ops, a) + 1, ops[a].now + ops[a].delay, ops[a].handler)
  }

  lemma InsertMembers(q: seq<Timeout>, e: Timeout, f: Timeout)
    ensures f in Insert(q, e) <==> f in q || f == e
  {
    var r, t := Rank(q, e.time), Insert(q, e);
    InsertedAt(q, r, e);
    assert t[r] == e;
    if f in q {
      var i :| 0 <= i < |q| && q[i] == f;
      assert t[if i < r then i else i + 1] == f;
    }
  }

  /** Step k ends event e: it is removed, or its handler has returned. */
  ghost predicate Ends(run: seq<State>, ops: seq<Op>, k: nat, e: Timeout)
    requires |run| == |ops| + 1
  {
    k < |ops| && (ops[k] == Drop(e.id) || (ops[k].Finish? && IsPicked(run[k], e)))
  }

  ghost predicate IsPicked(s: State, e: Timeout) { s.picked.Some? && s.picked.value.id == e.id }

  /** e was added by one of the first n steps and none after that ended it. */
  ghost predicate Live(run: seq<State>, ops: seq<Op>, n: nat, e: Timeout)
    requires |run| == |ops| + 1
  {
    exists a: nat :: a < n && AddedAt(ops, a, e) && forall k: nat :: a < k < n ==> !Ends(run, ops, k, e)
  }

  lemma StepMembers(s: State, op: Op, e: Timeout)
    requires Inv(s)
    ensures e in Step(s, op).q <==>
      || (op.Add? && e == NewEvent(s, op))
      || (e in s.q && op != Drop(e.id) && !(op.Finish? && IsPicked(s, e)))
  {
    match op
    case Add(_, _, _) => InsertMembers(s.q, NewEvent(s, op), e);
    case Drop(id) => WithoutMembers(s.q, id, s.lastId, e);
    case Pick(_) =>
    case Finish => if s.picked.Some? { WithoutMembers(s.q, s.picked.value.id, s.lastId, e); }
  }

  /** The pending events of any run are exactly those added and not ended since. */
  lemma {:induction false} PendingExactly(run: seq<State>, ops: seq<Op>, n: nat, e: Timeout)
    requires Run(run, ops) && n < |run| && n <= ULONG_MAX
    ensures e in run[n].q <==> Live(run, ops, n, e)
  {
    if n > 0 {
      PendingExactly(run, ops, n - 1, e);
      RunsStayFifo(run, ops, n - 1);
      assert StepAt(run, ops, n - 1);
      StepMembers(run[n - 1], ops[n - 1], e);
      assert (ops[n - 1].Add? && e == NewEvent(run[n - 1], ops[n - 1])) <==> AddedAt(ops, n - 1, e);
      LiveStep(run, ops, n, e);
    }
  }

  lemma LiveStep(run: seq<State>, ops: seq<Op>, n: nat, e: Timeout)
    requires |run| == |ops| + 1 && 0 < n <= |ops|
    ensures Live(run, ops, n, e) <==>
      AddedAt(ops, n - 1, e) || (Live(run, ops, n - 1, e) && !Ends(run, ops, n - 1, e))
  {
    if Live(run, ops, n - 1, e) && !Ends(run, ops, n - 1, e) {
      var a: nat :| a < n - 1 && AddedAt(ops, a, e) && forall k: nat :: a < k < n - 1 ==> !Ends(run, ops, k, e);
      assert forall k: nat :: a < k < n ==> !Ends(run, ops, k, e);
    }
  }

  lemma PendingWasAdded(run: seq<State>, ops: seq<Op>, n: nat, e: Timeout) returns (a: nat)
    requires Run(run, ops) && n < |run| && n <= ULONG_MAX && e in run[n].q
    ensures a < n && AddedAt(ops, a, e)
  {
    PendingExactly(run, ops, n, e);
    a :| a < n && AddedAt(ops, a, e) && forall k: nat :: a < k < n ==> !Ends(run, ops, k, e);
  }

  lemma {:induction false} LastIdGrows(run: seq<State>, ops: seq<Op>, a: nat, b: nat)
    requires Run(run, ops) && a <= b < |run| && b <= ULONG_MAX
    ensures run[a].lastId <= run[b].lastId
  {
    if a < b {
      LastIdGrows(run, ops, a, b - 1);
      RunsStayFifo(run, ops, b - 1);
      assert StepAt(run, ops, b - 1);
      StepKeepsInv(run[b - 1], ops[b - 1]);
    }
  }

  /** The event picked is due, has the earliest deadline of all pending ones, and
      among those with the same deadline is the one that was added first. */
  lemma {:induction false} PickedIsFirst(run: seq<State>, ops: seq<Op>, i: nat, e: Timeout, f: Timeout)
    returns (a: nat, b: nat)
    requires Run(run, ops) && i < |ops| && i <= ULONG_MAX && Picks(run, ops, i, e) && f in run[i].q && f != e
    ensures e.time <= ops[i].now && e.time <= f.time
    ensures a < i && b < i && AddedAt(ops, a, e) && AddedAt(ops, b, f) && (e.time == f.time ==> a < b)
  {
    RunsStayFifo(run, ops, i);
    var q := run[i].q;
    var k :| 0 <= k < |q| && q[k] == f;
    assert Before(q[0], q[k]);
    a := PendingWasAdded(run, ops, i, e);
    b := PendingWasAdded(run, ops, i, f);
    IdOfAdded(run, ops, a, e);
    IdOfAdded(run, ops, b, f);
    if b <= a { LastIdGrows(run, ops, b, a); }
  }

  lemma IdOfAdded(run: seq<State>, ops: seq<Op>, a: nat, e: Timeout)
    requires Run(run, ops) && a < |ops| && a < ULONG_MAX && AddedAt(ops, a, e)
    ensures e.id == run[a].lastId + 1
  {
    RunsStayFifo(run, ops, a);
  }

  // ----- Which events fire -----

  ghost predicate Pending(q: seq<Timeout>, id: nat) { exists i :: 0 <= i < |q| && q[i].id == id }

  lemma NotAfterRemoval(q: seq<Timeout>, id: nat, lastId: nat)
    requires Unique(q, lastId)
    ensures !Pending(Without(q, id), id)
  {
    var r := Without(q, id);
    forall i | 0 <= i < |r| ensures r[i].id != id { WithoutMembers(q, id, lastId, r[i]); }
  }

  lemma StepStaysGone(s: State, op: Op, id: nat)
    requires Inv(s) && s.lastId < ULONG_MAX && id <= s.lastId && !Pending(s.q, id)
    ensures !Pending(Step(s, op).q, id)
  {
    var t := Step(s, op);
    forall i | 0 <= i < |t.q| ensures t.q[i].id != id {
      StepMembers(s, op, t.q[i]);
    }
  }

  /** An identifier that has been used and is not pending never comes back. */
  lemma {:induction false} StaysGone(run: seq<State>, ops: seq<Op>, id: nat, k: nat, n: nat)
    requires Run(run, ops) && k <= n < |run| && n <= ULONG_MAX && id <= run[k].lastId && !Pending(run[k].q, id)
    ensures !Pending(run[n].q, id)
  {
    if k < n {
      StaysGone(run, ops, id, k, n - 1);
      LastIdGrows(run, ops, k, n - 1);
      RunsStayFifo(run, ops, n - 1);
      assert StepAt(run, ops, n - 1);
      StepStaysGone(run[n - 1], ops[n - 1], id);
    }
  }

  lemma StepPicked(s: State, op: Op, e: Timeout)
    requires Inv(s) && s.picked == Some(e)
    ensures Step(s, op).picked == Some(e) || !Pending(Step(s, op).q, e.id)
  {
    if op.Finish? { NotAfterRemoval(s.q, e.id, s.lastId); }
  }

  /** After an event is picked it is being handled, or gone for good. */
  lemma {:induction false} PickedOrGone(run: seq<State>, ops: seq<Op>, i: nat, e: Timeout, n: nat)
    requires Run(run, ops) && Picks(run, ops, i, e) && i < n < |run| && n <= ULONG_MAX
    ensures run[n].picked == Some(e) || !Pending(run[n].q, e.id)
  {
    assert StepAt(run, ops, n - 1);
    if n > i + 1 {
      PickedOrGone(run, ops, i, e, n - 1);
      RunsStayFifo(run, ops, n - 1);
      if run[n - 1].picked == Some(e) {
        StepPicked(run[n - 1], ops[n - 1], e);
      } else {
        RunsStayFifo(run, ops, i);
        LastIdGrows(run, ops, i, n - 1);
        StepStaysGone(run[n - 1], ops[n - 1], e.id);
      }
    }
  }

  /** No event is handled twice. */
  lemma {:induction false} HandledOnce(run: seq<State>, ops: seq<Op>, i: nat, e: Timeout, j: nat, f: Timeout)
    requires Run(run, ops) && i < j <= ULONG_MAX && Picks(run, ops, i, e) && Picks(run, ops, j, f)
    ensures e.id != f.id
  {
    PickedOrGone(run, ops, i, e, j);
    assert run[j].q[0] == f;
  }

  ghost predicate Fires(run: seq<State>, ops: seq<Op>, id: nat, n: nat)
    requires |run| == |ops| + 1 && n <= |ops|
  {
    exists i: nat, e: Timeout :: i < n && Picks(run, ops, i, e) && e.id == id
  }

  /** An event that is removed is handled all the same exactly when the timeout
      thread had picked it before. */
  lemma {:induction false} RemovedFiresExactly(run: seq<State>, ops: seq<Op>, k: nat, id: nat)
    requires Run(run, ops) && |ops| <= ULONG_MAX && k < |ops| && ops[k] == Drop(id) && id <= run[k].lastId
    ensures Fires(run, ops, id, |ops|) <==> Fires(run, ops, id, k)
  {
    RunsStayFifo(run, ops, k);
    assert StepAt(run, ops, k);
    NotAfterRemoval(run[k].q, id, run[k].lastId);
    forall i: nat, e: Timeout | i < |ops| && Picks(run, ops, i, e) && e.id == id ensures i < k {
      assert Pending(run[i].q, id);
      if i > k {
        StaysGone(run, ops, id, k + 1, i);
        assert false;
      }
    }
  }

  /** Added, picked, removed by another thread while its handler runs. */
  lemma RemovedYetFired(now: int, handler: nat) returns (run: seq<State>, ops: seq<Op>)
    ensures Run(run, ops) && |ops| == 3 && ops[2] == Drop(1) && Pending(run[2].q, 1) && !Pending(run[3].q, 1)
    ensures Fires(run, ops, 1, 2)
  {
    ops := [Add(now, 0, handler), Pick(now), Drop(1)];
    var e := Timeout(1, now, handler);
    var s0 := State([], 0, None);
    var s1, s2, s3 := State([e], 1, None), State([e], 1, Some(e)), State([], 1, Some(e));
    assert Insert([], e) == [e];
    run := [s0, s1, s2, s3];
    assert StepAt(run, ops, 0) && StepAt(run, ops, 1) && StepAt(run, ops, 2);
    assert run[2].q[0].id == 1;
    assert Picks(run, ops, 1, e);
  }
}
