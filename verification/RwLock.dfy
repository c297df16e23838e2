/**
  The generic reader-writer lock of omci_os.c. Every inner critical section is
  one atomic step of one thread; any number of threads interleave their steps.
 */
module RwLock {

  const UINT_MAX: nat := 0xFFFF_FFFF

  /** struct rw_lock: number of readers, number of writers, a writer is pending. */
  datatype Lock = Lock(read: nat, write: nat, pending: bool)

  // ----- The inner critical sections -----

  /** One turn of generic_rw_lock_get_rd. */
  function TryRead(l: Lock): (Lock, bool) {
    if l.write == 0 && !l.pending then (l.(read := if l.read == UINT_MAX then 0 else l.read + 1), true) else (l, false)
  }

  /** One turn of the first loop of generic_rw_lock_get_wr. */
  function TryPend(l: Lock): (Lock, bool) {
    if l.write == 0 && !l.pending then (l.(pending := true), true) else (l, false)
  }

  /** One turn of the second loop of generic_rw_lock_get_wr. */
  function TryWrite(l: Lock): (Lock, bool) {
    if l.read == 0 then (l.(write := 1, pending := false), true) else (l, false)
  }

  /** generic_rw_lock_release */
  function Release(l: Lock): Lock {
    if l.write != 0 then l.(write := 0) else l.(read := if l.read == 0 then UINT_MAX else l.read - 1)
  }

  class Mutable {
    var read: nat
    var write: nat
    var pending: bool

    ghost function View(): Lock
      reads this
    {
      Lock(read, write, pending)
    }

    constructor ()
      ensures View() == Lock(0, 0, false)
    {
      read, write, pending := 0, 0, false;
    }

    method GetRdTurn() returns (locked: bool)
      modifies this
      ensures (View(), locked) == TryRead(old(View()))
    {
      locked := false;
      if write == 0 && !pending {
        read := if read == UINT_MAX then 0 else read + 1;
        locked := true;
      }
    }

    method GetWrPendTurn() returns (marked: bool)
      modifies this
      ensures (View(), marked) == TryPend(old(View()))
    {
      marked := false;
      if write == 0 && !pending {
        pending := true;
        marked := true;
      }
    }

    method GetWrTurn() returns (locked: bool)
      modifies this
      ensures (View(), locked) == TryWrite(old(View()))
    {
      locked := false;
      if read == 0 {
        write := 1;
        pending := false;
        locked := true;
      }
    }

    method ReleaseLock()
      modifies this
      ensures View() == Release(old(View()))
    {
      if write != 0 {
        write := 0;
      } else {
        read := if read == 0 then UINT_MAX else read - 1;
      }
    }
  }

  // ----- Threads -----

  type Tid = nat

  /** Where a thread is: outside, waiting for the read lock (perhaps holding it
      already), reading, waiting to announce a write, pending, or writing. `held`
      counts the thread's read locks. */
  datatype Pc = Idle | WantRead(held: nat) | Reading(held: nat) | WantWrite | Pending | Writing

  function Held(p: Pc): nat { if p.WantRead? || p.Reading? then p.held else 0 }

  datatype System = System(lock: Lock, pc: seq<Pc>)

  datatype Action = CallRead | CallWrite | ReadTurn | PendTurn | WriteTurn | CallRelease

  /** Thread t may take this step; reads nest, and only holders release. */
  predicate Enabled(s: System, t: Tid, a: Action) {
    t < |s.pc| &&
    match a
    case CallRead => s.pc[t].Idle? || s.pc[t].Reading?
    case CallWrite => s.pc[t].Idle?
    case ReadTurn => s.pc[t].WantRead?
    case PendTurn => s.pc[t].WantWrite?
    case WriteTurn => s.pc[t].Pending?
    case CallRelease => s.pc[t].Writing? || (s.pc[t].Reading? && s.pc[t].held > 0)
  }

  /** After giving back the write lock, or one of the read locks. */
  function Released(p: Pc): Pc { if p.Reading? && p.held > 1 then Reading(p.held - 1) else Idle }

  function Step(s: System, t: Tid, a: Action): System
    requires Enabled(s, t, a)
  {
    match a
    case CallRead => System(s.lock, s.pc[t := WantRead(Held(s.pc[t]))])
    case CallWrite => System(s.lock, s.pc[t := WantWrite])
    case ReadTurn =>
      var (l, ok) := TryRead(s.lock);
      System(l, if ok then s.pc[t := Reading(s.pc[t].held + 1)] else s.pc)
    case PendTurn => var (l, ok) := TryPend(s.lock); System(l, if ok then s.pc[t := Pending] else s.pc)
    case WriteTurn => var (l, ok) := TryWrite(s.lock); System(l, if ok then s.pc[t := Writing] else s.pc)
    case CallRelease => System(Release(s.lock), s.pc[t := Released(s.pc[t])])
  }

  // ----- The invariant -----

  /** All read locks held. */
  ghost function Total(pc: seq<Pc>): nat { if pc == [] then 0 else Total(pc[..|pc| - 1]) + Held(pc[|pc| - 1]) }

  lemma {:induction false} TotalUpdate(pc: seq<Pc>, t: nat, p: Pc)
    requires t < |pc|
    ensures Total(pc[t := p]) == Total(pc) - Held(pc[t]) + Held(p) && Held(pc[t]) <= Total(pc)
  {
    var n := |pc| - 1;
    if t == n {
      assert pc[t := p][..n] == pc[..n];
    } else {
      TotalUpdate(pc[..n], t, p);
      assert pc[t := p][..n] == pc[..n][t := p];
    }
  }

  lemma {:induction false} SomeHolder(pc: seq<Pc>) returns (t: nat)
    requires Total(pc) > 0
    ensures t < |pc| && Held(pc[t]) > 0
  {
    var n := |pc| - 1;
    if Held(pc[n]) > 0 { t := n; } else { t := SomeHolder(pc[..n]); }
  }

  ghost predicate Someone(pc: seq<Pc>, p: Pc) { exists t :: 0 <= t < |pc| && pc[t] == p }

  predicate Writes(p: Pc) { p.Writing? || p.Pending? }

  /** The counters count the holders, a writer, pending or active, is alone, and an active one excludes readers. */
  ghost predicate Inv(s: System) {
    && s.lock.read == Total(s.pc)
    && s.lock.write == (if Someone(s.pc, Writing) then 1 else 0)
    && (s.lock.pending <==> Someone(s.pc, Pending))
    && (Someone(s.pc, Writing) ==> Total(s.pc) == 0)
    && (forall t, u :: 0 <= t < u < |s.pc| ==> !(Writes(s.pc[t]) && Writes(s.pc[u])))
    && (forall t :: 0 <= t < |s.pc| && s.pc[t].Reading? ==> s.pc[t].held > 0)
  }

  lemma Moved(pc: seq<Pc>, t: nat, p: Pc, q: Pc)
    requires t < |pc| && Someone(pc, q) && pc[t] != q
    ensures Someone(pc[t := p], q)
  {
    var u :| 0 <= u < |pc| && pc[u] == q;
    assert pc[t := p][u] == q;
  }

  /** A move that neither enters nor leaves the writers' states. */
  lemma ReaderMove(s: System, t: nat, p: Pc, read: nat)
    requires Inv(s) && t < |s.pc| && !Writes(s.pc[t]) && !Writes(p) && (p.Reading? ==> p.held > 0)
    requires read == s.lock.read - Held(s.pc[t]) + Held(p)
    requires Held(p) > Held(s.pc[t]) ==> s.lock.write == 0
    ensures Inv(System(s.lock.(read := read), s.pc[t := p]))
  {
    TotalUpdate(s.pc, t, p);
    var r := s.pc[t := p];
    if Someone(s.pc, Writing) { Moved(s.pc, t, p, Writing); }
    if Someone(s.pc, Pending) { Moved(s.pc, t, p, Pending); }
    if Someone(r, Writing) { Moved(r, t, s.pc[t], Writing); assert r[t := s.pc[t]] == s.pc; }
    if Someone(r, Pending) { Moved(r, t, s.pc[t], Pending); assert r[t := s.pc[t]] == s.pc; }
  }

  lemma PendKeepsInv(s: System, t: Tid)
    requires Inv(s) && Enabled(s, t, PendTurn)
    ensures Inv(Step(s, t, PendTurn))
  {
    TotalUpdate(s.pc, t, Pending);
    if s.lock.write == 0 && !s.lock.pending {
      var r := s.pc[t := Pending];
      assert r[t] == Pending;
      forall u | 0 <= u < |r| && u != t ensures !Writes(r[u]) { assert r[u] == s.pc[u]; }
    }
  }

  lemma WriteKeepsInv(s: System, t: Tid)
    requires Inv(s) && Enabled(s, t, WriteTurn)
    ensures Inv(Step(s, t, WriteTurn))
  {
    TotalUpdate(s.pc, t, Writing);
    if s.lock.read == 0 {
      var r := s.pc[t := Writing];
      assert r[t] == Writing;
      forall u | 0 <= u < |r| && u != t ensures !Writes(r[u]) { assert r[u] == s.pc[u]; }
    }
  }

  lemma WriteReleaseKeepsInv(s: System, t: Tid)
    requires Inv(s) && t < |s.pc| && s.pc[t].Writing?
    ensures Inv(Step(s, t, CallRelease))
  {
    TotalUpdate(s.pc, t, Idle);
    var r := s.pc[t := Idle];
    assert s.pc[t] == Writing;
    forall u | 0 <= u < |r| ensures !Writes(r[u]) { assert u != t ==> r[u] == s.pc[u]; }
  }

  lemma StepKeepsInv(s: System, t: Tid, a: Action)
    requires Inv(s) && Enabled(s, t, a) && Total(s.pc) < UINT_MAX
    ensures Inv(Step(s, t, a))
  {
    match a
    case CallRead => ReaderMove(s, t, WantRead(Held(s.pc[t])), s.lock.read);
    case CallWrite => ReaderMove(s, t, WantWrite, s.lock.read);
    case ReadTurn => if TryRead(s.lock).1 { ReaderMove(s, t, Reading(s.pc[t].held + 1), s.lock.read + 1); }
    case PendTurn => PendKeepsInv(s, t);
    case WriteTurn => WriteKeepsInv(s, t);
    case CallRelease =>
      if s.pc[t].Writing? {
        WriteReleaseKeepsInv(s, t);
      } else {
        TotalUpdate(s.pc, t, Idle);
        ReaderMove(s, t, Released(s.pc[t]), s.lock.read - 1);
      }
  }

  // ----- Runs -----

  datatype Move = Move(tid: Tid, action: Action)

  ghost predicate StepAt(run: seq<System>, moves: seq<Move>, i: nat)
    requires |run| == |moves| + 1 && i < |moves|
  {
    Enabled(run[i], moves[i].tid, moves[i].action) && run[i + 1] == Step(run[i], moves[i].tid, moves[i].action)
  }

  /** Any interleaving, from a free lock and idle threads, with fewer read locks held than the counter can count. */
  ghost predicate Run(run: seq<System>, moves: seq<Move>) {
    && |run| == |moves| + 1
    && run[0].lock == Lock(0, 0, false) && (forall t :: 0 <= t < |run[0].pc| ==> run[0].pc[t] == Idle)
    && (forall i :: 0 <= i < |moves| ==> StepAt(run, moves, i))
    && forall i :: 0 <= i < |run| ==> Total(run[i].pc) < UINT_MAX
  }

  lemma {:induction false} NothingHeld(pc: seq<Pc>)
    requires forall t :: 0 <= t < |pc| ==> pc[t] == Idle
    ensures Total(pc) == 0
  {
    if pc != [] { NothingHeld(pc[..|pc| - 1]); }
  }

  lemma {:induction false} RunsKeepInv(run: seq<System>, moves: seq<Move>, i: nat)
    requires Run(run, moves) && i < |run|
    ensures Inv(run[i])
  {
    if i == 0 {
      NothingHeld(run[0].pc);
    } else {
      RunsKeepInv(run, moves, i - 1);
      assert StepAt(run, moves, i - 1);
      StepKeepsInv(run[i - 1], moves[i - 1].tid, moves[i - 1].action);
    }
  }

  /** Read locks thread t took minus those it gave back, in the first n moves: a turn
      takes one exactly when nobody writes and no writer is pending. */
  ghost function Reads(run: seq<System>, moves: seq<Move>, n: nat, t: Tid): int
    requires |run| == |moves| + 1 && n <= |moves|
  {
    if n == 0 then 0
    else
      var s, m := run[n - 1], moves[n - 1];
      Reads(run, moves, n - 1, t) +
      if m == Move(t, ReadTurn) && s.lock.write == 0 && !s.lock.pending then 1
      else if m == Move(t, CallRelease) && t < |s.pc| && !s.pc[t].Writing? then -1
      else 0
  }

  /** In every run each thread holds as many read locks as it took and has not given back. */
  lemma {:induction false} HeldExactly(run: seq<System>, moves: seq<Move>, n: nat, t: Tid)
    requires Run(run, moves) && n < |run| && t < |run[n].pc|
    ensures Held(run[n].pc[t]) == Reads(run, moves, n, t)
  {
    if n > 0 {
      assert StepAt(run, moves, n - 1);
      HeldExactly(run, moves, n - 1, t);
      RunsKeepInv(run, moves, n - 1);
    }
  }

  /** A writer excludes every reader and every other writer, in every interleaving. */
  lemma {:induction false} MutualExclusion(run: seq<System>, moves: seq<Move>, i: nat, t: Tid, u: Tid)
    requires Run(run, moves) && i < |run| && t < |run[i].pc| && u < |run[i].pc| && t != u
    ensures run[i].pc[t].Writing? ==> !Writes(run[i].pc[u]) && Held(run[i].pc[u]) == 0
  {
    RunsKeepInv(run, moves, i);
    TotalUpdate(run[i].pc, u, Idle);
    if run[i].pc[t].Writing? { assert run[i].pc[t] == Writing; }
  }

  lemma ReadersShrink(s: System, t: Tid, a: Action, u: Tid)
    requires Inv(s) && Enabled(s, t, a) && s.lock.pending && u < |s.pc|
    ensures Step(s, t, a).lock.read <= s.lock.read
    ensures |Step(s, t, a).pc| == |s.pc| && Held(Step(s, t, a).pc[u]) <= Held(s.pc[u])
  {
    TotalUpdate(s.pc, t, Idle);
  }

  /** While a writer stays pending, no thread comes to hold more read locks. */
  lemma {:induction false} PendingStopsReaders(run: seq<System>, moves: seq<Move>, i: nat, j: nat, u: Tid)
    requires Run(run, moves) && i <= j < |run| && u < |run[i].pc|
    requires forall k :: i <= k <= j ==> run[k].lock.pending
    ensures run[j].lock.read <= run[i].lock.read
    ensures |run[j].pc| == |run[i].pc| && Held(run[j].pc[u]) <= Held(run[i].pc[u])
  {
    if i < j {
      PendingStopsReaders(run, moves, i, j - 1, u);
      RunsKeepInv(run, moves, j - 1);
      assert StepAt(run, moves, j - 1);
      ReadersShrink(run[j - 1], moves[j - 1].tid, moves[j - 1].action, u);
    }
  }

  ghost predicate Holds(p: Pc) { p.Writing? || Held(p) > 0 }

  /** generic_rw_lock_is_locked tells the truth. */
  lemma {:induction false} IsLockedExactly(run: seq<System>, moves: seq<Move>, i: nat)
    requires Run(run, moves) && i < |run|
    ensures run[i].lock.write != 0 || run[i].lock.read != 0 <==> exists t :: 0 <= t < |run[i].pc| && Holds(run[i].pc[t])
  {
    RunsKeepInv(run, moves, i);
    var pc := run[i].pc;
    if Total(pc) > 0 { var t := SomeHolder(pc); }
    if t :| 0 <= t < |pc| && Holds(pc[t]) {
      TotalUpdate(pc, t, Idle);
      assert pc[t].Writing? ==> pc[t] == Writing;
    }
  }

  // ----- Progress -----

  /** A step other than a new call that takes effect. */
  ghost predicate Advances(s: System, t: Tid, a: Action) {
    a != CallRead && a != CallWrite && Enabled(s, t, a) && Step(s, t, a) != s
  }

  ghost predicate Waits(p: Pc) { p.WantRead? || p.WantWrite? || p.Pending? }

  /** A writer is pending, read locks are held, and every thread that holds one waits to read again. */
  ghost predicate Deadlocked(s: System) {
    s.lock.pending && s.lock.read > 0 && forall t :: 0 <= t < |s.pc| ==> !s.pc[t].Reading?
  }

  /** Anything that waits can go on unless the lock is deadlocked. */
  lemma {:induction false} Progress(s: System, t: Tid) returns (u: Tid, a: Action)
    requires Inv(s) && t < |s.pc| && Waits(s.pc[t]) && !Deadlocked(s)
    ensures Advances(s, u, a) && (u == t || Holds(s.pc[u]) || s.pc[u].Pending?)
  {
    u, a := t, if s.pc[t].WantRead? then ReadTurn else PendTurn;
    assert s.pc[t].Pending? <==> s.pc[t] == Pending;
    if r :| 0 <= r < |s.pc| && s.pc[r].Reading? {
      u, a := r, CallRelease;
      TotalUpdate(s.pc, r, Idle);
    } else if w :| 0 <= w < |s.pc| && s.pc[w] == Writing {
      u, a := w, CallRelease;
    } else if p :| 0 <= p < |s.pc| && s.pc[p] == Pending {
      u, a := p, WriteTurn;
      assert Step(s, u, a).pc[u] == Writing;
    } else if s.pc[t].WantRead? {
      assert Step(s, u, a).pc[u].Reading?;
    } else {
      assert Step(s, u, a).pc[u] == Pending;
    }
  }

  lemma NoAdvance(s: System, t: Tid, a: Action)
    requires Inv(s) && Deadlocked(s)
    ensures !Advances(s, t, a)
  {
    if t < |s.pc| { assert s.pc[t] == Writing <==> s.pc[t].Writing?; }
  }

  /** In every run in which some thread waits, nothing can advance exactly when a
      writer is pending and every holder of a read lock waits to read again. */
  lemma {:induction false} StuckExactly(run: seq<System>, moves: seq<Move>, i: nat, t: Tid)
    requires Run(run, moves) && i < |run| && t < |run[i].pc| && Waits(run[i].pc[t])
    ensures (forall u, a :: !Advances(run[i], u, a)) <==> Deadlocked(run[i])
  {
    RunsKeepInv(run, moves, i);
    if Deadlocked(run[i]) {
      forall u, a ensures !Advances(run[i], u, a) { NoAdvance(run[i], u, a); }
    } else {
      var u, a := Progress(run[i], t);
    }
  }

  /** Without nested reads nothing ever gets stuck. */
  lemma {:induction false} NeverStuck(run: seq<System>, moves: seq<Move>, i: nat, t: Tid) returns (u: Tid, a: Action)
    requires Run(run, moves) && i < |run| && t < |run[i].pc| && Waits(run[i].pc[t])
    requires forall v :: 0 <= v < |run[i].pc| && run[i].pc[v].WantRead? ==> run[i].pc[v].held == 0
    ensures Advances(run[i], u, a) && (u == t || Holds(run[i].pc[u]) || run[i].pc[u].Pending?)
  {
    RunsKeepInv(run, moves, i);
    if Deadlocked(run[i]) {
      var h := SomeHolder(run[i].pc);
      assert false;
    }
    u, a := Progress(run[i], t);
  }

  /** A deadlock is for ever. */
  lemma {:induction false} DeadlockStays(run: seq<System>, moves: seq<Move>, i: nat, j: nat)
    requires Run(run, moves) && i <= j < |run| && Deadlocked(run[i])
    ensures Deadlocked(run[j])
  {
    if i < j {
      DeadlockStays(run, moves, i, j - 1);
      RunsKeepInv(run, moves, j - 1);
      assert StepAt(run, moves, j - 1);
      NoAdvance(run[j - 1], moves[j - 1].tid, moves[j - 1].action);
    }
  }

  /** One reader, one writer: the reader reads again behind the pending writer. */
  lemma NestedReadDeadlocks() returns (run: seq<System>, moves: seq<Move>)
    ensures Run(run, moves) && |moves| == 5 && Deadlocked(run[5])
  {
    moves := [Move(0, CallRead), Move(0, ReadTurn), Move(1, CallWrite), Move(1, PendTurn), Move(0, CallRead)];
    run := [System(Lock(0, 0, false), [Idle, Idle]), System(Lock(0, 0, false), [WantRead(0), Idle]),
            System(Lock(1, 0, false), [Reading(1), Idle]), System(Lock(1, 0, false), [Reading(1), WantWrite]),
            System(Lock(1, 0, true), [Reading(1), Pending]), System(Lock(1, 0, true), [WantRead(1), Pending])];
    forall i | 0 <= i < 5 ensures StepAt(run, moves, i) {}
    forall i | 0 <= i < 6 ensures Total(run[i].pc) < UINT_MAX { TotalTwo(run[i].pc); }
  }

  lemma TotalTwo(pc: seq<Pc>)
    requires |pc| == 2
    ensures Total(pc) == Held(pc[0]) + Held(pc[1])
  {
    assert pc[..1][..0] == [] && Total(pc[..1]) == Held(pc[0]);
    assert pc[..|pc| - 1] == pc[..1];
  }
}
