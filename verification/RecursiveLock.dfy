/**
  The generic recursive lock of omci_os.c, over any number of threads. The inner
  lock is modelled too, because the error paths of the release return without
  giving it back.
 */
module RecursiveLock {

  type Tid = nat

  /** struct recursive_lock; `stuck` says that the inner lock was never released. */
  datatype Lock = Lock(count: nat, owner: Tid, stuck: bool)

  datatype Outcome = Taken | Spin | Released | Failed

  /** One turn of generic_recursive_lock_get by thread t. */
  function Get(l: Lock, t: Tid): (Lock, Outcome)
    requires !l.stuck
  {
    if l.count == 0 then (l.(owner := t, count := 1), Taken)
    else if l.owner == t then (l.(count := l.count + 1), Taken)
    else (l, Spin)
  }

  /** generic_recursive_lock_release by thread t. */
  function Release(l: Lock, t: Tid): (Lock, Outcome)
    requires !l.stuck
  {
    if l.owner == t && l.count > 0 then (l.(count := l.count - 1), Released)
    else (l.(stuck := true), Failed)
  }

  class Mutable {
    var count: nat
    var owner: Tid
    var innerHeld: bool

    ghost function View(): Lock
      reads this
    {
      Lock(count, owner, innerHeld)
    }

    /** generic_recursive_lock_init on zeroed memory. */
    constructor ()
      ensures View() == Lock(0, 0, false)
    {
      count, owner, innerHeld := 0, 0, false;
    }

    method GetTurn(t: Tid) returns (o: Outcome)
      requires !innerHeld
      modifies this
      ensures (View(), o) == Get(old(View()), t)
    {
      innerHeld := true;
      if count == 0 {
        owner := t;
        count := count + 1;
      } else {
        if owner == t {
          count := count + 1;
        } else {
          innerHeld := false;
          return Spin;
        }
      }
      innerHeld := false;
      return Taken;
    }

    method ReleaseLock(t: Tid) returns (o: Outcome)
      requires !innerHeld
      modifies this
      ensures (View(), o) == Release(old(View()), t)
    {
      innerHeld := true;
      if owner == t {
        if count != 0 {
          count := count - 1;
        } else {
          return Failed;
        }
      } else {
        return Failed;
      }
      innerHeld := false;
      return Released;
    }
  }

  // ----- Runs: who holds the lock, and how often -----

  datatype Move = GetBy(tid: Tid) | ReleaseBy(tid: Tid)

  /** The lock with, per thread, its successful gets minus its successful releases. */
  datatype System = System(lock: Lock, depth: map<Tid, nat>)

  function Depth(s: System, t: Tid): nat { if t in s.depth then s.depth[t] else 0 }

  function Step(s: System, m: Move): System
    requires !s.lock.stuck
  {
    match m
    case GetBy(t) =>
      var (l, o) := Get(s.lock, t);
      System(l, if o == Taken then s.depth[t := Depth(s, t) + 1] else s.depth)
    case ReleaseBy(t) =>
      var (l, o) := Release(s.lock, t);
      System(l, if o == Released && Depth(s, t) > 0 then s.depth[t := Depth(s, t) - 1] else s.depth)
  }

  /** The count is the owner's depth and nobody else holds the lock. */
  ghost predicate Inv(s: System) {
    s.lock.count == Depth(s, s.lock.owner) && forall t :: t != s.lock.owner ==> Depth(s, t) == 0
  }

  lemma StepKeepsInv(s: System, m: Move)
    requires Inv(s) && !s.lock.stuck
    ensures Inv(Step(s, m))
  {
    var s' := Step(s, m);
    forall t | t != s'.lock.owner ensures Depth(s', t) == 0 {
      assert Depth(s, t) == 0 || t == s.lock.owner;
    }
  }

  ghost predicate StepAt(run: seq<System>, moves: seq<Move>, i: nat)
    requires |run| == |moves| + 1 && i < |moves|
  {
    !run[i].lock.stuck && run[i + 1] == Step(run[i], moves[i])
  }

  ghost predicate Run(run: seq<System>, moves: seq<Move>) {
    && |run| == |moves| + 1 && run[0] == System(Lock(0, 0, false), map[])
    && forall i :: 0 <= i < |moves| ==> StepAt(run, moves, i)
  }

  lemma {:induction false} RunsKeepInv(run: seq<System>, moves: seq<Move>, i: nat)
    requires Run(run, moves) && i < |run|
    ensures Inv(run[i])
  {
    if i > 0 {
      RunsKeepInv(run, moves, i - 1);
      assert StepAt(run, moves, i - 1);
      StepKeepsInv(run[i - 1], moves[i - 1]);
    }
  }

  /** How often each thread holds the lock after the first n moves: a get counts
      once when no other thread holds it, a release takes one get back. */
  ghost function HeldBy(moves: seq<Move>, n: nat): Tid -> nat
    requires n <= |moves|
  {
    if n == 0 then _ => 0 else After(HeldBy(moves, n - 1), moves[n - 1])
  }

  ghost function After(held: Tid -> nat, m: Move): Tid -> nat {
    match m
    case GetBy(t) => if NoOther(held, t) then u => if u == t then held(t) + 1 else held(u) else held
    case ReleaseBy(t) => u => if u == t && held(t) > 0 then held(t) - 1 else held(u)
  }

  ghost predicate NoOther(held: Tid -> nat, t: Tid) { forall u :: u != t ==> held(u) == 0 }

  /** In every run the lock is held as its moves say, and its count is the owner's. */
  lemma {:induction false} HeldExactly(run: seq<System>, moves: seq<Move>, n: nat)
    requires Run(run, moves) && n < |run|
    ensures forall t :: Depth(run[n], t) == HeldBy(moves, n)(t)
    ensures run[n].lock.count == HeldBy(moves, n)(run[n].lock.owner)
  {
    RunsKeepInv(run, moves, n);
    if n > 0 {
      HeldExactly(run, moves, n - 1);
      HeldStep(run, moves, n - 1, HeldBy(moves, n - 1));
    }
  }

  lemma HeldStep(run: seq<System>, moves: seq<Move>, m: nat, held: Tid -> nat)
    requires Run(run, moves) && m < |moves| && forall t :: Depth(run[m], t) == held(t)
    ensures forall t :: Depth(run[m + 1], t) == After(held, moves[m])(t)
  {
    assert StepAt(run, moves, m);
    var t := moves[m].tid;
    GetSucceedsExactly(run, moves, m, t);
    ReleaseSticksExactly(run, moves, m, t);
    if !NoOther(held, t) {
      var u :| u != t && held(u) != 0;
      assert Depth(run[m], u) != 0;
    }
  }

  /** At most one thread holds the lock, in every interleaving. */
  lemma OneHolder(run: seq<System>, moves: seq<Move>, i: nat, t: Tid, u: Tid)
    requires Run(run, moves) && i < |run| && Depth(run[i], t) > 0 && Depth(run[i], u) > 0
    ensures t == u && t == run[i].lock.owner
  {
    RunsKeepInv(run, moves, i);
    assert t == run[i].lock.owner && u == run[i].lock.owner;
  }

  /** A get succeeds exactly when no other thread holds the lock. */
  lemma GetSucceedsExactly(run: seq<System>, moves: seq<Move>, i: nat, t: Tid)
    requires Run(run, moves) && i < |run| && !run[i].lock.stuck
    ensures Get(run[i].lock, t).1 == Taken <==> forall u :: u != t ==> Depth(run[i], u) == 0
  {
    RunsKeepInv(run, moves, i);
    if run[i].lock.count != 0 && run[i].lock.owner != t { assert Depth(run[i], run[i].lock.owner) > 0; }
  }

  /** A release fails, and leaves the inner lock taken for good, exactly when
      the caller does not hold the recursive lock. */
  lemma ReleaseSticksExactly(run: seq<System>, moves: seq<Move>, i: nat, t: Tid)
    requires Run(run, moves) && i < |run| && !run[i].lock.stuck
    ensures Release(run[i].lock, t).0.stuck <==> Depth(run[i], t) == 0
    ensures Release(run[i].lock, t).1 == Failed <==> Depth(run[i], t) == 0
  {
    RunsKeepInv(run, moves, i);
  }

  /** Over a whole run: the inner lock is stuck at the end exactly when some release came from a non-holder. */
  lemma {:induction false} StuckExactly(run: seq<System>, moves: seq<Move>, n: nat)
    requires Run(run, moves) && n < |run|
    ensures run[n].lock.stuck <==> exists i :: 0 <= i < n && moves[i].ReleaseBy? && Depth(run[i], moves[i].tid) == 0
  {
    if n > 0 {
      StuckExactly(run, moves, n - 1);
      assert StepAt(run, moves, n - 1);
      match moves[n - 1]
      case GetBy(t) =>
        assert !run[n].lock.stuck;
      case ReleaseBy(t) =>
        ReleaseSticksExactly(run, moves, n - 1, t);
        if Depth(run[n - 1], t) == 0 { assert moves[n - 1].ReleaseBy?; }
    }
  }

  /** One thread takes the lock, another one that never did releases it: from then
      on the inner lock is taken. */
  lemma {:induction false} StrangerSticks(t: Tid, u: Tid) returns (run: seq<System>, moves: seq<Move>)
    requires t != u
    ensures Run(run, moves) && moves == [GetBy(t), ReleaseBy(u)] && run[2].lock.stuck && Depth(run[2], t) == 1
  {
    moves := [GetBy(t), ReleaseBy(u)];
    var s0 := System(Lock(0, 0, false), map[]);
    var s1 := Step(s0, GetBy(t));
    run := [s0, s1, Step(s1, ReleaseBy(u))];
    assert StepAt(run, moves, 0) && StepAt(run, moves, 1);
    StuckExactly(run, moves, 2);
  }
}
