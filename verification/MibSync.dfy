/**
  MIB data sync: the counter in the ONU data entity (mib_seq_num_* in
  omci_mib.c), when the action thread increments it (omci_core.c), when a MIB
  reset is carried out, and which snapshot a MIB upload answers from
  (omci_onu_data.c).
 */
module MibSync {

  datatype Option<T> = None | Some(value: T)

  /** `sync` is absent while there is no ONU data entity. `version` numbers the
      states of the MIB as a read shows it, `copied` is the one the snapshot was
      taken of; `changes` and `autonomous` count the changes since the last full
      reset that the counter sees, and those it does not see. */
  datatype State = State(sync: Option<nat>, num: nat, copied: nat, version: nat, changes: nat, autonomous: nat)

  /** Action: a Create, Delete or Set; `stored` is the counter value when the
      request is a Set of the counter itself. Bump: a software image action.
      Autonomous: the ONU creates, deletes or writes an entity by itself, or an
      attribute with a get handler changes; none of this touches the counter.
      Reset and Upload carry the number of entries a snapshot taken now has. */
  datatype Op =
    | Action(handlerOk: bool, failsafe: bool, stored: Option<nat>)
    | Bump
    | Autonomous
    | Reset(force: bool, entries: nat)
    | Upload(entries: nat)
    | CopyTimeout

  ghost predicate OpOk(op: Op) { op.Action? && op.stored.Some? ==> op.stored.value < 256 }

  function Next(sync: nat): nat { if sync == 255 then 1 else sync + 1 }

  function Incremented(sync: Option<nat>): Option<nat> { if sync.Some? then Some(Next(sync.value)) else None }

  function Seq(s: State): nat { if s.sync.Some? then s.sync.value else 0 }

  predicate Full(s: State, force: bool) { force || Seq(s) != 0 || s.num == 0 }

  function Step(s: State, op: Op): State {
    match op
    case Action(handlerOk, failsafe, stored) =>
      if !handlerOk && !failsafe then s
      else
        var base := if handlerOk && stored.Some? && s.sync.Some? then stored else s.sync;
        s.(sync := Incremented(base), version := s.version + 1, changes := s.changes + 1)
    case Bump => s.(sync := Incremented(s.sync), version := s.version + 1, changes := s.changes + 1)
    case Autonomous => s.(version := s.version + 1, autonomous := s.autonomous + 1)
    case Reset(force, entries) =>
      if Full(s, force) then State(Some(0), entries, s.version + 1, s.version + 1, 0, 0) else s
    case Upload(entries) => if Seq(s) != 0 then s.(num := entries, copied := s.version) else s
    case CopyTimeout => s.(num := 0)
  }

  /** After mib_create, which ends with a forced reset. */
  function Start(entries: nat): State { State(Some(0), entries, 0, 0, 0, 0) }

  ghost predicate Inv(s: State) {
    && s.sync.Some? && s.sync.value < 256
    && (s.sync.value == 0 <==> s.changes == 0)
    && (s.sync.value == 0 ==> s.version == s.copied + s.autonomous)
  }

  function Run(entries: nat, ops: seq<Op>): State {
    if ops == [] then Start(entries) else Step(Run(entries, ops[..|ops| - 1]), ops[|ops| - 1])
  }

  lemma {:induction false} StepKeepsInv(s: State, op: Op)
    requires Inv(s) && OpOk(op)
    ensures Inv(Step(s, op))
  {}

  lemma {:induction false} RunsKeepInv(entries: nat, ops: seq<Op>)
    requires forall i :: 0 <= i < |ops| ==> OpOk(ops[i])
    ensures Inv(Run(entries, ops))
  {
    if ops != [] {
      RunsKeepInv(entries, ops[..|ops| - 1]);
      StepKeepsInv(Run(entries, ops[..|ops| - 1]), ops[|ops| - 1]);
    }
  }

  // ----- What a run amounts to, by its operations alone -----

  /** How many Creates, Deletes, Sets and software actions have succeeded since the
      last reset that was carried out. */
  ghost function Changes(entries: nat, ops: seq<Op>): nat
    decreases |ops|
  {
    if ops == [] then 0
    else
      var front, op := ops[..|ops| - 1], ops[|ops| - 1];
      match op
      case Action(handlerOk, failsafe, _) => Changes(entries, front) + if handlerOk || failsafe then 1 else 0
      case Bump => Changes(entries, front) + 1
      case Reset(force, _) =>
        if force || Changes(entries, front) != 0 || Held(entries, front) == 0 then 0 else Changes(entries, front)
      case _ => Changes(entries, front)
  }

  /** How many entries the snapshot held has. */
  ghost function Held(entries: nat, ops: seq<Op>): nat
    decreases |ops|
  {
    if ops == [] then entries
    else
      var front, op := ops[..|ops| - 1], ops[|ops| - 1];
      match op
      case Reset(force, now) =>
        if force || Changes(entries, front) != 0 || Held(entries, front) == 0 then now else Held(entries, front)
      case Upload(now) => if Changes(entries, front) != 0 then now else Held(entries, front)
      case CopyTimeout => 0
      case _ => Held(entries, front)
  }

  /** The machine counts exactly these. */
  lemma {:induction false} Counted(entries: nat, ops: seq<Op>)
    requires forall i :: 0 <= i < |ops| ==> OpOk(ops[i])
    ensures Run(entries, ops).changes == Changes(entries, ops) && Run(entries, ops).num == Held(entries, ops)
  {
    if ops != [] {
      Counted(entries, ops[..|ops| - 1]);
      RunsKeepInv(entries, ops[..|ops| - 1]);
    }
  }

  /** Some Create, Delete, Set or software action has succeeded since the last full reset. */
  ghost predicate ChangedSinceReset(entries: nat, ops: seq<Op>) { Changes(entries, ops) != 0 }

  /** In every run the counter is 0 exactly when nothing has changed since the last full reset. */
  lemma {:induction false} ZeroExactly(entries: nat, ops: seq<Op>)
    requires forall i :: 0 <= i < |ops| ==> OpOk(ops[i])
    ensures Run(entries, ops).sync == Some(0) <==> !ChangedSinceReset(entries, ops)
  {
    RunsKeepInv(entries, ops);
    Counted(entries, ops);
  }

  /** A reset is skipped exactly when it is not forced, nothing has changed and a snapshot is held. */
  lemma {:induction false} SkippedExactly(entries: nat, ops: seq<Op>, force: bool)
    requires forall i :: 0 <= i < |ops| ==> OpOk(ops[i])
    ensures Full(Run(entries, ops), force) <==> force || ChangedSinceReset(entries, ops) || Held(entries, ops) == 0
  {
    ZeroExactly(entries, ops);
    RunsKeepInv(entries, ops);
    Counted(entries, ops);
  }

  /** The MIB has changed by itself since the last full reset. */
  ghost predicate AutonomousSinceReset(entries: nat, ops: seq<Op>)
    decreases |ops|
  {
    if ops == [] then false
    else
      var front, op := ops[..|ops| - 1], ops[|ops| - 1];
      if op.Reset? && (op.force || Changes(entries, front) != 0 || Held(entries, front) == 0) then false
      else op.Autonomous? || AutonomousSinceReset(entries, front)
  }

  lemma {:induction false} AutonomousCounted(entries: nat, ops: seq<Op>)
    requires forall i :: 0 <= i < |ops| ==> OpOk(ops[i])
    ensures Run(entries, ops).autonomous != 0 <==> AutonomousSinceReset(entries, ops)
  {
    if ops != [] {
      AutonomousCounted(entries, ops[..|ops| - 1]);
      SkippedExactly(entries, ops[..|ops| - 1], ops[|ops| - 1].Reset? && ops[|ops| - 1].force);
    }
  }

  /** An upload answers from a snapshot that is not of the current MIB. */
  ghost predicate Stale(s: State, now: nat) {
    var t := Step(s, Upload(now));
    t.num != 0 && t.copied != t.version
  }

  /** In every run an upload answers from a stale snapshot exactly when the counter
      is 0, a snapshot is held, and the MIB has changed by itself since the last
      full reset. */
  lemma {:induction false} StaleExactly(entries: nat, ops: seq<Op>, now: nat)
    requires forall i :: 0 <= i < |ops| ==> OpOk(ops[i])
    ensures Stale(Run(entries, ops), now) <==>
      !ChangedSinceReset(entries, ops) && Held(entries, ops) != 0 && AutonomousSinceReset(entries, ops)
  {
    RunsKeepInv(entries, ops);
    ZeroExactly(entries, ops);
    Counted(entries, ops);
    AutonomousCounted(entries, ops);
  }

  lemma RunStep(entries: nat, ops: seq<Op>, op: Op)
    ensures Run(entries, ops + [op]) == Step(Run(entries, ops), op)
  {
    assert (ops + [op])[..|ops|] == ops;
  }

  /** One change by the ONU itself after a reset is enough. */
  lemma StaleUpload(entries: nat, now: nat)
    requires entries > 0
    ensures Stale(Run(entries, [] + [Autonomous]), now)
  {
    RunStep(entries, [], Autonomous);
  }

  /** An upload finds no snapshot to answer from although entities exist: nothing
      changed since the reset and the snapshot has timed out. */
  lemma {:induction false} EmptyUploadExactly(entries: nat, ops: seq<Op>, now: nat)
    requires (forall i :: 0 <= i < |ops| ==> OpOk(ops[i])) && now > 0
    ensures Step(Run(entries, ops), Upload(now)).num == 0 <==>
      !ChangedSinceReset(entries, ops) && Held(entries, ops) == 0
  {
    RunsKeepInv(entries, ops);
    ZeroExactly(entries, ops);
    Counted(entries, ops);
  }

  /** A reset, an upload, and an upload again after the snapshot has timed out: it fails. */
  lemma UploadFailsAfterTimeout(entries: nat)
    requires entries > 0
    ensures var ops := [Reset(true, entries)] + [Upload(entries)] + [CopyTimeout];
            && Run(entries, ops[..1]).num == entries && Run(entries, ops[..2]).num == entries
            && Step(Run(entries, ops), Upload(entries)).num == 0
  {
    var ops := [Reset(true, entries)] + [Upload(entries)] + [CopyTimeout];
    RunStep(entries, [], Reset(true, entries));
    assert [] + [Reset(true, entries)] == ops[..1];
    RunStep(entries, ops[..1], Upload(entries));
    assert ops[..1] + [Upload(entries)] == ops[..2];
    RunStep(entries, ops[..2], CopyTimeout);
    assert ops[..2] + [CopyTimeout] == ops;
  }

  lemma CountsNext(n: nat)
    ensures Next(if n == 0 then 0 else (n - 1) % 255 + 1) == n % 255 + 1
  {}

  ghost predicate Counts(s: State) {
    s.sync == Some(if s.changes == 0 then 0 else (s.changes - 1) % 255 + 1)
  }

  lemma StepCounts(s: State, op: Op)
    requires Counts(s) && (op.Action? ==> op.stored.None?)
    ensures Counts(Step(s, op))
  {
    CountsNext(s.changes);
  }

  lemma {:induction false} RunCounts(entries: nat, ops: seq<Op>)
    requires forall i :: 0 <= i < |ops| ==> ops[i].Action? ==> ops[i].stored.None?
    ensures Counts(Run(entries, ops))
  {
    if ops != [] {
      RunCounts(entries, ops[..|ops| - 1]);
      StepCounts(Run(entries, ops[..|ops| - 1]), ops[|ops| - 1]);
    }
  }

  /** Unless the counter itself is set, it counts the changes since the last full
      reset: 0, then 1 to 255, then from 1 again. */
  lemma {:induction false} CountsChanges(entries: nat, ops: seq<Op>)
    requires forall i :: 0 <= i < |ops| ==> ops[i].Action? ==> ops[i].stored.None?
    ensures var n := Changes(entries, ops);
            Run(entries, ops).sync == Some(if n == 0 then 0 else (n - 1) % 255 + 1)
  {
    Counted(entries, ops);
    RunCounts(entries, ops);
  }

  /** The value of the counter one operation later. */
  ghost function After(sync: nat, changes: nat, held: nat, op: Op): nat {
    match op
    case Action(handlerOk, failsafe, stored) =>
      if !handlerOk && !failsafe then sync
      else if handlerOk && stored.Some? then (if stored.value == 255 then 1 else stored.value + 1)
      else if sync == 255 then 1 else sync + 1
    case Bump => if sync == 255 then 1 else sync + 1
    case Reset(force, _) => if force || changes != 0 || held == 0 then 0 else sync
    case _ => sync
  }

  /** In every run one more success counts once, a Set of the counter leaves the
      stored value plus one, and only a reset brings it back to 0. */
  lemma {:induction false} CounterFollows(entries: nat, ops: seq<Op>, op: Op)
    requires (forall i :: 0 <= i < |ops| ==> OpOk(ops[i])) && OpOk(op)
    ensures Run(entries, ops).sync.Some?
    ensures Run(entries, ops + [op]).sync ==
      Some(After(Run(entries, ops).sync.value, Changes(entries, ops), Held(entries, ops), op))
  {
    RunsKeepInv(entries, ops);
    Counted(entries, ops);
    RunStep(entries, ops, op);
  }

  // ----- The counter, the snapshot count and the reset in place -----

  class Sync {
    var sync: Option<nat>
    var num: nat
    ghost var copied: nat
    ghost var version: nat
    ghost var changes: nat
    ghost var autonomous: nat

    ghost function S(): State reads this { State(sync, num, copied, version, changes, autonomous) }

    /** mib_create: a forced reset of an empty MIB. */
    constructor (entries: nat)
      ensures S() == Start(entries)
    {
      sync, num, copied, version, changes, autonomous := Some(0), entries, 0, 0, 0, 0;
    }

    /** mib_seq_num_inc; fails without an ONU data entity. */
    method SeqNumInc() returns (ok: bool)
      modifies this`sync
      ensures ok == old(sync).Some?
      ensures sync == if ok then Some(if old(sync).value == 255 then 1 else old(sync).value + 1) else None
    {
      ok := sync.Some?;
      if ok { sync := Some(if sync.value == 255 then 1 else sync.value + 1); }
    }

    /** mib_seq_num_clear */
    method SeqNumClear() returns (ok: bool)
      modifies this`sync
      ensures ok == old(sync).Some? && sync == if ok then Some(0) else None
    {
      ok := sync.Some?;
      if ok { sync := Some(0); }
    }

    /** mib_seq_num_get: leaves the caller's value alone when it fails. */
    method SeqNumGet(before: nat) returns (seqNum: nat)
      ensures seqNum == if sync.Some? then sync.value else before
    {
      seqNum := if sync.Some? then sync.value else before;
    }

    /** The action thread around a Create, Delete or Set. */
    method Act(handlerOk: bool, failsafe: bool, stored: Option<nat>)
      modifies this
      ensures S() == Step(old(S()), Action(handlerOk, failsafe, stored))
    {
      var ok := handlerOk;
      if handlerOk && stored.Some? && sync.Some? { sync := stored; }
      if failsafe && !ok { ok := true; }
      if ok {
        var _ := SeqNumInc();
        version, changes := version + 1, changes + 1;
      }
    }

    /** mib_reset. Clearing the counter fails, because destroying the MIB has removed
        the entity that holds it; the counter is 0 because the reset handler creates
        that entity anew. */
    method ResetMib(force: bool, entries: nat) returns (ghost cleared: bool)
      modifies this
      ensures S() == Step(old(S()), Reset(force, entries)) && !cleared
    {
      cleared := false;
      var seqNum := SeqNumGet(0);
      if force || seqNum != 0 || num == 0 {
        sync := None;
        var ok := SeqNumClear();
        cleared := ok;
        sync := Some(0);
        version, changes, autonomous := version + 1, 0, 0;
        num, copied := entries, version;
      }
    }

    /** mib_upload_action_handle: the answer is the number of entries; none is an error. */
    method UploadMib(entries: nat) returns (ok: bool)
      modifies this
      ensures S() == Step(old(S()), Upload(entries)) && ok == (num != 0)
    {
      var seqNum := SeqNumGet(0);
      if seqNum != 0 { num, copied := entries, version; }
      ok := num != 0;
    }
  }
}
