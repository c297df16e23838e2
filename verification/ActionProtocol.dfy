/**
  The core thread, the action thread and the retransmission cache of
  omci_core.c. The two threads share `run`, `ready`, `msg` and `rsp`; each
  unlocked access and each locked section is one step, the steps interleave
  freely, and every event wait may time out.
 */
module ActionProtocol {

  /** A request: its transaction correlation identifier, whether it asks for an
      acknowledgement, and the rest. */
  datatype Msg = Msg(tci: nat, ar: bool, body: nat)

  /** A response; only acknowledgements (ak) are sent. */
  datatype Rsp = Rsp(ak: bool, tci: nat, body: nat)

  /** rsp_create: an empty response to m. */
  function Empty(m: Msg): Rsp { Rsp(m.ar, m.tci, 0) }

  /** Priority bit of a TCI: one cache slot per priority. */
  function Prio(tci: nat): (p: nat)
    ensures p < 2
  {
    (tci / 0x8000) % 2
  }

  /** An entry of retransmit.data */
  datatype Slot = Slot(valid: bool, tci: nat, rsp: Rsp)

  predicate Hits(cache: seq<Slot>, tci: nat)
    requires |cache| == 2
  {
    cache[Prio(tci)].valid && cache[Prio(tci)].tci == tci
  }

  /** Program points of omci_core_thread_main and the service functions. */
  datatype Core =
    | Idle
    | Dispatch(m: Msg)     // about to read action.run
    | Delayed(m: Msg)      // service_delayed_action
    | Retransmit(m: Msg)   // service_retransmission
    | PutRsp(m: Msg)       // service_action: clear action.rsp
    | PutMsg(m: Msg)       //   store action.msg
    | PutRun(m: Msg)       //   raise action.run
    | Wake(m: Msg)         //   signal action_event
    | Wait(m: Msg)         //   wait for action_handled_event
    | Check(m: Msg)        //   read action.run again
    | Take(m: Msg)         //   fetch the result

  /** Program points of action_thread_main. */
  datatype Action = Asleep | Begin | Working | Publish(r: Rsp) | Signal

  /** What the core thread hands to omci_msg_send. */
  datatype Out = Answer(r: Rsp) | Repeat(m: Msg, r: Rsp) | Busy(r: Rsp)

  /** The visible history of a run. */
  datatype Ev = Started(m: Msg) | Finished(m: Msg, r: Rsp) | Flushed

  datatype State = State(
    core: Core, action: Action,
    run: bool, ready: bool, msg: Msg, rsp: Rsp, busyRsp: Rsp,
    actionEvent: bool, handledEvent: bool,
    cache: seq<Slot>,
    past: Past)

  /** What happened so far: requests started, requests served with their results,
      results consumed, everything sent, and the order of events. */
  datatype Past = Past(
    started: seq<Msg>, served: seq<Msg>, results: seq<Rsp>,
    consumed: seq<Rsp>, sent: seq<Out>, log: seq<Ev>)

  datatype Label =
    | Receive(m: Msg) | CoreStep | CoreTimeout
    | ActionStep | Handled(r: Rsp)
    | FlushCache

  function Send(p: Past, o: Out): Past { p.(sent := p.sent + [o]) }

  function SendBusy(s: State, m: Msg): State {
    s.(core := Idle, busyRsp := Empty(m), past := Send(s.past, Busy(Empty(m))))
  }

  /** Consume a finished result: answer if it is an acknowledgement. */
  function ConsumeRsp(p: Past, r: Rsp): Past {
    var q := p.(consumed := p.consumed + [r]);
    if r.ak then Send(q, Answer(r)) else q
  }

  function Consume(s: State): State { s.(ready := false, past := ConsumeRsp(s.past, s.rsp)) }

  function Start(p: Past, m: Msg): Past { p.(started := p.started + [m], log := p.log + [Started(m)]) }

  function Finish(p: Past, m: Msg, r: Rsp): Past {
    p.(served := p.served + [m], results := p.results + [r], log := p.log + [Finished(m, r)])
  }

  function CoreNext(s: State): State
    requires |s.cache| == 2
  {
    match s.core
    case Idle => s
    case Dispatch(m) =>
      if s.run then s.(core := Idle, past := Send(s.past, Busy(s.busyRsp))) else s.(core := Delayed(m))
    case Delayed(m) =>
      if !s.ready then s.(core := Retransmit(m))
      else Consume(s).(core := if s.rsp.ak then Idle else Retransmit(m))
    case Retransmit(m) =>
      var slot := s.cache[Prio(m.tci)];
      if Hits(s.cache, m.tci) && slot.rsp.ak then s.(core := Idle, past := Send(s.past, Repeat(m, slot.rsp)))
      else s.(core := PutRsp(m))
    case PutRsp(m) => s.(rsp := Empty(m), core := PutMsg(m))
    case PutMsg(m) => s.(msg := m, core := PutRun(m))
    case PutRun(m) => s.(run := true, core := Wake(m), past := Start(s.past, m))
    case Wake(m) => s.(actionEvent := true, core := Wait(m))
    case Wait(m) => s.(handledEvent := false, core := Check(m))
    case Check(m) => if s.run then SendBusy(s, m) else s.(core := Take(m))
    case Take(m) => Consume(s).(core := Idle)
  }

  function ActionNext(s: State): State
    requires |s.cache| == 2
  {
    match s.action
    case Asleep => s.(actionEvent := false, action := Begin)
    case Begin => s.(ready := false, action := Working)
    case Working => s
    case Publish(r) =>
      s.(rsp := r, run := false, ready := true, action := Signal,
         cache := if r.ak then s.cache[Prio(s.msg.tci) := Slot(true, s.msg.tci, r)] else s.cache,
         past := Finish(s.past, s.msg, r))
    case Signal => s.(handledEvent := true, action := Asleep)
  }

  predicate Enabled(s: State, l: Label) {
    match l
    case Receive(m) => s.core == Idle
    case CoreStep => !s.core.Idle? && (s.core.Wait? ==> s.handledEvent)
    case CoreTimeout => s.core.Wait?
    case ActionStep => !s.action.Working? && (s.action.Asleep? ==> s.actionEvent)
    case Handled(r) => s.action.Working? && r.tci == s.msg.tci  // handlers leave the header alone
    case FlushCache => true
  }

  function Next(s: State, l: Label): State
    requires |s.cache| == 2 && Enabled(s, l)
  {
    match l
    case Receive(m) => s.(core := Dispatch(m))
    case CoreStep => CoreNext(s)
    case CoreTimeout => SendBusy(s, s.core.m)
    case ActionStep => ActionNext(s)
    case Handled(r) => s.(action := Publish(r))
    case FlushCache =>
      s.(cache := [s.cache[0].(valid := false), s.cache[1].(valid := false)],
         past := s.past.(log := s.past.log + [Flushed]))
  }

  // ----- What the history says -----

  /** The cache slot of priority p that this history leaves. */
  ghost function SlotOf(log: seq<Ev>, p: nat): Slot {
    if log == [] then Slot(false, 0, Rsp(false, 0, 0))
    else match log[|log| - 1]
      case Started(_) => SlotOf(log[..|log| - 1], p)
      case Finished(m, r) =>
        if r.ak && Prio(m.tci) == p then Slot(true, m.tci, r) else SlotOf(log[..|log| - 1], p)
      case Flushed => SlotOf(log[..|log| - 1], p).(valid := false)
  }

  ghost function Acks(rs: seq<Rsp>): seq<Rsp> {
    if rs == [] then [] else Acks(rs[..|rs| - 1]) + (if rs[|rs| - 1].ak then [rs[|rs| - 1]] else [])
  }

  /** The results sent as answers, in order. */
  ghost function Answered(sent: seq<Out>): seq<Rsp> {
    if sent == [] then []
    else Answered(sent[..|sent| - 1]) + (if sent[|sent| - 1].Answer? then [sent[|sent| - 1].r] else [])
  }

  lemma AnsweredGrow(sent: seq<Out>, o: Out)
    ensures Answered(sent + [o]) == if o.Answer? then Answered(sent) + [o.r] else Answered(sent)
  {
    assert (sent + [o])[..|sent|] == sent;
  }

  /** The requests finished according to the log, and their results. */
  ghost function FinishedMsgs(log: seq<Ev>): seq<Msg> {
    if log == [] then []
    else FinishedMsgs(log[..|log| - 1]) + (if log[|log| - 1].Finished? then [log[|log| - 1].m] else [])
  }

  ghost function FinishedRsps(log: seq<Ev>): seq<Rsp> {
    if log == [] then []
    else FinishedRsps(log[..|log| - 1]) + (if log[|log| - 1].Finished? then [log[|log| - 1].r] else [])
  }

  lemma LogGrows(log: seq<Ev>, e: Ev)
    ensures FinishedMsgs(log + [e]) == if e.Finished? then FinishedMsgs(log) + [e.m] else FinishedMsgs(log)
    ensures FinishedRsps(log + [e]) == if e.Finished? then FinishedRsps(log) + [e.r] else FinishedRsps(log)
  {
    assert (log + [e])[..|log|] == log;
  }

  /** Which result an entry of the log is. */
  lemma {:induction false} LogIndex(log: seq<Ev>, k: nat) returns (j: nat)
    requires k < |log| && log[k].Finished?
    ensures j < |FinishedMsgs(log)| == |FinishedRsps(log)|
    ensures FinishedMsgs(log)[j] == log[k].m && FinishedRsps(log)[j] == log[k].r
  {
    var n := |log| - 1;
    SameCount(log[..n]);
    if k == n { j := |FinishedMsgs(log[..n])|; } else { j := LogIndex(log[..n], k); }
  }

  lemma {:induction false} SameCount(log: seq<Ev>)
    ensures |FinishedMsgs(log)| == |FinishedRsps(log)|
  {
    if log != [] { SameCount(log[..|log| - 1]); }
  }

  lemma SlotGrows(log: seq<Ev>, e: Ev, p: nat)
    ensures SlotOf(log + [e], p) ==
            match e
            case Started(_) => SlotOf(log, p)
            case Finished(m, r) => if r.ak && Prio(m.tci) == p then Slot(true, m.tci, r) else SlotOf(log, p)
            case Flushed => SlotOf(log, p).(valid := false)
  {
    assert (log + [e])[..|log|] == log;
  }

  lemma AcksGrow(rs: seq<Rsp>, r: Rsp)
    ensures Acks(rs + [r]) == (if r.ak then Acks(rs) + [r] else Acks(rs))
  {
    assert (rs + [r])[..|rs|] == rs;
  }

  // ----- The invariant -----

  predicate Resting(a: Action) { a.Asleep? || a.Signal? }

  /** From raising `run` until taking the result the core thread deals with the latest request. */
  predicate Owning(c: Core) { c.Wake? || c.Wait? || c.Check? || c.Take? }

  /** Who owns the action record: at any time exactly one party. */
  ghost predicate Control(s: State) {
    && |s.cache| == 2
    && (s.ready ==> !s.run)
    && (s.run ==> (s.core.Wake? && !s.actionEvent && Resting(s.action))
                  || (!s.core.Wake? && s.actionEvent && Resting(s.action))
                  || (!s.core.Wake? && !s.actionEvent && !Resting(s.action)))
    && (!s.run ==> !s.actionEvent && Resting(s.action) && !s.core.Wake?)
    && (s.core.Delayed? ==> !s.run)
    && (s.core.Retransmit? || s.core.PutRsp? || s.core.PutMsg? || s.core.PutRun? ==> !s.run && !s.ready)
    && (s.core.PutRsp? || s.core.PutMsg? || s.core.PutRun? ==> !Hits(s.cache, s.core.m.tci))
    && (s.core.PutRun? || s.core.Wake? ==> s.msg == s.core.m)
    && (s.core.Wait? || s.core.Check? ==> s.run != s.ready)
    && (s.core.Take? ==> s.ready)
    && (s.action.Publish? ==> s.action.r.tci == s.msg.tci)
  }

  /** Requests are served one after another: all but a running one are finished. */
  ghost predicate InOrder(p: Past, run: bool, msg: Msg) {
    && |p.served| == |p.results| && p.started == (if run then p.served + [msg] else p.served)
    && FinishedMsgs(p.log) == p.served && FinishedRsps(p.log) == p.results
  }

  ghost predicate OwnRequest(p: Past, core: Core) {
    Owning(core) ==> |p.started| > 0 && p.started[|p.started| - 1] == core.m
  }

  /** Results are consumed in order, each once, and the acknowledged ones answered. */
  ghost predicate Consumed(p: Past, ready: bool, rsp: Rsp) {
    p.results == (if ready then p.consumed + [rsp] else p.consumed) && Answered(p.sent) == Acks(p.consumed)
  }

  /** Every result carries the TCI of its request. */
  ghost predicate TciKept(p: Past) {
    |p.served| == |p.results| && forall k :: 0 <= k < |p.served| ==> p.results[k].tci == p.served[k].tci
  }

  ghost predicate SlotOk(slot: Slot) { slot.valid ==> slot.rsp.ak && slot.rsp.tci == slot.tci }

  /** The cache is what the history leaves, and holds acknowledgements of its TCIs only. */
  ghost predicate CacheOk(log: seq<Ev>, cache: seq<Slot>) {
    |cache| == 2 && cache[0] == SlotOf(log, 0) && cache[1] == SlotOf(log, 1) && SlotOk(cache[0]) && SlotOk(cache[1])
  }

  ghost predicate History(s: State) {
    && InOrder(s.past, s.run, s.msg) && OwnRequest(s.past, s.core) && TciKept(s.past)
    && Consumed(s.past, s.ready, s.rsp) && CacheOk(s.past.log, s.cache)
  }

  /** While the core thread is between requests, the stored busy response is that of the running one. */
  ghost predicate BusyOk(s: State) {
    s.run && (s.core.Idle? || s.core.Dispatch?) ==> s.busyRsp == Empty(s.msg)
  }

  ghost predicate Inv(s: State) { Control(s) && History(s) && BusyOk(s) }

  lemma PreparingKeepsControl(s: State)
    requires Control(s) && (s.core.Dispatch? || s.core.Delayed? || s.core.Retransmit? || s.core.PutRsp?)
    requires SlotOk(s.cache[0]) && SlotOk(s.cache[1])
    ensures Control(CoreNext(s))
  {}

  lemma ActingKeepsControl(s: State)
    requires Control(s) && (s.core.PutMsg? || s.core.PutRun? || Owning(s.core))
    ensures Control(CoreNext(s))
  {}

  lemma CoreKeepsControl(s: State)
    requires Control(s) && Enabled(s, CoreStep) && SlotOk(s.cache[0]) && SlotOk(s.cache[1])
    ensures Control(CoreNext(s))
  {
    if s.core.PutMsg? || s.core.PutRun? || Owning(s.core) { ActingKeepsControl(s); } else { PreparingKeepsControl(s); }
  }

  lemma OthersKeepControl(s: State, l: Label)
    requires Control(s) && Enabled(s, l) && l != CoreStep
    ensures Control(Next(s, l))
  {}

  // ----- The history, step by step -----

  /** t differs from s in nothing the history speaks of; what has been sent since is no answer. */
  ghost predicate SameHistory(s: State, t: State) {
    && t.past == s.past.(sent := t.past.sent) && Answered(t.past.sent) == Answered(s.past.sent)
    && t.run == s.run && t.ready == s.ready && t.cache == s.cache
    && (s.run ==> t.msg == s.msg) && (s.ready ==> t.rsp == s.rsp)
    && (Owning(t.core) ==> Owning(s.core) && t.core.m == s.core.m)
  }

  lemma CarryHistory(s: State, t: State)
    requires History(s) && SameHistory(s, t)
    ensures History(t)
  {}

  lemma ConsumePast(p: Past, r: Rsp)
    requires Consumed(p, true, r)
    ensures Consumed(ConsumeRsp(p, r), false, r)
  {
    AcksGrow(p.consumed, r);
    AnsweredGrow(p.sent, Answer(r));
  }

  /** Consuming touches neither what was started and served nor the log. */
  lemma ConsumeFrame(p: Past, r: Rsp)
    ensures var q := ConsumeRsp(p, r);
            q.started == p.started && q.served == p.served && q.results == p.results && q.log == p.log
  {}

  lemma ConsumeHistory(s: State, t: State)
    requires History(s) && s.ready && !s.run && !t.ready && !t.run && t.cache == s.cache && !Owning(t.core)
    requires t.past == ConsumeRsp(s.past, s.rsp)
    ensures History(t)
  {
    ConsumePast(s.past, s.rsp);
    ConsumeFrame(s.past, s.rsp);
  }

  lemma ConsumingStep(s: State)
    requires Control(s) && s.ready && (s.core.Delayed? || s.core.Take?)
    ensures var t := CoreNext(s);
            !s.run && !t.ready && !t.run && t.cache == s.cache && !Owning(t.core) && t.past == ConsumeRsp(s.past, s.rsp)
  {}

  lemma ConsumingKeepsHistory(s: State)
    requires Control(s) && History(s) && s.ready && (s.core.Delayed? || s.core.Take?)
    ensures History(CoreNext(s))
  {
    ConsumingStep(s);
    ConsumeHistory(s, CoreNext(s));
  }

  lemma StartHistory(s: State, t: State)
    requires History(s) && !s.run && t.run && t.ready == s.ready && t.rsp == s.rsp && t.cache == s.cache
    requires t.past == Start(s.past, t.msg) && Owning(t.core) && t.core.m == t.msg
    ensures History(t)
  {
    var e := Started(t.msg);
    SlotGrows(s.past.log, e, 0);
    SlotGrows(s.past.log, e, 1);
    LogGrows(s.past.log, e);
  }

  lemma StartKeepsHistory(s: State)
    requires Control(s) && History(s) && s.core.PutRun?
    ensures History(CoreNext(s))
  {
    StartHistory(s, CoreNext(s));
  }

  lemma SentOnly(s: State, o: Out)
    requires !o.Answer?
    ensures SameHistory(s, s.(core := Idle, past := Send(s.past, o)))
  {
    AnsweredGrow(s.past.sent, o);
  }

  lemma SentBusy(s: State, m: Msg)
    ensures SameHistory(s, SendBusy(s, m))
  {
    AnsweredGrow(s.past.sent, Busy(Empty(m)));
  }

  lemma QuietDeciding(s: State)
    requires Control(s) && (s.core.Dispatch? || s.core.Retransmit? || (s.core.Delayed? && !s.ready))
    ensures SameHistory(s, CoreNext(s))
  {
    if s.core.Dispatch? { SentOnly(s, Busy(s.busyRsp)); }
    if s.core.Retransmit? { SentOnly(s, Repeat(s.core.m, s.cache[Prio(s.core.m.tci)].rsp)); }
  }

  /** Every other step of the core thread leaves the history alone. */
  lemma QuietCore(s: State)
    requires Control(s) && Enabled(s, CoreStep) && !s.core.PutRun? && !(s.ready && (s.core.Delayed? || s.core.Take?))
    ensures SameHistory(s, CoreNext(s))
  {
    match s.core
    case Dispatch(_) | Delayed(_) | Retransmit(_) => QuietDeciding(s);
    case Check(m) => SentBusy(s, m);
    case _ =>
  }

  lemma CoreKeepsHistory(s: State)
    requires Control(s) && History(s) && Enabled(s, CoreStep)
    ensures History(CoreNext(s))
  {
    if s.core.PutRun? {
      StartKeepsHistory(s);
    } else if s.ready && (s.core.Delayed? || s.core.Take?) {
      ConsumingKeepsHistory(s);
    } else {
      QuietCore(s);
      CarryHistory(s, CoreNext(s));
    }
  }

  lemma CacheFinish(log: seq<Ev>, cache: seq<Slot>, m: Msg, r: Rsp)
    requires CacheOk(log, cache) && r.tci == m.tci
    ensures CacheOk(log + [Finished(m, r)], if r.ak then cache[Prio(m.tci) := Slot(true, m.tci, r)] else cache)
  {
    SlotGrows(log, Finished(m, r), 0);
    SlotGrows(log, Finished(m, r), 1);
  }

  lemma FinishHistory(s: State, t: State, r: Rsp)
    requires History(s) && s.run && !s.ready && !t.run && t.ready && t.rsp == r && r.tci == s.msg.tci
    requires t.core == s.core
    requires t.past == Finish(s.past, s.msg, r)
    requires t.cache == if r.ak then s.cache[Prio(s.msg.tci) := Slot(true, s.msg.tci, r)] else s.cache
    ensures History(t)
  {
    CacheFinish(s.past.log, s.cache, s.msg, r);
    LogGrows(s.past.log, Finished(s.msg, r));
  }

  lemma PublishKeepsHistory(s: State)
    requires Control(s) && History(s) && s.action.Publish?
    ensures History(ActionNext(s))
  {
    FinishHistory(s, ActionNext(s), s.action.r);
  }

  lemma FlushHistory(s: State, t: State)
    requires History(s) && t == s.(cache := t.cache, past := s.past.(log := s.past.log + [Flushed]))
    requires |s.cache| == 2 && t.cache == [s.cache[0].(valid := false), s.cache[1].(valid := false)]
    ensures History(t)
  {
    CacheFlush(s.past.log, s.cache);
    LogGrows(s.past.log, Flushed);
  }

  lemma FlushKeepsHistory(s: State)
    requires Control(s) && History(s)
    ensures History(Next(s, FlushCache))
  {
    FlushHistory(s, Next(s, FlushCache));
  }

  lemma CacheFlush(log: seq<Ev>, cache: seq<Slot>)
    requires CacheOk(log, cache)
    ensures CacheOk(log + [Flushed], [cache[0].(valid := false), cache[1].(valid := false)])
  {
    SlotGrows(log, Flushed, 0);
    SlotGrows(log, Flushed, 1);
  }

  lemma QuietOthers(s: State, l: Label)
    requires Control(s) && Enabled(s, l) && l != CoreStep && l != FlushCache && !(l == ActionStep && s.action.Publish?)
    ensures SameHistory(s, Next(s, l))
  {
    if l == CoreTimeout { AnsweredGrow(s.past.sent, Busy(Empty(s.core.m))); }
  }

  lemma StepKeepsHistory(s: State, l: Label)
    requires Control(s) && History(s) && Enabled(s, l)
    ensures History(Next(s, l))
  {
    if l == CoreStep {
      CoreKeepsHistory(s);
    } else if l == FlushCache {
      FlushKeepsHistory(s);
    } else if l == ActionStep && s.action.Publish? {
      PublishKeepsHistory(s);
    } else {
      QuietOthers(s, l);
      CarryHistory(s, Next(s, l));
    }
  }

  /** The request the core thread waits for is the one that runs. */
  lemma RunningIsOwn(s: State)
    requires History(s) && s.run && Owning(s.core)
    ensures s.msg == s.core.m
  {}

  lemma StepKeepsBusy(s: State, l: Label)
    requires Control(s) && History(s) && BusyOk(s) && Enabled(s, l)
    ensures BusyOk(Next(s, l))
  {
    if s.run && Owning(s.core) { RunningIsOwn(s); }
  }

  lemma {:induction false} StepKeepsInv(s: State, l: Label)
    requires Inv(s) && Enabled(s, l)
    ensures Inv(Next(s, l))
  {
    if l == CoreStep { CoreKeepsControl(s); } else { OthersKeepControl(s, l); }
    StepKeepsHistory(s, l);
    StepKeepsBusy(s, l);
  }

  // ----- Runs -----

  ghost predicate Initial(s: State) {
    && s.core == Idle && s.action == Asleep && !s.run && !s.ready && !s.actionEvent && !s.handledEvent
    && s.cache == [Slot(false, 0, Rsp(false, 0, 0)), Slot(false, 0, Rsp(false, 0, 0))]
    && s.past == Past([], [], [], [], [], [])
  }

  ghost predicate StepAt(run: seq<State>, labels: seq<Label>, i: nat)
    requires |run| == |labels| + 1 && i < |labels|
  {
    |run[i].cache| == 2 && Enabled(run[i], labels[i]) && run[i + 1] == Next(run[i], labels[i])
  }

  ghost predicate Run(run: seq<State>, labels: seq<Label>) {
    && |run| == |labels| + 1 && Initial(run[0])
    && forall i :: 0 <= i < |labels| ==> StepAt(run, labels, i)
  }

  lemma {:induction false} RunsKeepInv(run: seq<State>, labels: seq<Label>, i: nat)
    requires Run(run, labels) && i < |run|
    ensures Inv(run[i])
  {
    InitialInv(run[0]);
    forall k | 0 <= k < |labels| && Inv(run[k]) ensures Inv(run[k + 1]) { NextKeepsInv(run, labels, k); }
    Forever(run, Inv, i);
  }

  /** What holds at first and is kept by every step holds throughout. */
  lemma {:induction false} Forever<S(!new)>(run: seq<S>, inv: S -> bool, i: nat)
    requires i < |run| && inv(run[0]) && forall k :: 0 <= k < |run| - 1 && inv(run[k]) ==> inv(run[k + 1])
    ensures inv(run[i])
  {
    if i > 0 { Forever(run, inv, i - 1); }
  }

  lemma NextKeepsInv(run: seq<State>, labels: seq<Label>, k: nat)
    requires Run(run, labels) && k < |labels| && Inv(run[k])
    ensures Inv(run[k + 1])
  {
    assert StepAt(run, labels, k);
    Follows(run[k], labels[k], run[k + 1]);
  }

  lemma InitialInv(s: State)
    requires Initial(s)
    ensures Inv(s)
  {}

  lemma Follows(s: State, l: Label, t: State)
    requires Inv(s) && Enabled(s, l) && t == Next(s, l)
    ensures Inv(t)
  {
    StepKeepsInv(s, l);
  }

  /** The step that raises `run`, i.e. starts executing a request. */
  ghost predicate Starting(s: State, l: Label) { l == CoreStep && s.core.PutRun? }

  /** A new action starts only when none runs, no result waits, and the request is not cached. */
  lemma {:induction false} StartsAreExclusive(run: seq<State>, labels: seq<Label>, i: nat)
    requires Run(run, labels) && i < |labels| && Starting(run[i], labels[i])
    ensures !run[i].run && !run[i].ready && Resting(run[i].action)
    ensures |run[i].cache| == 2 && !Hits(run[i].cache, run[i].core.m.tci)
  {
    RunsKeepInv(run, labels, i);
  }

  /** Every finished action's result is consumed once, in order; at most the
      latest one waits, and none is lost or overwritten. What is sent as answers
      is exactly the acknowledged ones among the results consumed. */
  lemma {:induction false} ResultsConsumedOnce(run: seq<State>, labels: seq<Label>, i: nat)
    requires Run(run, labels) && i < |run|
    ensures run[i].past.results == run[i].past.consumed + (if run[i].ready then [run[i].rsp] else [])
    ensures Answered(run[i].past.sent) == Acks(run[i].past.consumed)
    ensures run[i].past.started == run[i].past.served + (if run[i].run then [run[i].msg] else [])
    ensures |run[i].past.served| == |run[i].past.results|
  {
    RunsKeepInv(run, labels, i);
  }

  /** What the handlers returned, in order. */
  ghost function Returned(labels: seq<Label>): seq<Rsp> {
    if labels == [] then []
    else
      var l := labels[|labels| - 1];
      Returned(labels[..|labels| - 1]) + (if l.Handled? then [l.r] else [])
  }

  lemma StepReturned(s: State, l: Label)
    requires Control(s) && Enabled(s, l)
    ensures Unpublished(Next(s, l)) == Unpublished(s) + (if l.Handled? then [l.r] else [])
  {}

  /** The results published so far, and the one about to be. */
  ghost function Unpublished(s: State): seq<Rsp> {
    s.past.results + (if s.action.Publish? then [s.action.r] else [])
  }

  /** In every run the results are exactly what the handlers returned. */
  lemma {:induction false} ResultsAreReturned(run: seq<State>, labels: seq<Label>, i: nat)
    requires Run(run, labels) && i < |run|
    ensures Unpublished(run[i]) == Returned(labels[..i])
  {
    if i > 0 {
      ResultsAreReturned(run, labels, i - 1);
      NextReturned(run, labels, i - 1);
      ReturnedSnoc(labels, i - 1);
    }
  }

  lemma NextReturned(run: seq<State>, labels: seq<Label>, i: nat)
    requires Run(run, labels) && i < |labels|
    ensures Unpublished(run[i + 1]) == Unpublished(run[i]) + (if labels[i].Handled? then [labels[i].r] else [])
  {
    RunsKeepInv(run, labels, i);
    assert StepAt(run, labels, i);
    StepReturned(run[i], labels[i]);
  }

  lemma ReturnedSnoc(labels: seq<Label>, i: nat)
    requires i < |labels|
    ensures Returned(labels[..i + 1]) == Returned(labels[..i]) + (if labels[i].Handled? then [labels[i].r] else [])
  {
    assert labels[..i + 1][..i] == labels[..i];
  }

  // ----- The retransmission cache -----

  /** A valid slot holds the response of the latest acknowledged execution of its TCI. */
  lemma {:induction false} SlotHasSource(log: seq<Ev>, p: nat) returns (i: nat)
    requires SlotOf(log, p).valid
    ensures i < |log| && log[i].Finished? && log[i].r == SlotOf(log, p).rsp && log[i].m.tci == SlotOf(log, p).tci
    ensures Prio(log[i].m.tci) == p && log[i].r.ak
    ensures forall k :: i < k < |log| ==>
      !log[k].Flushed? && !(log[k].Finished? && log[k].r.ak && Prio(log[k].m.tci) == p)
  {
    var n := |log| - 1;
    if log[n].Finished? && log[n].r.ak && Prio(log[n].m.tci) == p {
      i := n;
    } else {
      i := SlotHasSource(log[..n], p);
      assert forall k :: 0 <= k < n ==> log[..n][k] == log[k];
    }
  }

  /** Whatever is repeated is, byte for byte, the response of an earlier execution of the same TCI. */
  lemma {:induction false} RepeatsAreIdentical(run: seq<State>, labels: seq<Label>, i: nat) returns (k: nat)
    requires Run(run, labels) && i < |labels| && labels[i] == CoreStep && run[i].core.Retransmit?
    requires |run[i].cache| == 2 && Hits(run[i].cache, run[i].core.m.tci)
    ensures k < |run[i].past.log| && run[i].past.log[k].Finished? && run[i].past.log[k].m.tci == run[i].core.m.tci
    ensures run[i + 1].past.sent == run[i].past.sent + [Repeat(run[i].core.m, run[i].past.log[k].r)]
    ensures run[i + 1].past.log == run[i].past.log && run[i + 1].core == Idle
  {
    RunsKeepInv(run, labels, i);
    assert StepAt(run, labels, i);
    k := SlotHasSource(run[i].past.log, Prio(run[i].core.m.tci));
  }

  /** The priority is bit 15 of the TCI. */
  ghost predicate SamePriority(a: nat, b: nat) { (a / 0x8000) % 2 == (b / 0x8000) % 2 }

  /** Something between p and q displaced the cached response of this TCI. */
  ghost predicate Displaced(log: seq<Ev>, p: nat, q: nat, tci: nat)
    requires q <= |log|
  {
    exists k :: p < k < q && (log[k].Flushed? ||
      (log[k].Finished? && log[k].r.ak && SamePriority(log[k].m.tci, tci) && log[k].m.tci != tci))
  }

  /** Until displaced, the response of an acknowledged execution stays cached. */
  lemma {:induction false} StaysCached(log: seq<Ev>, p: nat, tci: nat)
    requires p < |log| && log[p].Finished? && log[p].r.ak && log[p].m.tci == tci
    requires !Displaced(log, p, |log|, tci)
    ensures SlotOf(log, Prio(tci)).valid && SlotOf(log, Prio(tci)).tci == tci
  {
    var n := |log| - 1;
    if p < n {
      assert forall k :: 0 <= k < n ==> log[..n][k] == log[k];
      assert !Displaced(log[..n], p, n, tci);
      StaysCached(log[..n], p, tci);
      assert log[n].Finished? && log[n].r.ak && Prio(log[n].m.tci) == Prio(tci) ==> log[n].m.tci == tci;
    }
  }

  /** A request is never executed again while the response to its TCI is cached:
      between an acknowledged execution and the next start of the same TCI there
      was a flush, or an acknowledged execution of another TCI of that priority. */
  lemma {:induction false} NeverExecutedAgain(run: seq<State>, labels: seq<Label>, i: nat, p: nat)
    requires Run(run, labels) && i < |labels| && Starting(run[i], labels[i])
    requires p < |run[i].past.log| && run[i].past.log[p].Finished? && run[i].past.log[p].r.ak
    requires run[i].past.log[p].m.tci == run[i].core.m.tci
    ensures Displaced(run[i].past.log, p, |run[i].past.log|, run[i].core.m.tci)
  {
    RunsKeepInv(run, labels, i);
    var tci := run[i].core.m.tci;
    if !Displaced(run[i].past.log, p, |run[i].past.log|, tci) {
      StaysCached(run[i].past.log, p, tci);
      assert false;
    }
  }

  // ----- What happens to a request -----

  /** While no action runs, the action thread changes none of the shared results. */
  lemma IdleActionIsQuiet(run: seq<State>, labels: seq<Label>, i: nat)
    requires Run(run, labels) && i < |labels| && !run[i].run && (labels[i] == ActionStep || labels[i].Handled?)
    ensures run[i + 1] == run[i].(handledEvent := true, action := Asleep)
  {
    RunsKeepInv(run, labels, i);
    assert StepAt(run, labels, i);
  }

  /** The result the core thread takes after the wait is the one of the request it is serving. */
  lemma TakeIsOwnResult(run: seq<State>, labels: seq<Label>, i: nat)
    requires Run(run, labels) && i < |labels| && labels[i] == CoreStep && run[i].core.Take?
    ensures |run[i].past.served| == |run[i].past.results| > 0
    ensures run[i].past.served[|run[i].past.served| - 1] == run[i].core.m
    ensures run[i].past.results[|run[i].past.results| - 1] == run[i].rsp
    ensures run[i + 1].past.consumed == run[i].past.consumed + [run[i].rsp]
  {
    RunsKeepInv(run, labels, i);
    assert StepAt(run, labels, i);
  }

  // ----- The life of a request, from its arrival until the core thread is idle again -----

  /** What one step of the core thread decides about the request it holds. */
  datatype Verdict = Open | MetRunning | MetResult | Cached

  function Decides(s: State, l: Label): Verdict
    requires |s.cache| == 2
  {
    if l != CoreStep then Open
    else match s.core
      case Dispatch(_) => if s.run then MetRunning else Open
      case Delayed(_) => if s.ready && s.rsp.ak then MetResult else Open
      case Retransmit(m) => if Hits(s.cache, m.tci) then Cached else Open
      case _ => Open
  }

  /** m arrives at step i and the core thread is next idle in state j. */
  ghost predicate Life(run: seq<State>, labels: seq<Label>, i: nat, j: nat, m: Msg) {
    && Run(run, labels) && i < j < |run| && labels[i] == Receive(m) && run[j].core.Idle?
    && forall k :: i < k < j ==> !run[k].core.Idle?
  }

  /** Some step of that life decides v. */
  ghost predicate Decided(run: seq<State>, labels: seq<Label>, i: nat, j: nat, v: Verdict)
    requires |run| == |labels| + 1 && j < |run|
  {
    exists d :: i < d < j && |run[d].cache| == 2 && Decides(run[d], labels[d]) == v
  }

  /** A step that keeps the core thread busy sends nothing, and starts the request
      when the thread comes to own the action record. */
  ghost predicate Goes(s: State, t: State) {
    && !s.core.Idle? && !t.core.Idle? && t.core.m == s.core.m && t.past.sent == s.past.sent
    && (Owning(s.core) ==> Owning(t.core))
    && t.past.started == (if Owning(t.core) && !Owning(s.core) then s.past.started + [s.core.m] else s.past.started)
  }

  predicate Deciding(c: Core) { c.Dispatch? || c.Delayed? || c.Retransmit? }

  lemma DecidingGoes(s: State)
    requires |s.cache| == 2 && SlotOk(s.cache[0]) && SlotOk(s.cache[1])
    requires Deciding(s.core) && !CoreNext(s).core.Idle?
    ensures Goes(s, CoreNext(s)) && Decides(s, CoreStep) == Open
  {}

  lemma StartGoes(s: State)
    requires |s.cache| == 2 && s.core.PutRun?
    ensures Goes(s, CoreNext(s)) && Decides(s, CoreStep) == Open
  {}

  lemma WaitingGoes(s: State)
    requires |s.cache| == 2 && (s.core.PutRsp? || s.core.PutMsg? || s.core.Wake? || s.core.Wait?)
    ensures Goes(s, CoreNext(s)) && Decides(s, CoreStep) == Open
  {}

  lemma CheckGoes(s: State)
    requires |s.cache| == 2 && s.core.Check? && !s.run
    ensures Goes(s, CoreNext(s)) && Decides(s, CoreStep) == Open
  {}

  lemma WorkingGoes(s: State)
    requires |s.cache| == 2 && !Deciding(s.core) && !s.core.Idle? && !CoreNext(s).core.Idle?
    ensures Goes(s, CoreNext(s)) && Decides(s, CoreStep) == Open
  {
    match s.core
    case PutRun(_) => StartGoes(s);
    case Check(_) => CheckGoes(s);
    case Take(_) => assert false;
    case _ => WaitingGoes(s);
  }

  lemma OthersGo(s: State, l: Label)
    requires Control(s) && Enabled(s, l) && l != CoreStep && !s.core.Idle? && !Next(s, l).core.Idle?
    ensures Goes(s, Next(s, l)) && Decides(s, l) == Open
  {}

  lemma OpenStep(s: State, l: Label)
    requires Inv(s) && Enabled(s, l) && !s.core.Idle? && !Next(s, l).core.Idle?
    ensures Goes(s, Next(s, l)) && Decides(s, l) == Open
  {
    if l != CoreStep { OthersGo(s, l); } else if Deciding(s.core) { DecidingGoes(s); } else { WorkingGoes(s); }
  }

  ghost predicate Halfway(p: Past, s: State, m: Msg) {
    && !s.core.Idle? && s.core.m == m && s.past.sent == p.sent
    && s.past.started == (if Owning(s.core) then p.started + [m] else p.started)
  }

  lemma {:induction false} HalfwayAt(run: seq<State>, labels: seq<Label>, i: nat, j: nat, m: Msg, k: nat)
    requires Life(run, labels, i, j, m) && i < k < j
    ensures Halfway(run[i].past, run[k], m)
  {
    assert StepAt(run, labels, k - 1);
    if k > i + 1 {
      HalfwayAt(run, labels, i, j, m, k - 1);
      RunsKeepInv(run, labels, k - 1);
      OpenStep(run[k - 1], labels[k - 1]);
      Onwards(run[i].past, run[k - 1], run[k], m);
    }
  }

  lemma Onwards(p: Past, s: State, t: State, m: Msg)
    requires Halfway(p, s, m) && Goes(s, t)
    ensures Halfway(p, t, m)
  {}

  /** No step before the last one decides. */
  lemma OpenAt(run: seq<State>, labels: seq<Label>, i: nat, j: nat, m: Msg, d: nat)
    requires Life(run, labels, i, j, m) && i < d < j - 1
    ensures |run[d].cache| == 2 && Decides(run[d], labels[d]) == Open
  {
    RunsKeepInv(run, labels, d);
    assert StepAt(run, labels, d);
    assert !run[d].core.Idle? && !run[d + 1].core.Idle?;
    OpenStep(run[d], labels[d]);
  }

  /** An executed request is answered by an empty busy response, or its own result
      is consumed, and sent if it is an acknowledgement. */
  ghost predicate Served(p: Past, q: Past, m: Msg) {
    && q.started == p.started + [m]
    && (q.sent == p.sent + [Busy(Rsp(m.ar, m.tci, 0))] || Delivered(p, q, m))
  }

  ghost predicate Delivered(p: Past, q: Past, m: Msg) {
    && |q.served| == |q.results| > 0 && q.served[|q.served| - 1] == m
    && var r := q.results[|q.results| - 1];
       r.tci == m.tci && q.sent == p.sent + (if r.ak then [Answer(r)] else [])
  }

  /** Nothing is started, and all that is sent belongs to the request started last:
      its empty busy response, or its result. */
  ghost predicate Lost(p: Past, q: Past, v: Verdict) {
    && |p.started| > 0 && q.started == p.started
    && var last := p.started[|p.started| - 1];
       && (v == MetRunning ==> q.sent == p.sent + [Busy(Rsp(last.ar, last.tci, 0))])
       && (v == MetResult ==>
             && |q.served| == |q.results| > 0 && q.served[|q.served| - 1] == last
             && q.results[|q.results| - 1].tci == last.tci
             && q.sent == p.sent + [Answer(q.results[|q.results| - 1])])
  }

  /** Nothing is started; the result of an earlier execution of the same TCI is sent again. */
  ghost predicate Repeated(p: Past, q: Past, m: Msg) {
    && q.started == p.started && |q.served| == |q.results|
    && exists k :: 0 <= k < |q.results| && q.served[k].tci == m.tci == q.results[k].tci
                   && q.sent == p.sent + [Repeat(m, q.results[k])]
  }

  ghost predicate Fate(p: Past, q: Past, m: Msg, v: Verdict) {
    match v
    case MetRunning | MetResult => Lost(p, q, v)
    case Cached => Repeated(p, q, m)
    case Open => Served(p, q, m)
  }

  lemma LastResult(p: Past, r: Rsp)
    requires TciKept(p) && p.results == p.consumed + [r] && p.started == p.served
    ensures |p.started| > 0 && |p.served| == |p.results| > 0 && r == p.results[|p.results| - 1]
    ensures p.served[|p.served| - 1] == p.started[|p.started| - 1] && r.tci == p.started[|p.started| - 1].tci
  {
    assert r == p.results[|p.results| - 1];
  }

  lemma EndMetRunning(p: Past, s: State, m: Msg)
    requires Inv(s) && Halfway(p, s, m) && s.core.Dispatch? && s.run
    ensures Lost(p, CoreNext(s).past, MetRunning)
  {
    assert s.past.started[|s.past.started| - 1] == s.msg;
  }

  lemma EndMetResult(p: Past, s: State, m: Msg)
    requires Inv(s) && Halfway(p, s, m) && s.core.Delayed? && s.ready && s.rsp.ak
    ensures Lost(p, CoreNext(s).past, MetResult)
  {
    LastResult(s.past, s.rsp);
  }

  /** What the cache holds for a TCI is a result of an execution of that TCI. */
  lemma CachedIsResult(p: Past, cache: seq<Slot>, tci: nat) returns (j: nat)
    requires CacheOk(p.log, cache) && FinishedMsgs(p.log) == p.served && FinishedRsps(p.log) == p.results
    requires Hits(cache, tci)
    ensures j < |p.served| == |p.results|
    ensures p.served[j].tci == tci && p.results[j] == cache[Prio(tci)].rsp && p.results[j].tci == tci
  {
    var k := SlotHasSource(p.log, Prio(tci));
    j := LogIndex(p.log, k);
  }

  lemma RepeatStep(s: State, m: Msg)
    requires |s.cache| == 2 && s.core == Retransmit(m) && Hits(s.cache, m.tci) && s.cache[Prio(m.tci)].rsp.ak
    ensures CoreNext(s).past == Send(s.past, Repeat(m, s.cache[Prio(m.tci)].rsp))
  {}

  lemma EndCached(p: Past, s: State, m: Msg)
    requires CacheOk(s.past.log, s.cache) && InOrder(s.past, s.run, s.msg)
    requires s.core == Retransmit(m) && Hits(s.cache, m.tci) && s.past.started == p.started && s.past.sent == p.sent
    ensures Repeated(p, CoreNext(s).past, m)
  {
    var j := CachedIsResult(s.past, s.cache, m.tci);
    CachedAk(s.past.log, s.cache, Prio(m.tci));
    RepeatStep(s, m);
    SentRepeat(p, s.past, m, j);
  }

  lemma CachedAk(log: seq<Ev>, cache: seq<Slot>, p: nat)
    requires CacheOk(log, cache) && p < 2 && cache[p].valid
    ensures cache[p].rsp.ak
  {}

  lemma SentRepeat(p: Past, q: Past, m: Msg, j: nat)
    requires q.started == p.started && q.sent == p.sent && j < |q.served| == |q.results|
    requires q.served[j].tci == m.tci == q.results[j].tci
    ensures Repeated(p, Send(q, Repeat(m, q.results[j])), m)
  {}

  lemma EndTake(p: Past, s: State, m: Msg)
    requires Inv(s) && Halfway(p, s, m) && s.core.Take?
    ensures Served(p, CoreNext(s).past, m)
  {
    LastResult(s.past, s.rsp);
  }

  predicate EndsBusy(s: State, l: Label) {
    (l == CoreTimeout && s.core.Wait?) || (l == CoreStep && s.core.Check? && s.run)
  }

  /** The other ends are a timeout and a wake-up that finds the action still running. */
  lemma EndBusy(p: Past, s: State, l: Label, m: Msg)
    requires Inv(s) && Halfway(p, s, m) && EndsBusy(s, l)
    ensures Enabled(s, l) && Served(p, Next(s, l).past, m)
  {}

  lemma OpenEnds(s: State, l: Label)
    requires Inv(s) && Enabled(s, l) && !s.core.Idle? && Next(s, l).core.Idle? && Decides(s, l) == Open
    ensures (l == CoreStep && s.core.Take?) || EndsBusy(s, l)
  {}

  lemma EndsAs(p: Past, s: State, l: Label, m: Msg)
    requires Inv(s) && Enabled(s, l) && Halfway(p, s, m) && Next(s, l).core.Idle?
    ensures Fate(p, Next(s, l).past, m, Decides(s, l))
  {
    match Decides(s, l)
    case MetRunning => EndMetRunning(p, s, m);
    case MetResult => EndMetResult(p, s, m);
    case Cached => EndCached(p, s, m);
    case Open =>
      OpenEnds(s, l);
      if l == CoreStep && s.core.Take? { EndTake(p, s, m); } else { EndBusy(p, s, l, m); }
  }

  lemma LifeIsLong(run: seq<State>, labels: seq<Label>, i: nat, j: nat, m: Msg)
    requires Life(run, labels, i, j, m)
    ensures i + 1 < j
  {
    assert StepAt(run, labels, i);
  }

  lemma LifeEnds(run: seq<State>, labels: seq<Label>, i: nat, j: nat, m: Msg)
    requires Life(run, labels, i, j, m)
    ensures i + 1 < j && Halfway(run[i].past, run[j - 1], m) && Linked(run[j - 1], labels[j - 1], run[j])
  {
    LifeIsLong(run, labels, i, j, m);
    HalfwayAt(run, labels, i, j, m, j - 1);
    assert StepAt(run, labels, j - 1);
  }

  ghost predicate Linked(s: State, l: Label, t: State) { |s.cache| == 2 && Enabled(s, l) && t == Next(s, l) }

  /** Only the last step of a life can decide. */
  lemma {:induction false} LastDecides(run: seq<State>, labels: seq<Label>, i: nat, j: nat, m: Msg, v: Verdict)
    requires Life(run, labels, i, j, m) && v != Open
    ensures i + 1 < j && |run[j - 1].cache| == 2
    ensures Decided(run, labels, i, j, v) <==> Decides(run[j - 1], labels[j - 1]) == v
  {
    LifeEnds(run, labels, i, j, m);
    forall d | i < d < j && |run[d].cache| == 2 && Decides(run[d], labels[d]) == v ensures d == j - 1 {
      if d < j - 1 { OpenAt(run, labels, i, j, m, d); }
    }
  }

  lemma FateOf(run: seq<State>, labels: seq<Label>, i: nat, j: nat, m: Msg) returns (v: Verdict)
    requires Life(run, labels, i, j, m)
    ensures Fate(run[i].past, run[j].past, m, v)
    ensures |run[j - 1].cache| == 2 && v == Decides(run[j - 1], labels[j - 1])
  {
    LifeEnds(run, labels, i, j, m);
    var p, s, l, t := run[i].past, run[j - 1], labels[j - 1], run[j];
    assert Ends(p, s, l, t, m);
    v := Decides(s, l);
    EndsIn(run, labels, j - 1, p, s, l, t, m);
  }

  ghost predicate Ends(p: Past, s: State, l: Label, t: State, m: Msg) {
    Halfway(p, s, m) && Linked(s, l, t) && t.core.Idle?
  }

  lemma EndsIn(run: seq<State>, labels: seq<Label>, k: nat, p: Past, s: State, l: Label, t: State, m: Msg)
    requires Run(run, labels) && k < |run| && run[k] == s && Ends(p, s, l, t, m)
    ensures Fate(p, t.past, m, Decides(s, l))
  {
    assert Enabled(s, l) && t == Next(s, l);
    RunsKeepInv(run, labels, k);
    EndsAs(p, s, l, m);
  }

  /** In every run, what becomes of a request is decided by at most one step: it
      meets a running action and is lost; it meets an unanswered acknowledged
      result and is lost; its TCI is cached and the response is repeated; or it
      is executed. */
  lemma {:induction false} RequestLife(run: seq<State>, labels: seq<Label>, i: nat, j: nat, m: Msg) returns (v: Verdict)
    requires Life(run, labels, i, j, m)
    ensures Fate(run[i].past, run[j].past, m, v)
    ensures Decided(run, labels, i, j, MetRunning) <==> v == MetRunning
    ensures Decided(run, labels, i, j, MetResult) <==> v == MetResult
    ensures Decided(run, labels, i, j, Cached) <==> v == Cached
  {
    v := FateOf(run, labels, i, j, m);
    LastDecides(run, labels, i, j, m, MetRunning);
    LastDecides(run, labels, i, j, m, MetResult);
    LastDecides(run, labels, i, j, m, Cached);
  }

  function TciOf(o: Out): nat {
    match o
    case Answer(r) => r.tci
    case Repeat(_, r) => r.tci
    case Busy(r) => r.tci
  }

  /** The request is neither started nor answered in any way under its own TCI. */
  ghost predicate Unanswered(p: Past, q: Past, m: Msg) {
    q.started == p.started && |p.sent| <= |q.sent| && forall k :: |p.sent| <= k < |q.sent| ==> TciOf(q.sent[k]) != m.tci
  }

  lemma OneSent(p: Past, q: Past, m: Msg, o: Out)
    requires q.started == p.started && q.sent == p.sent + [o]
    ensures Unanswered(p, q, m) <==> TciOf(o) != m.tci
  {
    assert q.sent[|p.sent|] == o;
  }

  lemma FateUnanswered(p: Past, q: Past, m: Msg, v: Verdict)
    requires Fate(p, q, m, v)
    ensures Unanswered(p, q, m) <==>
      (v == MetRunning || v == MetResult) && |p.started| > 0 && p.started[|p.started| - 1].tci != m.tci
  {
    match v
    case MetRunning =>
      var last := p.started[|p.started| - 1];
      OneSent(p, q, m, Busy(Rsp(last.ar, last.tci, 0)));
    case MetResult => OneSent(p, q, m, Answer(q.results[|q.results| - 1]));
    case Cached =>
      var k :| 0 <= k < |q.results| && q.served[k].tci == m.tci == q.results[k].tci
               && q.sent == p.sent + [Repeat(m, q.results[k])];
      OneSent(p, q, m, Repeat(m, q.results[k]));
    case Open => assert |q.started| == |p.started| + 1;
  }

  /** A request is lost without any answer exactly when it meets a running action,
      or a finished one whose acknowledged result is still to be sent, and it is
      not a repetition of that action's request. */
  lemma {:induction false} UnansweredExactly(run: seq<State>, labels: seq<Label>, i: nat, j: nat, m: Msg)
    requires Life(run, labels, i, j, m)
    ensures Unanswered(run[i].past, run[j].past, m) <==>
      && (Decided(run, labels, i, j, MetRunning) || Decided(run, labels, i, j, MetResult))
      && |run[i].past.started| > 0 && run[i].past.started[|run[i].past.started| - 1].tci != m.tci
  {
    var v := RequestLife(run, labels, i, j, m);
    FateUnanswered(run[i].past, run[j].past, m, v);
  }

  // ----- Both ways of losing a request happen -----

  /** s is the last state of a run with these labels. */
  ghost predicate Reaches(run: seq<State>, labels: seq<Label>, s: State) { Run(run, labels) && run[|labels|] == s }

  lemma Extend(run: seq<State>, labels: seq<Label>, s: State, l: Label) returns (run': seq<State>, labels': seq<Label>)
    requires Reaches(run, labels, s) && |s.cache| == 2 && Enabled(s, l)
    ensures run' == run + [Next(s, l)] && labels' == labels + [l] && Reaches(run', labels', Next(s, l))
  {
    run', labels' := run + [Next(s, l)], labels + [l];
    forall i | 0 <= i < |labels'| ensures StepAt(run', labels', i) {
      if i < |labels| { assert StepAt(run, labels, i); }
    }
  }

  function Blank(): Slot { Slot(false, 0, Rsp(false, 0, 0)) }

  function AtStart(m: Msg): State {
    State(Idle, Asleep, false, false, m, Empty(m), Empty(m), false, false, [Blank(), Blank()],
          Past([], [], [], [], [], []))
  }

  /** The first request has been started and its wait has timed out. */
  function TimedOut(m: Msg): State {
    State(Idle, Asleep, true, false, m, Empty(m), Empty(m), true, false, [Blank(), Blank()],
          Past([m], [], [], [], [Busy(Empty(m))], [Started(m)]))
  }

  /** Its result has been published since. */
  function Published(m: Msg, r: Rsp): State {
    State(Idle, Signal, false, true, m, r, Empty(m), false, false,
          if r.ak then [Blank(), Blank()][Prio(m.tci) := Slot(true, m.tci, r)] else [Blank(), Blank()],
          Past([m], [m], [r], [], [Busy(Empty(m))], [Started(m), Finished(m, r)]))
  }

  lemma ReachPutRun(m: Msg) returns (run: seq<State>, labels: seq<Label>)
    ensures Reaches(run, labels, AtStart(m).(core := PutRun(m)))
  {
    var s := AtStart(m);
    run, labels := Extend([s], [], s, Receive(m));
    run, labels := Extend(run, labels, s.(core := Dispatch(m)), CoreStep);
    run, labels := Extend(run, labels, s.(core := Delayed(m)), CoreStep);
    run, labels := Extend(run, labels, s.(core := Retransmit(m)), CoreStep);
    run, labels := Extend(run, labels, s.(core := PutRsp(m)), CoreStep);
    run, labels := Extend(run, labels, s.(core := PutMsg(m)), CoreStep);
  }

  lemma ReachTimedOut(m: Msg) returns (run: seq<State>, labels: seq<Label>)
    ensures Reaches(run, labels, TimedOut(m))
  {
    run, labels := ReachPutRun(m);
    var s := AtStart(m).(core := PutRun(m));
    run, labels := Extend(run, labels, s, CoreStep);
    s := CoreNext(s);
    run, labels := Extend(run, labels, s, CoreStep);
    s := CoreNext(s);
    run, labels := Extend(run, labels, s, CoreTimeout);
  }

  lemma ReachPublished(m: Msg, r: Rsp) returns (run: seq<State>, labels: seq<Label>)
    requires r.tci == m.tci
    ensures Reaches(run, labels, Published(m, r))
  {
    run, labels := ReachTimedOut(m);
    var s := TimedOut(m);
    run, labels := Extend(run, labels, s, ActionStep);
    s := s.(actionEvent := false, action := Begin);
    run, labels := Extend(run, labels, s, ActionStep);
    run, labels := Extend(run, labels, s.(action := Working), Handled(r));
    run, labels := Extend(run, labels, s.(action := Publish(r)), ActionStep);
  }

  /** A request that arrives while an earlier one still runs is lost. */
  lemma {:induction false} LostToRunning(m1: Msg, m2: Msg) returns (run: seq<State>, labels: seq<Label>, i: nat)
    requires m1.tci != m2.tci
    ensures Life(run, labels, i, i + 2, m2) && Decided(run, labels, i, i + 2, MetRunning) && !run[i + 1].ready
    ensures Unanswered(run[i].past, run[i + 2].past, m2)
  {
    run, labels := ReachTimedOut(m1);
    i := |labels|;
    var s := TimedOut(m1);
    run, labels := Extend(run, labels, s, Receive(m2));
    run, labels := Extend(run, labels, s.(core := Dispatch(m2)), CoreStep);
    assert Decides(run[i + 1], labels[i + 1]) == MetRunning;
    UnansweredExactly(run, labels, i, i + 2, m2);
  }

  /** A request that uncovers an acknowledged late result is lost. */
  lemma {:induction false} LostToResult(m1: Msg, r: Rsp, m2: Msg) returns (run: seq<State>, labels: seq<Label>, i: nat)
    requires m1.tci != m2.tci && r.tci == m1.tci && r.ak
    ensures Life(run, labels, i, i + 3, m2) && Decided(run, labels, i, i + 3, MetResult)
    ensures Unanswered(run[i].past, run[i + 3].past, m2)
  {
    run, labels := ReachPublished(m1, r);
    i := |labels|;
    var s := Published(m1, r);
    run, labels := Extend(run, labels, s, Receive(m2));
    run, labels := Extend(run, labels, s.(core := Dispatch(m2)), CoreStep);
    run, labels := Extend(run, labels, s.(core := Delayed(m2)), CoreStep);
    assert Decides(run[i + 2], labels[i + 2]) == MetResult;
    UnansweredExactly(run, labels, i, i + 3, m2);
  }
}
