/**
  The PLOAM activation state machine of falcon_ploam.c (clause 10 of ITU-T
  G.984.3). Each downstream message, timer expiry and LOS/LOF indication is one
  atomic step; the laser and carrier hooks and the GTC registers are fields.
 */
module Ploam {

  type byte = x: int | 0 <= x < 256

  datatype State = O1 | O2 | O3 | O4 | O5 | O6 | O7

  /** A 12-byte PLOAM message: ONU-ID, message type, sequence number, payload. */
  datatype Msg = Msg(onuId: byte, msgId: byte, seqNum: byte, payload: seq<byte>)

  ghost predicate WellFormed(m: Msg) { |m.payload| == 9 }

  const DS_UPSTREAM_OVERHEAD: byte := 0x01
  const DS_ASSIGN_ONU_ID: byte := 0x03
  const DS_RANGING_TIME: byte := 0x04
  const DS_DEACTIVATE_ONU_ID: byte := 0x05
  const DS_DISABLE_SERIAL_NUM: byte := 0x06
  const DS_REQUEST_PASSWORD: byte := 0x09

  const US_SERIAL_NUMBER_ONU: byte := 0x01
  const US_PASSWORD: byte := 0x02
  const US_ACKNOWLEDGE: byte := 0x09

  const BROADCAST: byte := 0xFF

  // ----- Message words -----

  function BigEndian(a: byte, b: byte, c: byte, d: byte): nat {
    a * 0x1000000 + b * 0x10000 + c * 0x100 + d
  }

  /** The three words gtc_ploam_send writes. */
  function Pack(m: Msg): seq<nat>
    requires WellFormed(m)
  {
    [BigEndian(m.onuId, m.msgId, m.seqNum, m.payload[0]),
     BigEndian(m.payload[1], m.payload[2], m.payload[3], m.payload[4]),
     BigEndian(m.payload[5], m.payload[6], m.payload[7], m.payload[8])]
  }

  function ByteOf(w: nat, shift: nat): byte
    requires shift > 0
  {
    (w / shift) % 256
  }

  /** The message gtc_ploam_rd reads from three words. */
  function Unpack(w: seq<nat>): Msg
    requires |w| == 3
  {
    Msg(ByteOf(w[0], 0x1000000), ByteOf(w[0], 0x10000), ByteOf(w[0], 0x100),
        [ByteOf(w[0], 1),
         ByteOf(w[1], 0x1000000), ByteOf(w[1], 0x10000), ByteOf(w[1], 0x100), ByteOf(w[1], 1),
         ByteOf(w[2], 0x1000000), ByteOf(w[2], 0x10000), ByteOf(w[2], 0x100), ByteOf(w[2], 1)])
  }

  lemma WordBytes(a: byte, b: byte, c: byte, d: byte)
    ensures var w := BigEndian(a, b, c, d);
            ByteOf(w, 0x1000000) == a && ByteOf(w, 0x10000) == b && ByteOf(w, 0x100) == c && ByteOf(w, 1) == d
  {
    var w := BigEndian(a, b, c, d);
    assert w / 0x100 == a * 0x10000 + b * 0x100 + c;
    assert w / 0x10000 == a * 0x100 + b;
    assert w / 0x1000000 == a;
  }

  lemma {:induction false} PackRoundTrip(m: Msg)
    requires WellFormed(m)
    ensures Unpack(Pack(m)) == m
  {
    WordBytes(m.onuId, m.msgId, m.seqNum, m.payload[0]);
    WordBytes(m.payload[1], m.payload[2], m.payload[3], m.payload[4]);
    WordBytes(m.payload[5], m.payload[6], m.payload[7], m.payload[8]);
  }

  /** The twelve bytes of a message in the order they are sent. */
  function Bytes(m: Msg): seq<byte> { [m.onuId, m.msgId, m.seqNum] + m.payload }

  /** The number a string of bytes stands for, the first byte highest. */
  function Value(s: seq<byte>): nat { if s == [] then 0 else 256 * Value(s[..|s| - 1]) + s[|s| - 1] }

  lemma ValueOfFour(s: seq<byte>)
    requires |s| == 4
    ensures Value(s) == BigEndian(s[0], s[1], s[2], s[3])
  {
    var a, b, c := s[..1], s[..2], s[..3];
    assert s[..|s| - 1] == c && c[..|c| - 1] == b && b[..|b| - 1] == a && a[..|a| - 1] == [];
    assert Value(a) == s[0] && Value(b) == 256 * Value(a) + s[1] && Value(c) == 256 * Value(b) + s[2];
  }

  /** Word i holds bytes 4i to 4i + 3. */
  lemma {:induction false} PackLayout(m: Msg, i: nat)
    requires WellFormed(m) && i < 3
    ensures |Pack(m)| == 3 && Pack(m)[i] == Value(Bytes(m)[4 * i..4 * i + 4])
  {
    ValueOfFour(Bytes(m)[4 * i..4 * i + 4]);
    var b := Bytes(m);
    assert b[3] == m.payload[0] && b[4] == m.payload[1] && b[5] == m.payload[2] && b[6] == m.payload[3];
    assert b[7] == m.payload[4] && b[8] == m.payload[5] && b[9] == m.payload[6] && b[10] == m.payload[7];
    assert b[11] == m.payload[8];
  }

  lemma BytesWord(w: nat)
    requires w < 0x1_0000_0000
    ensures BigEndian(ByteOf(w, 0x1000000), ByteOf(w, 0x10000), ByteOf(w, 0x100), ByteOf(w, 1)) == w
  {
    assert w / 0x10000 == w / 0x100 / 0x100 && w / 0x1000000 == w / 0x10000 / 0x100;
  }

  /** Every three words are those of exactly one message. */
  lemma {:induction false} UnpackRoundTrip(w: seq<nat>)
    requires |w| == 3 && w[0] < 0x1_0000_0000 && w[1] < 0x1_0000_0000 && w[2] < 0x1_0000_0000
    ensures WellFormed(Unpack(w)) && Pack(Unpack(w)) == w
  {
    BytesWord(w[0]);
    BytesWord(w[1]);
    BytesWord(w[2]);
  }

  // ----- The machine as a value -----

  /** An upstream message with the ONU-ID register at the moment it was sent. */
  datatype Sent = Sent(msg: Msg, reg: byte)

  /** GTC_DELAY_CTRL as its enable bit (bit 28) and the other bits. */
  datatype DelayCtrl = DelayCtrl(enable: bool, rest: nat)

  datatype Onu = Onu(
    state: State, onuId: byte, eqd: nat,
    onuIdReg: byte, rangedDelay: nat, delayCtrl: DelayCtrl,
    laser: bool, carrier: bool, to1: bool, to2: bool,
    sent: seq<Sent>)

  /** The serial number and the registration password. */
  datatype Identity = Identity(serial: seq<byte>, password: seq<byte>)

  ghost predicate GoodIdentity(id: Identity) { |id.serial| == 8 && |id.password| == 10 }

  datatype Event = Rx(msg: Msg) | To1Expired | To2Expired | Los(on: bool) | Lof(on: bool)

  /** ploam_state_transition */
  function Transition(u: Onu, s: State): Onu {
    if u.state == s then u else
    var v := u.(state := s);
    match s
    case O1 | O2 => v.(laser := false, carrier := false, onuId := 0, onuIdReg := 0)
    case O3 => v.(laser := true, to1 := true)
    case O4 => v.(to1 := false)
    case O5 => v.(to1 := false, to2 := false, carrier := true)
    case O6 => v.(laser := false, to2 := true)
    case O7 => v.(laser := false, carrier := false)
  }

  function Send(u: Onu, m: Msg): Onu { u.(sent := u.sent + [Sent(m, u.onuIdReg)]) }

  function Zeros(n: nat): seq<byte> { seq(n, _ => 0) }

  function Ack(onuId: byte, seqNum: byte): Msg { Msg(onuId, US_ACKNOWLEDGE, seqNum, Zeros(9)) }

  function SerialNumberOnu(id: Identity): Msg { Msg(BROADCAST, US_SERIAL_NUMBER_ONU, 1, id.serial + [0]) }

  function Password(id: Identity, onuId: byte, seqNum: byte): Msg
    requires GoodIdentity(id)
  {
    Msg(onuId, US_PASSWORD, seqNum, id.password[..9])
  }

  function EqdOf(m: Msg): nat
    requires WellFormed(m)
  {
    BigEndian(m.payload[0], m.payload[1], m.payload[2], m.payload[3])
  }

  /** A message that assigns an ONU-ID to this serial number. */
  predicate AssignsMe(id: Identity, m: Msg)
    requires WellFormed(m)
  {
    m.msgId == DS_ASSIGN_ONU_ID && m.payload[..8] == id.serial
  }

  /** A Ranging_Time message the ONU acts on. */
  predicate AcceptsRanging(u: Onu, m: Msg) {
    m.msgId == DS_RANGING_TIME && (u.state == O4 || u.state == O5)
  }

  function OnOverhead(id: Identity, u: Onu): Onu {
    if u.state == O1 || u.state == O2 then Send(Transition(u, O3), SerialNumberOnu(id)) else u
  }

  function OnAssign(u: Onu, onuId: byte, seqNum: byte): Onu {
    var v := u.(onuId := onuId, onuIdReg := onuId);
    Transition(Send(v, Ack(onuId, seqNum)), O4)
  }

  function OnRanging(u: Onu, eqd: nat, seqNum: byte): Onu {
    var v := u.(eqd := eqd, rangedDelay := eqd, delayCtrl := u.delayCtrl.(enable := true));
    Transition(Send(v, Ack(v.onuId, seqNum)), O5)
  }

  /** One message of falcon_ploam_fsm_worker. */
  function Receive(id: Identity, u: Onu, m: Msg): Onu
    requires GoodIdentity(id) && WellFormed(m)
  {
    if m.msgId == DS_UPSTREAM_OVERHEAD then OnOverhead(id, u)
    else if m.msgId == DS_ASSIGN_ONU_ID then
      if AssignsMe(id, m) then OnAssign(u, m.payload[8], m.seqNum) else u
    else if m.msgId == DS_RANGING_TIME then
      if AcceptsRanging(u, m) then OnRanging(u, EqdOf(m), m.seqNum) else u
    else if m.msgId == DS_REQUEST_PASSWORD then Send(u, Password(id, u.onuId, m.seqNum))
    else if m.msgId == DS_DEACTIVATE_ONU_ID then Transition(u, O2)
    else if m.msgId == DS_DISABLE_SERIAL_NUM then Transition(u, O7)
    else u
  }

  /** A timer can expire only while it is pending. */
  predicate Enabled(u: Onu, e: Event) {
    match e
    case Rx(m) => |m.payload| == 9
    case To1Expired => u.to1
    case To2Expired => u.to2
    case _ => true
  }

  function Step(id: Identity, u: Onu, e: Event): Onu
    requires GoodIdentity(id) && Enabled(u, e)
  {
    match e
    case Rx(m) => Receive(id, u, m)
    case To1Expired => Transition(u.(to1 := false), O2)
    case To2Expired => Transition(u.(to2 := false), O1)
    case Los(on) => if on then Transition(u, O1) else u
    case Lof(on) =>
      if on then Transition(u, if u.state == O5 then O6 else O1)
      else if u.state == O1 then Transition(u, O2) else u
  }

  /** falcon_ploam_destroy */
  function Destroy(u: Onu): Onu { Transition(u.(to1 := false, to2 := false), O1) }

  // ----- The machine as the driver runs it -----

  class Context {
    const id: Identity
    var state: State
    var assignedOnuId: byte
    var eqd: nat
    var onuIdReg: byte
    var rangedDelay: nat
    var delayCtrl: DelayCtrl
    var laser: bool
    var carrier: bool
    var to1: bool
    var to2: bool
    var sent: seq<Sent>

    ghost function View(): Onu
      reads this
    {
      Onu(state, assignedOnuId, eqd, onuIdReg, rangedDelay, delayCtrl, laser, carrier, to1, to2, sent)
    }

    /** falcon_ploam_init, with the hardware at rest and the hooks installed. */
    constructor (id: Identity, rangedDelay: nat, delayCtrl: DelayCtrl)
      ensures this.id == id && View() == Onu(O1, 0, 0, 0, rangedDelay, delayCtrl, false, false, false, false, [])
    {
      this.id := id;
      state, assignedOnuId, eqd := O1, 0, 0;
      onuIdReg, this.rangedDelay, this.delayCtrl := 0, rangedDelay, delayCtrl;
      laser, carrier, to1, to2, sent := false, false, false, false, [];
    }

    method StateTransition(newState: State)
      modifies this
      ensures View() == Transition(old(View()), newState)
    {
      if state == newState { return; }
      state := newState;
      match newState
      case O1 | O2 =>
        laser := false;
        carrier := false;
        assignedOnuId := 0;
        onuIdReg := 0;
      case O3 =>
        laser := true;
        to1 := true;
      case O4 =>
        to1 := false;
      case O5 =>
        to1 := false;
        to2 := false;
        carrier := true;
      case O6 =>
        laser := false;
        to2 := true;
      case O7 =>
        laser := false;
        carrier := false;
    }

    method SendUpstream(m: Msg)
      modifies this`sent
      ensures sent == old(sent) + [Sent(m, onuIdReg)]
    {
      sent := sent + [Sent(m, onuIdReg)];
    }

    method Overhead()
      modifies this
      ensures View() == OnOverhead(id, old(View()))
    {
      if state == O1 || state == O2 {
        StateTransition(O3);
        SendUpstream(SerialNumberOnu(id));
      }
    }

    method Assign(onuId: byte, seqNum: byte)
      modifies this
      ensures View() == OnAssign(old(View()), onuId, seqNum)
    {
      assignedOnuId := onuId;
      onuIdReg := assignedOnuId;
      SendUpstream(Ack(assignedOnuId, seqNum));
      StateTransition(O4);
    }

    method RangingTime(newEqd: nat, seqNum: byte)
      modifies this
      ensures View() == OnRanging(old(View()), newEqd, seqNum)
    {
      eqd := newEqd;
      rangedDelay := eqd;
      delayCtrl := delayCtrl.(enable := true);
      SendUpstream(Ack(assignedOnuId, seqNum));
      StateTransition(O5);
    }

    method FsmWorker(m: Msg)
      requires GoodIdentity(id) && WellFormed(m)
      modifies this
      ensures View() == Receive(id, old(View()), m)
    {
      if m.msgId == DS_UPSTREAM_OVERHEAD {
        Overhead();
      } else if m.msgId == DS_ASSIGN_ONU_ID {
        if m.payload[..8] == id.serial { Assign(m.payload[8], m.seqNum); }
      } else if m.msgId == DS_RANGING_TIME {
        if state == O4 || state == O5 { RangingTime(EqdOf(m), m.seqNum); }
      } else if m.msgId == DS_REQUEST_PASSWORD {
        SendUpstream(Password(id, assignedOnuId, m.seqNum));
      } else if m.msgId == DS_DEACTIVATE_ONU_ID {
        StateTransition(O2);
      } else if m.msgId == DS_DISABLE_SERIAL_NUM {
        StateTransition(O7);
      }
    }

    method Handle(e: Event)
      requires GoodIdentity(id) && Enabled(View(), e)
      modifies this
      ensures View() == Step(id, old(View()), e)
    {
      match e
      case Rx(m) => FsmWorker(m);
      case To1Expired =>
        to1 := false;
        StateTransition(O2);
      case To2Expired =>
        to2 := false;
        StateTransition(O1);
      case Los(on) =>
        if on { StateTransition(O1); }
      case Lof(on) =>
        if on {
          if state == O5 { StateTransition(O6); } else { StateTransition(O1); }
        } else if state == O1 {
          StateTransition(O2);
        }
    }

    method Close()
      modifies this
      ensures View() == Destroy(old(View()))
    {
      to1 := false;
      to2 := false;
      StateTransition(O1);
    }
  }

  // ----- Runs -----

  /** Laser off, carrier down, no timer, no ONU-ID: what the driver starts from. */
  ghost predicate Initial(u: Onu) {
    u.state == O1 && !u.laser && !u.carrier && !u.to1 && !u.to2 && u.onuId == 0 && u.onuIdReg == 0 && u.sent == []
  }

  /** run is a sequence of states, events[i] leading from run[i] to run[i + 1]. */
  ghost predicate Run(id: Identity, run: seq<Onu>, events: seq<Event>) {
    && GoodIdentity(id) && |run| == |events| + 1 && Initial(run[0])
    && forall i :: 0 <= i < |events| ==> StepAt(id, run, events, i)
  }

  ghost predicate StepAt(id: Identity, run: seq<Onu>, events: seq<Event>, i: nat)
    requires GoodIdentity(id) && |run| == |events| + 1 && i < |events|
  {
    Enabled(run[i], events[i]) && run[i + 1] == Step(id, run[i], events[i])
  }

  ghost predicate Safe(u: Onu) {
    && (u.laser ==> u.state in {O3, O4, O5}) && (u.state == O3 ==> u.laser)
    && (u.carrier ==> u.state in {O4, O5, O6}) && (u.state in {O5, O6} ==> u.carrier)
    && (u.state in {O1, O2, O3} ==> u.onuId == 0) && u.onuId == u.onuIdReg
    && (u.to1 ==> u.state in {O1, O2, O3, O7}) && (u.state == O3 ==> u.to1)
    && (u.to2 ==> u.state != O5) && (u.state == O6 ==> u.to2)
    && (u.state == O5 ==> u.rangedDelay == u.eqd && u.delayCtrl.enable)
    && SentSafe(u)
  }

  /** Every message went out under the ONU-ID in the register, or as the serial-number broadcast. */
  ghost predicate SentSafe(u: Onu) {
    forall t :: t in u.sent ==>
      t.msg.onuId == t.reg || (t.msg.onuId == BROADCAST && t.msg.msgId == US_SERIAL_NUMBER_ONU)
  }

  /** What entering a state needs so that the result is safe. */
  lemma EnterSafe(u: Onu, s: State)
    requires u.state != s && u.onuId == u.onuIdReg && SentSafe(u)
    requires s == O3 ==> !u.carrier && u.onuId == 0
    requires s == O5 ==> u.rangedDelay == u.eqd && u.delayCtrl.enable
    requires s == O6 ==> u.carrier && !u.to1
    ensures Safe(Transition(u, s))
  {}

  lemma OverheadKeepsSafe(id: Identity, u: Onu)
    requires Safe(u)
    ensures Safe(OnOverhead(id, u))
  {
    if u.state == O1 || u.state == O2 { EnterSafe(u, O3); }
  }

  lemma AssignKeepsSafe(u: Onu, onuId: byte, seqNum: byte)
    requires Safe(u)
    ensures Safe(OnAssign(u, onuId, seqNum))
  {
    var v := Send(u.(onuId := onuId, onuIdReg := onuId), Ack(onuId, seqNum));
    if v.state != O4 { EnterSafe(v, O4); }
  }

  lemma RangingKeepsSafe(u: Onu, eqd: nat, seqNum: byte)
    requires Safe(u) && (u.state == O4 || u.state == O5)
    ensures Safe(OnRanging(u, eqd, seqNum))
  {
    var v := u.(eqd := eqd, rangedDelay := eqd, delayCtrl := u.delayCtrl.(enable := true));
    var w := Send(v, Ack(v.onuId, seqNum));
    assert SentSafe(w);
    if w.state != O5 { EnterSafe(w, O5); }
  }

  lemma ReceiveKeepsSafe(id: Identity, u: Onu, m: Msg)
    requires GoodIdentity(id) && WellFormed(m) && Safe(u)
    ensures Safe(Receive(id, u, m))
  {
    if m.msgId == DS_UPSTREAM_OVERHEAD {
      OverheadKeepsSafe(id, u);
    } else if m.msgId == DS_ASSIGN_ONU_ID {
      if AssignsMe(id, m) { AssignKeepsSafe(u, m.payload[8], m.seqNum); }
    } else if m.msgId == DS_RANGING_TIME {
      if AcceptsRanging(u, m) { RangingKeepsSafe(u, EqdOf(m), m.seqNum); }
    } else if m.msgId == DS_DEACTIVATE_ONU_ID {
      if u.state != O2 { EnterSafe(u, O2); }
    } else if m.msgId == DS_DISABLE_SERIAL_NUM {
      if u.state != O7 { EnterSafe(u, O7); }
    }
  }

  lemma {:induction false} StepKeepsSafe(id: Identity, u: Onu, e: Event)
    requires GoodIdentity(id) && Enabled(u, e) && Safe(u)
    ensures Safe(Step(id, u, e))
  {
    match e
    case Rx(m) => ReceiveKeepsSafe(id, u, m);
    case To1Expired => if u.state != O2 { EnterSafe(u.(to1 := false), O2); }
    case To2Expired => if u.state != O1 { EnterSafe(u.(to2 := false), O1); }
    case Los(on) => if u.state != O1 { EnterSafe(u, O1); }
    case Lof(on) =>
      if u.state == O5 { EnterSafe(u, O6); }
      else if u.state == O1 { EnterSafe(u, O2); }
      else { EnterSafe(u, O1); }
  }

  // ----- What one step does to each output -----

  lemma StepOutputs(id: Identity, u: Onu, e: Event)
    requires GoodIdentity(id) && Enabled(u, e) && Safe(u)
    ensures var v := Step(id, u, e);
            && (v.laser <==> v.state == O3 || (u.laser && v.state in {O4, O5}))
            && (v.carrier <==> v.state == O5 || (u.carrier && v.state in {O4, O6}))
  {
    match e
    case Rx(m) => ReceiveOutputs(id, u, m);
    case _ =>
  }

  lemma ReceiveOutputs(id: Identity, u: Onu, m: Msg)
    requires GoodIdentity(id) && WellFormed(m) && Safe(u)
    ensures var v := Receive(id, u, m);
            && (v.laser <==> v.state == O3 || (u.laser && v.state in {O4, O5}))
            && (v.carrier <==> v.state == O5 || (u.carrier && v.state in {O4, O6}))
  {
    if m.msgId == DS_UPSTREAM_OVERHEAD {
    } else if m.msgId == DS_ASSIGN_ONU_ID {
    } else if m.msgId == DS_RANGING_TIME {
    } else if m.msgId == DS_REQUEST_PASSWORD {
    }
  }

  /** Only an own Assign_ONU-ID enters O4, O5 or O6 from outside, and only it changes the ONU-ID there. */
  lemma StepActivation(id: Identity, u: Onu, e: Event)
    requires GoodIdentity(id) && Enabled(u, e)
    ensures var v := Step(id, u, e); var assigns := e.Rx? && AssignsMe(id, e.msg);
            && (assigns ==> v.state == O4 && v.onuId == e.msg.payload[8])
            && (!assigns && v.state in {O4, O5, O6} ==> u.state in {O4, O5, O6} && v.onuId == u.onuId)
  {
    if e.Rx? { ReceiveActivation(id, u, e.msg); }
  }

  lemma ReceiveActivation(id: Identity, u: Onu, m: Msg)
    requires GoodIdentity(id) && WellFormed(m)
    ensures AssignsMe(id, m) ==> Receive(id, u, m).state == O4 && Receive(id, u, m).onuId == m.payload[8]
    ensures !AssignsMe(id, m) && Receive(id, u, m).state in {O4, O5, O6} ==>
      u.state in {O4, O5, O6} && Receive(id, u, m).onuId == u.onuId
  {}

  lemma StepRanging(id: Identity, u: Onu, e: Event)
    requires GoodIdentity(id) && Enabled(u, e)
    ensures var v := Step(id, u, e); var ranges := e.Rx? && AcceptsRanging(u, e.msg);
            && (ranges ==> v.state == O5 && v.rangedDelay == EqdOf(e.msg))
            && (!ranges && v.state == O5 ==> u.state == O5 && v.rangedDelay == u.rangedDelay)
  {
    if e.Rx? { ReceiveRanging(id, u, e.msg); }
  }

  lemma ReceiveRanging(id: Identity, u: Onu, m: Msg)
    requires GoodIdentity(id) && WellFormed(m)
    ensures AcceptsRanging(u, m) ==> Receive(id, u, m).state == O5 && Receive(id, u, m).rangedDelay == EqdOf(m)
    ensures !AcceptsRanging(u, m) && Receive(id, u, m).state == O5 ==>
      u.state == O5 && Receive(id, u, m).rangedDelay == u.rangedDelay
  {}

  /** Every reachable state is safe. */
  lemma {:induction false} RunsAreSafe(id: Identity, run: seq<Onu>, events: seq<Event>, i: nat)
    requires Run(id, run, events) && i < |run|
    ensures Safe(run[i])
  {
    if i > 0 {
      RunsAreSafe(id, run, events, i - 1);
      assert StepAt(id, run, events, i - 1);
      StepKeepsSafe(id, run[i - 1], events[i - 1]);
    }
  }

  /** No timer expiry can happen in O5. */
  lemma TimersNeverLeaveOperation(id: Identity, run: seq<Onu>, events: seq<Event>, i: nat)
    requires Run(id, run, events) && i < |events| && run[i].state == O5
    ensures events[i] != To1Expired && events[i] != To2Expired
  {
    RunsAreSafe(id, run, events, i);
    assert StepAt(id, run, events, i);
  }

  /** Closing the driver ends with the laser off and the carrier down, from any reachable state. */
  lemma DestroyIsDark(id: Identity, run: seq<Onu>, events: seq<Event>, i: nat)
    requires Run(id, run, events) && i < |run|
    ensures var u := Destroy(run[i]);
            u.state == O1 && !u.laser && !u.carrier && !u.to1 && !u.to2 && u.onuId == 0 && u.onuIdReg == 0
  {
    RunsAreSafe(id, run, events, i);
  }

  // ----- Where every event leads, and what is sent -----

  /** The activation states of clause 10 of ITU-T G.984.3, as the driver walks them. */
  ghost function Destination(id: Identity, s: State, e: Event): State {
    match e
    case Los(on) => if on then O1 else s
    case Lof(on) => if on then (if s == O5 then O6 else O1) else if s == O1 then O2 else s
    case To1Expired => O2
    case To2Expired => O1
    case Rx(m) =>
      if m.msgId == 0x01 then (if s == O1 || s == O2 then O3 else s)
      else if m.msgId == 0x03 then (if |m.payload| == 9 && m.payload[..8] == id.serial then O4 else s)
      else if m.msgId == 0x04 then (if s == O4 || s == O5 then O5 else s)
      else if m.msgId == 0x05 then O2
      else if m.msgId == 0x06 then O7
      else s
  }

  /** The messages a step sends, byte for byte, with the ONU-ID register at that moment. */
  ghost function Replies(id: Identity, u: Onu, e: Event): seq<Sent>
    requires GoodIdentity(id) && Enabled(u, e)
  {
    if !e.Rx? then []
    else
      var m := e.msg;
      if m.msgId == 0x01 && (u.state == O1 || u.state == O2) then
        [Sent(Msg(0xFF, 0x01, 1, id.serial + [0]), u.onuIdReg)]
      else if m.msgId == 0x03 && m.payload[..8] == id.serial then
        [Sent(Msg(m.payload[8], 0x09, m.seqNum, [0, 0, 0, 0, 0, 0, 0, 0, 0]), m.payload[8])]
      else if m.msgId == 0x04 && (u.state == O4 || u.state == O5) then
        [Sent(Msg(u.onuId, 0x09, m.seqNum, [0, 0, 0, 0, 0, 0, 0, 0, 0]), u.onuIdReg)]
      else if m.msgId == 0x09 then
        [Sent(Msg(u.onuId, 0x02, m.seqNum, id.password[..9]), u.onuIdReg)]
      else []
  }

  lemma TransitionLeads(u: Onu, s: State)
    ensures Transition(u, s).state == s && Transition(u, s).sent == u.sent
  {}

  lemma AssignLeads(u: Onu, onuId: byte, seqNum: byte)
    ensures OnAssign(u, onuId, seqNum).state == O4
  {
    TransitionLeads(Send(u.(onuId := onuId, onuIdReg := onuId), Ack(onuId, seqNum)), O4);
  }

  lemma RangingLeads(u: Onu, eqd: nat, seqNum: byte)
    ensures OnRanging(u, eqd, seqNum).state == O5
  {
    var v := u.(eqd := eqd, rangedDelay := eqd, delayCtrl := u.delayCtrl.(enable := true));
    TransitionLeads(Send(v, Ack(v.onuId, seqNum)), O5);
  }

  lemma OverheadLeads(id: Identity, u: Onu)
    ensures OnOverhead(id, u).state == if u.state == O1 || u.state == O2 then O3 else u.state
  {
    TransitionLeads(u, O3);
  }

  lemma ReceiveLeads(id: Identity, u: Onu, m: Msg)
    requires GoodIdentity(id) && WellFormed(m)
    ensures Receive(id, u, m).state == Destination(id, u.state, Rx(m))
  {
    if m.msgId == DS_UPSTREAM_OVERHEAD {
      OverheadLeads(id, u);
    } else if m.msgId == DS_ASSIGN_ONU_ID {
      AssignLeads(u, m.payload[8], m.seqNum);
    } else if m.msgId == DS_RANGING_TIME {
      RangingLeads(u, EqdOf(m), m.seqNum);
    } else {
      TransitionLeads(u, if m.msgId == DS_DEACTIVATE_ONU_ID then O2 else O7);
    }
  }

  lemma ReceiveReplies(id: Identity, u: Onu, m: Msg)
    requires GoodIdentity(id) && WellFormed(m)
    ensures Receive(id, u, m).sent == u.sent + Replies(id, u, Rx(m))
  {
    assert Zeros(9) == [0, 0, 0, 0, 0, 0, 0, 0, 0];
  }

  /** In every run each event leads exactly to its destination, and sends exactly its replies. */
  lemma {:induction false} StatesFollow(id: Identity, run: seq<Onu>, events: seq<Event>, i: nat)
    requires Run(id, run, events) && i < |events|
    ensures run[i + 1].state == Destination(id, run[i].state, events[i])
    ensures Enabled(run[i], events[i]) && run[i + 1].sent == run[i].sent + Replies(id, run[i], events[i])
  {
    assert StepAt(id, run, events, i);
    if events[i].Rx? {
      ReceiveLeads(id, run[i], events[i].msg);
      ReceiveReplies(id, run[i], events[i].msg);
    } else {
      RunsAreSafe(id, run, events, i);
    }
  }

  /** O6 is entered exactly by a loss of frame in O5. */
  lemma {:induction false} PopupExactly(id: Identity, run: seq<Onu>, events: seq<Event>, i: nat)
    requires Run(id, run, events) && i < |events|
    ensures run[i].state != O6 && run[i + 1].state == O6 <==> run[i].state == O5 && events[i] == Lof(true)
  {
    StatesFollow(id, run, events, i);
  }

  ghost predicate Enters(u: Onu, v: Onu, states: set<State>) { v.state != u.state && v.state in states }

  ghost predicate OwnAssign(id: Identity, e: Event) {
    e.Rx? && |e.msg.payload| == 9 && e.msg.msgId == 0x03 && e.msg.payload[..8] == id.serial
  }

  ghost predicate Ranged(u: Onu, e: Event) {
    e.Rx? && |e.msg.payload| == 9 && e.msg.msgId == 0x04 && (u.state == O4 || u.state == O5)
  }

  /** What a step does to the timers. */
  ghost predicate TimersFollow(u: Onu, e: Event, v: Onu) {
    && (v.to1 <==> Enters(u, v, {O3}) || (u.to1 && e != To1Expired && !Enters(u, v, {O4, O5})))
    && (v.to2 <==> Enters(u, v, {O6}) || (u.to2 && e != To2Expired && !Enters(u, v, {O5})))
  }

  /** What a step does to the ONU-ID and its register. */
  ghost predicate OnuIdFollows(id: Identity, u: Onu, e: Event, v: Onu) {
    if OwnAssign(id, e) then v.onuId == v.onuIdReg == e.msg.payload[8]
    else if Enters(u, v, {O1, O2}) then v.onuId == v.onuIdReg == 0
    else v.onuId == u.onuId && v.onuIdReg == u.onuIdReg
  }

  /** The equalization delay in the first four payload bytes. */
  ghost function Delay(p: seq<byte>): int
    requires |p| == 9
  {
    ((p[0] as int * 256 + p[1] as int) * 256 + p[2] as int) * 256 + p[3] as int
  }

  /** What a step does to the ranging registers. */
  ghost predicate RangingFollows(u: Onu, e: Event, v: Onu) {
    if Ranged(u, e) then
      && v.eqd == v.rangedDelay == Delay(e.msg.payload)
      && v.delayCtrl.enable && v.delayCtrl.rest == u.delayCtrl.rest
    else v.eqd == u.eqd && v.rangedDelay == u.rangedDelay && v.delayCtrl == u.delayCtrl
  }

  /** What a step does to the timers and registers. */
  ghost predicate Follows(id: Identity, u: Onu, e: Event, v: Onu) {
    TimersFollow(u, e, v) && OnuIdFollows(id, u, e, v) && RangingFollows(u, e, v)
  }

  lemma AssignFollows(id: Identity, u: Onu, m: Msg)
    requires GoodIdentity(id) && WellFormed(m) && m.msgId == DS_ASSIGN_ONU_ID
    ensures Follows(id, u, Rx(m), Receive(id, u, m))
  {}

  lemma RangeLater(id: Identity, u: Onu, m: Msg)
    requires GoodIdentity(id) && WellFormed(m) && m.msgId == DS_RANGING_TIME && u.state != O4
    ensures Follows(id, u, Rx(m), Receive(id, u, m))
  {}

  lemma RangeFollows(id: Identity, u: Onu, m: Msg)
    requires GoodIdentity(id) && WellFormed(m) && m.msgId == DS_RANGING_TIME
    ensures Follows(id, u, Rx(m), Receive(id, u, m))
  {
    if u.state != O4 { RangeLater(id, u, m); }
  }

  lemma OverheadFollows(id: Identity, u: Onu, m: Msg)
    requires GoodIdentity(id) && WellFormed(m) && m.msgId == DS_UPSTREAM_OVERHEAD
    ensures Follows(id, u, Rx(m), Receive(id, u, m))
  {}

  lemma RestFollows(id: Identity, u: Onu, m: Msg)
    requires GoodIdentity(id) && WellFormed(m)
    requires m.msgId != DS_ASSIGN_ONU_ID && m.msgId != DS_RANGING_TIME && m.msgId != DS_UPSTREAM_OVERHEAD
    ensures Follows(id, u, Rx(m), Receive(id, u, m))
  {}

  lemma ReceiveFollows(id: Identity, u: Onu, m: Msg)
    requires GoodIdentity(id) && WellFormed(m)
    ensures Follows(id, u, Rx(m), Receive(id, u, m))
  {
    if m.msgId == DS_ASSIGN_ONU_ID { AssignFollows(id, u, m); }
    else if m.msgId == DS_RANGING_TIME { RangeFollows(id, u, m); }
    else if m.msgId == DS_UPSTREAM_OVERHEAD { OverheadFollows(id, u, m); }
    else { RestFollows(id, u, m); }
  }

  lemma OtherTimers(id: Identity, u: Onu, e: Event)
    requires GoodIdentity(id) && Enabled(u, e) && !e.Rx?
    ensures TimersFollow(u, e, Step(id, u, e))
  {}

  lemma OtherOnuId(id: Identity, u: Onu, e: Event)
    requires GoodIdentity(id) && Enabled(u, e) && !e.Rx?
    ensures OnuIdFollows(id, u, e, Step(id, u, e))
  {}

  lemma OtherDelay(id: Identity, u: Onu, e: Event)
    requires GoodIdentity(id) && Enabled(u, e) && !e.Rx?
    ensures RangingFollows(u, e, Step(id, u, e))
  {}

  /** In every run the timers, the ONU-ID and the ranging registers change exactly so. */
  lemma {:induction false} RegistersFollow(id: Identity, run: seq<Onu>, events: seq<Event>, i: nat)
    requires Run(id, run, events) && i < |events|
    ensures TimersFollow(run[i], events[i], run[i + 1])
    ensures OnuIdFollows(id, run[i], events[i], run[i + 1]) && RangingFollows(run[i], events[i], run[i + 1])
  {
    assert StepAt(id, run, events, i);
    if events[i].Rx? {
      ReceiveFollows(id, run[i], events[i].msg);
    } else {
      OtherTimers(id, run[i], events[i]);
      OtherOnuId(id, run[i], events[i]);
      OtherDelay(id, run[i], events[i]);
    }
  }

  // ----- What the outputs mean in terms of the run -----

  /** From position i to n the run stays in the given states. */
  ghost predicate Stays(run: seq<Onu>, i: nat, n: nat, states: set<State>)
    requires n < |run|
  {
    forall k :: i <= k <= n ==> run[k].state in states
  }

  lemma OutputsAt(id: Identity, run: seq<Onu>, events: seq<Event>, n: nat)
    requires Run(id, run, events) && 0 < n < |run|
    ensures run[n].laser <==> run[n].state == O3 || (run[n - 1].laser && run[n].state in {O4, O5})
    ensures run[n].carrier <==> run[n].state == O5 || (run[n - 1].carrier && run[n].state in {O4, O6})
  {
    RunsAreSafe(id, run, events, n - 1);
    assert StepAt(id, run, events, n - 1);
    StepOutputs(id, run[n - 1], events[n - 1]);
  }

  /** The laser is armed exactly when O3 was visited and only O3, O4 and O5 since. */
  lemma {:induction false} LaserExactly(id: Identity, run: seq<Onu>, events: seq<Event>, n: nat)
    requires Run(id, run, events) && n < |run|
    ensures run[n].laser <==> exists i :: 0 <= i <= n && run[i].state == O3 && Stays(run, i, n, {O3, O4, O5})
  {
    if n > 0 {
      LaserExactly(id, run, events, n - 1);
      OutputsAt(id, run, events, n);
      RunsAreSafe(id, run, events, n);
      if run[n].laser {
        if run[n].state == O3 {
          assert Stays(run, n, n, {O3, O4, O5});
        } else {
          var i :| 0 <= i <= n - 1 && run[i].state == O3 && Stays(run, i, n - 1, {O3, O4, O5});
          assert Stays(run, i, n, {O3, O4, O5});
        }
      }
      if i :| 0 <= i <= n && run[i].state == O3 && Stays(run, i, n, {O3, O4, O5}) {
        if i < n { assert Stays(run, i, n - 1, {O3, O4, O5}); }
      }
    }
  }

  /** The carrier is up exactly when O5 was visited and only O4, O5 and O6 since. */
  lemma {:induction false} CarrierExactly(id: Identity, run: seq<Onu>, events: seq<Event>, n: nat)
    requires Run(id, run, events) && n < |run|
    ensures run[n].carrier <==> exists i :: 0 <= i <= n && run[i].state == O5 && Stays(run, i, n, {O4, O5, O6})
  {
    if n > 0 {
      CarrierExactly(id, run, events, n - 1);
      OutputsAt(id, run, events, n);
      RunsAreSafe(id, run, events, n);
      if run[n].carrier {
        if run[n].state == O5 {
          assert Stays(run, n, n, {O4, O5, O6});
        } else {
          var i :| 0 <= i <= n - 1 && run[i].state == O5 && Stays(run, i, n - 1, {O4, O5, O6});
          assert Stays(run, i, n, {O4, O5, O6});
        }
      }
      if i :| 0 <= i <= n && run[i].state == O5 && Stays(run, i, n, {O4, O5, O6}) {
        if i < n { assert Stays(run, i, n - 1, {O4, O5, O6}); }
      }
    }
  }

  ghost predicate Assigns(id: Identity, e: Event) { e.Rx? && WellFormed(e.msg) && AssignsMe(id, e.msg) }

  /** events[a] assigned this ONU its current ONU-ID and the activation has not been left since. */
  ghost predicate AssignedAt(id: Identity, run: seq<Onu>, events: seq<Event>, n: nat, a: nat)
    requires Run(id, run, events) && n < |run|
  {
    && a < n && Assigns(id, events[a])
    && Stays(run, a + 1, n, {O4, O5, O6})
    && (forall k :: a < k < n ==> !Assigns(id, events[k]))
    && run[n].onuId == events[a].msg.payload[8]
  }

  lemma ActivationAt(id: Identity, run: seq<Onu>, events: seq<Event>, n: nat)
    requires Run(id, run, events) && 0 < n < |run|
    ensures var e := events[n - 1]; var assigns := e.Rx? && |e.msg.payload| == 9 && AssignsMe(id, e.msg);
            && (e.Rx? ==> |e.msg.payload| == 9)
            && (assigns ==> run[n].state == O4 && run[n].onuId == e.msg.payload[8])
            && (!assigns && run[n].state in {O4, O5, O6} ==>
                  run[n - 1].state in {O4, O5, O6} && run[n].onuId == run[n - 1].onuId)
  {
    assert StepAt(id, run, events, n - 1);
    StepActivation(id, run[n - 1], events[n - 1]);
  }

  /** In O4, O5 and O6 the ONU-ID is the one of the latest Assign_ONU-ID with the own serial number. */
  lemma {:induction false} ActivationHasAssign(id: Identity, run: seq<Onu>, events: seq<Event>, n: nat) returns (a: nat)
    requires Run(id, run, events) && n < |run| && run[n].state in {O4, O5, O6}
    ensures AssignedAt(id, run, events, n, a)
  {
    ActivationAt(id, run, events, n);
    var e := events[n - 1];
    if e.Rx? && AssignsMe(id, e.msg) {
      a := n - 1;
    } else {
      a := ActivationHasAssign(id, run, events, n - 1);
    }
  }

  ghost predicate Ranges(u: Onu, e: Event) { e.Rx? && WellFormed(e.msg) && AcceptsRanging(u, e.msg) }

  /** events[r] is the latest Ranging_Time the ONU acted on before position n. */
  ghost predicate LastRanging(id: Identity, run: seq<Onu>, events: seq<Event>, n: nat, r: nat)
    requires Run(id, run, events) && n < |run|
  {
    && r < n && Ranges(run[r], events[r])
    && forall k :: r < k < n ==> !Ranges(run[k], events[k])
  }

  /** In O5 the ranged-delay register holds the EqD of the latest accepted
      Ranging_Time, which followed the Assign_ONU-ID of this activation. */
  lemma {:induction false} OperationIsRanged(id: Identity, run: seq<Onu>, events: seq<Event>, n: nat)
    returns (a: nat, r: nat)
    requires Run(id, run, events) && n < |run| && run[n].state == O5
    ensures LastRanging(id, run, events, n, r) && run[n].rangedDelay == EqdOf(events[r].msg)
    ensures run[n].delayCtrl.enable
    ensures exists b :: AssignedAt(id, run, events, r, b)
    ensures AssignedAt(id, run, events, n, a)
  {
    a := ActivationHasAssign(id, run, events, n);
    RunsAreSafe(id, run, events, n);
    assert StepAt(id, run, events, n - 1);
    StepRanging(id, run[n - 1], events[n - 1]);
    if Ranges(run[n - 1], events[n - 1]) {
      r := n - 1;
      var b := ActivationHasAssign(id, run, events, r);
    } else {
      var c;
      c, r := OperationIsRanged(id, run, events, n - 1);
    }
  }

  // ----- What the code does not promise -----

  /** An Assign_ONU-ID accepted outside O3 reaches O5 with carrier up and the laser never armed. */
  lemma OperationWithoutLaser(id: Identity, u: Onu, assign: Msg, ranging: Msg)
    requires GoodIdentity(id) && Initial(u) && WellFormed(assign) && WellFormed(ranging)
    requires AssignsMe(id, assign) && ranging.msgId == DS_RANGING_TIME
    ensures var v := Step(id, Step(id, u, Rx(assign)), Rx(ranging)); v.state == O5 && v.carrier && !v.laser
  {}

  /** Emergency stop is not sticky: TO1, armed on entry to O3, leads from O7 to O2. */
  lemma EmergencyStopIsLeft(id: Identity, u: Onu, overhead: Msg, disable: Msg)
    requires GoodIdentity(id) && Initial(u) && WellFormed(overhead) && WellFormed(disable)
    requires overhead.msgId == DS_UPSTREAM_OVERHEAD && disable.msgId == DS_DISABLE_SERIAL_NUM
    ensures var v := Step(id, Step(id, u, Rx(overhead)), Rx(disable));
            v.state == O7 && Enabled(v, To1Expired) && Step(id, v, To1Expired).state == O2
  {}

  /** An event that leads out of O7: own Assign_ONU-ID, Deactivate, LOS, LOF, or a pending timer. */
  ghost predicate EndsStop(id: Identity, e: Event) {
    match e
    case Rx(m) => WellFormed(m) && (AssignsMe(id, m) || m.msgId == DS_DEACTIVATE_ONU_ID)
    case To1Expired | To2Expired => true
    case Los(on) => on
    case Lof(on) => on
  }

  lemma StopStep(id: Identity, u: Onu, e: Event)
    requires GoodIdentity(id) && Enabled(u, e) && u.state == O7
    ensures Step(id, u, e).state != O7 <==> EndsStop(id, e)
  {}

  /** In every run an emergency stop lasts exactly until the first such event. */
  lemma {:induction false} EmergencyStopLasts(id: Identity, run: seq<Onu>, events: seq<Event>, i: nat, n: nat)
    requires Run(id, run, events) && i <= n < |run| && run[i].state == O7
    ensures Stays(run, i, n, {O7}) <==> forall k :: i <= k < n ==> !EndsStop(id, events[k])
  {
    if i < n {
      EmergencyStopLasts(id, run, events, i, n - 1);
      assert StepAt(id, run, events, n - 1);
      assert Stays(run, i, n, {O7}) <==> Stays(run, i, n - 1, {O7}) && run[n].state == O7;
      if run[n - 1].state == O7 { StopStep(id, run[n - 1], events[n - 1]); }
    }
  }
}
