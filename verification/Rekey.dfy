/**
 * client.go doRekey: one renegotiation attempt for one key id, run against the inbound dispatcher,
 * the session's send goroutine and an arbitrary stream of inbound packets.  One action is what a
 * goroutine does up to its next lock or channel operation; the goroutines interleave freely.
 */
module Rekey {
  import opened Bytes
  import opened Reliable
  import opened ReceiveWindow

  datatype InPacket =
    | ControlV1(keyId: Byte, id: Word32, acks: seq<Word32>, payload: Payload)
    | SoftReset(keyId: Byte, id: Word32, acks: seq<Word32>)
    | AckV1(keyId: Byte, acks: seq<Word32>)

  /** What the dispatcher does with a packet of a known session, one queue, window or channel at a time. */
  datatype Duty =
    | AckId(id: Word32)                   // sendQueue.Ack
    | SignalAck                           // close(resetAcked), if still open
    | Take(id: Word32, payload: Payload)  // receiveControl
    | SignalPeer                          // close(peerReset), if still open

  /** The loop over a packet's ack list; in a P_CONTROL_V1 packet it signals nothing. */
  function AckOps(acks: seq<Word32>, signals: bool): seq<Duty> {
    if acks == [] then []
    else [AckId(acks[0])] + (if signals && acks[0] == 0 then [SignalAck] else []) + AckOps(acks[1..], signals)
  }

  function Plan(pkt: InPacket): seq<Duty> {
    match pkt
    case ControlV1(_, id, acks, payload) => AckOps(acks, false) + [Take(id, payload)]
    case SoftReset(_, id, acks) => [Take(id, [])] + (AckOps(acks, true) + [SignalPeer])
    case AckV1(_, acks) => AckOps(acks, true)
  }

  datatype Action =
    | HandOver                      // doRekey: rekeySessionCh <- session
    | Register                      // dispatcher: put it in the sessions map, close(registered)
    | QueueReset(now: int)          // doRekey: past <-registered; Enqueue(softReset)
    | WriteReset                    // doRekey: writePacket(softReset)
    | SeePeerReset                  // waitForRekeyReset: case <-peerReset
    | SeeResetAck                   // waitForRekeyReset: case <-resetAcked
    | BeginTls                      // waitForRekeyReset returned nil
    | TlsWrite(seg: Payload)        // TLS output, one segment of it; an alert after a failure too
    | SendSegment(now: int)         // send goroutine
    | FinishTls                     // handshake and auth exchange done
    | CheckAcks                     // waitForControlAcks saw an empty queue
    | Prepare                       // manager.Prepare(newCh)
    | Fail                          // cancellation, deadline or any error return
    | Arrive(pkt: InPacket)         // dispatcher: take a packet and look up its session
    | Handle(op: Duty)              // dispatcher: the next operation for that packet
    | Sweep(now: int)               // retransmit ticker

  datatype Pc = Allocated | HandedOver | ResetQueued | AwaitReset | Tls | AwaitAcks | Checked | Prepared | Failed

  /** Where in the log the milestones are; meaningful once they have been passed. */
  datatype Marks = Marks(reg: nat, queue: nat, peer: nat, ack: nat, tls: nat, check: nat)

  /** Where doRekey is, and what it and the dispatcher have signalled to each other. */
  datatype Flow = Flow(pc: Pc, handed: bool, registered: bool, peerReset: bool, resetAcked: bool,
                       gotPeer: bool, gotAck: bool, begun: bool, at: Marks)

  /** `todo` is what the dispatcher still has to do for the packet it took at log position `cur`. */
  datatype State = State(flow: Flow, queue: Queue, window: Window, outbound: seq<Payload>,
                         todo: seq<Duty>, cur: nat, log: seq<Action>)

  const Start := State(Flow(Allocated, false, false, false, false, false, false, false, Marks(0, 0, 0, 0, 0, 0)),
                       NewQueue(0), NewWindow(0), [], [], 0, [])

  predicate TlsRunning(pc: Pc) {
    pc == Tls || pc == AwaitAcks || pc == Checked || pc == Prepared
  }

  /** The dispatcher registers a session handed over even if doRekey has returned meanwhile. */
  predicate FlowEnabled(f: Flow, a: Action) {
    match a
    case HandOver => f.pc == Allocated
    case Register => f.handed && !f.registered
    case QueueReset(_) => f.pc == HandedOver && f.registered
    case WriteReset => f.pc == ResetQueued
    case SeePeerReset => f.pc == AwaitReset && f.peerReset && !f.gotPeer
    case SeeResetAck => f.pc == AwaitReset && f.resetAcked && !f.gotAck
    case BeginTls => f.pc == AwaitReset && f.gotPeer && f.gotAck
    case TlsWrite(_) => f.begun
    case SendSegment(_) => f.registered
    case FinishTls => f.pc == Tls
    case CheckAcks => f.pc == AwaitAcks
    case Prepare => f.pc == Checked
    case Fail => f.pc != Prepared
    case _ => true
  }

  /**
   * The dispatcher finishes a packet before it takes the next one or registers a session.  An
   * exhausted id space is left out: the send goroutine stops before the last id.
   */
  predicate Enabled(s: State, a: Action) {
    && FlowEnabled(s.flow, a)
    && (a.SendSegment? ==> s.outbound != [] && s.queue.nextId < 0xFFFF_FFFF)
    && (a.CheckAcks? ==> s.queue.entries == [])
    && (a.Register? || a.Arrive? ==> s.todo == [])
    && (a.Handle? ==> s.todo != [] && s.todo[0] == a.op)
  }

  function PcAfter(pc: Pc, a: Action): Pc {
    match a
    case HandOver => HandedOver
    case QueueReset(_) => ResetQueued
    case WriteReset => AwaitReset
    case BeginTls => Tls
    case FinishTls => AwaitAcks
    case CheckAcks => Checked
    case Prepare => Prepared
    case Fail => Failed
    case _ => pc
  }

  /** `n` is the action's position in the log.  A channel is closed once: the first signal counts. */
  function MarksAfter(f: Flow, a: Action, n: nat): Marks {
    Marks(if a.Register? then n else f.at.reg,
          if a.QueueReset? then n else f.at.queue,
          if a == Handle(SignalPeer) && !f.peerReset then n else f.at.peer,
          if a == Handle(SignalAck) && !f.resetAcked then n else f.at.ack,
          if a.BeginTls? then n else f.at.tls,
          if a.CheckAcks? then n else f.at.check)
  }

  function FlowAfter(f: Flow, a: Action, n: nat): Flow {
    Flow(PcAfter(f.pc, a), f.handed || a.HandOver?, f.registered || a.Register?,
         f.peerReset || a == Handle(SignalPeer), f.resetAcked || a == Handle(SignalAck),
         f.gotPeer || a.SeePeerReset?, f.gotAck || a.SeeResetAck?, f.begun || a.BeginTls?, MarksAfter(f, a, n))
  }

  function QueueAfter(s: State, a: Action): Queue {
    match a
    case QueueReset(now) => Enqueued(s.queue, [], now)
    case SendSegment(now) => if s.outbound == [] then s.queue else Enqueued(s.queue, s.outbound[0], now)
    case Handle(op) => if op.AckId? then Acked(s.queue, op.id) else s.queue
    case Sweep(now) => s.queue.(entries := Swept(s.queue.entries, now))
    case _ => s.queue
  }

  function WindowAfter(s: State, a: Action): Window {
    if a.Handle? && a.op.Take? then Received(s.window, a.op.id, a.op.payload).window else s.window
  }

  function OutboundAfter(s: State, a: Action): seq<Payload> {
    match a
    case TlsWrite(seg) => s.outbound + [seg]
    case SendSegment(_) => if s.outbound == [] then [] else s.outbound[1..]
    case _ => s.outbound
  }

  /** Packets for another key id, or before the session is registered, do not touch the session. */
  function TodoAfter(key: Byte, s: State, a: Action): seq<Duty> {
    match a
    case Arrive(pkt) => if s.flow.registered && pkt.keyId == key then Plan(pkt) else []
    case Handle(_) => if s.todo == [] then [] else s.todo[1..]
    case _ => s.todo
  }

  function Step(key: Byte, s: State, a: Action): State {
    if Enabled(s, a)
    then State(FlowAfter(s.flow, a, |s.log|), QueueAfter(s, a), WindowAfter(s, a), OutboundAfter(s, a),
               TodoAfter(key, s, a), if a.Arrive? then |s.log| else s.cur, s.log + [a])
    else s
  }

  /** The state after any interleaving; actions whose turn comes while they are blocked do nothing. */
  function After(key: Byte, run: seq<Action>): State {
    if run == [] then Start else Step(key, After(key, run[..|run| - 1]), run[|run| - 1])
  }

  // ---- What the log says -------------------------------------------------------

  predicate IsEnqueue(a: Action) {
    a.QueueReset? || a.SendSegment?
  }

  /** How many reliable packets the log enqueues; the next one gets this number as its id. */
  function Enqueues(log: seq<Action>): nat {
    if log == [] then 0
    else Enqueues(log[..|log| - 1]) + if IsEnqueue(log[|log| - 1]) then 1 else 0
  }

  predicate Acks(a: Action, id: int) {
    a.Handle? && a.op.AckId? && a.op.id == id
  }

  /** A packet of this session. */
  predicate Ours(key: Byte, a: Action) {
    a.Arrive? && a.pkt.keyId == key
  }

  predicate IsPeerReset(key: Byte, a: Action) {
    Ours(key, a) && a.pkt.SoftReset?
  }

  /** A packet of this session that acknowledges our reset and is not P_CONTROL_V1. */
  predicate IsResetAck(key: Byte, a: Action) {
    Ours(key, a) && !a.pkt.ControlV1? && 0 in a.pkt.acks
  }

  ghost predicate AckedBetween(log: seq<Action>, j: nat, k: nat, id: int)
    requires k <= |log|
  {
    exists a :: j < a < k && Acks(log[a], id)
  }

  /** Everything enqueued before k was acknowledged after it was enqueued and before k. */
  ghost predicate AllAckedBy(log: seq<Action>, k: nat)
    requires k <= |log|
  {
    forall j :: 0 <= j < k && IsEnqueue(log[j]) ==> AckedBetween(log, j, k, Enqueues(log[..j]))
  }

  ghost predicate PeerResetBetween(key: Byte, log: seq<Action>, j: nat, k: nat)
    requires k <= |log|
  {
    exists i :: j < i < k && IsPeerReset(key, log[i])
  }

  ghost predicate ResetAckBetween(key: Byte, log: seq<Action>, j: nat, k: nat)
    requires k <= |log|
  {
    exists i :: j < i < k && IsResetAck(key, log[i])
  }

  /**
   * What TLS must wait for: registered, then SOFT_RESET queued as packet 0; after registration and
   * before TLS began, the peer's SOFT_RESET received and signalled, and an acknowledgement of
   * packet 0 received and signalled; and no TLS segment before that.
   */
  ghost predicate ResetBarrier(key: Byte, log: seq<Action>, at: Marks) {
    && at.reg < at.queue < at.tls < |log| && at.reg < at.peer < at.tls && at.reg < at.ack < at.tls
    && log[at.reg] == Register
    && log[at.queue].QueueReset? && Enqueues(log[..at.queue]) == 0
    && log[at.peer] == Handle(SignalPeer) && PeerResetBetween(key, log, at.reg, at.peer)
    && log[at.ack] == Handle(SignalAck) && ResetAckBetween(key, log, at.reg, at.ack)
    && log[at.tls] == BeginTls
    && (forall j :: 0 <= j < |log| && log[j].SendSegment? ==> at.tls < j && Enqueues(log[..j]) >= 1)
  }

  /** And what Prepare must wait for: at the final check every packet queued so far was acknowledged. */
  ghost predicate BarriersPassed(key: Byte, log: seq<Action>, at: Marks) {
    && ResetBarrier(key, log, at)
    && at.tls < at.check < |log| && log[at.check] == CheckAcks && AllAckedBy(log, at.check)
  }

  // ---- The dispatcher ----------------------------------------------------------

  ghost predicate Handled(log: seq<Action>, j: nat, k: nat, op: Duty)
    requires k <= |log|
  {
    exists i :: j < i < k && log[i] == Handle(op)
  }

  ghost predicate AllHandled(log: seq<Action>, j: nat, ops: seq<Duty>) {
    forall i :: 0 <= i < |ops| ==> Handled(log, j, |log|, ops[i])
  }

  /**
   * Operation k of the log belongs to a packet received since registration; a reset is taken and
   * packet 0 acknowledged before that is signalled.
   */
  ghost predicate Caused(key: Byte, log: seq<Action>, reg: nat, k: nat)
    requires k < |log| && log[k].Handle?
  {
    exists j :: reg < j < k && CausedBy(key, log, j, k)
  }

  ghost predicate CausedBy(key: Byte, log: seq<Action>, j: nat, k: nat)
    requires j < k < |log| && log[k].Handle?
  {
    && Ours(key, log[j]) && log[k].op in Plan(log[j].pkt)
    && (log[k].op.SignalPeer? && log[j].pkt.SoftReset? ==> Handled(log, j, k, Take(log[j].pkt.id, [])))
    && (log[k].op.SignalAck? ==> Handled(log, j, k, AckId(0)))
  }

  ghost predicate CausesOk(key: Byte, log: seq<Action>, registered: bool, reg: nat) {
    forall k :: 0 <= k < |log| && log[k].Handle? ==> registered && Caused(key, log, reg, k)
  }

  /** The packet at hand: what is not left to do has been done. */
  ghost predicate CurOk(key: Byte, log: seq<Action>, reg: nat, todo: seq<Duty>, cur: nat) {
    && reg < cur < |log| && Ours(key, log[cur])
    && var plan := Plan(log[cur].pkt);
       |todo| <= |plan| && todo == plan[|plan| - |todo|..] && AllHandled(log, cur, plan[..|plan| - |todo|])
  }

  /** Every other packet of the session has been dealt with. */
  ghost predicate DoneOk(key: Byte, log: seq<Action>, reg: nat, todo: seq<Duty>, cur: nat) {
    forall j :: reg < j < |log| && Ours(key, log[j]) && (j == cur ==> todo == []) ==> AllHandled(log, j, Plan(log[j].pkt))
  }

  ghost predicate DispatchOk(key: Byte, log: seq<Action>, registered: bool, reg: nat, todo: seq<Duty>, cur: nat) {
    && (registered ==> reg < |log|)
    && CausesOk(key, log, registered, reg)
    && (todo != [] ==> registered && CurOk(key, log, reg, todo, cur))
    && (registered ==> DoneOk(key, log, reg, todo, cur))
  }

  lemma {:induction false} AckOpsContents(acks: seq<Word32>, signals: bool)
    ensures forall op :: op in AckOps(acks, signals) <==>
              (op.AckId? && op.id in acks) || (op.SignalAck? && signals && 0 in acks)
  {
    if acks != [] {
      AckOpsContents(acks[1..], signals);
      assert forall id :: id in acks <==> id == acks[0] || id in acks[1..];
    }
  }

  /** Which packets lead to which operations. */
  lemma PlanContents(pkt: InPacket)
    ensures SignalPeer in Plan(pkt) <==> pkt.SoftReset?
    ensures SignalAck in Plan(pkt) <==> !pkt.ControlV1? && 0 in pkt.acks
    ensures forall id :: AckId(id) in Plan(pkt) <==> id in pkt.acks
    ensures forall id, p :: Take(id, p) in Plan(pkt) ==> !pkt.AckV1? && pkt.id == id
  {
    AckOpsContents(pkt.acks, !pkt.ControlV1?);
  }

  /** The signal comes right after the acknowledgement it reports. */
  lemma {:induction false} AckOpsOrder(acks: seq<Word32>, signals: bool, n: nat)
    requires n < |AckOps(acks, signals)| && AckOps(acks, signals)[n] == SignalAck
    ensures n >= 1 && AckOps(acks, signals)[n - 1] == AckId(0)
  {
    var k := if signals && acks[0] == 0 then 2 else 1;
    if n >= k {
      AckOpsOrder(acks[1..], signals, n - k);
    }
  }

  lemma SignalFollows(pkt: InPacket, n: nat)
    requires n < |Plan(pkt)| && Plan(pkt)[n] == SignalAck
    ensures n >= 1 && Plan(pkt)[n - 1] == AckId(0)
  {
    AckOpsOrder(pkt.acks, !pkt.ControlV1?, if pkt.SoftReset? then n - 1 else n);
  }

  lemma HandledExtend(log: seq<Action>, a: Action, j: nat, k: nat, k': nat, op: Duty)
    requires k <= |log| && k <= k' <= |log| + 1 && Handled(log, j, k, op)
    ensures Handled(log + [a], j, k', op)
  {
    var i :| j < i < k && log[i] == Handle(op);
    assert (log + [a])[i] == Handle(op);
  }

  lemma AllHandledExtend(log: seq<Action>, a: Action, j: nat, ops: seq<Duty>)
    requires AllHandled(log, j, ops)
    ensures AllHandled(log + [a], j, ops)
  {
    forall i | 0 <= i < |ops| ensures Handled(log + [a], j, |log| + 1, ops[i]) {
      HandledExtend(log, a, j, |log|, |log| + 1, ops[i]);
    }
  }

  lemma CausedExtend(key: Byte, log: seq<Action>, a: Action, reg: nat, k: nat)
    requires k < |log| && log[k].Handle? && Caused(key, log, reg, k)
    ensures (log + [a])[k] == log[k] && Caused(key, log + [a], reg, k)
  {
    var j :| reg < j < k && CausedBy(key, log, j, k);
    var log' := log + [a];
    assert log'[j] == log[j] && log'[k] == log[k];
    if log[k].op.SignalPeer? && log[j].pkt.SoftReset? {
      HandledExtend(log, a, j, k, k, Take(log[j].pkt.id, []));
    }
    if log[k].op.SignalAck? {
      HandledExtend(log, a, j, k, k, AckId(0));
    }
    assert CausedBy(key, log', j, k);
  }

  ghost predicate CauseOk(key: Byte, log: seq<Action>, registered: bool, reg: nat, k: nat)
    requires k < |log|
  {
    log[k].Handle? ==> registered && Caused(key, log, reg, k)
  }

  lemma StillCaused(key: Byte, log: seq<Action>, a: Action, registered: bool, reg: nat, k: nat)
    requires CausesOk(key, log, registered, reg) && k < |log|
    ensures CauseOk(key, log + [a], registered, reg, k)
  {
    assert log[k] == (log + [a])[k];
    if log[k].Handle? {
      CausedExtend(key, log, a, reg, k);
    }
  }

  lemma AllCaused(key: Byte, log: seq<Action>, registered: bool, reg: nat)
    requires forall k :: 0 <= k < |log| ==> CauseOk(key, log, registered, reg, k)
    ensures CausesOk(key, log, registered, reg)
  {
    forall k | 0 <= k < |log| && log[k].Handle? ensures registered && Caused(key, log, reg, k) {
      assert CauseOk(key, log, registered, reg, k);
    }
  }

  lemma CausesExtend(key: Byte, log: seq<Action>, a: Action, registered: bool, reg: nat)
    requires CausesOk(key, log, registered, reg) && CauseOk(key, log + [a], registered, reg, |log|)
    ensures CausesOk(key, log + [a], registered, reg)
  {
    forall k | 0 <= k < |log + [a]| ensures CauseOk(key, log + [a], registered, reg, k) {
      if k < |log| {
        StillCaused(key, log, a, registered, reg, k);
      }
    }
    AllCaused(key, log + [a], registered, reg);
  }

  lemma DoneExtend(key: Byte, log: seq<Action>, a: Action, reg: nat, todo: seq<Duty>, cur: nat)
    requires DoneOk(key, log, reg, todo, cur) && !a.Arrive?
    ensures DoneOk(key, log + [a], reg, todo, cur)
  {
    var log' := log + [a];
    forall j | reg < j < |log'| && Ours(key, log'[j]) && (j == cur ==> todo == [])
      ensures AllHandled(log', j, Plan(log'[j].pkt))
    {
      assert log'[j] == log[j];
      AllHandledExtend(log, a, j, Plan(log[j].pkt));
    }
  }

  lemma CurExtend(key: Byte, log: seq<Action>, a: Action, reg: nat, todo: seq<Duty>, cur: nat)
    requires CurOk(key, log, reg, todo, cur)
    ensures CurOk(key, log + [a], reg, todo, cur)
  {
    var plan := Plan(log[cur].pkt);
    assert (log + [a])[cur] == log[cur];
    AllHandledExtend(log, a, cur, plan[..|plan| - |todo|]);
  }

  lemma ArriveKeepsDispatch(key: Byte, log: seq<Action>, a: Action, registered: bool, reg: nat, cur: nat)
    requires DispatchOk(key, log, registered, reg, [], cur) && a.Arrive?
    ensures DispatchOk(key, log + [a], registered, reg,
                       if registered && a.pkt.keyId == key then Plan(a.pkt) else [], |log|)
  {
    var log' := log + [a];
    var todo' := if registered && a.pkt.keyId == key then Plan(a.pkt) else [];
    assert log'[|log|] == a;
    CausesExtend(key, log, a, registered, reg);
    if registered {
      forall j | reg < j < |log'| && Ours(key, log'[j]) && (j == |log| ==> todo' == [])
        ensures AllHandled(log', j, Plan(log'[j].pkt))
      {
        if j < |log| {
          assert log'[j] == log[j];
          AllHandledExtend(log, a, j, Plan(log[j].pkt));
        }
      }
    }
  }

  /** What comes before a signal in a plan has been handled. */
  lemma TakenBefore(log: seq<Action>, a: Action, cur: nat, pkt: InPacket, n: nat)
    requires n < |Plan(pkt)| && Plan(pkt)[n] == SignalPeer && pkt.SoftReset? && AllHandled(log, cur, Plan(pkt)[..n])
    ensures Handled(log + [a], cur, |log|, Take(pkt.id, []))
  {
    assert Plan(pkt)[..n][0] == Take(pkt.id, []);
    HandledExtend(log, a, cur, |log|, |log|, Take(pkt.id, []));
  }

  lemma AckedBefore(log: seq<Action>, a: Action, cur: nat, pkt: InPacket, n: nat)
    requires n < |Plan(pkt)| && Plan(pkt)[n] == SignalAck && AllHandled(log, cur, Plan(pkt)[..n])
    ensures Handled(log + [a], cur, |log|, AckId(0))
  {
    SignalFollows(pkt, n);
    assert Plan(pkt)[..n][n - 1] == AckId(0);
    HandledExtend(log, a, cur, |log|, |log|, AckId(0));
  }

  /** The operation handled is the next of the plan. */
  lemma HandleCaused(key: Byte, log: seq<Action>, reg: nat, todo: seq<Duty>, cur: nat)
    requires todo != [] && CurOk(key, log, reg, todo, cur)
    ensures Caused(key, log + [Handle(todo[0])], reg, |log|)
  {
    var a, pkt := Handle(todo[0]), log[cur].pkt;
    var log', n := log + [a], |Plan(pkt)| - |todo|;
    assert log'[cur] == log[cur] && log'[|log|] == a && todo[0] == Plan(pkt)[n];
    if a.op.SignalPeer? && pkt.SoftReset? {
      TakenBefore(log, a, cur, pkt, n);
    }
    if a.op.SignalAck? {
      AckedBefore(log, a, cur, pkt, n);
    }
    assert CausedBy(key, log', cur, |log|);
  }

  lemma AllHandledMore(log: seq<Action>, j: nat, ops: seq<Duty>, op: Duty)
    requires AllHandled(log, j, ops) && j < |log|
    ensures AllHandled(log + [Handle(op)], j, ops + [op])
  {
    var log', more := log + [Handle(op)], ops + [op];
    AllHandledExtend(log, Handle(op), j, ops);
    forall i | 0 <= i < |more| ensures Handled(log', j, |log'|, more[i]) {
      if i < |ops| {
        assert Handled(log', j, |log'|, ops[i]);
      } else {
        assert log'[|log|] == Handle(op);
      }
    }
  }

  lemma Advances(plan: seq<Duty>, todo: seq<Duty>, n: nat)
    requires todo != [] && n + |todo| == |plan| && todo == plan[n..]
    ensures plan[..n] + [todo[0]] == plan[..n + 1] && todo[1..] == plan[n + 1..]
  {
  }

  lemma HandleAdvances(key: Byte, log: seq<Action>, reg: nat, todo: seq<Duty>, cur: nat)
    requires todo != [] && CurOk(key, log, reg, todo, cur)
    ensures CurOk(key, log + [Handle(todo[0])], reg, todo[1..], cur)
  {
    var plan := Plan(log[cur].pkt);
    var n := |plan| - |todo|;
    assert (log + [Handle(todo[0])])[cur] == log[cur];
    AllHandledMore(log, cur, plan[..n], todo[0]);
    Advances(plan, todo, n);
  }

  /** The packet at hand joins the others when nothing of it is left to do. */
  lemma HandleDone(key: Byte, log: seq<Action>, a: Action, reg: nat, todo: seq<Duty>, todo': seq<Duty>, cur: nat)
    requires DoneOk(key, log, reg, todo, cur) && !a.Arrive?
    requires CurOk(key, log + [a], reg, todo', cur)
    ensures DoneOk(key, log + [a], reg, todo', cur)
  {
    var log' := log + [a];
    forall j | reg < j < |log'| && Ours(key, log'[j]) && (j == cur ==> todo' == [])
      ensures AllHandled(log', j, Plan(log'[j].pkt))
    {
      if j == cur {
        assert Plan(log'[j].pkt)[..|Plan(log'[j].pkt)|] == Plan(log'[j].pkt);
      } else {
        assert log'[j] == log[j];
        AllHandledExtend(log, a, j, Plan(log[j].pkt));
      }
    }
  }

  lemma HandleKeepsDispatch(key: Byte, log: seq<Action>, registered: bool, reg: nat, todo: seq<Duty>, cur: nat)
    requires DispatchOk(key, log, registered, reg, todo, cur) && todo != []
    ensures DispatchOk(key, log + [Handle(todo[0])], registered, reg, todo[1..], cur)
  {
    var a := Handle(todo[0]);
    HandleCaused(key, log, reg, todo, cur);
    CausesExtend(key, log, a, registered, reg);
    HandleAdvances(key, log, reg, todo, cur);
    HandleDone(key, log, a, reg, todo, todo[1..], cur);
  }

  lemma OtherKeepsDispatch(key: Byte, log: seq<Action>, a: Action, registered: bool, reg: nat,
                           todo: seq<Duty>, cur: nat)
    requires DispatchOk(key, log, registered, reg, todo, cur) && !a.Arrive? && !a.Handle?
    ensures DispatchOk(key, log + [a], registered, reg, todo, cur)
  {
    assert (log + [a])[|log|] == a;
    CausesExtend(key, log, a, registered, reg);
    if registered {
      DoneExtend(key, log, a, reg, todo, cur);
    }
    if todo != [] {
      CurExtend(key, log, a, reg, todo, cur);
    }
  }

  lemma RegisterKeepsDispatch(key: Byte, log: seq<Action>, reg: nat, cur: nat)
    requires DispatchOk(key, log, false, reg, [], cur)
    ensures DispatchOk(key, log + [Register], true, |log|, [], cur)
  {
    assert forall k :: 0 <= k < |log| ==> (log + [Register])[k] == log[k];
  }

  ghost predicate DispatcherOk(key: Byte, s: State) {
    DispatchOk(key, s.log, s.flow.registered, s.flow.at.reg, s.todo, s.cur)
  }

  lemma RegisteredOnce(f: Flow, a: Action, n: nat)
    requires FlowEnabled(f, a) && !a.Register?
    ensures FlowAfter(f, a, n).registered == f.registered && FlowAfter(f, a, n).at.reg == f.at.reg
  {
  }

  /** A step other than a registration keeps what the dispatcher goes by. */
  lemma StepTakes(key: Byte, s: State, a: Action)
    requires Enabled(s, a) && !a.Register?
    ensures var s' := Step(key, s, a);
            && s'.log == s.log + [a] && s'.flow.registered == s.flow.registered && s'.flow.at.reg == s.flow.at.reg
            && s'.todo == TodoAfter(key, s, a) && s'.cur == if a.Arrive? then |s.log| else s.cur
  {
    RegisteredOnce(s.flow, a, |s.log|);
  }

  lemma StepKeepsDispatch(key: Byte, s: State, a: Action)
    requires DispatcherOk(key, s) && Enabled(s, a)
    ensures DispatcherOk(key, Step(key, s, a))
  {
    var f := s.flow;
    if a.Register? {
      RegisterKeepsDispatch(key, s.log, f.at.reg, s.cur);
    } else {
      StepTakes(key, s, a);
      if a.Arrive? {
        ArriveKeepsDispatch(key, s.log, a, f.registered, f.at.reg, s.cur);
      } else if a.Handle? {
        HandleKeepsDispatch(key, s.log, f.registered, f.at.reg, s.todo, s.cur);
      } else {
        OtherKeepsDispatch(key, s.log, a, f.registered, f.at.reg, s.todo, s.cur);
      }
    }
  }
}
