/** Runs in which the reset barrier is passed and its purpose is missed. */
module RekeyRuns {
  import opened Bytes
  import opened Reliable
  import opened ReceiveWindow
  import opened Rekey
  import opened RekeyBarriers
  import opened RekeyResets

  lemma Then(key: Byte, run: seq<Action>, a: Action)
    ensures After(key, run + [a]) == Step(key, After(key, run), a)
  {
    assert (run + [a])[..|run|] == run;
  }

  /** The same but for the marks and the log. */
  ghost predicate Like(s: State, f: Flow, q: Queue, w: Window, todo: seq<Duty>) {
    s.flow == f.(at := s.flow.at) && s.queue == q && s.window == w && s.todo == todo
  }

  lemma ArriveStep(key: Byte, s: State, pkt: InPacket)
    requires s.flow.registered && s.todo == [] && pkt.keyId == key
    ensures Like(Step(key, s, Arrive(pkt)), s.flow, s.queue, s.window, Plan(pkt))
  {
  }

  lemma ReachArrived(key: Byte, run: seq<Action>, pkt: InPacket)
    requires After(key, run).flow.registered && After(key, run).todo == [] && pkt.keyId == key
    ensures var s := After(key, run); Like(After(key, run + [Arrive(pkt)]), s.flow, s.queue, s.window, Plan(pkt))
  {
    Then(key, run, Arrive(pkt));
    ArriveStep(key, After(key, run), pkt);
  }

  function Signalled(f: Flow, op: Duty): Flow {
    f.(peerReset := f.peerReset || op == SignalPeer, resetAcked := f.resetAcked || op == SignalAck)
  }

  function QueueHandled(q: Queue, op: Duty): Queue {
    if op.AckId? then Acked(q, op.id) else q
  }

  function WindowHandled(w: Window, op: Duty): Window {
    if op.Take? then Received(w, op.id, op.payload).window else w
  }

  lemma HandleStep(key: Byte, s: State, op: Duty)
    requires s.todo != [] && s.todo[0] == op
    ensures Like(Step(key, s, Handle(op)), Signalled(s.flow, op), QueueHandled(s.queue, op),
                 WindowHandled(s.window, op), s.todo[1..])
  {
  }

  lemma ReachHandled(key: Byte, run: seq<Action>, op: Duty)
    requires var s := After(key, run); s.todo != [] && s.todo[0] == op
    ensures var s := After(key, run);
            Like(After(key, run + [Handle(op)]), Signalled(s.flow, op), QueueHandled(s.queue, op),
                 WindowHandled(s.window, op), s.todo[1..])
  {
    Then(key, run, Handle(op));
    HandleStep(key, After(key, run), op);
  }

  /** A packet with two duties is taken and handled. */
  lemma ReachTwo(key: Byte, run0: seq<Action>, pkt: InPacket, op1: Duty, op2: Duty) returns (run: seq<Action>)
    requires After(key, run0).flow.registered && After(key, run0).todo == [] && pkt.keyId == key
    requires Plan(pkt) == [op1, op2]
    ensures var s := After(key, run0);
            Like(After(key, run), Signalled(Signalled(s.flow, op1), op2), QueueHandled(QueueHandled(s.queue, op1), op2),
                 WindowHandled(WindowHandled(s.window, op1), op2), [])
  {
    ReachArrived(key, run0, pkt);
    run := run0 + [Arrive(pkt)];
    ReachHandled(key, run, op1);
    run := run + [Handle(op1)];
    ReachHandled(key, run, op2);
    run := run + [Handle(op2)];
  }

  lemma ReachRegistered(key: Byte) returns (run: seq<Action>)
    ensures Like(After(key, run), Start.flow.(pc := HandedOver, handed := true, registered := true),
                 NewQueue(0), NewWindow(0), [])
  {
    Then(key, [], HandOver);
    Then(key, [HandOver], Register);
    run := [HandOver] + [Register];
  }

  lemma ReachQueued(key: Byte, run: seq<Action>)
    requires var s := After(key, run); s.flow.pc == HandedOver && s.flow.registered
    ensures var s := After(key, run);
            Like(After(key, run + [QueueReset(0)]), s.flow.(pc := ResetQueued),
                 Enqueued(s.queue, [], 0), s.window, s.todo)
  {
    Then(key, run, QueueReset(0));
  }

  lemma ReachWritten(key: Byte, run: seq<Action>)
    requires After(key, run).flow.pc == ResetQueued
    ensures var s := After(key, run);
            Like(After(key, run + [WriteReset]), s.flow.(pc := AwaitReset), s.queue, s.window, s.todo)
  {
    Then(key, run, WriteReset);
  }

  lemma ReachAwaitReset(key: Byte, run0: seq<Action>) returns (run: seq<Action>)
    requires var s := After(key, run0); s.flow.pc == HandedOver && s.flow.registered && s.todo == []
    ensures var s := After(key, run0);
            Like(After(key, run), s.flow.(pc := AwaitReset), Enqueued(s.queue, [], 0), s.window, [])
  {
    ReachQueued(key, run0);
    run := run0 + [QueueReset(0)];
    ReachWritten(key, run);
    run := run + [WriteReset];
  }

  /** A P_ACK_V1 packet that lists packet 0. */
  lemma ReachAck(key: Byte, run0: seq<Action>) returns (run: seq<Action>)
    requires After(key, run0).flow.registered && After(key, run0).todo == []
    ensures var s := After(key, run0);
            Like(After(key, run), s.flow.(resetAcked := true), Acked(s.queue, 0), s.window, [])
  {
    assert Plan(AckV1(key, [0])) == [AckId(0), SignalAck] by { assert [0 as Word32][1..] == []; }
    run := ReachTwo(key, run0, AckV1(key, [0]), AckId(0), SignalAck);
  }

  lemma ReachPeerReset(key: Byte, run0: seq<Action>, id: Word32) returns (run: seq<Action>)
    requires After(key, run0).flow.registered && After(key, run0).todo == []
    ensures var s := After(key, run0);
            Like(After(key, run), s.flow.(peerReset := true), s.queue, Received(s.window, id, []).window, [])
  {
    assert Plan(SoftReset(key, id, [])) == [Take(id, []), SignalPeer];
    run := ReachTwo(key, run0, SoftReset(key, id, []), Take(id, []), SignalPeer);
  }

  /** The steps of doRekey that only move the flow. */
  predicate OnlyMoves(a: Action) {
    a.SeePeerReset? || a.SeeResetAck? || a.BeginTls? || a.FinishTls? || a.CheckAcks? || a.Prepare?
  }

  lemma MoveStep(key: Byte, s: State, a: Action)
    requires OnlyMoves(a) && Enabled(s, a)
    ensures var s' := Step(key, s, a);
            && s'.flow == FlowAfter(s.flow, a, |s.log|)
            && s'.queue == s.queue && s'.window == s.window && s'.outbound == s.outbound
  {
  }

  lemma ReachMoved(key: Byte, run: seq<Action>, a: Action)
    requires OnlyMoves(a) && Enabled(After(key, run), a)
    ensures var s, s' := After(key, run), After(key, run + [a]);
            && s'.flow == FlowAfter(s.flow, a, |s.log|)
            && s'.queue == s.queue && s'.window == s.window && s'.outbound == s.outbound
  {
    Then(key, run, a);
    MoveStep(key, After(key, run), a);
  }

  lemma ReachTls(key: Byte, run0: seq<Action>) returns (run: seq<Action>)
    requires var s := After(key, run0);
             s.flow.pc == AwaitReset && s.flow.peerReset && s.flow.resetAcked && !s.flow.gotPeer && !s.flow.gotAck
    ensures var s0, s := After(key, run0), After(key, run);
            s.flow.pc == Tls && s.queue == s0.queue && s.window == s0.window && s.outbound == s0.outbound
  {
    ReachMoved(key, run0, SeePeerReset);
    run := run0 + [SeePeerReset];
    ReachMoved(key, run, SeeResetAck);
    run := run + [SeeResetAck];
    ReachMoved(key, run, BeginTls);
    run := run + [BeginTls];
  }

  /** A SOFT_RESET with another id passes the barrier without moving the window. */
  lemma OddResetLeavesWindow(key: Byte) returns (run: seq<Action>)
    ensures var s := After(key, run); s.flow.pc == Tls && s.window.expected == 0
  {
    run := ReachRegistered(key);
    run := ReachAwaitReset(key, run);
    run := ReachAck(key, run);
    run := ReachPeerReset(key, run, 5);
    ReceivedCounts(NewWindow(0), 5, []);
    run := ReachTls(key, run);
  }

  /** An acknowledgement of packet 0 that comes before the packet lets TLS start while it is unacknowledged. */
  lemma EarlyAckStartsTls(key: Byte) returns (run: seq<Action>)
    ensures var s := After(key, run); s.flow.pc == Tls && HasId(s.queue.entries, 0)
  {
    run := ReachRegistered(key);
    run := ReachAck(key, run);
    run := ReachAwaitReset(key, run);
    run := ReachPeerReset(key, run, 0);
    run := ReachTls(key, run);
  }

  /** Acknowledged in a P_CONTROL_V1 packet, the reset leaves the queue and nothing is signalled. */
  lemma PiggybackedAckNotSignalled(key: Byte) returns (run: seq<Action>)
    ensures var s := After(key, run);
            s.flow.pc == AwaitReset && s.todo == [] && s.queue.entries == [] && !s.flow.resetAcked
  {
    run := ReachRegistered(key);
    run := ReachAwaitReset(key, run);
    var pkt := ControlV1(key, 5, [0], []);
    assert Plan(pkt) == [AckId(0), Take(5, [])] by { assert [0 as Word32][1..] == []; }
    run := ReachTwo(key, run, pkt, AckId(0), Take(5, []));
  }

  /** Nothing is written before TLS begins. */
  lemma NothingYet(key: Byte, run: seq<Action>)
    requires After(key, run).flow.pc == AwaitReset
    ensures After(key, run).outbound == []
  {
    InvAlways(key, run);
  }

  lemma TlsBegun(key: Byte, run: seq<Action>)
    requires After(key, run).flow.pc == Tls
    ensures After(key, run).flow.begun
  {
    InvAlways(key, run);
  }

  /** The reset exchange as it should be: TLS starts with an empty queue. */
  lemma ReachCleanTls(key: Byte) returns (run: seq<Action>)
    ensures var s := After(key, run); s.flow.pc == Tls && s.flow.begun && s.queue.entries == [] && s.outbound == []
  {
    run := ReachRegistered(key);
    run := ReachAwaitReset(key, run);
    run := ReachAck(key, run);
    run := ReachPeerReset(key, run, 0);
    NothingYet(key, run);
    assert After(key, run).queue.entries == [];
    run := ReachTls(key, run);
    TlsBegun(key, run);
  }

  /** From there to the final check, whatever is waiting to be sent. */
  lemma ReachPrepared(key: Byte, run0: seq<Action>) returns (run: seq<Action>)
    requires var s := After(key, run0); s.flow.pc == Tls && s.queue.entries == []
    ensures After(key, run).flow.pc == Prepared && After(key, run).outbound == After(key, run0).outbound
  {
    ReachMoved(key, run0, FinishTls);
    run := run0 + [FinishTls];
    ReachMoved(key, run, CheckAcks);
    run := run + [CheckAcks];
    ReachMoved(key, run, Prepare);
    run := run + [Prepare];
  }

  /**
   * The final check looks at the queue only: TLS output that the send goroutine has not taken yet
   * is neither queued nor acknowledged when the new key is installed.
   */
  lemma UnsentOutputPrepared(key: Byte, seg: Payload) returns (run: seq<Action>)
    ensures var s := After(key, run); s.flow.pc == Prepared && s.outbound == [seg] && !WrittenAcked(s.log)
  {
    run := ReachCleanTls(key);
    Then(key, run, TlsWrite(seg));
    run := run + [TlsWrite(seg)];
    run := ReachPrepared(key, run);
    OutputAlways(key, run);
    UnsentNotAcked(After(key, run));
  }
}
