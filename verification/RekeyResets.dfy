/** The two halves of the reset exchange: the acknowledgement of our reset, and the peer's own. */
module RekeyResets {
  import opened Bytes
  import opened Reliable
  import opened ReceiveWindow
  import opened Rekey
  import opened RekeyBarriers

  // ---- The acknowledgement of our own reset ---------------------------------------

  /**
   * resetAcked has been closed only if a P_ACK_V1 or SOFT_RESET packet of this session listing
   * packet 0 was received since registration, and if the dispatcher is between packets, exactly then.
   */
  lemma ResetAckedExactly(key: Byte, run: seq<Action>)
    ensures var s := After(key, run);
            var received := s.flow.registered && s.flow.at.reg < |s.log|
                            && ResetAckBetween(key, s.log, s.flow.at.reg, |s.log|);
            && (s.flow.resetAcked ==> received)
            && (s.todo == [] ==> (s.flow.resetAcked <==> received))
  {
    InvAlways(key, run);
    var s := After(key, run);
    SignalsCaused(key, s);
    if s.flow.resetAcked {
      var i :| s.flow.at.reg < i < s.flow.at.ack && IsResetAck(key, s.log[i]);
      assert i < |s.log|;
    }
    if s.todo == [] && s.flow.registered && ResetAckBetween(key, s.log, s.flow.at.reg, |s.log|) {
      var i :| s.flow.at.reg < i < |s.log| && IsResetAck(key, s.log[i]);
      PlanContents(s.log[i].pkt);
      var plan := Plan(s.log[i].pkt);
      var n :| 0 <= n < |plan| && plan[n] == SignalAck;
      assert Handled(s.log, i, |s.log|, plan[n]);
    }
  }

  /** No id twice, and all below `n`. */
  ghost predicate IdsBelow(es: seq<Entry>, n: int) {
    Increasing(es) && forall i :: 0 <= i < |es| ==> es[i].packetId < n
  }

  /** An acknowledgement of packet 0 since it was queued has removed it. */
  ghost predicate ZeroOk(s: State) {
    && IdsBelow(s.queue.entries, Enqueues(s.log))
    && (Passed(s.flow.pc, ResetQueued) && AckedBetween(s.log, s.flow.at.queue, |s.log|, 0) ==>
          !HasId(s.queue.entries, 0))
  }

  lemma EnqueueKeepsIds(q: Queue, payload: Payload, now: int)
    requires IdsBelow(q.entries, q.nextId) && q.nextId < 0xFFFF_FFFF
    ensures var q' := Enqueued(q, payload, now);
            && IdsBelow(q'.entries, q.nextId + 1)
            && (q.nextId > 0 && HasId(q'.entries, 0) ==> HasId(q.entries, 0))
  {
    var es, es' := q.entries, Enqueued(q, payload, now).entries;
    if q.nextId > 0 && HasId(es', 0) {
      FoundAt(es, IndexOf(es', 0));
    }
  }

  lemma AckKeepsIds(q: Queue, id: Word32, bound: nat)
    requires IdsBelow(q.entries, bound)
    ensures var es := Acked(q, id).entries;
            && IdsBelow(es, bound)
            && (HasId(es, 0) ==> HasId(q.entries, 0) && id != 0)
  {
    var es := WithoutFirst(q.entries, id);
    WithoutFirstExact(q.entries, id);
    forall i | 0 <= i < |es| ensures es[i].packetId < bound {
      WithoutFirstAt(q.entries, id, i);
    }
    if HasId(es, 0) {
      WithoutFirstAt(q.entries, id, IndexOf(es, 0));
      var j :| 0 <= j < |q.entries| && es[IndexOf(es, 0)] == q.entries[j];
      FoundAt(q.entries, j);
    }
  }

  lemma SweepKeepsIds(es: seq<Entry>, now: int, bound: nat)
    requires IdsBelow(es, bound)
    ensures IdsBelow(Swept(es, now), bound)
    ensures HasId(Swept(es, now), 0) ==> HasId(es, 0)
  {
    if HasId(Swept(es, now), 0) {
      FoundAt(es, IndexOf(Swept(es, now), 0));
    }
  }

  lemma NewlyAcked(log: seq<Action>, a: Action, j: nat)
    requires AckedBetween(log + [a], j, |log| + 1, 0)
    ensures AckedBetween(log, j, |log|, 0) || (j < |log| && Acks(a, 0))
  {
    var log' := log + [a];
    var i :| j < i < |log'| && Acks(log'[i], 0);
    assert i < |log| ==> log'[i] == log[i];
  }

  /** What an action other than queueing the reset does to the queue. */
  lemma QueueKeepsIds(s: State, a: Action)
    requires ZeroOk(s) && NumberedOk(s) && Enabled(s, a)
    ensures var es := QueueAfter(s, a).entries;
            && IdsBelow(es, Enqueues(s.log + [a]))
            && (HasId(es, 0) && !a.QueueReset? ==> HasId(s.queue.entries, 0) && !Acks(a, 0))
  {
    EnqueuesSnoc(s.log, a);
    match a
    case QueueReset(now) => EnqueueKeepsIds(s.queue, [], now);
    case SendSegment(now) => EnqueueKeepsIds(s.queue, s.outbound[0], now);
    case Handle(op) => if op.AckId? { AckKeepsIds(s.queue, op.id, Enqueues(s.log)); }
    case Sweep(now) => SweepKeepsIds(s.queue.entries, now, Enqueues(s.log));
    case _ =>
  }

  lemma StepKeepsZero(key: Byte, s: State, a: Action)
    requires ZeroOk(s) && NumberedOk(s) && Enabled(s, a)
    ensures ZeroOk(Step(key, s, a))
  {
    QueueKeepsIds(s, a);
    var s' := Step(key, s, a);
    if Passed(s'.flow.pc, ResetQueued) && AckedBetween(s'.log, s'.flow.at.queue, |s'.log|, 0) {
      NewlyAcked(s.log, a, s'.flow.at.queue);
    }
  }

  lemma {:induction false} ZeroAlways(key: Byte, run: seq<Action>)
    ensures ZeroOk(After(key, run))
  {
    if run != [] {
      var s, a := After(key, run[..|run| - 1]), run[|run| - 1];
      ZeroAlways(key, run[..|run| - 1]);
      SegmentsNumberedFromOne(key, run[..|run| - 1]);
      if Enabled(s, a) {
        StepKeepsZero(key, s, a);
      }
    }
  }

  /**
   * Our own reset is still unacknowledged in the queue exactly while no acknowledgement of packet 0
   * has been handled since it was queued, whatever has been signalled.
   */
  lemma OwnResetQueuedExactly(key: Byte, run: seq<Action>)
    ensures var s := After(key, run);
            Passed(s.flow.pc, ResetQueued) ==>
              (HasId(s.queue.entries, 0) <==> !AckedBetween(s.log, s.flow.at.queue, |s.log|, 0))
  {
    InvAlways(key, run);
    ZeroAlways(key, run);
    var s := After(key, run);
    if Passed(s.flow.pc, ResetQueued) {
      assert IsEnqueue(s.log[s.flow.at.queue]);
      assert RekeyBarriers.Outstanding(s.queue, s.log, s.flow.at.queue);
    }
  }

  /** A packet that acknowledges packet 0. */
  predicate ListsZero(key: Byte, a: Action) {
    Ours(key, a) && 0 in a.pkt.acks
  }

  /** Behind the signal: a packet that lists packet 0 and, after it, the acknowledgement. */
  lemma SignalledAck(key: Byte, s: State) returns (j: nat, i: nat)
    requires Inv(key, s) && s.flow.resetAcked
    ensures s.flow.at.reg < j < i < s.flow.at.ack < |s.log| && ListsZero(key, s.log[j]) && Acks(s.log[i], 0)
  {
    j :| s.flow.at.reg < j < s.flow.at.ack && CausedBy(key, s.log, j, s.flow.at.ack);
    PlanContents(s.log[j].pkt);
    i :| j < i < s.flow.at.ack && s.log[i] == Handle(AckId(0));
  }

  ghost predicate NoneListsZero(key: Byte, log: seq<Action>, j: nat, k: nat)
    requires k <= |log|
  {
    forall i :: j < i < k ==> !ListsZero(key, log[i])
  }

  /** The barrier does what it is for if nobody acknowledges packet 0 before it exists. */
  lemma OwnResetAckedBeforeTls(key: Byte, run: seq<Action>)
    ensures var s, at := After(key, run), After(key, run).flow.at;
            TlsRunning(s.flow.pc) ==>
              && at.queue < at.tls < |s.log|
              && (NoneListsZero(key, s.log, at.reg, at.queue) ==> AckedBetween(s.log, at.queue, at.tls, 0))
  {
    InvAlways(key, run);
    var s, at := After(key, run), After(key, run).flow.at;
    if TlsRunning(s.flow.pc) {
      var j, i := SignalledAck(key, s);
      assert j != at.queue;
      assert at.queue < j ==> at.queue < i < at.tls;
    }
  }

  // ---- The peer's reset and the receive window ---------------------------------

  /** A control packet of this session with id 0. */
  predicate CarriesZero(key: Byte, a: Action) {
    Ours(key, a) && !a.pkt.AckV1? && a.pkt.id == 0
  }

  predicate TakesZero(a: Action) {
    a.Handle? && a.op.Take? && a.op.id == 0
  }

  ghost predicate ZeroTaken(log: seq<Action>) {
    exists i :: 0 <= i < |log| && TakesZero(log[i])
  }

  lemma {:induction false} DrainCounts(w: Window)
    requires w.expected + |w.pending| < 0x1_0000_0000
    ensures var d := Drain(w).window;
            && d.expected + |d.pending| == w.expected + |w.pending|
            && d.expected !in d.pending
            && (if w.expected in w.pending then d.expected > w.expected else d == w)
    decreases |w.pending|
  {
    if w.expected in w.pending {
      NextCounts(w);
      DrainCounts(Next(w));
      assert Drain(w).window == Drain(Next(w)).window;
    }
  }

  lemma NextCounts(w: Window)
    requires w.expected in w.pending && w.expected + |w.pending| < 0x1_0000_0000
    ensures |Next(w).pending| == |w.pending| - 1 && Next(w).expected == w.expected + 1
  {
  }

  lemma ReceivedCounts(w: Window, id: Word32, payload: Payload)
    requires w.expected + |w.pending| < 0x1_0000_0000 - WINDOW_SIZE && w.expected !in w.pending
    ensures var w' := Received(w, id, payload).window;
            && w'.expected + |w'.pending| <= w.expected + |w.pending| + 1
            && w'.expected !in w'.pending
            && (if id == w.expected then w'.expected > w.expected else w'.expected == w.expected)
  {
    if InWindow(w, id) {
      var w1 := w.(pending := w.pending[id := payload]);
      assert |w1.pending| <= |w.pending| + 1;
      DrainCounts(w1);
    }
  }

  ghost predicate WindowOk(s: State) {
    && s.window.expected + |s.window.pending| <= |s.log|
    && s.window.expected !in s.window.pending
    && (s.window.expected >= 1 <==> ZeroTaken(s.log))
  }

  lemma ZeroTakenExtend(log: seq<Action>, a: Action)
    ensures ZeroTaken(log + [a]) <==> ZeroTaken(log) || TakesZero(a)
  {
    var log' := log + [a];
    assert log'[|log|] == a;
    if i :| 0 <= i < |log| && TakesZero(log[i]) {
      assert TakesZero(log'[i]);
    }
    if i :| 0 <= i < |log'| && TakesZero(log'[i]) {
      assert i < |log| ==> TakesZero(log[i]);
    }
  }

  lemma StepKeepsWindow(key: Byte, s: State, a: Action)
    requires WindowOk(s) && Enabled(s, a) && |s.log| < 0x1_0000_0000 - WINDOW_SIZE
    ensures WindowOk(Step(key, s, a))
  {
    ZeroTakenExtend(s.log, a);
    if a.Handle? && a.op.Take? {
      ReceivedCounts(s.window, a.op.id, a.op.payload);
    }
  }

  lemma {:induction false} WindowAlways(key: Byte, run: seq<Action>)
    requires |run| <= 0x1_0000_0000 - WINDOW_SIZE
    ensures WindowOk(After(key, run)) && |After(key, run).log| <= |run|
  {
    if run != [] {
      var s, a := After(key, run[..|run| - 1]), run[|run| - 1];
      WindowAlways(key, run[..|run| - 1]);
      if Enabled(s, a) {
        StepKeepsWindow(key, s, a);
      }
    }
  }

  ghost predicate ZeroReceived(key: Byte, f: Flow, log: seq<Action>) {
    f.registered && exists i :: f.at.reg < i < |log| && CarriesZero(key, log[i])
  }

  lemma TakenIsReceived(key: Byte, s: State, k: nat)
    requires Inv(key, s) && k < |s.log| && TakesZero(s.log[k])
    ensures ZeroReceived(key, s.flow, s.log)
  {
    var j :| s.flow.at.reg < j < k && CausedBy(key, s.log, j, k);
    PlanContents(s.log[j].pkt);
    assert CarriesZero(key, s.log[j]);
  }

  lemma TakeInPlan(pkt: InPacket) returns (n: nat)
    requires !pkt.AckV1?
    ensures n < |Plan(pkt)| && Plan(pkt)[n].Take? && Plan(pkt)[n].id == pkt.id
  {
    n := if pkt.ControlV1? then |Plan(pkt)| - 1 else 0;
  }

  lemma PlanHandled(key: Byte, s: State, j: nat)
    requires DispatcherOk(key, s) && s.todo == [] && s.flow.registered
    requires s.flow.at.reg < j < |s.log| && Ours(key, s.log[j])
    ensures AllHandled(s.log, j, Plan(s.log[j].pkt))
  {
  }

  lemma ReceivedIsTaken(key: Byte, s: State, j: nat)
    requires DispatcherOk(key, s) && s.todo == [] && s.flow.registered
    requires s.flow.at.reg < j < |s.log| && CarriesZero(key, s.log[j])
    ensures ZeroTaken(s.log)
  {
    PlanHandled(key, s, j);
    var n := TakeInPlan(s.log[j].pkt);
    var op := Plan(s.log[j].pkt)[n];
    assert Handled(s.log, j, |s.log|, op);
    var i :| j < i < |s.log| && s.log[i] == Handle(op);
    assert TakesZero(s.log[i]);
  }

  /** Packet 0 is taken only if received, and between packets exactly then. */
  lemma ZeroTakenIsReceived(key: Byte, s: State)
    requires Inv(key, s)
    ensures ZeroTaken(s.log) ==> ZeroReceived(key, s.flow, s.log)
    ensures s.todo == [] && ZeroReceived(key, s.flow, s.log) ==> ZeroTaken(s.log)
  {
    if ZeroTaken(s.log) {
      var k :| 0 <= k < |s.log| && TakesZero(s.log[k]);
      TakenIsReceived(key, s, k);
    }
    if s.todo == [] && ZeroReceived(key, s.flow, s.log) {
      var j :| s.flow.at.reg < j < |s.log| && CarriesZero(key, s.log[j]);
      ReceivedIsTaken(key, s, j);
    }
  }

  ghost predicate ResetsCarryZero(key: Byte, log: seq<Action>) {
    forall i :: 0 <= i < |log| && IsPeerReset(key, log[i]) ==> log[i].pkt.id == 0
  }

  /** The peer's reset is in the window before it is signalled. */
  lemma SignalledResetTaken(key: Byte, s: State)
    requires Inv(key, s) && s.flow.peerReset && ResetsCarryZero(key, s.log)
    ensures ZeroTaken(s.log)
  {
    var j :| s.flow.at.reg < j < s.flow.at.peer && CausedBy(key, s.log, j, s.flow.at.peer);
    PlanContents(s.log[j].pkt);
    assert IsPeerReset(key, s.log[j]);
    var i :| j < i < s.flow.at.peer && s.log[i] == Handle(Take(s.log[j].pkt.id, []));
    assert TakesZero(s.log[i]);
  }

  /**
   * The receive window has moved past packet 0 only if the session has received a packet with that
   * id, and between packets exactly then; TLS never starts without that if the peer's SOFT_RESET
   * packets carry id 0, as they should.
   */
  lemma ResetMovesWindow(key: Byte, run: seq<Action>)
    requires |run| <= 0x1_0000_0000 - WINDOW_SIZE
    ensures var s := After(key, run);
            && (s.window.expected >= 1 ==> ZeroReceived(key, s.flow, s.log))
            && (s.todo == [] ==> (s.window.expected >= 1 <==> ZeroReceived(key, s.flow, s.log)))
            && (TlsRunning(s.flow.pc) && ResetsCarryZero(key, s.log) ==> s.window.expected >= 1)
  {
    WindowAlways(key, run);
    InvAlways(key, run);
    var s := After(key, run);
    ZeroTakenIsReceived(key, s);
    if TlsRunning(s.flow.pc) && ResetsCarryZero(key, s.log) {
      SignalledResetTaken(key, s);
    }
  }
}
