/** What every interleaving of a renegotiation keeps: the barriers, and the numbering of its packets. */
module RekeyBarriers {
  import opened Bytes
  import opened Reliable
  import opened Rekey

  ghost predicate Passed(pc: Pc, milestone: Pc)
    requires milestone == ResetQueued || milestone == Tls || milestone == Checked
  {
    match milestone
    case ResetQueued => pc == ResetQueued || pc == AwaitReset || TlsRunning(pc)
    case Tls => TlsRunning(pc)
    case Checked => pc == Checked || pc == Prepared
  }

  /** A signal stands for an operation in the log, and every such operation has given its signal. */
  ghost predicate SignalOk(given: bool, at: nat, log: seq<Action>, op: Duty) {
    && (given ==> at < |log| && log[at] == Handle(op))
    && (forall k :: 0 <= k < |log| && log[k] == Handle(op) ==> given && at <= k)
  }

  ghost predicate RegOk(f: Flow, log: seq<Action>) {
    && (f.registered ==> f.at.reg < |log| && log[f.at.reg] == Register)
    && (f.gotPeer ==> f.peerReset) && (f.gotAck ==> f.resetAcked)
    && SignalOk(f.peerReset, f.at.peer, log, SignalPeer)
    && SignalOk(f.resetAcked, f.at.ack, log, SignalAck)
  }

  ghost predicate ResetOk(f: Flow, log: seq<Action>) {
    Passed(f.pc, ResetQueued) ==>
      && f.registered && f.at.reg < f.at.queue < |log| && log[f.at.queue].QueueReset?
      && Enqueues(log[..f.at.queue]) == 0
  }

  ghost predicate TlsOk(f: Flow, log: seq<Action>) {
    && (f.begun <==> Passed(f.pc, Tls))
    && (Passed(f.pc, Tls) ==>
      && f.peerReset && f.resetAcked && f.at.queue < f.at.tls < |log|
      && f.at.peer < f.at.tls && f.at.ack < f.at.tls && log[f.at.tls] == BeginTls)
  }

  ghost predicate CheckOk(f: Flow, log: seq<Action>) {
    Passed(f.pc, Checked) ==>
      f.at.tls < f.at.check < |log| && log[f.at.check] == CheckAcks && AllAckedBy(log, f.at.check)
  }

  ghost predicate CountOk(s: State) {
    && s.queue.nextId == Enqueues(s.log)
    && (if Passed(s.flow.pc, ResetQueued) then Enqueues(s.log) >= 1 else Enqueues(s.log) == 0)
    && (!Passed(s.flow.pc, Tls) ==> s.outbound == [])
  }

  ghost predicate SegmentsOk(f: Flow, log: seq<Action>) {
    forall j :: 0 <= j < |log| && log[j].SendSegment? ==>
      Passed(f.pc, Tls) && f.at.tls < j && Enqueues(log[..j]) >= 1
  }

  /** The packet enqueued at log position j is still queued or has been acknowledged since. */
  ghost predicate Outstanding(q: Queue, log: seq<Action>, j: nat)
    requires j < |log|
  {
    var id := Enqueues(log[..j]);
    HasId(q.entries, id) || AckedBetween(log, j, |log|, id)
  }

  ghost predicate AllOutstanding(q: Queue, log: seq<Action>) {
    forall j :: 0 <= j < |log| && IsEnqueue(log[j]) ==> Outstanding(q, log, j)
  }

  ghost predicate ActiveOk(s: State) {
    && ResetOk(s.flow, s.log) && TlsOk(s.flow, s.log) && CheckOk(s.flow, s.log)
    && CountOk(s) && SegmentsOk(s.flow, s.log) && AllOutstanding(s.queue, s.log)
  }

  ghost predicate Inv(key: Byte, s: State) {
    RegOk(s.flow, s.log) && DispatcherOk(key, s) && (s.flow.pc != Failed ==> ActiveOk(s))
  }

  // ---- Longer logs -------------------------------------------------------------

  lemma EnqueuesSnoc(log: seq<Action>, a: Action)
    ensures Enqueues(log + [a]) == Enqueues(log) + if IsEnqueue(a) then 1 else 0
  {
    assert (log + [a])[..|log|] == log;
  }

  lemma AckedLater(log: seq<Action>, a: Action, j: nat, k: nat, k': nat, id: int)
    requires k <= |log| && k <= k' <= |log| + 1 && AckedBetween(log, j, k, id)
    ensures AckedBetween(log + [a], j, k', id)
  {
    var i :| j < i < k && Acks(log[i], id);
    assert Acks((log + [a])[i], id);
  }

  lemma AllAckedExtend(log: seq<Action>, a: Action, k: nat)
    requires k <= |log| && AllAckedBy(log, k)
    ensures AllAckedBy(log + [a], k)
  {
    forall j | 0 <= j < k && IsEnqueue((log + [a])[j])
      ensures AckedBetween(log + [a], j, k, Enqueues((log + [a])[..j]))
    {
      assert IsEnqueue(log[j]) && (log + [a])[..j] == log[..j];
      AckedLater(log, a, j, k, k, Enqueues(log[..j]));
    }
  }

  // ---- Marks -----------------------------------------------------------------

  lemma SignalExtend(given: bool, at: nat, log: seq<Action>, op: Duty, a: Action)
    requires SignalOk(given, at, log, op)
    ensures a != Handle(op) || given ==> SignalOk(given, at, log + [a], op)
    ensures a == Handle(op) && !given ==> SignalOk(true, |log|, log + [a], op)
  {
    var log' := log + [a];
    assert forall k :: 0 <= k < |log| ==> log'[k] == log[k];
    assert log'[|log|] == a;
  }

  lemma StepKeepsReg(f: Flow, log: seq<Action>, a: Action)
    requires RegOk(f, log) && FlowEnabled(f, a)
    ensures RegOk(FlowAfter(f, a, |log|), log + [a])
  {
    SignalExtend(f.peerReset, f.at.peer, log, SignalPeer, a);
    SignalExtend(f.resetAcked, f.at.ack, log, SignalAck, a);
    assert (log + [a])[|log|] == a;
  }

  /** Without a failure no milestone is lost, and its mark stays where it is. */
  lemma FlowForward(f: Flow, a: Action, n: nat)
    requires FlowEnabled(f, a) && !a.Fail?
    ensures var f' := FlowAfter(f, a, n);
            && (Passed(f.pc, ResetQueued) ==> Passed(f'.pc, ResetQueued) && f'.at.queue == f.at.queue)
            && (Passed(f.pc, Tls) ==> Passed(f'.pc, Tls) && f'.at.tls == f.at.tls)
            && (Passed(f'.pc, ResetQueued) && !Passed(f.pc, ResetQueued) ==> a.QueueReset?)
            && (Passed(f'.pc, Tls) && !Passed(f.pc, Tls) ==> a.BeginTls?)
            && (f.registered ==> f'.registered && f'.at.reg == f.at.reg)
            && (f.peerReset ==> f'.peerReset && f'.at.peer == f.at.peer)
            && (f.resetAcked ==> f'.resetAcked && f'.at.ack == f.at.ack)
            && (f'.begun <==> f.begun || a.BeginTls?)
  {
  }

  lemma StepKeepsReset(f: Flow, log: seq<Action>, a: Action)
    requires RegOk(f, log) && ResetOk(f, log) && FlowEnabled(f, a) && !a.Fail?
    requires a.QueueReset? ==> Enqueues(log) == 0
    ensures ResetOk(FlowAfter(f, a, |log|), log + [a])
  {
    FlowForward(f, a, |log|);
    var log' := log + [a];
    assert log'[|log|] == a && log'[..|log|] == log;
    if Passed(f.pc, ResetQueued) {
      assert log'[f.at.queue] == log[f.at.queue] && log'[..f.at.queue] == log[..f.at.queue];
    }
  }

  lemma StepKeepsTls(f: Flow, log: seq<Action>, a: Action)
    requires RegOk(f, log) && ResetOk(f, log) && TlsOk(f, log) && FlowEnabled(f, a) && !a.Fail?
    ensures TlsOk(FlowAfter(f, a, |log|), log + [a])
  {
    FlowForward(f, a, |log|);
    assert (log + [a])[|log|] == a;
  }

  /** An empty queue means that everything enqueued so far has been acknowledged since. */
  lemma EmptyQueueAllAcked(q: Queue, log: seq<Action>)
    requires AllOutstanding(q, log) && q.entries == []
    ensures AllAckedBy(log, |log|)
  {
  }

  lemma StepKeepsCheck(f: Flow, q: Queue, log: seq<Action>, a: Action)
    requires TlsOk(f, log) && CheckOk(f, log) && AllOutstanding(q, log) && FlowEnabled(f, a)
    requires a.CheckAcks? ==> q.entries == []
    ensures CheckOk(FlowAfter(f, a, |log|), log + [a])
  {
    if a == CheckAcks {
      EmptyQueueAllAcked(q, log);
      AllAckedExtend(log, a, |log|);
      assert (log + [a])[|log|] == a;
    } else if Passed(f.pc, Checked) {
      AllAckedExtend(log, a, f.at.check);
    }
  }

  // ---- Queue -----------------------------------------------------------------

  lemma SameIdsFound(es: seq<Entry>, es': seq<Entry>, id: int)
    requires |es'| >= |es| && HasId(es, id)
    requires forall i :: 0 <= i < |es| ==> es'[i].packetId == es[i].packetId
    ensures HasId(es', id)
  {
  }

  /** Whatever the action, an id leaves the queue only by being acknowledged in this very step. */
  lemma QueuedOrAcked(s: State, a: Action, id: int)
    requires HasId(s.queue.entries, id)
    ensures HasId(QueueAfter(s, a).entries, id) || Acks(a, id)
  {
    match a
    case Handle(op) =>
      if op.AckId? && op.id != id {
        WithoutFirstKeeps(s.queue.entries, op.id, id);
      }
    case QueueReset(now) => SameIdsFound(s.queue.entries, QueueAfter(s, a).entries, id);
    case SendSegment(now) => SameIdsFound(s.queue.entries, QueueAfter(s, a).entries, id);
    case Sweep(now) => SameIdsFound(s.queue.entries, Swept(s.queue.entries, now), id);
    case _ =>
  }

  lemma StepKeepsOutstanding(s: State, a: Action, j: nat)
    requires j < |s.log| && Outstanding(s.queue, s.log, j)
    ensures Outstanding(QueueAfter(s, a), s.log + [a], j)
  {
    var id, log' := Enqueues(s.log[..j]), s.log + [a];
    assert log'[..j] == s.log[..j];
    if AckedBetween(s.log, j, |s.log|, id) {
      AckedLater(s.log, a, j, |s.log|, |s.log| + 1, id);
    } else {
      QueuedOrAcked(s, a, id);
      assert log'[|s.log|] == a;
    }
  }

  lemma NewIsOutstanding(s: State, a: Action)
    requires Enabled(s, a) && IsEnqueue(a) && s.queue.nextId == Enqueues(s.log)
    ensures Outstanding(QueueAfter(s, a), s.log + [a], |s.log|)
  {
    assert (s.log + [a])[..|s.log|] == s.log;
    FoundAt(QueueAfter(s, a).entries, |s.queue.entries|);
  }

  lemma StepKeepsAllOutstanding(s: State, a: Action)
    requires AllOutstanding(s.queue, s.log) && s.queue.nextId == Enqueues(s.log) && Enabled(s, a)
    ensures AllOutstanding(QueueAfter(s, a), s.log + [a])
  {
    var log' := s.log + [a];
    forall j | 0 <= j < |log'| && IsEnqueue(log'[j]) ensures Outstanding(QueueAfter(s, a), log', j) {
      if j < |s.log| {
        assert log'[j] == s.log[j];
        StepKeepsOutstanding(s, a, j);
      } else {
        NewIsOutstanding(s, a);
      }
    }
  }

  lemma NextIdCounts(s: State, a: Action)
    requires Enabled(s, a) && s.queue.nextId == Enqueues(s.log) && (a.QueueReset? ==> s.queue.nextId == 0)
    ensures QueueAfter(s, a).nextId == Enqueues(s.log + [a])
  {
    EnqueuesSnoc(s.log, a);
  }

  lemma StepKeepsCount(key: Byte, s: State, a: Action)
    requires CountOk(s) && TlsOk(s.flow, s.log) && Enabled(s, a) && !a.Fail? && s.flow.pc != Failed
    ensures CountOk(Step(key, s, a))
  {
    EnqueuesSnoc(s.log, a);
    NextIdCounts(s, a);
    FlowForward(s.flow, a, |s.log|);
  }

  lemma StepKeepsSegments(f: Flow, log: seq<Action>, a: Action)
    requires TlsOk(f, log) && SegmentsOk(f, log) && FlowEnabled(f, a) && !a.Fail?
    requires a.SendSegment? ==> Passed(f.pc, Tls) && Enqueues(log) >= 1
    ensures SegmentsOk(FlowAfter(f, a, |log|), log + [a])
  {
    FlowForward(f, a, |log|);
    var log', f' := log + [a], FlowAfter(f, a, |log|);
    forall j | 0 <= j < |log'| && log'[j].SendSegment?
      ensures Passed(f'.pc, Tls) && f'.at.tls < j && Enqueues(log'[..j]) >= 1
    {
      assert log'[..j] == log[..j];
      if j == |log| {
        assert log[..j] == log;
      } else {
        assert log'[j] == log[j];
      }
    }
  }

  lemma StepKeepsActive(key: Byte, s: State, a: Action)
    requires RegOk(s.flow, s.log) && ActiveOk(s) && Enabled(s, a) && s.flow.pc != Failed && !a.Fail?
    ensures ActiveOk(Step(key, s, a))
  {
    StepKeepsReset(s.flow, s.log, a);
    StepKeepsTls(s.flow, s.log, a);
    StepKeepsCheck(s.flow, s.queue, s.log, a);
    StepKeepsCount(key, s, a);
    StepKeepsSegments(s.flow, s.log, a);
    StepKeepsAllOutstanding(s, a);
  }

  lemma StepKeepsInv(key: Byte, s: State, a: Action)
    requires Inv(key, s) && Enabled(s, a)
    ensures Inv(key, Step(key, s, a))
  {
    StepKeepsReg(s.flow, s.log, a);
    StepKeepsDispatch(key, s, a);
    if s.flow.pc != Failed && !a.Fail? {
      StepKeepsActive(key, s, a);
    } else {
      StaysFailed(s.flow, a, |s.log|);
    }
  }

  lemma StaysFailed(f: Flow, a: Action, n: nat)
    requires FlowEnabled(f, a) && (f.pc == Failed || a.Fail?)
    ensures FlowAfter(f, a, n).pc == Failed
  {
  }

  lemma {:induction false} InvAlways(key: Byte, run: seq<Action>)
    ensures Inv(key, After(key, run))
  {
    if run != [] {
      var s, a := After(key, run[..|run| - 1]), run[|run| - 1];
      InvAlways(key, run[..|run| - 1]);
      if Enabled(s, a) {
        StepKeepsInv(key, s, a);
      }
    }
  }

  /** A signal given comes from a packet of the right kind, received since registration. */
  lemma SignalsCaused(key: Byte, s: State)
    requires Inv(key, s)
    ensures s.flow.peerReset ==>
              s.flow.registered && s.flow.at.reg < s.flow.at.peer < |s.log|
              && PeerResetBetween(key, s.log, s.flow.at.reg, s.flow.at.peer)
    ensures s.flow.resetAcked ==>
              s.flow.registered && s.flow.at.reg < s.flow.at.ack < |s.log|
              && ResetAckBetween(key, s.log, s.flow.at.reg, s.flow.at.ack)
  {
    var f := s.flow;
    if f.peerReset {
      var j :| f.at.reg < j < f.at.peer && CausedBy(key, s.log, j, f.at.peer);
      PlanContents(s.log[j].pkt);
      assert IsPeerReset(key, s.log[j]);
    }
    if f.resetAcked {
      var j :| f.at.reg < j < f.at.ack && CausedBy(key, s.log, j, f.at.ack);
      PlanContents(s.log[j].pkt);
      assert IsResetAck(key, s.log[j]);
    }
  }

  /** In every run, TLS starts only after the reset exchange, and Prepare only after all acknowledgements. */
  lemma PrepareOnlyAfterBarriers(key: Byte, run: seq<Action>)
    ensures var s := After(key, run);
            && (TlsRunning(s.flow.pc) ==> ResetBarrier(key, s.log, s.flow.at))
            && (s.flow.pc == Prepared ==> BarriersPassed(key, s.log, s.flow.at))
  {
    InvAlways(key, run);
    var s := After(key, run);
    if TlsRunning(s.flow.pc) {
      SignalsCaused(key, s);
      BarrierPassed(key, s.flow, s.log);
    }
  }

  lemma BarrierPassed(key: Byte, f: Flow, log: seq<Action>)
    requires TlsRunning(f.pc) && RegOk(f, log) && ResetOk(f, log) && TlsOk(f, log) && SegmentsOk(f, log)
    requires f.at.reg < f.at.peer < |log| && PeerResetBetween(key, log, f.at.reg, f.at.peer)
    requires f.at.reg < f.at.ack < |log| && ResetAckBetween(key, log, f.at.reg, f.at.ack)
    ensures ResetBarrier(key, log, f.at)
  {
  }

  // ---- Packet ids of the TLS segments -------------------------------------------

  /** How many TLS segments the log sends. */
  function Segments(log: seq<Action>): nat {
    if log == [] then 0
    else Segments(log[..|log| - 1]) + if log[|log| - 1].SendSegment? then 1 else 0
  }

  /**
   * Of `enqueued` packets `segments` are TLS segments: before the reset is queued there are none;
   * afterwards, once TLS has begun or with its output waiting, the reset is the one packet that is no segment.
   */
  ghost predicate Numbered(pc: Pc, begun: bool, waiting: bool, enqueued: nat, segments: nat) {
    && segments <= enqueued
    && (pc == Allocated || pc == HandedOver ==> enqueued == 0)
    && (Passed(pc, ResetQueued) || begun || waiting ==> enqueued == 1 + segments)
  }

  ghost predicate NumberedOk(s: State) {
    s.queue.nextId == Enqueues(s.log) && Numbered(s.flow.pc, s.flow.begun, s.outbound != [], Enqueues(s.log), Segments(s.log))
  }

  /** The id each segment gets is one more than the number of segments before it. */
  ghost predicate FromOne(log: seq<Action>) {
    forall j :: 0 <= j < |log| && log[j].SendSegment? ==> Enqueues(log[..j]) == 1 + Segments(log[..j])
  }

  lemma SegmentsExtend(log: seq<Action>, a: Action)
    ensures Segments(log + [a]) == Segments(log) + if a.SendSegment? then 1 else 0
  {
  }

  lemma NumberedAfter(f: Flow, a: Action, n: nat, waiting: bool, waiting': bool, enqueued: nat, segments: nat)
    requires Numbered(f.pc, f.begun, waiting, enqueued, segments) && FlowEnabled(f, a)
    requires a.SendSegment? ==> waiting
    requires waiting' ==> waiting || a.TlsWrite?
    ensures var f' := FlowAfter(f, a, n);
            Numbered(f'.pc, f'.begun, waiting', enqueued + (if IsEnqueue(a) then 1 else 0),
                     segments + if a.SendSegment? then 1 else 0)
  {
  }

  lemma StepKeepsNumbered(key: Byte, s: State, a: Action)
    requires NumberedOk(s) && Enabled(s, a)
    ensures NumberedOk(Step(key, s, a))
  {
    NextIdCounts(s, a);
    EnqueuesSnoc(s.log, a);
    SegmentsExtend(s.log, a);
    var waiting' := OutboundAfter(s, a) != [];
    NumberedAfter(s.flow, a, |s.log|, s.outbound != [], waiting', Enqueues(s.log), Segments(s.log));
  }

  lemma FromOneExtend(log: seq<Action>, a: Action)
    requires FromOne(log)
    requires a.SendSegment? ==> Enqueues(log) == 1 + Segments(log)
    ensures FromOne(log + [a])
  {
    assert (log + [a])[..|log|] == log;
    forall j | 0 <= j < |log| && log[j].SendSegment?
      ensures Enqueues((log + [a])[..j]) == 1 + Segments((log + [a])[..j])
    {
      assert (log + [a])[..j] == log[..j];
    }
  }

  /** In every run, failed ones too, the TLS segments carry packet ids 1, 2, 3 and so on. */
  lemma {:induction false} SegmentsNumberedFromOne(key: Byte, run: seq<Action>)
    ensures NumberedOk(After(key, run)) && FromOne(After(key, run).log)
  {
    if run != [] {
      var s, a := After(key, run[..|run| - 1]), run[|run| - 1];
      SegmentsNumberedFromOne(key, run[..|run| - 1]);
      if Enabled(s, a) {
        StepKeepsNumbered(key, s, a);
        FromOneExtend(s.log, a);
      }
    }
  }

  // ---- What TLS wrote -------------------------------------------------------------

  /** How many segments of output the log has TLS write. */
  function Writes(log: seq<Action>): nat {
    if log == [] then 0
    else Writes(log[..|log| - 1]) + if log[|log| - 1].TlsWrite? then 1 else 0
  }

  /** Segment by segment, in order: what is written and not sent is waiting. */
  ghost predicate OutputOk(s: State) {
    && Segments(s.log) + |s.outbound| == Writes(s.log)
    && forall j :: 0 <= j < |s.log| && s.log[j].SendSegment? ==> Segments(s.log[..j]) < Writes(s.log[..j])
  }

  /** The k-th segment written at position w has been enqueued since, and acknowledged since that. */
  ghost predicate SentAndAcked(log: seq<Action>, w: nat)
    requires w < |log|
  {
    exists j :: w < j < |log| && log[j].SendSegment? && Segments(log[..j]) == Writes(log[..w])
                && AckedBetween(log, j, |log|, Enqueues(log[..j]))
  }

  ghost predicate WrittenAcked(log: seq<Action>) {
    forall w :: 0 <= w < |log| && log[w].TlsWrite? ==> SentAndAcked(log, w)
  }

  lemma WritesExtend(log: seq<Action>, a: Action)
    ensures Writes(log + [a]) == Writes(log) + if a.TlsWrite? then 1 else 0
  {
    assert (log + [a])[..|log|] == log;
  }

  lemma StepKeepsOutput(key: Byte, s: State, a: Action)
    requires OutputOk(s) && Enabled(s, a)
    ensures OutputOk(Step(key, s, a))
  {
    var log' := s.log + [a];
    WritesExtend(s.log, a);
    SegmentsExtend(s.log, a);
    forall j | 0 <= j < |log'| && log'[j].SendSegment? ensures Segments(log'[..j]) < Writes(log'[..j]) {
      assert log'[..j] == s.log[..j];
      assert j == |s.log| ==> s.log[..j] == s.log;
    }
  }

  lemma {:induction false} OutputAlways(key: Byte, run: seq<Action>)
    ensures OutputOk(After(key, run))
  {
    if run != [] {
      var s, a := After(key, run[..|run| - 1]), run[|run| - 1];
      OutputAlways(key, run[..|run| - 1]);
      if Enabled(s, a) {
        StepKeepsOutput(key, s, a);
      }
    }
  }

  lemma {:induction false} KthSegment(log: seq<Action>, k: nat) returns (j: nat)
    requires k < Segments(log)
    ensures j < |log| && log[j].SendSegment? && Segments(log[..j]) == k
  {
    var n := |log| - 1;
    if k < Segments(log[..n]) {
      j := KthSegment(log[..n], k);
      assert log[..n][..j] == log[..j];
    } else {
      j := n;
    }
  }

  lemma {:induction false} KthWrite(log: seq<Action>, k: nat) returns (w: nat)
    requires k < Writes(log)
    ensures w < |log| && log[w].TlsWrite? && Writes(log[..w]) == k
  {
    var n := |log| - 1;
    if k < Writes(log[..n]) {
      w := KthWrite(log[..n], k);
      assert log[..n][..w] == log[..w];
    } else {
      w := n;
    }
  }

  /** A write, or a segment, counts from the position after it on. */
  lemma {:induction false} CountsGrow(log: seq<Action>, i: nat, j: nat)
    requires i <= j <= |log|
    ensures Writes(log[..i]) <= Writes(log[..j]) && Segments(log[..i]) <= Segments(log[..j])
    ensures i < j && log[i].TlsWrite? ==> Writes(log[..i]) < Writes(log[..j])
    ensures i < j && log[i].SendSegment? ==> Segments(log[..i]) < Segments(log[..j])
    decreases j
  {
    if i < j {
      CountsGrow(log, i, j - 1);
      assert log[..j][..j - 1] == log[..j - 1];
    }
  }

  /** The segment written at w has been sent if as many have been sent as were written up to it. */
  lemma SentIsAcked(s: State, w: nat)
    requires OutputOk(s) && AllAckedBy(s.log, |s.log|) && s.outbound == []
    requires w < |s.log| && s.log[w].TlsWrite?
    ensures SentAndAcked(s.log, w)
  {
    var log := s.log;
    assert log[..|log|] == log;
    CountsGrow(log, w, |log|);
    var j := KthSegment(log, Writes(log[..w]));
    if j <= w {
      CountsGrow(log, j, w);
    }
    assert IsEnqueue(log[j]);
  }

  lemma AllSentAcked(s: State)
    requires OutputOk(s) && AllAckedBy(s.log, |s.log|) && s.outbound == []
    ensures WrittenAcked(s.log)
  {
    forall w | 0 <= w < |s.log| && s.log[w].TlsWrite? ensures SentAndAcked(s.log, w) {
      SentIsAcked(s, w);
    }
  }

  lemma AllOutstandingAlways(key: Byte, run: seq<Action>)
    requires After(key, run).flow.pc != Failed
    ensures AllOutstanding(After(key, run).queue, After(key, run).log)
  {
    InvAlways(key, run);
  }

  lemma UnsentNotAcked(s: State)
    requires OutputOk(s) && s.outbound != []
    ensures !WrittenAcked(s.log)
  {
    var log := s.log;
    assert log[..|log|] == log;
    var w := KthWrite(log, Segments(log));
    if SentAndAcked(log, w) {
      var j :| w < j < |log| && log[j].SendSegment? && Segments(log[..j]) == Writes(log[..w])
               && AckedBetween(log, j, |log|, Enqueues(log[..j]));
      CountsGrow(log, j, |log|);
      assert false;
    }
  }

  /**
   * Whenever doRekey waits for the final acknowledgements and finds the queue empty, everything TLS
   * wrote has been sent and acknowledged if and only if no output is waiting for the send goroutine.
   */
  lemma FinalCheckExactly(key: Byte, run: seq<Action>)
    ensures var s := After(key, run);
            Enabled(s, CheckAcks) ==> (WrittenAcked(s.log) <==> s.outbound == [])
  {
    OutputAlways(key, run);
    var s := After(key, run);
    if Enabled(s, CheckAcks) {
      if s.outbound != [] {
        UnsentNotAcked(s);
      } else {
        AllOutstandingAlways(key, run);
        EmptyQueueAllAcked(s.queue, s.log);
        AllSentAcked(s);
      }
    }
  }
}
