/**
 * client.go writePacket: every outbound path (control, ACK, retransmit, TUN, keepalive) writes
 * through one mutex.  The goroutines are scheduled in any order, one write at a time, and any write
 * may fail partway; the mutex is released then, and the next goroutine writes on.
 */
module SharedWriter {
  import opened Bytes
  import opened Framing

  datatype Phase = Entered | LengthWritten | PayloadWritten

  datatype Lock = Free | Held(writer: nat, pkt: Packet, phase: Phase)

  /** A packet a goroutine has finished with, and whether its frame is complete. */
  datatype Attempt = Attempt(writer: nat, pkt: Packet, ok: bool)

  /**
   * `todo[w]` is what goroutine w still has to send; `tried` lists the attempts in the order they
   * ended; `stray` counts the bytes of incomplete frames on the wire.
   */
  datatype State = State(wire: seq<Byte>, todo: seq<seq<Packet>>, lock: Lock, tried: seq<Attempt>, stray: nat)

  function Start(programs: seq<seq<Packet>>): State {
    State([], programs, Free, [], 0)
  }

  /** Goroutine w gets on, or its write in progress fails with `n` bytes out. */
  datatype Action = Go(w: nat) | Break(w: nat, n: nat)

  function GoesOn(s: State, w: nat): State {
    match s.lock
    case Free =>
      if w < |s.todo| && s.todo[w] != []
      then s.(lock := Held(w, s.todo[w][0], Entered), todo := s.todo[w := s.todo[w][1..]])
      else s
    case Held(v, p, phase) =>
      if v != w then s
      else match phase
        case Entered =>
          if Sendable(p)
          then s.(wire := s.wire + Be16(|p|), lock := Held(v, p, LengthWritten))
          else s.(lock := Free)
        case LengthWritten =>
          s.(wire := s.wire + p, lock := Held(v, p, PayloadWritten), tried := s.tried + [Attempt(v, p, true)])
        case PayloadWritten => s.(lock := Free)
  }

  /** The part of the frame the lock's holder writes next, and what of the frame is out already. */
  function Part(lock: Lock): seq<Byte> {
    if lock.Free? || !Sendable(lock.pkt) then []
    else match lock.phase
      case Entered => Be16(|lock.pkt|)
      case LengthWritten => lock.pkt
      case PayloadWritten => []
  }

  function Partial(lock: Lock): seq<Byte> {
    if lock.Held? && lock.phase == LengthWritten && Sendable(lock.pkt) then Be16(|lock.pkt|) else []
  }

  predicate MayBreak(s: State, w: nat, n: nat) {
    s.lock.Held? && s.lock.writer == w && Part(s.lock) != [] && n <= |Part(s.lock)|
  }

  /** An error after the last byte of the payload does the stream no harm. */
  predicate CompletedBy(lock: Lock, n: nat) {
    lock.Held? && lock.phase == LengthWritten && n == |lock.pkt|
  }

  function Step(s: State, a: Action): State {
    match a
    case Go(w) => GoesOn(s, w)
    case Break(w, n) =>
      if !MayBreak(s, w, n) then s
      else
        var whole := CompletedBy(s.lock, n);
        s.(wire := s.wire + Part(s.lock)[..n], lock := Free, tried := s.tried + [Attempt(w, s.lock.pkt, whole)],
           stray := s.stray + if whole then 0 else |Partial(s.lock)| + n)
  }

  /** Goroutines do nothing while another one holds the mutex. */
  function Run(s: State, schedule: seq<Action>): State
    decreases |schedule|
  {
    if schedule == [] then s
    else Step(Run(s, schedule[..|schedule| - 1]), schedule[|schedule| - 1])
  }

  /** The packets whose frames are complete, in wire order. */
  function Whole(tried: seq<Attempt>): seq<Packet> {
    if tried == [] then []
    else
      var last := tried[|tried| - 1];
      Whole(tried[..|tried| - 1]) + if last.ok then [last.pkt] else []
  }

  /** The packets goroutine w is done with, in order. */
  function By(tried: seq<Attempt>, w: nat): seq<Packet> {
    if tried == [] then []
    else
      var last := tried[|tried| - 1];
      By(tried[..|tried| - 1], w) + if last.writer == w then [last.pkt] else []
  }

  /** WriteTCP rejects the others without writing a byte. */
  function OnlySendable(ps: seq<Packet>): seq<Packet> {
    if ps == [] then []
    else (if Sendable(ps[0]) then [ps[0]] else []) + OnlySendable(ps[1..])
  }

  /** What goroutine w holds inside the critical section but has not finished writing. */
  function InProgress(lock: Lock, w: nat): seq<Packet> {
    if lock.Held? && lock.writer == w && lock.phase != PayloadWritten && Sendable(lock.pkt)
    then [lock.pkt] else []
  }

  /** Nothing of goroutine w's program is lost, repeated or reordered. */
  ghost predicate Accounted(program: seq<Packet>, s: State, w: nat)
    requires w < |s.todo|
  {
    By(s.tried, w) + InProgress(s.lock, w) + OnlySendable(s.todo[w]) == OnlySendable(program)
  }

  ghost predicate WireOk(s: State) {
    && AllSendable(Whole(s.tried))
    && |s.wire| == |WriteFrames(Whole(s.tried))| + |Partial(s.lock)| + s.stray
    && (s.stray == 0 ==> s.wire == WriteFrames(Whole(s.tried)) + Partial(s.lock))
    && (s.lock.Held? && s.lock.phase != Entered ==> Sendable(s.lock.pkt))
  }

  ghost predicate Inv(programs: seq<seq<Packet>>, s: State) {
    && |s.todo| == |programs|
    && WireOk(s)
    && forall w :: 0 <= w < |programs| ==> Accounted(programs[w], s, w)
  }

  lemma WholeSnoc(tried: seq<Attempt>, a: Attempt)
    ensures Whole(tried + [a]) == Whole(tried) + if a.ok then [a.pkt] else []
  {
    assert (tried + [a])[..|tried|] == tried;
  }

  lemma BySnoc(tried: seq<Attempt>, a: Attempt, w: nat)
    ensures By(tried + [a], w) == By(tried, w) + if a.writer == w then [a.pkt] else []
  {
    assert (tried + [a])[..|tried|] == tried;
  }

  lemma FrameCompleted(whole: seq<Packet>, p: Packet, wire: seq<Byte>, stray: nat)
    requires AllSendable(whole) && Sendable(p) && |wire| == |WriteFrames(whole)| + 2 + stray
    requires stray == 0 ==> wire == WriteFrames(whole) + Be16(|p|)
    ensures AllSendable(whole + [p]) && |wire + p| == |WriteFrames(whole + [p])| + stray
    ensures stray == 0 ==> wire + p == WriteFrames(whole + [p])
  {
    WriteFramesSnoc(whole, p);
    Assoc(WriteFrames(whole), Be16(|p|), p);
  }

  lemma GoKeepsWire(s: State, w: nat)
    requires WireOk(s)
    ensures WireOk(GoesOn(s, w))
  {
    if s.lock.Held? && s.lock.writer == w && s.lock.phase == LengthWritten {
      var p := s.lock.pkt;
      WholeSnoc(s.tried, Attempt(w, p, true));
      FrameCompleted(Whole(s.tried), p, s.wire, s.stray);
      assert WriteFrames(Whole(s.tried) + [p]) + [] == WriteFrames(Whole(s.tried) + [p]);
    }
  }

  lemma BreakKeepsWire(s: State, w: nat, n: nat)
    requires WireOk(s) && MayBreak(s, w, n)
    ensures WireOk(Step(s, Break(w, n)))
  {
    var whole := CompletedBy(s.lock, n);
    if whole {
      assert Part(s.lock)[..n] == s.lock.pkt;
      GoKeepsWire(s, w);
    } else {
      WholeSnoc(s.tried, Attempt(w, s.lock.pkt, false));
      assert Whole(s.tried) + [] == Whole(s.tried);
      if |Partial(s.lock)| + n == 0 {
        assert s.wire + Part(s.lock)[..0] == s.wire;
      }
    }
  }

  lemma StepKeepsWire(s: State, a: Action)
    requires WireOk(s)
    ensures WireOk(Step(s, a))
  {
    match a
    case Go(w) => GoKeepsWire(s, w);
    case Break(w, n) =>
      if MayBreak(s, w, n) {
        BreakKeepsWire(s, w, n);
      }
  }

  lemma GoKeepsAccount(program: seq<Packet>, s: State, w: nat, v: nat)
    requires v < |s.todo| && WireOk(s) && Accounted(program, s, v)
    ensures Accounted(program, GoesOn(s, w), v)
  {
    var s' := GoesOn(s, w);
    var done, before, after := By(s.tried, v), InProgress(s.lock, v), InProgress(s'.lock, v);
    if s.lock.Held? && s.lock.writer == w && s.lock.phase == LengthWritten {
      BySnoc(s.tried, Attempt(w, s.lock.pkt, true), v);
      assert By(s'.tried, v) == done + before && after == [];
      assert done + before + after == done + before;
    } else if v == w && s.lock.Free? && s.todo[w] != [] {
      Assoc(done, after, OnlySendable(s.todo[v][1..]));
      assert before == [] && done + before == done;
      assert OnlySendable(s.todo[v]) == after + OnlySendable(s'.todo[v]);
    } else {
      assert before == after && s'.todo[v] == s.todo[v];
    }
  }

  lemma BreakKeepsAccount(program: seq<Packet>, s: State, w: nat, n: nat, v: nat)
    requires v < |s.todo| && Accounted(program, s, v)
    ensures Accounted(program, Step(s, Break(w, n)), v)
  {
    if MayBreak(s, w, n) {
      var done, before := By(s.tried, v), InProgress(s.lock, v);
      BySnoc(s.tried, Attempt(w, s.lock.pkt, CompletedBy(s.lock, n)), v);
      assert By(Step(s, Break(w, n)).tried, v) == done + before;
      assert done + before + [] == done + before;
    }
  }

  lemma StepKeepsInv(programs: seq<seq<Packet>>, s: State, a: Action)
    requires Inv(programs, s)
    ensures Inv(programs, Step(s, a))
  {
    StepKeepsWire(s, a);
    forall v | 0 <= v < |programs| ensures Accounted(programs[v], Step(s, a), v) {
      match a
      case Go(w) => GoKeepsAccount(programs[v], s, w, v);
      case Break(w, n) => BreakKeepsAccount(programs[v], s, w, n, v);
    }
  }

  lemma {:induction false} RunKeepsInv(programs: seq<seq<Packet>>, schedule: seq<Action>)
    ensures Inv(programs, Run(Start(programs), schedule))
    decreases |schedule|
  {
    if schedule != [] {
      var n := |schedule| - 1;
      RunKeepsInv(programs, schedule[..n]);
      StepKeepsInv(programs, Run(Start(programs), schedule[..n]), schedule[n]);
    }
  }

  predicate AllOk(tried: seq<Attempt>) {
    forall i :: 0 <= i < |tried| ==> tried[i].ok
  }

  lemma {:induction false} NoBreakNoStray(programs: seq<seq<Packet>>, schedule: seq<Action>)
    requires forall i :: 0 <= i < |schedule| ==> schedule[i].Go?
    ensures var s := Run(Start(programs), schedule); s.stray == 0 && AllOk(s.tried)
    decreases |schedule|
  {
    if schedule != [] {
      NoBreakNoStray(programs, schedule[..|schedule| - 1]);
    }
  }

  /**
   * Whatever the schedule, every goroutine's packets are dealt with in its own order; and as long as
   * no write has failed partway, the peer at every moment reads the completed frames whole, once
   * each and in the order they were completed.  Without a failing write that is all of them.
   */
  lemma FramesStayWhole(programs: seq<seq<Packet>>, schedule: seq<Action>)
    ensures var s := Run(Start(programs), schedule);
            && |s.todo| == |programs|
            && (s.stray == 0 ==> ReadFrames(s.wire) == Whole(s.tried))
            && (forall w {:trigger s.todo[w]} :: 0 <= w < |programs| ==>
                  && By(s.tried, w) <= OnlySendable(programs[w])
                  && (s.lock == Free && s.todo[w] == [] ==> By(s.tried, w) == OnlySendable(programs[w])))
            && ((forall i :: 0 <= i < |schedule| ==> schedule[i].Go?) ==> s.stray == 0 && AllOk(s.tried))
  {
    RunKeepsInv(programs, schedule);
    var s := Run(Start(programs), schedule);
    if s.stray == 0 {
      ReadFramesInvertsWriteFrames(Whole(s.tried), Partial(s.lock));
      assert ReadFrames(Partial(s.lock)) == [];
    }
    forall w | 0 <= w < |programs|
      ensures By(s.tried, w) <= OnlySendable(programs[w])
      ensures s.lock == Free && s.todo[w] == [] ==> By(s.tried, w) == OnlySendable(programs[w])
    {
      assert Accounted(programs[w], s, w);
    }
    if forall i :: 0 <= i < |schedule| ==> schedule[i].Go? {
      NoBreakNoStray(programs, schedule);
    }
  }

  /** Whatever comes next, the peer will read it after the frames completed so far. */
  ghost predicate ReadsNext(wire: seq<Byte>, whole: seq<Packet>) {
    forall p :: Sendable(p) ==> ReadFrames(wire + WriteFrame(p)) == whole + [p]
  }

  lemma NotNext(wire: seq<Byte>, whole: seq<Packet>, x: Byte)
    requires AllSendable(whole) && |wire| > |WriteFrames(whole)| && x != 0
    requires ReadFrames(wire) != whole + [[x]]
    ensures ReadFrames(wire + WriteFrame([x])) != whole + [[x]]
  {
    var ps, rest := ReadFrames(wire), Leftover(wire);
    var read := ReadFrames(rest + WriteFrame([x]));
    Splits(wire);
    ReadsOn(wire, WriteFrame([x]));
    if rest == [] {
      assert ps != whole;
      ReadsOne([x]);
      LastOf(ps, [x], whole, [x]);
    } else {
      Misread(rest, x);
      EndsOtherwise(ps, read, whole, [x]);
    }
  }

  lemma ReadsOne(p: Packet)
    requires Sendable(p)
    ensures ReadFrames([] + WriteFrame(p)) == [p]
  {
    assert [] + WriteFrame(p) == WriteFrame(p) + [];
    ReadFramesCons(p, []);
  }

  lemma LastOf(ps: seq<Packet>, p: Packet, qs: seq<Packet>, q: Packet)
    requires ps != qs
    ensures ps + [p] != qs + [q]
  {
    assert (ps + [p])[..|ps|] == ps && (qs + [q])[..|qs|] == qs;
  }

  lemma EndsOtherwise(ps: seq<Packet>, read: seq<Packet>, whole: seq<Packet>, p: Packet)
    requires |read| <= 1 && read != [p] && ps != whole + [p]
    ensures ps + read != whole + [p]
  {
    if |read| == 1 {
      assert read == [read[0]];
      assert (ps + read)[|ps|] == read[0] && (whole + [p])[|whole|] == p;
    } else {
      assert ps + read == ps;
    }
  }

  /** One of the packets [1] and [2] will do: the reader cannot have both ahead of it already. */
  lemma StrayMisread(wire: seq<Byte>, whole: seq<Packet>)
    requires AllSendable(whole) && |wire| > |WriteFrames(whole)|
    ensures !ReadsNext(wire, whole)
  {
    if ReadFrames(wire) == whole + [[1]] {
      assert (whole + [[1]])[|whole|] != (whole + [[2]])[|whole|] by { assert [1 as Byte][0] != [2 as Byte][0]; }
      NotNext(wire, whole, 2);
    } else {
      NotNext(wire, whole, 1);
    }
  }

  lemma CleanReadsNext(wire: seq<Byte>, whole: seq<Packet>)
    requires AllSendable(whole) && wire == WriteFrames(whole)
    ensures ReadsNext(wire, whole)
  {
    forall p | Sendable(p) ensures ReadFrames(wire + WriteFrame(p)) == whole + [p] {
      ReadFramesInvertsWriteFrames(whole, WriteFrame(p));
      ReadsOne(p);
      assert [] + WriteFrame(p) == WriteFrame(p);
    }
  }

  /**
   * For every schedule, whenever the mutex is free: every packet written next is read after the
   * completed ones, if and only if no write has failed with part of its frame on the wire.
   */
  lemma WholeExactly(programs: seq<seq<Packet>>, schedule: seq<Action>)
    ensures var s := Run(Start(programs), schedule);
            s.lock == Free ==> (ReadsNext(s.wire, Whole(s.tried)) <==> s.stray == 0)
  {
    RunKeepsInv(programs, schedule);
    var s := Run(Start(programs), schedule);
    if s.lock == Free {
      assert Partial(s.lock) == [] && WriteFrames(Whole(s.tried)) + [] == WriteFrames(Whole(s.tried));
      if s.stray > 0 {
        StrayMisread(s.wire, Whole(s.tried));
      } else {
        CleanReadsNext(s.wire, Whole(s.tried));
      }
    }
  }
}
