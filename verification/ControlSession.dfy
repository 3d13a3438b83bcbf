/** client.go controlSession: one key epoch's transport, send queue and receive window, as objects. */
module ControlSession {
  import opened Bytes
  import opened ControlPacket
  import opened Reliable
  import opened ReceiveWindow
  import opened Ctls
  import opened ControlChannel

  /** The chunks the send goroutine cuts a TLS write into. */
  function Segments(chunk: seq<Byte>): seq<Payload>
    decreases |chunk|
  {
    if chunk == [] then []
    else
      var n := SegmentLength(chunk);
      [chunk[..n]] + Segments(chunk[n..])
  }

  lemma {:induction false} SegmentsRebuildChunk(chunk: seq<Byte>)
    ensures Concat(Segments(chunk)) == chunk
    ensures forall i :: 0 <= i < |Segments(chunk)| ==> 1 <= |Segments(chunk)[i]| <= SEGMENT_SIZE
    ensures forall i :: 0 <= i < |Segments(chunk)| - 1 ==> |Segments(chunk)[i]| == SEGMENT_SIZE
    decreases |chunk|
  {
    if chunk != [] {
      var n := SegmentLength(chunk);
      SegmentsRebuildChunk(chunk[n..]);
      assert chunk == chunk[..n] + chunk[n..];
    }
  }

  /** The queue after the segments went out one by one, each in a packet with the next id. */
  function SentSegments(q: Queue, c: Session, segs: seq<Payload>, now: int): Queue {
    if segs == [] then q
    else
      var n := |segs| - 1;
      var before := SentSegments(q, c, segs[..n], now);
      Enqueued(before, ControlV1(c.clientSid, c.peerSid, c.keyId, before.nextId, [], segs[n]), now)
  }

  lemma {:induction false} InjectedStays(t: Transport, payloads: seq<Payload>)
    ensures InjectedAll(t, payloads).closed == t.closed
    ensures t.closed ==> InjectedAll(t, payloads) == t
  {
    if payloads != [] {
      InjectedStays(t, payloads[..|payloads| - 1]);
    }
  }

  class Epoch {
    const session: Session
    const transport: ControlTransport
    const sendQueue: SendQueue
    const recvWindow: RecvWindow

    constructor (session: Session, firstPacketID: Word32, contended: bool)
      ensures this.session == session && transport.contended == contended
      ensures fresh(transport) && fresh(sendQueue) && fresh(recvWindow)
      ensures transport.Valid() && transport.Model() == NewTransport && sendQueue.Model() == NewQueue(firstPacketID)
      ensures recvWindow.Model() == NewWindow(session.base)
    {
      this.session := session;
      transport := new ControlTransport(contended);
      sendQueue := new SendQueue(firstPacketID);
      recvWindow := new RecvWindow.From(session.base);
    }

    /**
     * Records a control packet and hands the payloads that became in-order to TLS: all of them, or,
     * if another goroutine closes the transport meanwhile, the first `passed` of them.
     */
    method ReceiveControl(packetID: Word32, payload: Payload) returns (panicked: bool, ghost passed: nat)
      requires transport.Valid()
      modifies transport, recvWindow
      ensures transport.Valid() && transport.outbound == old(transport.outbound)
      ensures panicked ==> transport.contended && !old(transport.closed) && transport.inboundClosed
      ensures var d := Received(old(recvWindow.Model()), packetID, payload);
              && recvWindow.Model() == d.window
              && passed <= |d.payloads|
              && transport.inbound == InjectedAll(old(transport.Model()), d.payloads[..passed]).inbound
              && (passed < |d.payloads| ==> transport.contended && !old(transport.closed) && transport.closed)
    {
      ghost var t0 := transport.Model();
      var payloads, _ := recvWindow.Receive(packetID, payload);
      passed := 0;
      for i := 0 to |payloads|
        invariant transport.Valid() && transport.outbound == old(transport.outbound)
        invariant recvWindow.Model() == Received(old(recvWindow.Model()), packetID, payload).window
        invariant passed <= i && transport.inbound == InjectedAll(t0, payloads[..passed]).inbound
        invariant t0.closed ==> transport.closed && passed == i
        invariant passed < i ==> transport.contended && !t0.closed && transport.closed
        invariant !transport.contended ==> transport.closed == t0.closed
      {
        assert payloads[..i + 1][..i] == payloads[..i];
        InjectedStays(t0, payloads[..i]);
        var r := Sent;
        if |payloads[i]| > 0 {
          r := transport.InjectInbound(payloads[i]);
          if r == Panicked {
            return true, passed;
          }
        }
        if passed == i && (r == Sent || t0.closed) {
          passed := i + 1;
        }
      }
      assert payloads[..|payloads|] == payloads;
      return false, passed;
    }

    /** The send goroutine's loop over one chunk taken from the outbound channel. */
    method SendChunk(chunk0: seq<Byte>, now: int)
      modifies sendQueue
      ensures sendQueue.Model() == SentSegments(old(sendQueue.Model()), session, Segments(chunk0), now)
    {
      var chunk := chunk0;
      ghost var done := [];
      while |chunk| > 0
        invariant Segments(chunk0) == done + Segments(chunk)
        invariant sendQueue.Model() == SentSegments(old(sendQueue.Model()), session, done, now)
      {
        var seg := chunk;
        if |seg| > SEGMENT_SIZE {
          seg := chunk[..SEGMENT_SIZE];
        }
        assert seg == chunk[..SegmentLength(chunk)];
        Assoc(done, [seg], Segments(chunk[|seg|..]));
        chunk := chunk[|seg|..];
        var nextID := sendQueue.NextID();
        var wire := BuildControlV1WithKeyId(session.clientSid, session.peerSid, session.keyId, nextID, [], seg);
        assert (done + [seg])[..|done|] == done;
        done := done + [seg];
        var _ := sendQueue.Enqueue(wire, now);
      }
      assert done + [] == done;
    }
  }
}
