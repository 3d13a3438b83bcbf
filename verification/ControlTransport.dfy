/** internal/ctls ControlTransport: the byte stream that TLS reads and writes. */
module Ctls {
  import opened Bytes

  /** `inbound` is the buffered channel, oldest chunk first; `closed` is the flag, `ended` the closed channel. */
  datatype Transport = Transport(inbound: seq<seq<Byte>>, readBuf: seq<Byte>, closed: bool, ended: bool)

  datatype ReadOutcome = Data(bytes: seq<Byte>) | Eof | Wait

  const NewTransport := Transport([], [], false, false)

  /** What TLS has still to read. */
  function Unread(t: Transport): seq<Byte> {
    t.readBuf + Concat(t.inbound)
  }

  function Injected(t: Transport, data: seq<Byte>): Transport {
    if t.closed then t else t.(inbound := t.inbound + [data])
  }

  /** controlSession.receiveControl passes on the payloads that are not empty. */
  function InjectedAll(t: Transport, payloads: seq<seq<Byte>>): Transport {
    if payloads == [] then t
    else
      var n := |payloads| - 1;
      var before := InjectedAll(t, payloads[..n]);
      if |payloads[n]| > 0 then Injected(before, payloads[n]) else before
  }

  function Min(a: nat, b: nat): nat {
    if a < b then a else b
  }

  /** The leftover buffer is served first; otherwise one chunk is taken and its excess kept. */
  function ReadAfter(t: Transport, room: nat): (Transport, ReadOutcome) {
    if t.readBuf != [] then
      var n := Min(room, |t.readBuf|);
      (t.(readBuf := t.readBuf[n..]), Data(t.readBuf[..n]))
    else if t.inbound != [] then
      var chunk := t.inbound[0];
      var n := Min(room, |chunk|);
      (t.(inbound := t.inbound[1..], readBuf := chunk[n..]), Data(chunk[..n]))
    else (t, if t.ended then Eof else Wait)
  }

  /** A send on a closed channel panics. */
  datatype SendOutcome = Sent | Refused | DeadlineExceeded | Panicked

  /**
   * Close sets the flag under the lock and closes the channels after it.  `contended` says whether
   * another goroutine may do so while a call is between its check of the flag, made under the lock,
   * and its channel send, made after it.
   */
  class ControlTransport {
    var inbound: seq<seq<Byte>>
    var outbound: seq<seq<Byte>>
    var readBuf: seq<Byte>
    var closed: bool
    var inboundClosed: bool
    var outboundClosed: bool
    const contended: bool

    ghost predicate Valid() reads this {
      (outboundClosed ==> inboundClosed) && (inboundClosed ==> closed)
    }

    ghost function Model(): Transport reads this { Transport(inbound, readBuf, closed, inboundClosed) }

    constructor (contended: bool)
      ensures Valid() && Model() == NewTransport && outbound == [] && !outboundClosed && this.contended == contended
    {
      inbound, outbound, readBuf := [], [], [];
      closed, inboundClosed, outboundClosed := false, false, false;
      this.contended := contended;
    }

    /** Another goroutine gets on with a Close, as far as it may. */
    method OthersRun()
      requires Valid()
      modifies this`closed, this`inboundClosed, this`outboundClosed
      ensures Valid() && (old(closed) ==> closed)
      ensures !contended ==>
                closed == old(closed) && inboundClosed == old(inboundClosed) && outboundClosed == old(outboundClosed)
    {
      if contended {
        var progress: nat := *;
        closed := closed || progress > 0;
        inboundClosed := inboundClosed || progress > 1;
        outboundClosed := outboundClosed || progress > 2;
      }
    }

    /** Refused if closed at the check; otherwise a panic exactly if the channel is closed by the time of the send. */
    method InjectInbound(data: seq<Byte>) returns (r: SendOutcome)
      requires Valid()
      modifies this
      ensures Valid() && outbound == old(outbound) && readBuf == old(readBuf)
      ensures r == if old(closed) then Refused else if inboundClosed then Panicked else Sent
      ensures inbound == if r == Sent then old(inbound) + [data] else old(inbound)
      ensures old(closed) || !contended ==> Model() == Injected(old(Model()), data)
    {
      if closed {
        return Refused;
      }
      OthersRun();
      if inboundClosed {
        return Panicked;
      }
      inbound := inbound + [data];
      return Sent;
    }

    /** `Wait` stands for blocking on the channel and for the deadline error, which change nothing. */
    method Read(room: nat) returns (r: ReadOutcome)
      requires Valid()
      modifies this
      ensures Valid() && (Model(), r) == ReadAfter(old(Model()), room)
      ensures outbound == old(outbound) && outboundClosed == old(outboundClosed)
    {
      if |readBuf| > 0 {
        var n := Min(room, |readBuf|);
        r := Data(readBuf[..n]);
        readBuf := readBuf[n..];
        return;
      }
      if |inbound| == 0 {
        return if inboundClosed then Eof else Wait;
      }
      var chunk := inbound[0];
      inbound := inbound[1..];
      var n := Min(room, |chunk|);
      if n < |chunk| {
        readBuf := chunk[n..];
      } else {
        assert chunk[n..] == [] == readBuf;
      }
      return Data(chunk[..n]);
    }

    /**
     * `expired` says that the write deadline has passed when it is looked at, which is before the
     * send, and `late` that the select takes the deadline's case, as it may once that has passed.
     */
    method Write(b: seq<Byte>, expired: bool, late: bool) returns (r: SendOutcome)
      requires Valid()
      modifies this
      ensures Valid() && inbound == old(inbound) && readBuf == old(readBuf)
      ensures r == if old(closed) then Refused else if expired then DeadlineExceeded
                   else if late then DeadlineExceeded else if outboundClosed then Panicked else Sent
      ensures outbound == if r == Sent then old(outbound) + [b] else old(outbound)
      ensures old(closed) || !contended ==> Model() == old(Model()) && outboundClosed == old(outboundClosed)
    {
      if closed {
        return Refused;
      }
      OthersRun();
      if expired || late {
        return DeadlineExceeded;
      }
      if outboundClosed {
        return Panicked;
      }
      outbound := outbound + [b];
      return Sent;
    }

    /** What is buffered in the channels stays there. */
    method Close()
      requires Valid()
      modifies this
      ensures Valid() && Model() == old(Model()).(closed := true, ended := true)
      ensures outboundClosed && outbound == old(outbound)
    {
      closed := true;
      inboundClosed := true;
      outboundClosed := true;
    }
  }

  /** Reads in any sizes take the stream apart without loss or repetition. */
  lemma ReadTakesPrefix(t: Transport, room: nat)
    ensures var (t', r) := ReadAfter(t, room);
            match r
            case Data(b) => |b| <= room && b + Unread(t') == Unread(t)
            case _ => t' == t && Unread(t) == []
  {
    if t.readBuf != [] {
      var n := Min(room, |t.readBuf|);
      assert t.readBuf[..n] + t.readBuf[n..] == t.readBuf;
      Assoc(t.readBuf[..n], t.readBuf[n..], Concat(t.inbound));
    } else if t.inbound != [] {
      var chunk := t.inbound[0];
      var n := Min(room, |chunk|);
      assert chunk[..n] + chunk[n..] == chunk;
      Assoc(chunk[..n], chunk[n..], Concat(t.inbound[1..]));
    }
  }

  lemma InjectExtends(t: Transport, data: seq<Byte>)
    requires !t.closed
    ensures Unread(Injected(t, data)) == Unread(t) + data
  {
    ConcatSnoc(t.inbound, data);
    Assoc(t.readBuf, Concat(t.inbound), data);
  }

  lemma {:induction false} InjectAllExtends(t: Transport, payloads: seq<seq<Byte>>)
    requires !t.closed
    ensures !InjectedAll(t, payloads).closed
    ensures Unread(InjectedAll(t, payloads)) == Unread(t) + Concat(payloads)
  {
    if payloads == [] {
      assert Unread(t) + Concat([]) == Unread(t);
    } else {
      var n := |payloads| - 1;
      var p := payloads[n];
      InjectAllExtends(t, payloads[..n]);
      var before := InjectedAll(t, payloads[..n]);
      InjectExtends(before, p);
      assert |p| == 0 ==> Unread(before) + p == Unread(before);
      assert payloads[..n] + [p] == payloads;
      ConcatSnoc(payloads[..n], p);
      Assoc(Unread(t), Concat(payloads[..n]), p);
    }
  }
}
