/**
 * One direction of the reliable control channel as a two-party system: a peer that segments its
 * TLS output, the client's dispatcher and receive window, and a network that may lose, repeat and
 * reorder packets.  The network is the set of packets ever sent: each of them may arrive at any
 * time, any number of times, or never.
 */
module ControlChannel {
  import opened Bytes
  import opened Framing
  import opened ControlPacket
  import opened Reliable
  import opened ReceiveWindow
  import opened Ctls

  const SEGMENT_SIZE := 1024

  /**
   * `rekey` sessions start with a SOFT_RESET that consumes packet id 0.  `windowed` is the
   * hypothesis that the sender keeps to the window; this client's own SendQueue is unbounded.
   */
  datatype Session = Session(peerSid: SessionId, clientSid: SessionId, keyId: Byte, base: Word32,
                             rekey: bool, windowed: bool)

  predicate ValidSession(c: Session) {
    c.keyId < 8 && c.base <= 0x1_0000_0000 - WINDOW_SIZE && (c.rekey ==> c.base == 0)
  }

  /**
   * `written` is everything TLS wrote, `outbound` the chunks not yet segmented, `sent[i]` the
   * payload of packet base + i, and `unacked` the ids sent and not acknowledged.
   */
  datatype Peer = Peer(written: seq<Byte>, outbound: seq<seq<Byte>>, queue: Queue,
                       sent: seq<Payload>, unacked: set<int>)

  datatype Client = Client(window: Window, transport: Transport, read: seq<Byte>)

  datatype State = State(peer: Peer, client: Client, toClient: set<Packet>, toPeer: set<Packet>)

  function Start(c: Session): State {
    State(Peer([], [], NewQueue(c.base), [], {}), Client(NewWindow(c.base), NewTransport, []), {}, {})
  }

  function Wire(c: Session, i: nat, payload: Payload): Packet
    requires c.base + i < 0x1_0000_0000
  {
    if c.rekey && i == 0 then SoftReset(c.peerSid, c.keyId)
    else ControlV1(c.peerSid, c.clientSid, c.keyId, c.base + i, [], payload)
  }

  function AckFor(c: Session, id: Word32): Packet {
    Ack(c.clientSid, c.peerSid, c.keyId, [id])
  }

  // ---- Steps -----------------------------------------------------------------

  datatype Action =
    | TlsWrite(bytes: seq<Byte>)
    | SendReset(now: int)
    | SendSegment(now: int)
    | Retransmit(now: int)
    | ToClient(pkt: Packet)
    | ToPeer(pkt: Packet)
    | TlsRead(room: nat)

  function LowestUnacked(q: Queue): int {
    if q.entries == [] then q.nextId else q.entries[0].packetId
  }

  /** A windowed sender never uses an id at or past its lowest unacknowledged one plus eight. */
  predicate MaySend(c: Session, p: Peer) {
    && c.base + |p.sent| < 0x1_0000_0000 - WINDOW_SIZE
    && (c.windowed ==> c.base + |p.sent| < LowestUnacked(p.queue) + WINDOW_SIZE)
  }

  predicate Enabled(c: Session, s: State, a: Action) {
    match a
    case SendReset(_) => c.rekey && s.peer.sent == [] && MaySend(c, s.peer)
    case SendSegment(_) =>
      s.peer.outbound != [] && (s.peer.outbound[0] != [] ==> MaySend(c, s.peer) && (c.rekey ==> s.peer.sent != []))
    case ToClient(pkt) => pkt in s.toClient
    case ToPeer(pkt) => pkt in s.toPeer
    case _ => true
  }

  function Emit(c: Session, s: State, payload: Payload, now: int): State
    requires c.base + |s.peer.sent| < 0x1_0000_0000
  {
    s.(peer := Sending(c, s.peer, payload, now), toClient := s.toClient + {Wire(c, |s.peer.sent|, payload)})
  }

  function Sending(c: Session, p: Peer, payload: Payload, now: int): Peer
    requires c.base + |p.sent| < 0x1_0000_0000
  {
    var i := |p.sent|;
    p.(queue := Enqueued(p.queue, Wire(c, i, payload), now), sent := p.sent + [payload],
       unacked := p.unacked + {c.base + i})
  }

  /** The send goroutine cuts the chunk at hand into segments of at most 1024 bytes. */
  function SegmentLength(chunk: seq<Byte>): nat {
    if |chunk| > SEGMENT_SIZE then SEGMENT_SIZE else |chunk|
  }

  function Segmented(c: Session, s: State, now: int): State
    requires s.peer.outbound != [] && c.base + |s.peer.sent| < 0x1_0000_0000
  {
    var chunk := s.peer.outbound[0];
    var n := SegmentLength(chunk);
    Emit(c, s.(peer := s.peer.(outbound := [chunk[n..]] + s.peer.outbound[1..])), chunk[..n], now)
  }

  function ReceiveControl(cl: Client, id: Word32, payload: Payload): Client {
    var d := Received(cl.window, id, payload);
    cl.(window := d.window, transport := InjectedAll(cl.transport, d.payloads))
  }

  /**
   * The inbound dispatcher: it ACKs a control packet before it looks up the session, and only
   * then consults the receive window.
   */
  function Dispatch(c: Session, s: State, pkt: Packet): State {
    if pkt == [] then s else Handle(c, s, OpcodeFromByte(pkt[0]), KeyIdFromByte(pkt[0]), ParseBody(pkt))
  }

  function Handle(c: Session, s: State, op: Byte, keyId: Byte, body: Body): State {
    if op != P_CONTROL_V1 && op != P_CONTROL_SOFT_RESET_V1 then s
    else
      var ack := Ack(c.clientSid, c.peerSid, keyId, [body.packetId]);
      var payload := if op == P_CONTROL_V1 then body.payload else [];
      var known := keyId == c.keyId && (op == P_CONTROL_V1 || c.rekey);
      s.(toPeer := s.toPeer + {ack},
         client := if known then ReceiveControl(s.client, body.packetId, payload) else s.client)
  }

  function TakeAcks(c: Session, p: Peer, pkt: Packet): Peer {
    if pkt != [] && OpcodeFromByte(pkt[0]) == P_ACK_V1 && KeyIdFromByte(pkt[0]) == c.keyId then
      var ids := StandaloneAckIds(pkt);
      p.(queue := AckedAll(p.queue, ids), unacked := p.unacked - set id | id in ids)
    else p
  }

  function Next(c: Session, s: State, a: Action): State
    requires Enabled(c, s, a)
  {
    match a
    case TlsWrite(b) => s.(peer := s.peer.(written := s.peer.written + b, outbound := s.peer.outbound + [b]))
    case SendReset(now) => Emit(c, s, [], now)
    case SendSegment(now) =>
      if s.peer.outbound[0] == [] then s.(peer := s.peer.(outbound := s.peer.outbound[1..]))
      else Segmented(c, s, now)
    case Retransmit(now) =>
      var es := s.peer.queue.entries;
      s.(peer := s.peer.(queue := s.peer.queue.(entries := Swept(es, now))),
         toClient := s.toClient + set i | 0 <= i < |es| && IsDue(es[i], now) :: es[i].payload)
    case ToClient(pkt) => Dispatch(c, s, pkt)
    case ToPeer(pkt) => s.(peer := TakeAcks(c, s.peer, pkt))
    case TlsRead(room) =>
      var (t, r) := ReadAfter(s.client.transport, room);
      s.(client := s.client.(transport := t,
                             read := s.client.read + if r.Data? then r.bytes else []))
  }

  /** Any sequence of actions is a run; the ones that are not enabled when their turn comes do nothing. */
  function After(c: Session, run: seq<Action>): State {
    if run == [] then Start(c)
    else
      var n := |run| - 1;
      var s := After(c, run[..n]);
      if Enabled(c, s, run[n]) then Next(c, s, run[n]) else s
  }

  // ---- Invariant -------------------------------------------------------------

  ghost function Wires(c: Session, sent: seq<Payload>): (w: seq<Packet>)
    requires c.base + |sent| <= 0x1_0000_0000
    ensures |w| == |sent|
  {
    seq(|sent|, i requires 0 <= i < |sent| => Wire(c, i, sent[i]))
  }

  ghost predicate QueueOk(c: Session, p: Peer) {
    && c.base + |p.sent| <= 0x1_0000_0000 - WINDOW_SIZE
    && (c.rekey && p.sent != [] ==> p.sent[0] == [])
    && HoldsUnacked(c, p)
  }

  ghost predicate HoldsUnacked(c: Session, p: Peer)
    requires c.base + |p.sent| <= 0x1_0000_0000
  {
    Represents(p.queue, c.base, Wires(c, p.sent), p.unacked)
  }

  ghost predicate NetworkOk(wires: seq<Packet>, toClient: set<Packet>) {
    forall pkt :: pkt in toClient ==> pkt in wires
  }

  ghost predicate StreamOk(sent: seq<Payload>, outbound: seq<seq<Byte>>, written: seq<Byte>) {
    Concat(sent) + Concat(outbound) == written
  }

  ghost predicate SenderInv(c: Session, p: Peer, toClient: set<Packet>) {
    QueueOk(c, p) && NetworkOk(Wires(c, p.sent), toClient) && StreamOk(p.sent, p.outbound, p.written)
  }

  ghost predicate IsAck(c: Session, pkt: Packet) {
    exists id: Word32 :: pkt == AckFor(c, id)
  }

  ghost predicate ClientInv(c: Session, cl: Client, sent: seq<Payload>) {
    && Tracks(cl.window, c.base, sent)
    && Near(cl.window)
    && !cl.transport.closed
    && cl.read + Unread(cl.transport) == Concat(sent[..cl.window.expected - c.base])
  }

  /** What every session keeps, whether its sender minds the window or not. */
  ghost predicate Inv(c: Session, s: State) {
    && SenderInv(c, s.peer, s.toClient)
    && (forall pkt :: pkt in s.toPeer ==> IsAck(c, pkt))
    && ClientInv(c, s.client, s.peer.sent)
  }

  ghost predicate HeldAck(c: Session, w: Window, pkt: Packet) {
    exists id: Word32 :: pkt == AckFor(c, id) && Held(w, id)
  }

  /** Acknowledged implies delivered or buffered. */
  ghost predicate AcksHeld(c: Session, w: Window, toPeer: set<Packet>) {
    forall pkt :: pkt in toPeer ==> HeldAck(c, w, pkt)
  }

  /** No id sent is eight or more past one still unacknowledged. */
  ghost predicate Ahead(c: Session, p: Peer) {
    forall u :: u in p.unacked ==> c.base + |p.sent| <= u + WINDOW_SIZE
  }

  ghost predicate OthersHeld(c: Session, p: Peer, w: Window) {
    forall id :: c.base <= id < c.base + |p.sent| && id !in p.unacked ==> Held(w, id)
  }

  /** What a sender that minds the window keeps besides. */
  ghost predicate WindowInv(c: Session, s: State) {
    AcksHeld(c, s.client.window, s.toPeer) && Ahead(c, s.peer) && OthersHeld(c, s.peer, s.client.window)
  }

  // ---- Every step keeps it -----------------------------------------------------

  lemma WiresSnoc(c: Session, sent: seq<Payload>, p: Payload)
    requires c.base + |sent| < 0x1_0000_0000
    ensures Wires(c, sent + [p]) == Wires(c, sent) + [Wire(c, |sent|, p)]
  {
  }

  lemma SendingQueue(c: Session, p: Peer, payload: Payload, now: int)
    requires QueueOk(c, p) && MaySend(c, p) && (c.rekey && p.sent == [] ==> payload == [])
    ensures QueueOk(c, Sending(c, p, payload, now))
  {
    SendingHolds(c, p, payload, now);
  }

  lemma SendingHolds(c: Session, p: Peer, payload: Payload, now: int)
    requires c.base + |p.sent| < 0x1_0000_0000 && HoldsUnacked(c, p)
    ensures HoldsUnacked(c, Sending(c, p, payload, now))
  {
    WiresSnoc(c, p.sent, payload);
    EnqueueRepresents(p.queue, c.base, Wires(c, p.sent), p.unacked, Wire(c, |p.sent|, payload), now);
  }

  lemma SendingStream(sent: seq<Payload>, outbound: seq<seq<Byte>>, written: seq<Byte>, payload: Payload,
                      rest: seq<seq<Byte>>)
    requires StreamOk(sent, outbound, written) && Concat(outbound) == payload + Concat(rest)
    ensures StreamOk(sent + [payload], rest, written)
  {
    ConcatSnoc(sent, payload);
    Assoc(Concat(sent), payload, Concat(rest));
  }

  lemma OneMoreIn(wires: seq<Packet>, network: set<Packet>, pkt: Packet)
    requires NetworkOk(wires, network)
    ensures NetworkOk(wires + [pkt], network + {pkt})
  {
  }

  lemma EmitKeepsSender(c: Session, s: State, rest: seq<seq<Byte>>, payload: Payload, now: int)
    requires SenderInv(c, s.peer, s.toClient) && MaySend(c, s.peer)
    requires c.rekey && s.peer.sent == [] ==> payload == []
    requires Concat(s.peer.outbound) == payload + Concat(rest)
    ensures var s' := Emit(c, s.(peer := s.peer.(outbound := rest)), payload, now);
            SenderInv(c, s'.peer, s'.toClient)
  {
    SendingQueue(c, s.peer.(outbound := rest), payload, now);
    SendingStream(s.peer.sent, s.peer.outbound, s.peer.written, payload, rest);
    WiresSnoc(c, s.peer.sent, payload);
    OneMoreIn(Wires(c, s.peer.sent), s.toClient, Wire(c, |s.peer.sent|, payload));
  }

  /** A new packet concerns only ids at or past everything the client has seen. */
  lemma EmitKeepsInv(c: Session, s: State, rest: seq<seq<Byte>>, payload: Payload, now: int)
    requires Inv(c, s) && MaySend(c, s.peer)
    requires c.rekey && s.peer.sent == [] ==> payload == []
    requires Concat(s.peer.outbound) == payload + Concat(rest)
    ensures Inv(c, Emit(c, s.(peer := s.peer.(outbound := rest)), payload, now))
  {
    EmitKeepsSender(c, s, rest, payload, now);
    EmitKeepsClient(c, s.client, s.peer, payload);
  }

  lemma EmitKeepsClient(c: Session, cl: Client, p: Peer, payload: Payload)
    requires ClientInv(c, cl, p.sent) && MaySend(c, p)
    ensures ClientInv(c, cl, p.sent + [payload])
  {
    TracksMore(cl.window, c.base, p.sent, payload);
    var n := cl.window.expected - c.base;
    assert (p.sent + [payload])[..n] == p.sent[..n];
  }

  lemma WriteKeepsInv(c: Session, s: State, b: seq<Byte>)
    requires Inv(c, s)
    ensures Inv(c, Next(c, s, TlsWrite(b)))
  {
    ConcatSnoc(s.peer.outbound, b);
    Assoc(Concat(s.peer.sent), Concat(s.peer.outbound), b);
  }

  lemma SegmentKeepsInv(c: Session, s: State, now: int)
    requires Inv(c, s) && Enabled(c, s, SendSegment(now))
    ensures Inv(c, Next(c, s, SendSegment(now)))
  {
    var chunk := s.peer.outbound[0];
    if chunk == [] {
      assert chunk + Concat(s.peer.outbound[1..]) == Concat(s.peer.outbound[1..]);
    } else {
      var n := SegmentLength(chunk);
      var rest := [chunk[n..]] + s.peer.outbound[1..];
      assert rest[1..] == s.peer.outbound[1..];
      assert chunk[..n] + chunk[n..] == chunk;
      Assoc(chunk[..n], chunk[n..], Concat(s.peer.outbound[1..]));
      EmitKeepsInv(c, s, rest, chunk[..n], now);
    }
  }

  lemma RetransmitKeepsSender(c: Session, s: State, now: int)
    requires SenderInv(c, s.peer, s.toClient)
    ensures var s' := Next(c, s, Retransmit(now)); SenderInv(c, s'.peer, s'.toClient)
  {
    var es := s.peer.queue.entries;
    SameIdsRepresent(s.peer.queue, Swept(es, now), c.base, Wires(c, s.peer.sent), s.peer.unacked);
    forall i | 0 <= i < |es| ensures es[i].payload in Wires(c, s.peer.sent) {
      QueuedPayload(s.peer.queue, c.base, Wires(c, s.peer.sent), s.peer.unacked, i);
    }
  }

  lemma ReadKeepsClient(c: Session, cl: Client, sent: seq<Payload>, room: nat)
    requires ClientInv(c, cl, sent)
    ensures var (t, r) := ReadAfter(cl.transport, room);
            ClientInv(c, cl.(transport := t, read := cl.read + if r.Data? then r.bytes else []), sent)
  {
    ReadTakesPrefix(cl.transport, room);
    var (t, r) := ReadAfter(cl.transport, room);
    if r.Data? {
      Assoc(cl.read, r.bytes, Unread(t));
    } else {
      assert cl.read + [] == cl.read;
    }
  }

  lemma ReadKeepsInv(c: Session, s: State, room: nat)
    requires Inv(c, s)
    ensures Inv(c, Next(c, s, TlsRead(room)))
  {
    ReadKeepsClient(c, s.client, s.peer.sent, room);
  }

  // ---- Arrivals --------------------------------------------------------------

  /** Through building and parsing, packet i arrives as id base + i with its own payload. */
  lemma DispatchWire(c: Session, s: State, i: nat)
    requires ValidSession(c) && i < |s.peer.sent| && c.base + i < 0x1_0000_0000
    requires c.rekey ==> s.peer.sent[0] == []
    ensures Dispatch(c, s, Wire(c, i, s.peer.sent[i])) == Arrived(c, s, i)
  {
    var pkt := Wire(c, i, s.peer.sent[i]);
    if c.rekey && i == 0 {
      BodyInvertsSoftReset(c.peerSid, c.keyId);
      DispatchParsed(c, s, pkt, P_CONTROL_SOFT_RESET_V1, Body([], 0));
    } else {
      BodyInvertsControlV1(c.peerSid, c.clientSid, c.keyId, c.base + i, [], s.peer.sent[i]);
      FirstOfControlV1(c.peerSid, c.clientSid, c.keyId, c.base + i, s.peer.sent[i]);
      DispatchParsed(c, s, pkt, P_CONTROL_V1, Body(s.peer.sent[i], c.base + i));
    }
  }

  /** Packet i reaches the client: it is acknowledged and handed to the window. */
  function Arrived(c: Session, s: State, i: nat): State
    requires i < |s.peer.sent| && c.base + i < 0x1_0000_0000
  {
    s.(client := ReceiveControl(s.client, c.base + i, s.peer.sent[i]), toPeer := s.toPeer + {AckFor(c, c.base + i)})
  }

  lemma DispatchParsed(c: Session, s: State, pkt: Packet, op: Byte, body: Body)
    requires c.keyId < 8 && pkt != [] && pkt[0] == FirstByte(op, c.keyId) && ParseBody(pkt) == body
    requires op == P_CONTROL_V1 || (op == P_CONTROL_SOFT_RESET_V1 && c.rekey && body.payload == [])
    ensures Dispatch(c, s, pkt) == s.(client := ReceiveControl(s.client, body.packetId, body.payload),
                                      toPeer := s.toPeer + {AckFor(c, body.packetId)})
  {
    assert OpcodeFromByte(pkt[0]) == op && KeyIdFromByte(pkt[0]) == c.keyId;
  }

  lemma FirstOfControlV1(sender: SessionId, remote: SessionId, keyId: Byte, packetId: Word32, payload: Payload)
    ensures var raw := ControlV1(sender, remote, keyId, packetId, [], payload);
            raw != [] && raw[0] == FirstByte(P_CONTROL_V1, keyId)
  {
  }

  lemma DeliveryKeepsClient(c: Session, cl: Client, sent: seq<Payload>, d: Delivery)
    requires ClientInv(c, cl, sent) && Tracks(d.window, c.base, sent) && Near(d.window)
    requires cl.window.expected <= d.window.expected
    requires d.payloads == sent[cl.window.expected - c.base..d.window.expected - c.base]
    ensures ClientInv(c, cl.(window := d.window, transport := InjectedAll(cl.transport, d.payloads)), sent)
  {
    DeliveryExtends(cl, sent, cl.window.expected - c.base, d.window.expected - c.base, d.payloads);
  }

  lemma ReceiveKeepsClient(c: Session, cl: Client, sent: seq<Payload>, i: nat)
    requires ClientInv(c, cl, sent) && i < |sent|
    ensures ClientInv(c, ReceiveControl(cl, c.base + i, sent[i]), sent)
  {
    ReceiveDelivers(cl.window, c.base, sent, i);
    ReceiveNear(cl.window, c.base, sent, c.base + i);
    DeliveryKeepsClient(c, cl, sent, Received(cl.window, c.base + i, sent[i]));
  }

  lemma DeliveryExtends(cl: Client, sent: seq<Payload>, m: nat, n: nat, payloads: seq<Payload>)
    requires m <= n <= |sent| && payloads == sent[m..n] && !cl.transport.closed
    requires cl.read + Unread(cl.transport) == Concat(sent[..m])
    ensures !InjectedAll(cl.transport, payloads).closed
    ensures cl.read + Unread(InjectedAll(cl.transport, payloads)) == Concat(sent[..n])
  {
    InjectAllExtends(cl.transport, payloads);
    Splice(sent, m, n);
    ConcatAppend(sent[..m], sent[m..n]);
    Assoc(cl.read, Unread(cl.transport), Concat(payloads));
  }

  lemma ArrivalKeepsInv(c: Session, s: State, i: nat)
    requires Inv(c, s) && i < |s.peer.sent|
    ensures Inv(c, Arrived(c, s, i))
  {
    ReceiveKeepsClient(c, s.client, s.peer.sent, i);
  }

  lemma WireIndex(c: Session, p: Peer, toClient: set<Packet>, pkt: Packet) returns (i: nat)
    requires SenderInv(c, p, toClient) && pkt in toClient
    ensures i < |p.sent| && c.base + i < 0x1_0000_0000 && pkt == Wire(c, i, p.sent[i])
    ensures c.rekey ==> p.sent[0] == []
  {
    var wires := Wires(c, p.sent);
    i :| 0 <= i < |wires| && wires[i] == pkt;
  }

  lemma ToClientArrives(c: Session, s: State, pkt: Packet) returns (i: nat)
    requires ValidSession(c) && Inv(c, s) && pkt in s.toClient
    ensures i < |s.peer.sent| && c.base + i < 0x1_0000_0000 && pkt == Wire(c, i, s.peer.sent[i])
    ensures Next(c, s, ToClient(pkt)) == Arrived(c, s, i)
  {
    i := WireIndex(c, s.peer, s.toClient, pkt);
    DispatchWire(c, s, i);
  }

  lemma ToClientKeepsInv(c: Session, s: State, pkt: Packet)
    requires ValidSession(c) && Inv(c, s) && pkt in s.toClient
    ensures Inv(c, Next(c, s, ToClient(pkt)))
  {
    var i := ToClientArrives(c, s, pkt);
    ArrivalKeepsInv(c, s, i);
  }

  lemma TakeOneAck(c: Session, p: Peer, id: Word32)
    requires c.keyId < 8
    ensures TakeAcks(c, p, AckFor(c, id)) == p.(queue := Acked(p.queue, id), unacked := p.unacked - {id})
  {
    StandaloneInvertsAck(c.clientSid, c.peerSid, c.keyId, [id]);
    TakeParsed(c, p, AckFor(c, id), id);
  }

  lemma TakeParsed(c: Session, p: Peer, pkt: Packet, id: Word32)
    requires c.keyId < 8 && pkt != [] && pkt[0] == FirstByte(P_ACK_V1, c.keyId) && StandaloneAckIds(pkt) == [id]
    ensures TakeAcks(c, p, pkt) == p.(queue := Acked(p.queue, id), unacked := p.unacked - {id})
  {
    assert OpcodeFromByte(pkt[0]) == P_ACK_V1 && KeyIdFromByte(pkt[0]) == c.keyId;
    AckedOne(p.queue, id);
    assert (set k | k in [id]) == {id};
  }

  lemma AckedOne(q: Queue, id: Word32)
    ensures AckedAll(q, [id]) == Acked(q, id)
  {
  }

  function AckTaken(s: State, id: Word32): State {
    s.(peer := s.peer.(queue := Acked(s.peer.queue, id), unacked := s.peer.unacked - {id}))
  }

  lemma AckTakenKeepsInv(c: Session, s: State, id: Word32)
    requires Inv(c, s)
    ensures Inv(c, AckTaken(s, id))
  {
    AckRepresents(s.peer.queue, c.base, Wires(c, s.peer.sent), s.peer.unacked, id);
  }

  lemma ToPeerKeepsInv(c: Session, s: State, pkt: Packet)
    requires ValidSession(c) && Inv(c, s) && pkt in s.toPeer
    ensures Inv(c, Next(c, s, ToPeer(pkt)))
  {
    assert IsAck(c, pkt);
    var id: Word32 :| pkt == AckFor(c, id);
    TakeOneAck(c, s.peer, id);
    assert Next(c, s, ToPeer(pkt)) == AckTaken(s, id);
    AckTakenKeepsInv(c, s, id);
  }

  lemma StepKeepsInv(c: Session, s: State, a: Action)
    requires ValidSession(c) && Inv(c, s) && Enabled(c, s, a)
    ensures Inv(c, Next(c, s, a))
  {
    match a
    case TlsWrite(b) => WriteKeepsInv(c, s, b);
    case SendReset(now) =>
      assert s.peer.(outbound := s.peer.outbound) == s.peer;
      assert [] + Concat(s.peer.outbound) == Concat(s.peer.outbound);
      EmitKeepsInv(c, s, s.peer.outbound, [], now);
    case SendSegment(now) => SegmentKeepsInv(c, s, now);
    case Retransmit(now) => RetransmitKeepsSender(c, s, now);
    case ToClient(pkt) => ToClientKeepsInv(c, s, pkt);
    case ToPeer(pkt) => ToPeerKeepsInv(c, s, pkt);
    case TlsRead(room) => ReadKeepsInv(c, s, room);
  }

  lemma {:induction false} InvAlways(c: Session, run: seq<Action>)
    requires ValidSession(c)
    ensures Inv(c, After(c, run))
  {
    if run != [] {
      var n := |run| - 1;
      InvAlways(c, run[..n]);
      var s := After(c, run[..n]);
      if Enabled(c, s, run[n]) {
        StepKeepsInv(c, s, run[n]);
      }
    }
  }

  /** In every run, whatever the sender's window, what TLS has read is a prefix of what the peer's TLS wrote. */
  lemma ReadIsPrefixOfWritten(c: Session, run: seq<Action>)
    requires ValidSession(c)
    ensures After(c, run).client.read <= After(c, run).peer.written
  {
    InvAlways(c, run);
    var s := After(c, run);
    var n := s.client.window.expected - c.base;
    var sent := s.peer.sent;
    assert sent[..n] + sent[n..] == sent;
    ConcatAppend(sent[..n], sent[n..]);
    PrefixOf(s.client.read, Unread(s.client.transport), Concat(sent[n..]), Concat(s.peer.outbound), s.peer.written);
  }

  lemma PrefixOf(a: seq<Byte>, b: seq<Byte>, c: seq<Byte>, d: seq<Byte>, all: seq<Byte>)
    requires a + b + c + d == all
    ensures a <= all
  {
  }

  // ---- Acknowledged and held ---------------------------------------------------------

  /** The packet is acknowledged in any case, and held afterwards exactly when it is not too far ahead. */
  ghost predicate HandledExactly(c: Session, s: State, s': State, id: Word32) {
    AckFor(c, id) in s'.toPeer && (Held(s'.client.window, id) <==> id < s.client.window.expected + WINDOW_SIZE)
  }

  lemma ArrivedExactly(c: Session, s: State, i: nat)
    requires ClientInv(c, s.client, s.peer.sent) && i < |s.peer.sent|
    ensures c.base + i < 0x1_0000_0000 && HandledExactly(c, s, Arrived(c, s, i), c.base + i)
  {
    ReceiveNear(s.client.window, c.base, s.peer.sent, c.base + i);
  }

  lemma DispatchExactly(c: Session, run: seq<Action>, i: nat)
    requires ValidSession(c) && i < |After(c, run).peer.sent|
    ensures var s := After(c, run);
            c.base + i < 0x1_0000_0000
            && HandledExactly(c, s, Dispatch(c, s, Wire(c, i, s.peer.sent[i])), c.base + i)
  {
    InvAlways(c, run);
    ArrivedExactly(c, After(c, run), i);
    DispatchWire(c, After(c, run), i);
  }

  /** A packet arrives too far ahead of the window to be kept. */
  predicate DropsNow(c: Session, s: State, a: Action) {
    a.ToClient? && a.pkt in s.toClient && ParseBody(a.pkt).packetId >= s.client.window.expected + WINDOW_SIZE
  }

  lemma AckForInjective(c: Session, i: Word32, j: Word32)
    requires AckFor(c, i) == AckFor(c, j)
    ensures i == j
  {
    StandaloneInvertsAck(c.clientSid, c.peerSid, c.keyId, [i]);
    StandaloneInvertsAck(c.clientSid, c.peerSid, c.keyId, [j]);
    assert [i][0] == [j][0];
  }

  lemma WireId(c: Session, i: nat, payload: Payload)
    requires ValidSession(c) && c.base + i < 0x1_0000_0000
    ensures ParseBody(Wire(c, i, payload)).packetId == c.base + i
  {
    if c.rekey && i == 0 {
      BodyInvertsSoftReset(c.peerSid, c.keyId);
    } else {
      BodyInvertsControlV1(c.peerSid, c.clientSid, c.keyId, c.base + i, [], payload);
    }
  }

  lemma HeldAfter(c: Session, w: Window, w': Window, toPeer: set<Packet>, id: Word32)
    requires AcksHeld(c, w, toPeer) && Held(w', id)
    requires forall k :: Held(w, k) ==> Held(w', k)
    ensures AcksHeld(c, w', toPeer + {AckFor(c, id)})
  {
    forall pkt | pkt in toPeer + {AckFor(c, id)} ensures HeldAck(c, w', pkt) {
      if pkt in toPeer {
        assert HeldAck(c, w, pkt);
      }
    }
  }

  lemma NotHeldAfter(c: Session, w: Window, toPeer: set<Packet>, id: Word32)
    requires AckFor(c, id) in toPeer && !Held(w, id)
    ensures !AcksHeld(c, w, toPeer)
  {
    if HeldAck(c, w, AckFor(c, id)) {
      var k: Word32 :| AckFor(c, id) == AckFor(c, k) && Held(w, k);
      AckForInjective(c, id, k);
    }
  }

  /** A packet not too far ahead is kept and nothing held is lost; another one is not held afterwards. */
  lemma WindowAfter(w: Window, base: nat, sent: seq<Payload>, i: nat)
    requires Tracks(w, base, sent) && Near(w) && i < |sent|
    ensures base + i < 0x1_0000_0000
    ensures var w', ahead := Received(w, base + i, sent[i]).window, base + i >= w.expected + WINDOW_SIZE;
            && (Held(w', base + i) <==> !ahead)
            && (!ahead ==> forall k :: Held(w, k) ==> Held(w', k))
  {
    ReceiveTracks(w, base, sent, base + i);
    ReceiveNear(w, base, sent, base + i);
  }

  /** An arrival leaves every acknowledgement for a held packet exactly when the packet is not dropped. */
  lemma ArrivedHeld(c: Session, s: State, i: nat)
    requires ClientInv(c, s.client, s.peer.sent) && AcksHeld(c, s.client.window, s.toPeer) && i < |s.peer.sent|
    ensures c.base + i < 0x1_0000_0000
    ensures var s', ahead := Arrived(c, s, i), c.base + i >= s.client.window.expected + WINDOW_SIZE;
            && (AcksHeld(c, s'.client.window, s'.toPeer) <==> !ahead)
            && (!ahead ==> forall k :: Held(s.client.window, k) ==> Held(s'.client.window, k))
  {
    var w, id := s.client.window, c.base + i;
    WindowAfter(w, c.base, s.peer.sent, i);
    var w' := Received(w, id, s.peer.sent[i]).window;
    if id >= w.expected + WINDOW_SIZE {
      NotHeldAfter(c, w', s.toPeer + {AckFor(c, id)}, id);
    } else {
      HeldAfter(c, w, w', s.toPeer, id);
    }
  }

  /** What ToClient does, in terms of the packet's number. */
  lemma ArrivesAs(c: Session, s: State, pkt: Packet) returns (i: nat)
    requires ValidSession(c) && Inv(c, s) && pkt in s.toClient
    ensures i < |s.peer.sent| && Next(c, s, ToClient(pkt)) == Arrived(c, s, i)
    ensures DropsNow(c, s, ToClient(pkt)) <==> c.base + i >= s.client.window.expected + WINDOW_SIZE
  {
    i := ToClientArrives(c, s, pkt);
    WireId(c, i, s.peer.sent[i]);
  }

  lemma StepKeepsHeld(c: Session, s: State, a: Action)
    requires ValidSession(c) && Inv(c, s) && AcksHeld(c, s.client.window, s.toPeer) && Enabled(c, s, a)
    ensures var s' := Next(c, s, a); AcksHeld(c, s'.client.window, s'.toPeer) <==> !DropsNow(c, s, a)
  {
    if a.ToClient? {
      var i := ArrivesAs(c, s, a.pkt);
      ArrivedHeld(c, s, i);
    }
  }

  predicate NeverDrops(c: Session, run: seq<Action>) {
    run != [] ==> NeverDrops(c, run[..|run| - 1]) && !DropsNow(c, After(c, run[..|run| - 1]), run[|run| - 1])
  }

  /** At every moment of the run. */
  ghost predicate AlwaysHeld(c: Session, run: seq<Action>) {
    AcksHeld(c, After(c, run).client.window, After(c, run).toPeer) && (run != [] ==> AlwaysHeld(c, run[..|run| - 1]))
  }

  /**
   * For every session and every run: all acknowledgements are at every moment for packets delivered
   * or buffered, if and only if no packet arrived eight or more ids past what the window expected.
   */
  lemma {:induction false} AlwaysHeldExactly(c: Session, run: seq<Action>)
    requires ValidSession(c)
    ensures AlwaysHeld(c, run) <==> NeverDrops(c, run)
  {
    if run != [] {
      var before, a := run[..|run| - 1], run[|run| - 1];
      AlwaysHeldExactly(c, before);
      InvAlways(c, before);
      if AlwaysHeld(c, before) && Enabled(c, After(c, before), a) {
        StepKeepsHeld(c, After(c, before), a);
      }
    }
  }

  // ---- A sender that minds the window ----------------------------------------------

  /** Whatever was sent, its id is below expected + 8: the client never has to drop it as too far ahead. */
  lemma NothingTooFarAhead(c: Session, s: State)
    requires Inv(c, s) && WindowInv(c, s)
    ensures c.base + |s.peer.sent| <= s.client.window.expected + WINDOW_SIZE
  {
    var e := s.client.window.expected;
    if e < c.base + |s.peer.sent| {
      assert !Held(s.client.window, e);
      assert e in s.peer.unacked;
    }
  }

  lemma LowestIsLowest(c: Session, s: State, u: int)
    requires SenderInv(c, s.peer, s.toClient) && u in s.peer.unacked
    ensures LowestUnacked(s.peer.queue) <= u
  {
  }

  /** `p` has sent one more packet than the peer of `s`. */
  ghost predicate SentOne(c: Session, s: State, p: Peer) {
    |p.sent| == |s.peer.sent| + 1 && p.unacked == s.peer.unacked + {c.base + |s.peer.sent|}
  }

  lemma EmitAhead(c: Session, s: State, p: Peer)
    requires SenderInv(c, s.peer, s.toClient) && MaySend(c, s.peer) && c.windowed && SentOne(c, s, p)
    ensures Ahead(c, p)
  {
    forall u | u in p.unacked ensures c.base + |p.sent| <= u + WINDOW_SIZE {
      if u in s.peer.unacked {
        LowestIsLowest(c, s, u);
      }
    }
  }

  lemma EmitOthers(c: Session, s: State, p: Peer)
    requires OthersHeld(c, s.peer, s.client.window) && SentOne(c, s, p)
    ensures OthersHeld(c, p, s.client.window)
  {
  }

  lemma EmitKeepsWindow(c: Session, s: State, outbound: seq<seq<Byte>>, payload: Payload, now: int)
    requires SenderInv(c, s.peer, s.toClient) && WindowInv(c, s) && MaySend(c, s.peer) && c.windowed
    ensures WindowInv(c, Emit(c, s.(peer := s.peer.(outbound := outbound)), payload, now))
  {
    var p := Sending(c, s.peer.(outbound := outbound), payload, now);
    EmitAhead(c, s, p);
    EmitOthers(c, s, p);
  }

  lemma ToClientKeepsWindow(c: Session, s: State, pkt: Packet)
    requires ValidSession(c) && Inv(c, s) && WindowInv(c, s) && pkt in s.toClient
    ensures !DropsNow(c, s, ToClient(pkt)) && WindowInv(c, Next(c, s, ToClient(pkt)))
  {
    NothingTooFarAhead(c, s);
    var i := ArrivesAs(c, s, pkt);
    ArrivedHeld(c, s, i);
  }

  lemma ToPeerKeepsWindow(c: Session, s: State, pkt: Packet)
    requires ValidSession(c) && WindowInv(c, s) && pkt in s.toPeer
    ensures WindowInv(c, Next(c, s, ToPeer(pkt)))
  {
    assert HeldAck(c, s.client.window, pkt);
    var id: Word32 :| pkt == AckFor(c, id) && Held(s.client.window, id);
    TakeOneAck(c, s.peer, id);
    assert Next(c, s, ToPeer(pkt)) == AckTaken(s, id);
  }

  lemma StepKeepsWindow(c: Session, s: State, a: Action)
    requires ValidSession(c) && c.windowed && Inv(c, s) && WindowInv(c, s) && Enabled(c, s, a)
    ensures !DropsNow(c, s, a) && WindowInv(c, Next(c, s, a))
  {
    match a
    case SendReset(now) =>
      assert s.peer.(outbound := s.peer.outbound) == s.peer;
      EmitKeepsWindow(c, s, s.peer.outbound, [], now);
    case SendSegment(now) =>
      var chunk := s.peer.outbound[0];
      var n := SegmentLength(chunk);
      if chunk != [] {
        EmitKeepsWindow(c, s, [chunk[n..]] + s.peer.outbound[1..], chunk[..n], now);
      }
    case ToClient(pkt) => ToClientKeepsWindow(c, s, pkt);
    case ToPeer(pkt) => ToPeerKeepsWindow(c, s, pkt);
    case _ =>
  }

  lemma {:induction false} WindowAlways(c: Session, run: seq<Action>)
    requires ValidSession(c) && c.windowed
    ensures WindowInv(c, After(c, run)) && NeverDrops(c, run)
  {
    if run != [] {
      var before, a := run[..|run| - 1], run[|run| - 1];
      WindowAlways(c, before);
      InvAlways(c, before);
      if Enabled(c, After(c, before), a) {
        StepKeepsWindow(c, After(c, before), a);
      }
    }
  }

  /**
   * In every run of a sender that minds the window, every acknowledgement the client has sent is for
   * a packet it has delivered or buffered, and no packet in the network is at or past expected + 8.
   */
  lemma AcknowledgedIsHeld(c: Session, run: seq<Action>)
    requires ValidSession(c) && c.windowed
    ensures var s := After(c, run);
            && (forall pkt :: pkt in s.toPeer ==>
                  exists id: Word32 :: pkt == AckFor(c, id) && Held(s.client.window, id))
            && (forall pkt :: pkt in s.toClient ==> ParseBody(pkt).packetId < s.client.window.expected + WINDOW_SIZE)
            && NeverDrops(c, run)
  {
    InvAlways(c, run);
    WindowAlways(c, run);
    var s := After(c, run);
    NothingTooFarAhead(c, s);
    forall pkt | pkt in s.toPeer ensures exists id: Word32 :: pkt == AckFor(c, id) && Held(s.client.window, id) {
      assert HeldAck(c, s.client.window, pkt);
    }
    forall pkt | pkt in s.toClient ensures ParseBody(pkt).packetId < s.client.window.expected + WINDOW_SIZE {
      var i := WireIndex(c, s.peer, s.toClient, pkt);
      WireId(c, i, s.peer.sent[i]);
    }
  }

  // ---- A sender that does not ------------------------------------------------------

  function Zeros(n: nat): (z: seq<Byte>)
    ensures |z| == n
  {
    seq(n, _ => 0)
  }

  /** Nine full segments, none of which has arrived yet. */
  function Flood(k: nat): seq<Action> {
    if k == 0 then [TlsWrite(Zeros(9 * SEGMENT_SIZE))] else Flood(k - 1) + [SendSegment(0)]
  }

  lemma {:induction false} FloodSends(c: Session, k: nat)
    requires ValidSession(c) && !c.windowed && !c.rekey && c.base < 0x8000_0000 && k <= 9
    ensures var s := After(c, Flood(k));
            && |s.peer.sent| == k && s.client == Start(c).client
            && |s.peer.outbound| == 1 && |s.peer.outbound[0]| == (9 - k) * SEGMENT_SIZE
            && (k > 0 ==> Wire(c, k - 1, s.peer.sent[k - 1]) in s.toClient)
  {
    if k == 0 {
      assert After(c, Flood(0)[..0]) == Start(c);
    } else {
      FloodSends(c, k - 1);
      assert Flood(k)[..|Flood(k)| - 1] == Flood(k - 1);
    }
  }

  /**
   * A sender that runs ahead of the window, as this client's unbounded queue does, can have a
   * packet acknowledged that the receiver has thrown away.
   */
  lemma UnboundedSenderLosesAcknowledged(c: Session)
    requires ValidSession(c) && !c.windowed && !c.rekey && c.base < 0x8000_0000
    ensures exists run: seq<Action> ::
              var s := After(c, run);
              AckFor(c, c.base + 8) in s.toPeer && !Held(s.client.window, c.base + 8)
  {
    var run := Flooded(c);
    var s := After(c, run);
    ThenArrives(c, run, Wire(c, 8, s.peer.sent[8]));
    DroppedButAcknowledged(c, s, 8, s.peer.sent[8]);
  }

  lemma Flooded(c: Session) returns (run: seq<Action>)
    requires ValidSession(c) && !c.windowed && !c.rekey && c.base < 0x8000_0000
    ensures var s := After(c, run);
            && |s.peer.sent| == 9 && s.client.window == NewWindow(c.base)
            && Wire(c, 8, s.peer.sent[8]) in s.toClient
  {
    FloodSends(c, 9);
    run := Flood(9);
  }

  lemma ThenArrives(c: Session, run: seq<Action>, pkt: Packet)
    requires pkt in After(c, run).toClient
    ensures After(c, run + [ToClient(pkt)]) == Dispatch(c, After(c, run), pkt)
  {
    assert (run + [ToClient(pkt)])[..|run|] == run;
  }

  lemma DroppedButAcknowledged(c: Session, s: State, i: nat, payload: Payload)
    requires c.keyId < 8 && !c.rekey && c.base + i < 0x1_0000_0000
    requires s.client.window == NewWindow(c.base) && i >= WINDOW_SIZE
    ensures var s' := Dispatch(c, s, Wire(c, i, payload));
            AckFor(c, c.base + i) in s'.toPeer && !Held(s'.client.window, c.base + i)
  {
    BodyInvertsControlV1(c.peerSid, c.clientSid, c.keyId, c.base + i, [], payload);
    FirstOfControlV1(c.peerSid, c.clientSid, c.keyId, c.base + i, payload);
    DispatchParsed(c, s, Wire(c, i, payload), P_CONTROL_V1, Body(payload, c.base + i));
    DroppedAhead(c.base, c.base + i, payload);
    assert ReceiveControl(s.client, c.base + i, payload).window == s.client.window;
  }

  lemma DroppedAhead(first: Word32, id: Word32, payload: Payload)
    requires id >= first + WINDOW_SIZE
    ensures Received(NewWindow(first), id, payload).window == NewWindow(first) && !Held(NewWindow(first), id)
  {
  }
}
