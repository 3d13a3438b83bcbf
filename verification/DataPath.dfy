/**
 * The receive path across key epochs: a peer seals packets under any epoch, the link keeps the
 * order of each epoch's packets but may lose any of them, keys are prepared and promoted at any
 * time, and copies, stragglers and packets that do not authenticate may arrive in between.
 */
module DataPath {
  import opened Bytes
  import opened Framing
  import opened Crypto
  import opened DataChannel
  import opened Compress
  import opened KeyManager

  /** One packet on the link: the number under which it was sealed, and what was sealed. */
  datatype Flight = Flight(id: Word32, iv: seq<Byte>, plaintext: seq<Byte>)

  /** One key epoch: the peer's send counter, the packets on the link, our replay window. */
  datatype Epoch = Epoch(keyId: Byte, peerId: Word24, cipher: Cipher, sent: nat, link: seq<Flight>, window: Replay.Window)

  /** `keys` holds positions in `epochs`. */
  datatype State = State(epochs: seq<Epoch>, keys: Keys<nat>, mode: Mode)

  datatype Action =
    | Prepare(keyId: Byte, peerId: Word24, cipher: Cipher)
    | Promote(keyId: Byte)
    | Send(e: nat, iv: seq<Byte>, plaintext: seq<Byte>)
    | Lose(e: nat)
    | Deliver(e: nat)
    | Copy(e: nat, f: Flight)
    | Noise(pkt: Packet)

  function NewEpoch(keyId: Byte, peerId: Word24, cipher: Cipher): Epoch {
    Epoch(keyId, peerId, cipher, 0, [], Replay.NewWindow())
  }

  function Start(peerId: Word24, cipher: Cipher, mode: Mode): State {
    State([NewEpoch(0, peerId, cipher)], Fresh(0), mode)
  }

  function KeyAt(epochs: seq<Epoch>): nat -> Byte {
    (e: nat) => if e < |epochs| then epochs[e].keyId else 0
  }

  function WireOf(s: State, e: nat, f: Flight): Packet
    requires e < |s.epochs| && |f.iv| == BLOCK
  {
    var ep := s.epochs[e];
    Sealed(ep.cipher, ep.keyId, ep.peerId, f.id, f.iv, Wrap(s.mode, f.plaintext))
  }

  datatype Outcome = Outcome(plaintext: Option<seq<Byte>>, state: State)

  ghost predicate WellFormed(s: State) {
    && s.keys.current < |s.epochs|
    && (s.keys.secondary.Some? ==> s.keys.secondary.value < |s.epochs|)
    && (s.keys.previous.Some? ==> s.keys.previous.value < |s.epochs|)
    && forall e :: 0 <= e < |s.epochs| ==> Replay.Valid(s.epochs[e].window)
  }

  /** Manager.Decrypt on the epochs as values. */
  ghost function Receive(s: State, pkt: Packet): Outcome
    requires WellFormed(s)
  {
    if pkt == [] || OpcodeFromByte(pkt[0]) != P_DATA_V2 then Outcome(None, s)
    else
      match Selected(s.keys, KeyAt(s.epochs), KeyIdFromByte(pkt[0]))
      case None => Outcome(None, s)
      case Some(e) =>
        var o := Open(s.epochs[e].cipher, s.epochs[e].window, pkt);
        Outcome(if o.plaintext.Some? then Unwrap(s.mode, o.plaintext.value) else None,
                s.(epochs := s.epochs[e := s.epochs[e].(window := o.window)]))
  }

  /** A packet that selects no live epoch, or that the epoch it selects does not open. */
  ghost predicate Unauthentic(s: State, pkt: Packet)
    requires WellFormed(s)
  {
    pkt == [] || OpcodeFromByte(pkt[0]) != P_DATA_V2
    || match Selected(s.keys, KeyAt(s.epochs), KeyIdFromByte(pkt[0]))
       case None => true
       case Some(e) => Open(s.epochs[e].cipher, s.epochs[e].window, pkt).plaintext == None
  }

  /**
   * A new key gets an id other than the current one's; at most 2^32 packets go out per epoch.
   * Besides the packets in order, anything sealed under a live epoch with an id up to the highest
   * seen may arrive at any time, so copies and stragglers, and so may anything unauthentic.
   */
  ghost predicate Enabled(s: State, a: Action)
    requires WellFormed(s)
  {
    match a
    case Prepare(keyId, _, _) => keyId < 8 && keyId != s.epochs[s.keys.current].keyId
    case Promote(_) => true
    case Send(e, iv, _) => e < |s.epochs| && |iv| == BLOCK && s.epochs[e].sent < 0x1_0000_0000
    case Lose(e) => e < |s.epochs| && s.epochs[e].link != []
    case Deliver(e) =>
      e < |s.epochs| && IsLive(s.keys, e) && s.epochs[e].link != [] && |s.epochs[e].link[0].iv| == BLOCK
    case Copy(e, f) =>
      e < |s.epochs| && IsLive(s.keys, e) && |f.iv| == BLOCK && s.epochs[e].window.started
      && f.id <= s.epochs[e].window.top
    case Noise(pkt) => Unauthentic(s, pkt)
  }

  ghost function Effect(s: State, a: Action): State
    requires WellFormed(s) && Enabled(s, a)
  {
    match a
    case Prepare(keyId, peerId, cipher) =>
      s.(epochs := s.epochs + [NewEpoch(keyId, peerId, cipher)], keys := Prepared(s.keys, |s.epochs|))
    case Promote(keyId) => s.(keys := Promoted(s.keys, KeyAt(s.epochs), keyId).0)
    case Send(e, iv, p) =>
      var ep := s.epochs[e];
      s.(epochs := s.epochs[e := ep.(sent := ep.sent + 1, link := ep.link + [Flight(ep.sent, iv, p)])])
    case Lose(e) => s.(epochs := s.epochs[e := s.epochs[e].(link := s.epochs[e].link[1..])])
    case Deliver(e) =>
      var pkt := WireOf(s, e, s.epochs[e].link[0]);
      var s' := Receive(s, pkt).state;
      s'.(epochs := s'.epochs[e := s'.epochs[e].(link := s'.epochs[e].link[1..])])
    case Copy(e, f) => Receive(s, WireOf(s, e, f)).state
    case Noise(pkt) => Receive(s, pkt).state
  }

  ghost function Step(s: State, a: Action): State {
    if WellFormed(s) && Enabled(s, a) then Effect(s, a) else s
  }

  ghost function After(start: State, run: seq<Action>): State {
    if run == [] then start else Step(After(start, run[..|run| - 1]), run[|run| - 1])
  }

  // ---- Invariant -------------------------------------------------------------

  ghost predicate EpochInv(ep: Epoch) {
    && ep.keyId < 8 && Replay.Valid(ep.window) && ep.sent <= 0x1_0000_0000
    && (forall i :: 0 <= i < |ep.link| ==> |ep.link[i].iv| == BLOCK && ep.link[i].id < ep.sent)
    && (forall i, j :: 0 <= i < j < |ep.link| ==> ep.link[i].id < ep.link[j].id)
    && (ep.window.started ==> ep.window.top < ep.sent && forall i :: 0 <= i < |ep.link| ==> ep.window.top < ep.link[i].id)
  }

  ghost predicate Inv(s: State) {
    && WellFormed(s)
    && (forall e :: 0 <= e < |s.epochs| ==> EpochInv(s.epochs[e]))
    && DistinctIds(s.keys, KeyAt(s.epochs))
  }

  lemma StartInv(peerId: Word24, cipher: Cipher, mode: Mode)
    ensures Inv(Start(peerId, cipher, mode))
  {
  }

  /** A packet of a live epoch reaches that epoch, which opens it exactly when its window lets the id through. */
  lemma LiveOpens(s: State, e: nat, f: Flight)
    requires Inv(s) && IsLive(s.keys, e) && e < |s.epochs| && |f.iv| == BLOCK
    ensures var w := s.epochs[e].window;
            Receive(s, WireOf(s, e, f)) ==
            if Replay.Passes(w, f.id)
            then Outcome(Some(f.plaintext), s.(epochs := s.epochs[e := s.epochs[e].(window := Replay.Marked(w, f.id))]))
            else Outcome(None, s)
  {
    var ep := s.epochs[e];
    assert EpochInv(ep);
    var inner := Wrap(s.mode, f.plaintext);
    SealedHeader(ep.cipher, ep.keyId, ep.peerId, f.id, f.iv, inner);
    SelectedIsOwner(s.keys, KeyAt(s.epochs), e);
    OpenInvertsSealed(ep.cipher, ep.keyId, ep.peerId, f.id, f.iv, inner, ep.window);
    UnwrapInvertsWrap(s.mode, f.plaintext);
    assert s.epochs[e := ep] == s.epochs;
  }

  /** The oldest packet on the link of a live epoch opens to what was sealed, and moves only the top. */
  lemma OldestOpens(s: State, e: nat)
    requires Inv(s) && IsLive(s.keys, e) && e < |s.epochs| && s.epochs[e].link != []
    ensures var f := s.epochs[e].link[0];
            Receive(s, WireOf(s, e, f)) ==
            Outcome(Some(f.plaintext),
                    s.(epochs := s.epochs[e := s.epochs[e].(window := Replay.Marked(s.epochs[e].window, f.id))]))
  {
    assert EpochInv(s.epochs[e]);
    LiveOpens(s, e, s.epochs[e].link[0]);
  }

  /** Unauthentic packets change nothing, whatever they look like. */
  lemma NoiseChangesNothing(s: State, pkt: Packet)
    requires WellFormed(s) && Unauthentic(s, pkt)
    ensures Receive(s, pkt) == Outcome(None, s)
  {
    if pkt != [] && OpcodeFromByte(pkt[0]) == P_DATA_V2 {
      match Selected(s.keys, KeyAt(s.epochs), KeyIdFromByte(pkt[0]))
      case None =>
      case Some(e) => assert s.epochs[e := s.epochs[e]] == s.epochs;
    }
  }

  /** Marking an id up to the top leaves the top where it is. */
  lemma OldMarkKeepsEpoch(ep: Epoch, id: Word32)
    requires EpochInv(ep) && ep.window.started && id <= ep.window.top
    ensures EpochInv(ep.(window := Replay.Marked(ep.window, id)))
  {
  }

  lemma CopyKeepsInv(s: State, e: nat, f: Flight)
    requires Inv(s) && Enabled(s, Copy(e, f))
    ensures Inv(Effect(s, Copy(e, f)))
  {
    var ep := s.epochs[e];
    assert EpochInv(ep);
    LiveOpens(s, e, f);
    OldMarkKeepsEpoch(ep, f.id);
    UpdateKeepsInv(s, e, ep.(window := Replay.Marked(ep.window, f.id)));
  }

  /** Taking the oldest packet off the link after its id was marked. */
  lemma MarkedEpochInv(ep: Epoch)
    requires EpochInv(ep) && ep.link != []
    ensures EpochInv(ep.(window := Replay.Marked(ep.window, ep.link[0].id), link := ep.link[1..]))
    ensures EpochInv(ep.(link := ep.link[1..]))
  {
  }

  lemma SendEpochInv(ep: Epoch, iv: seq<Byte>, p: seq<Byte>)
    requires EpochInv(ep) && ep.sent < 0x1_0000_0000 && |iv| == BLOCK
    ensures EpochInv(ep.(sent := ep.sent + 1, link := ep.link + [Flight(ep.sent, iv, p)]))
  {
  }

  /** Replacing one epoch by another with the same key id. */
  lemma UpdateKeepsInv(s: State, e: nat, ep: Epoch)
    requires Inv(s) && e < |s.epochs| && EpochInv(ep) && ep.keyId == s.epochs[e].keyId
    ensures Inv(s.(epochs := s.epochs[e := ep]))
  {
  }

  lemma PrepareKeepsInv(s: State, ep: Epoch)
    requires Inv(s) && EpochInv(ep) && ep.keyId != s.epochs[s.keys.current].keyId
    ensures Inv(s.(epochs := s.epochs + [ep], keys := Prepared(s.keys, |s.epochs|)))
  {
  }

  lemma DeliverKeepsInv(s: State, e: nat)
    requires Inv(s) && Enabled(s, Deliver(e))
    ensures Inv(Effect(s, Deliver(e)))
  {
    var ep := s.epochs[e];
    OldestOpens(s, e);
    MarkedEpochInv(ep);
    var ep' := ep.(window := Replay.Marked(ep.window, ep.link[0].id), link := ep.link[1..]);
    UpdateKeepsInv(s, e, ep');
    assert Effect(s, Deliver(e)).epochs == s.epochs[e := ep'];
  }

  lemma PromoteKeepsInv(s: State, keyId: Byte)
    requires Inv(s)
    ensures Inv(Effect(s, Promote(keyId)))
  {
  }

  lemma SendKeepsInv(s: State, e: nat, iv: seq<Byte>, p: seq<Byte>)
    requires Inv(s) && Enabled(s, Send(e, iv, p))
    ensures Inv(Effect(s, Send(e, iv, p)))
  {
    var ep := s.epochs[e];
    SendEpochInv(ep, iv, p);
    UpdateKeepsInv(s, e, ep.(sent := ep.sent + 1, link := ep.link + [Flight(ep.sent, iv, p)]));
  }

  lemma LoseKeepsInv(s: State, e: nat)
    requires Inv(s) && Enabled(s, Lose(e))
    ensures Inv(Effect(s, Lose(e)))
  {
    MarkedEpochInv(s.epochs[e]);
    UpdateKeepsInv(s, e, s.epochs[e].(link := s.epochs[e].link[1..]));
  }

  lemma NewKeyKeepsInv(s: State, keyId: Byte, peerId: Word24, cipher: Cipher)
    requires Inv(s) && Enabled(s, Prepare(keyId, peerId, cipher))
    ensures Inv(Effect(s, Prepare(keyId, peerId, cipher)))
  {
    PrepareKeepsInv(s, NewEpoch(keyId, peerId, cipher));
  }

  lemma StepKeepsInv(s: State, a: Action)
    requires Inv(s) && Enabled(s, a)
    ensures Inv(Effect(s, a))
  {
    match a
    case Prepare(keyId, peerId, cipher) => NewKeyKeepsInv(s, keyId, peerId, cipher);
    case Send(e, iv, p) => SendKeepsInv(s, e, iv, p);
    case Lose(e) => LoseKeepsInv(s, e);
    case Deliver(e) => DeliverKeepsInv(s, e);
    case Copy(e, f) => CopyKeepsInv(s, e, f);
    case Noise(pkt) => NoiseChangesNothing(s, pkt);
    case Promote(keyId) => PromoteKeepsInv(s, keyId);
  }

  lemma {:induction false} InvAlways(start: State, run: seq<Action>)
    requires Inv(start)
    ensures Inv(After(start, run))
  {
    if run != [] {
      var s, a := After(start, run[..|run| - 1]), run[|run| - 1];
      InvAlways(start, run[..|run| - 1]);
      if Enabled(s, a) {
        StepKeepsInv(s, a);
      }
    }
  }

  /**
   * In every run, whichever live epoch it was sealed under and in either cipher mode, the next
   * packet of an epoch that survives the link opens to the plaintext that was sealed.
   */
  lemma DeliveryOpensToPlaintext(peerId: Word24, cipher: Cipher, mode: Mode, run: seq<Action>, e: nat)
    ensures var s := After(Start(peerId, cipher, mode), run);
            Inv(s) && (e < |s.epochs| && IsLive(s.keys, e) && s.epochs[e].link != [] ==>
                         var f := s.epochs[e].link[0];
                         |f.iv| == BLOCK && Receive(s, WireOf(s, e, f)).plaintext == Some(f.plaintext))
  {
    StartInv(peerId, cipher, mode);
    InvAlways(Start(peerId, cipher, mode), run);
    var s := After(Start(peerId, cipher, mode), run);
    if e < |s.epochs| && IsLive(s.keys, e) && s.epochs[e].link != [] {
      assert EpochInv(s.epochs[e]);
      OldestOpens(s, e);
    }
  }
}
