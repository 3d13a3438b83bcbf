/** internal/reliable RecvWindow: in-order delivery from a window of eight packet ids. */
module ReceiveWindow {
  import opened Bytes
  import opened Reliable

  type Payload = seq<Byte>

  datatype Window = Window(expected: Word32, pending: map<Word32, Payload>)

  datatype Delivery = Delivery(window: Window, payloads: seq<Payload>)

  function NewWindow(first: Word32): Window {
    Window(first, map[])
  }

  /** The window once the packet at `expected` has been handed out. */
  function Next(w: Window): Window {
    Window(Succ32(w.expected), w.pending - {w.expected})
  }

  /** Hands out the consecutive packets that start at `expected`. */
  function Drain(w: Window): Delivery
    decreases |w.pending|
  {
    if w.expected !in w.pending then Delivery(w, [])
    else
      var rest := Drain(Next(w));
      Delivery(rest.window, [w.pending[w.expected]] + rest.payloads)
  }

  /** The upper limit is computed in uint32 and wraps near the end of the id space. */
  predicate InWindow(w: Window, id: Word32) {
    w.expected <= id < (w.expected + WINDOW_SIZE) % 0x1_0000_0000
  }

  function Received(w: Window, id: Word32, payload: Payload): Delivery {
    if InWindow(w, id) then Drain(w.(pending := w.pending[id := payload])) else Delivery(w, [])
  }

  class RecvWindow {
    var expected: Word32
    var pending: map<Word32, Payload>

    ghost function Model(): Window reads this { Window(expected, pending) }

    constructor From(firstExpected: Word32)
      ensures Model() == NewWindow(firstExpected)
    {
      expected := firstExpected;
      pending := map[];
    }

    /** The second result is what the method's doc comment calls the ids to ACK; callers ignore it. */
    method Receive(packetID: Word32, payload: Payload) returns (payloads: seq<Payload>, ackIDs: seq<Word32>)
      modifies this
      ensures Delivery(Model(), payloads) == Received(old(Model()), packetID, payload)
      ensures ackIDs == if InWindow(old(Model()), packetID) then [packetID] else []
    {
      payloads, ackIDs := [], [];
      if packetID < expected {
        return;
      }
      if packetID >= (expected + WINDOW_SIZE) % 0x1_0000_0000 {
        return;
      }
      pending := pending[packetID := payload];
      ackIDs := ackIDs + [packetID];
      payloads := Deliver();
    }

    /** Receive's delivery loop. */
    method Deliver() returns (payloads: seq<Payload>)
      modifies this
      ensures Delivery(Model(), payloads) == Drain(old(Model()))
    {
      payloads := [];
      while expected in pending
        invariant Drain(old(Model())) == Delivery(Drain(Model()).window, payloads + Drain(Model()).payloads)
        decreases |pending|
      {
        ghost var m := Model();
        var p := pending[expected];
        Assoc(payloads, [p], Drain(Next(m)).payloads);
        payloads := payloads + [p];
        pending := pending - {expected};
        expected := (expected + 1) % 0x1_0000_0000;
        assert Model() == Next(m);
      }
      assert payloads + [] == payloads;
    }

    function Expected(): Word32 reads this { expected }
  }

  // ---- In order, once each -----------------------------------------------------

  predicate Held(w: Window, id: int) {
    id < w.expected || id in w.pending
  }

  /** The window's content agrees with the sender's packets, which are numbered from `base`. */
  ghost predicate Agrees(w: Window, base: nat, sent: seq<Payload>) {
    && base <= w.expected <= base + |sent| <= 0x1_0000_0000 - WINDOW_SIZE
    && forall k :: k in w.pending ==> w.expected <= k < base + |sent| && w.pending[k] == sent[k - base]
  }

  /** ... and nothing deliverable is left waiting. */
  ghost predicate Tracks(w: Window, base: nat, sent: seq<Payload>) {
    Agrees(w, base, sent) && w.expected !in w.pending
  }

  ghost predicate SameHeld(v: Window, w: Window) {
    forall k :: Held(v, k) <==> Held(w, k)
  }

  /** `d` delivers what follows in the sender's order and still holds what `w` held. */
  ghost predicate Continues(w: Window, d: Delivery, base: nat, sent: seq<Payload>) {
    && Tracks(d.window, base, sent)
    && base <= w.expected <= d.window.expected
    && d.payloads == sent[w.expected - base..d.window.expected - base]
    && SameHeld(d.window, w)
  }

  lemma NextAgrees(w: Window, base: nat, sent: seq<Payload>)
    requires Agrees(w, base, sent) && w.expected in w.pending
    ensures Agrees(Next(w), base, sent) && Next(w).expected == w.expected + 1
    ensures SameHeld(Next(w), w)
  {
  }

  lemma ContinuesFirst(w: Window, d: Delivery, base: nat, sent: seq<Payload>)
    requires Agrees(w, base, sent) && w.expected in w.pending
    requires Next(w).expected == w.expected + 1 && SameHeld(Next(w), w) && Continues(Next(w), d, base, sent)
    ensures Continues(w, Delivery(d.window, [w.pending[w.expected]] + d.payloads), base, sent)
  {
    Prepend(sent, w.expected - base, d.window.expected - base);
  }

  lemma {:induction false} DrainTracks(w: Window, base: nat, sent: seq<Payload>)
    requires Agrees(w, base, sent)
    ensures Continues(w, Drain(w), base, sent)
    decreases |w.pending|
  {
    if w.expected in w.pending {
      NextAgrees(w, base, sent);
      DrainTracks(Next(w), base, sent);
      ContinuesFirst(w, Drain(Next(w)), base, sent);
    }
  }

  lemma Prepend(s: seq<Payload>, i: nat, j: nat)
    requires i < j <= |s|
    ensures s[i..j] == [s[i]] + s[i + 1..j]
  {
  }

  /**
   * A packet that is one of the sender's is delivered or kept exactly when its id is below
   * expected + 8; what comes out continues the sender's order.
   */
  lemma ReceiveTracks(w: Window, base: nat, sent: seq<Payload>, id: Word32)
    requires Tracks(w, base, sent) && base <= id < base + |sent|
    ensures var d := Received(w, id, sent[id - base]);
            && Tracks(d.window, base, sent)
            && w.expected <= d.window.expected
            && d.payloads == sent[w.expected - base..d.window.expected - base]
            && (forall k :: k != id ==> (Held(d.window, k) <==> Held(w, k)))
            && (Held(d.window, id) <==> Held(w, id) || id < w.expected + WINDOW_SIZE)
  {
    if InWindow(w, id) {
      var w' := w.(pending := w.pending[id := sent[id - base]]);
      assert Agrees(w', base, sent);
      DrainTracks(w', base, sent);
      assert Held(w', id) && forall k :: k != id ==> (Held(w', k) <==> Held(w, k));
    }
  }

  /** Nothing at or past expected + 8 is buffered. */
  ghost predicate Near(w: Window) {
    forall k :: k in w.pending ==> k < w.expected + WINDOW_SIZE
  }

  /** For such a window: held afterwards exactly when the id is below expected + 8. */
  lemma ReceiveNear(w: Window, base: nat, sent: seq<Payload>, id: Word32)
    requires Tracks(w, base, sent) && Near(w) && base <= id < base + |sent|
    ensures var d := Received(w, id, sent[id - base]);
            Near(d.window) && (Held(d.window, id) <==> id < w.expected + WINDOW_SIZE)
  {
    ReceiveTracks(w, base, sent, id);
    var d := Received(w, id, sent[id - base]);
    forall k | k in d.window.pending ensures k < d.window.expected + WINDOW_SIZE {
      assert Held(d.window, k);
    }
  }

  /** New packets at the sender do not disturb the agreement. */
  lemma TracksMore(w: Window, base: nat, sent: seq<Payload>, p: Payload)
    requires Tracks(w, base, sent) && base + |sent| < 0x1_0000_0000 - WINDOW_SIZE
    ensures Tracks(w, base, sent + [p])
  {
  }

  /** One more arrival, packet base + k, after everything in `d`. */
  function Arrive(d: Delivery, base: nat, sent: seq<Payload>, k: nat): Delivery
    requires k < |sent| && base + |sent| <= 0x1_0000_0000
  {
    var next := Received(d.window, base + k, sent[k]);
    Delivery(next.window, d.payloads + next.payloads)
  }

  function ArriveAll(base: nat, sent: seq<Payload>, arrivals: seq<nat>): Delivery
    requires base + |sent| <= 0x1_0000_0000 - WINDOW_SIZE
    requires forall i :: 0 <= i < |arrivals| ==> arrivals[i] < |sent|
  {
    if arrivals == [] then Delivery(NewWindow(base), [])
    else
      var n := |arrivals| - 1;
      Arrive(ArriveAll(base, sent, arrivals[..n]), base, sent, arrivals[n])
  }

  ghost predicate DeliversPrefix(d: Delivery, base: nat, sent: seq<Payload>) {
    Tracks(d.window, base, sent) && d.payloads == sent[..d.window.expected - base]
  }

  /** What an arrival delivers, whatever stays buffered. */
  lemma ReceiveDelivers(w: Window, base: nat, sent: seq<Payload>, k: nat)
    requires Tracks(w, base, sent) && k < |sent|
    ensures var d := Received(w, base + k, sent[k]);
            && Tracks(d.window, base, sent)
            && w.expected <= d.window.expected
            && d.payloads == sent[w.expected - base..d.window.expected - base]
  {
    ReceiveTracks(w, base, sent, base + k);
  }

  lemma ArriveDeliversPrefix(d: Delivery, base: nat, sent: seq<Payload>, k: nat)
    requires DeliversPrefix(d, base, sent) && k < |sent|
    ensures DeliversPrefix(Arrive(d, base, sent, k), base, sent)
  {
    ReceiveDelivers(d.window, base, sent, k);
    var next := Received(d.window, base + k, sent[k]);
    Splice(sent, d.window.expected - base, next.window.expected - base);
  }

  /** Whatever is lost, repeated or reordered, the upper layer sees a prefix of the sender's packets. */
  lemma {:induction false} ArrivalsDeliverPrefix(base: nat, sent: seq<Payload>, arrivals: seq<nat>)
    requires base + |sent| <= 0x1_0000_0000 - WINDOW_SIZE
    requires forall i :: 0 <= i < |arrivals| ==> arrivals[i] < |sent|
    ensures DeliversPrefix(ArriveAll(base, sent, arrivals), base, sent)
  {
    if arrivals != [] {
      var n := |arrivals| - 1;
      ArrivalsDeliverPrefix(base, sent, arrivals[..n]);
      ArriveDeliversPrefix(ArriveAll(base, sent, arrivals[..n]), base, sent, arrivals[n]);
    }
  }

  lemma Splice(s: seq<Payload>, i: nat, j: nat)
    requires i <= j <= |s|
    ensures s[..i] + s[i..j] == s[..j]
  {
  }
}
