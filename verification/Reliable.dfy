/** internal/reliable: the retransmit queue and the sliding receive window of the control channel. */
module Reliable {
  import opened Bytes
  import opened RetransmitDelay

  const WINDOW_SIZE := 8

  function Succ32(w: Word32): Word32 {
    (w + 1) % 0x1_0000_0000
  }

  // ---- SendQueue -------------------------------------------------------------

  datatype Entry = Entry(packetId: Word32, payload: seq<Byte>, sentAt: int, retries: nat, nextRetry: int)

  datatype Queue = Queue(entries: seq<Entry>, nextId: Word32)

  function NewQueue(first: Word32): Queue {
    Queue([], first)
  }

  function Enqueued(q: Queue, payload: seq<Byte>, now: int): Queue {
    Queue(q.entries + [Entry(q.nextId, payload, now, 0, now + RETRANSMIT_TIMEOUT)], Succ32(q.nextId))
  }

  function IndexOf(entries: seq<Entry>, id: int): (i: nat)
    ensures i <= |entries|
    ensures i < |entries| ==> entries[i].packetId == id
    ensures forall j :: 0 <= j < i ==> entries[j].packetId != id
  {
    if entries == [] || entries[0].packetId == id then 0 else 1 + IndexOf(entries[1..], id)
  }

  function WithoutFirst(entries: seq<Entry>, id: Word32): seq<Entry> {
    var i := IndexOf(entries, id);
    if i < |entries| then entries[..i] + entries[i + 1..] else entries
  }

  function Acked(q: Queue, id: Word32): Queue {
    q.(entries := WithoutFirst(q.entries, id))
  }

  function AckedAll(q: Queue, ids: seq<Word32>): Queue {
    if ids == [] then q else Acked(AckedAll(q, ids[..|ids| - 1]), ids[|ids| - 1])
  }

  predicate IsDue(e: Entry, now: int) {
    now > e.nextRetry
  }

  /** What a sweep at `now` makes of one entry. */
  function Rearmed(e: Entry, now: int): Entry {
    if IsDue(e, now)
    then e.(retries := e.retries + 1, nextRetry := now + Backoff(e.retries + 1))
    else e
  }

  function Swept(entries: seq<Entry>, now: int): seq<Entry> {
    seq(|entries|, i requires 0 <= i < |entries| => Rearmed(entries[i], now))
  }

  /** The rearmed entries a sweep returns, in queue order. */
  function DueOf(entries: seq<Entry>, now: int): seq<Entry> {
    if entries == [] then []
    else
      var n := |entries| - 1;
      DueOf(entries[..n], now) + if IsDue(entries[n], now) then [Rearmed(entries[n], now)] else []
  }

  class SendQueue {
    var entries: seq<Entry>
    var nextID: Word32

    ghost function Model(): Queue reads this { Queue(entries, nextID) }

    constructor (firstPacketID: Word32)
      ensures Model() == NewQueue(firstPacketID)
    {
      entries := [];
      nextID := firstPacketID;
    }

    method Enqueue(payload: seq<Byte>, now: int) returns (id: Word32)
      modifies this
      ensures id == old(nextID)
      ensures Model() == Enqueued(old(Model()), payload, now)
    {
      id := nextID;
      nextID := (nextID + 1) % 0x1_0000_0000;
      entries := entries + [Entry(id, payload, now, 0, now + RETRANSMIT_TIMEOUT)];
    }

    method Ack(packetID: Word32)
      modifies this
      ensures Model() == Acked(old(Model()), packetID)
    {
      for i := 0 to |entries|
        invariant entries == old(entries) && nextID == old(nextID)
        invariant forall j :: 0 <= j < i ==> entries[j].packetId != packetID
      {
        if entries[i].packetId == packetID {
          assert IndexOf(entries, packetID) == i;
          entries := entries[..i] + entries[i + 1..];
          return;
        }
      }
    }

    method AckMany(ids: seq<Word32>)
      modifies this
      ensures Model() == AckedAll(old(Model()), ids)
    {
      for k := 0 to |ids|
        invariant Model() == AckedAll(old(Model()), ids[..k])
      {
        assert ids[..k + 1][..k] == ids[..k];
        Ack(ids[k]);
      }
      assert ids[..|ids|] == ids;
    }

    method DueForRetransmit(now: int) returns (due: seq<Entry>)
      modifies this
      ensures Model() == old(Model()).(entries := Swept(old(entries), now))
      ensures due == DueOf(old(entries), now)
    {
      due := [];
      var i := 0;
      while i < |entries|
        invariant 0 <= i <= |entries| == |old(entries)| && nextID == old(nextID)
        invariant forall j :: 0 <= j < i ==> entries[j] == Rearmed(old(entries)[j], now)
        invariant forall j :: i <= j < |entries| ==> entries[j] == old(entries)[j]
        invariant due == DueOf(old(entries)[..i], now)
      {
        assert old(entries)[..i + 1][..i] == old(entries)[..i];
        var e := entries[i];
        if now > e.nextRetry {
          e := e.(retries := e.retries + 1);
          e := e.(nextRetry := now + Backoff(e.retries));
          due := due + [e];
        }
        entries := entries[i := e];
        i := i + 1;
      }
      assert old(entries)[..i] == old(entries);
    }

    function Len(): nat reads this { |entries| }

    function NextID(): Word32 reads this { nextID }
  }

  // ---- What the queue holds, over every run ------------------------------------

  datatype Op = DoEnqueue(payload: seq<Byte>, now: int) | DoAck(id: Word32) | DoSweep(now: int)

  function Apply(q: Queue, op: Op): Queue {
    match op
    case DoEnqueue(p, now) => Enqueued(q, p, now)
    case DoAck(id) => Acked(q, id)
    case DoSweep(now) => q.(entries := Swept(q.entries, now))
  }

  function RunOps(q: Queue, ops: seq<Op>): Queue {
    if ops == [] then q else Apply(RunOps(q, ops[..|ops| - 1]), ops[|ops| - 1])
  }

  /** The payloads enqueued so far; the i-th one was given id first + i. */
  function Payloads(ops: seq<Op>): seq<seq<Byte>> {
    if ops == [] then []
    else
      var last := ops[|ops| - 1];
      Payloads(ops[..|ops| - 1]) + if last.DoEnqueue? then [last.payload] else []
  }

  /** Reference: the ids handed out and not acknowledged since. */
  function Outstanding(first: nat, ops: seq<Op>): set<int> {
    if ops == [] then {}
    else
      var before := ops[..|ops| - 1];
      match ops[|ops| - 1]
      case DoEnqueue(_, _) => Outstanding(first, before) + {first + |Payloads(before)|}
      case DoAck(id) => Outstanding(first, before) - {id}
      case DoSweep(_) => Outstanding(first, before)
  }

  ghost predicate Increasing(entries: seq<Entry>) {
    forall i, j :: 0 <= i < j < |entries| ==> entries[i].packetId < entries[j].packetId
  }

  ghost predicate HasId(entries: seq<Entry>, id: int) {
    IndexOf(entries, id) < |entries|
  }

  /** The queue represents `out`, each id with the payload it was enqueued with. */
  ghost predicate Represents(q: Queue, first: nat, sent: seq<seq<Byte>>, out: set<int>) {
    && Increasing(q.entries)
    && (forall i :: 0 <= i < |q.entries| ==> Genuine(q.entries[i], first, sent, out))
    && (forall id :: id in out ==> HasId(q.entries, id))
    && q.nextId == (first + |sent|) % 0x1_0000_0000
  }

  ghost predicate Genuine(e: Entry, first: nat, sent: seq<seq<Byte>>, out: set<int>) {
    first <= e.packetId < first + |sent| && e.payload == sent[e.packetId - first] && e.packetId in out
  }

  lemma QueuedPayload(q: Queue, first: nat, sent: seq<seq<Byte>>, out: set<int>, i: nat)
    requires Represents(q, first, sent, out) && i < |q.entries|
    ensures q.entries[i].payload in sent
  {
  }

  lemma FoundAt(entries: seq<Entry>, i: nat)
    requires i < |entries|
    ensures HasId(entries, entries[i].packetId)
  {
  }

  lemma EnqueueRepresents(q: Queue, first: nat, sent: seq<seq<Byte>>, out: set<int>, payload: seq<Byte>, now: int)
    requires Represents(q, first, sent, out) && first + |sent| < 0x1_0000_0000
    ensures Represents(Enqueued(q, payload, now), first, sent + [payload], out + {first + |sent|})
  {
    var es, es' := q.entries, Enqueued(q, payload, now).entries;
    var n := |es|;
    assert es'[n].packetId == first + |sent|;
    forall id | id in out + {first + |sent|} ensures HasId(es', id) {
      var i := if id in out then IndexOf(es, id) else n;
      FoundAt(es', i);
    }
    forall i, j | 0 <= i < j < |es'| ensures es'[i].packetId < es'[j].packetId {
      assert Genuine(es[i], first, sent, out);
    }
    forall i | 0 <= i < n ensures Genuine(es'[i], first, sent + [payload], out + {first + |sent|}) {
      assert Genuine(es[i], first, sent, out);
    }
  }

  /** Removing the entry with `id` keeps the order and every other entry. */
  lemma WithoutFirstExact(es: seq<Entry>, id: Word32)
    requires Increasing(es)
    ensures Increasing(WithoutFirst(es, id))
    ensures forall i :: 0 <= i < |WithoutFirst(es, id)| ==> WithoutFirst(es, id)[i].packetId != id
  {
  }

  lemma WithoutFirstKeeps(es: seq<Entry>, id: Word32, k: int)
    requires HasId(es, k) && k != id
    ensures HasId(WithoutFirst(es, id), k)
  {
    var at, i := IndexOf(es, id), IndexOf(es, k);
    var es' := WithoutFirst(es, id);
    if i < at {
      assert es'[i] == es[i];
      FoundAt(es', i);
    } else {
      assert es'[i - 1] == es[i];
      FoundAt(es', i - 1);
    }
  }

  lemma AckRepresents(q: Queue, first: nat, sent: seq<seq<Byte>>, out: set<int>, id: Word32)
    requires Represents(q, first, sent, out)
    ensures Represents(Acked(q, id), first, sent, out - {id})
  {
    WithoutFirstExact(q.entries, id);
    forall i | 0 <= i < |WithoutFirst(q.entries, id)|
      ensures Genuine(WithoutFirst(q.entries, id)[i], first, sent, out - {id})
    {
      WithoutFirstAt(q.entries, id, i);
    }
    forall k | k in out - {id} ensures HasId(WithoutFirst(q.entries, id), k) {
      WithoutFirstKeeps(q.entries, id, k);
    }
  }

  /** What is left was there before. */
  lemma WithoutFirstAt(es: seq<Entry>, id: Word32, i: nat)
    requires i < |WithoutFirst(es, id)|
    ensures exists j :: 0 <= j < |es| && WithoutFirst(es, id)[i] == es[j]
  {
    assert WithoutFirst(es, id)[i] == es[if i < IndexOf(es, id) then i else i + 1];
  }

  lemma SameIdsRepresent(q: Queue, es: seq<Entry>, first: nat, sent: seq<seq<Byte>>, out: set<int>)
    requires Represents(q, first, sent, out) && |es| == |q.entries|
    requires forall i :: 0 <= i < |es| ==>
               es[i].packetId == q.entries[i].packetId && es[i].payload == q.entries[i].payload
    ensures Represents(q.(entries := es), first, sent, out)
  {
    forall i | 0 <= i < |es| ensures Genuine(es[i], first, sent, out) {
      assert Genuine(q.entries[i], first, sent, out);
    }
    forall id | id in out ensures HasId(es, id) {
      FoundAt(es, IndexOf(q.entries, id));
    }
  }

  lemma ApplyRepresents(q: Queue, op: Op, first: nat, sent: seq<seq<Byte>>, out: set<int>)
    requires Represents(q, first, sent, out) && (op.DoEnqueue? ==> first + |sent| < 0x1_0000_0000)
    ensures match op
            case DoEnqueue(p, _) => Represents(Apply(q, op), first, sent + [p], out + {first + |sent|})
            case DoAck(id) => Represents(Apply(q, op), first, sent, out - {id})
            case DoSweep(_) => Represents(Apply(q, op), first, sent, out)
  {
    match op
    case DoEnqueue(p, now) => EnqueueRepresents(q, first, sent, out, p, now);
    case DoAck(id) => AckRepresents(q, first, sent, out, id);
    case DoSweep(now) => SameIdsRepresent(q, Swept(q.entries, now), first, sent, out);
  }

  /**
   * Over any run that does not use up the ids, the queue holds exactly the ids handed out and not
   * yet acknowledged, in increasing order, each with its own payload.
   */
  lemma {:induction false} QueueHoldsOutstanding(first: Word32, ops: seq<Op>)
    requires first + |Payloads(ops)| <= 0x1_0000_0000
    ensures Represents(RunOps(NewQueue(first), ops), first, Payloads(ops), Outstanding(first, ops))
  {
    if ops != [] {
      var before, op := ops[..|ops| - 1], ops[|ops| - 1];
      QueueHoldsOutstanding(first, before);
      var q, sent, out := RunOps(NewQueue(first), before), Payloads(before), Outstanding(first, before);
      ApplyRepresents(q, op, first, sent, out);
      assert RunOps(NewQueue(first), ops) == Apply(q, op);
      if !op.DoEnqueue? {
        assert Payloads(ops) == sent;
      }
    }
  }

  /**
   * A sweep returns exactly the entries past their deadline, with the payload unchanged, and moves
   * their deadlines past `now` exactly where the delay stays positive.
   */
  lemma {:induction false} SweepExact(entries: seq<Entry>, now: int)
    ensures forall e :: e in DueOf(entries, now) <==>
              exists i :: 0 <= i < |entries| && IsDue(entries[i], now) && e == Swept(entries, now)[i]
    ensures forall i :: 0 <= i < |entries| ==>
              var e, e' := entries[i], Swept(entries, now)[i];
              && e'.packetId == e.packetId && e'.payload == e.payload
              && if IsDue(e, now)
                 then e'.nextRetry > now <==> SignBitClear(e.retries + 1)
                 else e' == e
  {
    DueAreRearmed(entries, now);
    forall i | 0 <= i < |entries|
      ensures IsDue(entries[i], now) ==>
                (Swept(entries, now)[i].nextRetry > now <==> SignBitClear(entries[i].retries + 1))
    {
      BackoffExactly(entries[i].retries + 1);
    }
  }

  lemma {:induction false} DueAreRearmed(entries: seq<Entry>, now: int)
    ensures forall e :: e in DueOf(entries, now) <==>
              exists i :: 0 <= i < |entries| && IsDue(entries[i], now) && e == Rearmed(entries[i], now)
  {
    if entries != [] {
      var n := |entries| - 1;
      DueAreRearmed(entries[..n], now);
      forall e ensures e in DueOf(entries, now) <==>
              exists i :: 0 <= i < |entries| && IsDue(entries[i], now) && e == Rearmed(entries[i], now)
      {
        if e in DueOf(entries[..n], now) {
          var i :| 0 <= i < n && IsDue(entries[..n][i], now) && e == Rearmed(entries[..n][i], now);
          assert IsDue(entries[i], now);
        }
        if i :| 0 <= i < n && IsDue(entries[i], now) && e == Rearmed(entries[i], now) {
          assert IsDue(entries[..n][i], now);
        }
      }
    }
  }

  /** The entries come back in order of their ids, so none of them twice. */
  lemma {:induction false} DueInOrder(entries: seq<Entry>, now: int)
    requires Increasing(entries)
    ensures Increasing(DueOf(entries, now))
  {
    if entries != [] {
      var n := |entries| - 1;
      var before := DueOf(entries[..n], now);
      DueInOrder(entries[..n], now);
      DueAreRearmed(entries[..n], now);
      forall i | 0 <= i < |before| ensures before[i].packetId < entries[n].packetId {
        assert before[i] in before;
        var k :| 0 <= k < n && IsDue(entries[..n][k], now) && before[i] == Rearmed(entries[..n][k], now);
      }
    }
  }
}
