/** internal/datachannel Manager: which key epochs are live, and which one a packet belongs to. */
module KeyManager {
  import opened Bytes
  import opened Framing
  import opened Crypto
  import opened DataChannel
  import opened Compress

  /** The live epochs, whatever stands for an epoch. */
  datatype Keys<+E> = Keys(current: E, secondary: Option<E>, previous: Option<E>)

  function Fresh<E>(first: E): Keys<E> {
    Keys(first, None, None)
  }

  function Prepared<E>(k: Keys<E>, next: E): Keys<E> {
    Keys(k.current, Some(next), None)
  }

  /** `id` gives an epoch's key id.  The second part says whether the promotion happened. */
  function Promoted<E>(k: Keys<E>, id: E -> Byte, keyId: Byte): (Keys<E>, bool) {
    if k.secondary == None || id(k.secondary.value) != keyId % 8 then (k, false)
    else (Keys(k.secondary.value, None, Some(k.current)), true)
  }

  /** The first of current, secondary, previous with that key id. */
  function Selected<E>(k: Keys<E>, id: E -> Byte, keyId: Byte): Option<E> {
    if id(k.current) == keyId then Some(k.current)
    else if k.secondary.Some? && id(k.secondary.value) == keyId then k.secondary
    else if k.previous.Some? && id(k.previous.value) == keyId then k.previous
    else None
  }

  ghost predicate IsLive<E>(k: Keys<E>, e: E) {
    e == k.current || k.secondary == Some(e) || k.previous == Some(e)
  }

  ghost predicate AtMostTwo<E>(k: Keys<E>) {
    k.secondary == None || k.previous == None
  }

  /** Whenever the live epochs have different key ids, a packet's key id names exactly its epoch. */
  ghost predicate DistinctIds<E>(k: Keys<E>, id: E -> Byte) {
    && AtMostTwo(k)
    && (k.secondary.Some? ==> id(k.secondary.value) != id(k.current))
    && (k.previous.Some? ==> id(k.previous.value) != id(k.current))
  }

  lemma SelectedIsOwner<E>(k: Keys<E>, id: E -> Byte, e: E)
    requires DistinctIds(k, id) && IsLive(k, e)
    ensures Selected(k, id, id(e)) == Some(e)
  {
  }

  function KeyOf(c: Channel): Byte {
    c.keyID
  }

  function Slot(c: Channel?): Option<Channel> {
    if c == null then None else var ch: Channel := c; Some(ch)
  }

  /** The window array is part of its channel. */
  ghost predicate Apart(c: Channel, d: Channel) reads c, d {
    c != d ==> c.replayBit != d.replayBit
  }

  class Manager {
    var current: Channel
    var secondary: Channel?
    var previous: Channel?
    const renegSec: int
    const renegBytes: int
    const compress: Mode
    var startedAt: int
    var bytesSent: int
    var bytesRecv: int

    /** Separate channels have separate windows; at most two epochs are live. */
    ghost predicate Valid() reads this, current, secondary, previous {
      && current.Valid()
      && (secondary != null ==> secondary.Valid() && Apart(secondary, current))
      && (previous != null ==> previous.Valid() && Apart(previous, current))
      && AtMostTwo(Model())
    }

    ghost function Model(): Keys<Channel> reads this {
      Keys(current, Slot(secondary), Slot(previous))
    }

    constructor (ch: Channel, renegSec: int, renegBytes: int, compress: Mode, now: int)
      requires ch.Valid()
      ensures Valid() && Model() == Fresh(ch) && this.compress == compress
      ensures this.renegSec == renegSec && this.renegBytes == renegBytes
      ensures startedAt == now && bytesSent == 0 && bytesRecv == 0
    {
      current, secondary, previous := ch, null, null;
      this.renegSec, this.renegBytes, this.compress := renegSec, renegBytes, compress;
      startedAt, bytesSent, bytesRecv := now, 0, 0;
    }

    method Encrypt(plaintext: seq<Byte>, iv: seq<Byte>) returns (pkt: Packet)
      requires Valid() && |iv| == BLOCK
      modifies this`bytesSent, current`sendSeq
      ensures Valid() && Model() == old(Model())
      ensures pkt == Sealed(current.encryptor, current.keyID, current.peerID, old(current.sendSeq), iv,
                            Wrap(compress, plaintext))
      ensures current.sendSeq == (old(current.sendSeq) + 1) % 0x1_0000_0000
      ensures bytesSent == old(bytesSent) + |plaintext|
    {
      var inner := Wrap(compress, plaintext);
      pkt := current.Encrypt(inner, iv);
      bytesSent := bytesSent + |plaintext|;
    }

    method DecryptChannel(pkt: Packet) returns (ch: Channel?)
      requires Valid()
      ensures ch == null <==> pkt == [] || OpcodeFromByte(pkt[0]) != P_DATA_V2
                              || Selected(Model(), KeyOf, KeyIdFromByte(pkt[0])) == None
      ensures ch != null ==> Selected(Model(), KeyOf, KeyIdFromByte(pkt[0])) == Some(ch) && ch.Valid()
    {
      if |pkt| == 0 || OpcodeFromByte(pkt[0]) != P_DATA_V2 {
        return null;
      }
      var keyID := KeyIdFromByte(pkt[0]);
      var slots: seq<Channel?> := [current, secondary, previous];
      for i := 0 to 3
        invariant forall j :: 0 <= j < i ==> slots[j] == null || slots[j].keyID != keyID
      {
        if slots[i] != null && slots[i].keyID == keyID {
          assert i > 0 ==> slots[0].keyID != keyID;
          assert i > 1 ==> slots[1] == null;
          return slots[i];
        }
      }
      assert slots[0].keyID != keyID && (slots[1] == null || slots[1].keyID != keyID)
             && (slots[2] == null || slots[2].keyID != keyID);
      return null;
    }

    /** Only the replay window of the epoch the packet names can change, and only as Open says. */
    method Decrypt(pkt: Packet) returns (r: Option<seq<Byte>>)
      requires Valid()
      modifies this`bytesRecv, current, secondary, previous, current.replayBit,
               if secondary == null then {} else {secondary.replayBit},
               if previous == null then {} else {previous.replayBit}
      ensures Model() == old(Model()) && Valid()
      ensures bytesRecv == old(bytesRecv) + if r.Some? then |r.value| else 0
      ensures pkt == [] || OpcodeFromByte(pkt[0]) != P_DATA_V2 ==>
                r == None && forall c :: IsLive(Model(), c) ==> c.Window() == old(c.Window())
      ensures pkt != [] && OpcodeFromByte(pkt[0]) == P_DATA_V2 ==>
                match Selected(Model(), KeyOf, KeyIdFromByte(pkt[0]))
                case None => r == None && forall c :: IsLive(Model(), c) ==> c.Window() == old(c.Window())
                case Some(ch) =>
                  var o := Open(ch.decryptor, old(ch.Window()), pkt);
                  && ch.Window() == o.window
                  && r == (if o.plaintext.Some? then Unwrap(compress, o.plaintext.value) else None)
                  && forall c :: IsLive(Model(), c) && c != ch ==> c.Window() == old(c.Window())
    {
      var ch := DecryptChannel(pkt);
      if ch == null {
        return None;
      }
      var inner := ch.Decrypt(pkt);
      if inner == None {
        return None;
      }
      r := Unwrap(compress, inner.value);
      if r.Some? {
        bytesRecv := bytesRecv + |r.value|;
      }
    }

    /** Times are in seconds. */
    method NeedsRekey(now: int) returns (due: bool)
      ensures due == (secondary == null
                      && ((renegSec > 0 && now - startedAt >= renegSec)
                          || (renegBytes > 0 && bytesSent + bytesRecv >= renegBytes)))
    {
      if secondary != null {
        return false;
      }
      if renegSec > 0 {
        if now - startedAt >= renegSec {
          return true;
        }
      }
      if renegBytes > 0 {
        var total := bytesSent + bytesRecv;
        if total >= renegBytes {
          return true;
        }
      }
      return false;
    }

    method Prepare(next: Channel, now: int)
      requires Valid() && next.Valid() && Apart(next, current)
      modifies this
      ensures Valid() && Model() == Prepared(old(Model()), next)
      ensures startedAt == now && bytesSent == 0 && bytesRecv == 0
    {
      secondary := next;
      previous := null;
      startedAt := now;
      bytesSent, bytesRecv := 0, 0;
    }

    method Promote(keyID: Byte) returns (ok: bool)
      requires Valid()
      modifies this`current, this`secondary, this`previous
      ensures Valid()
      ensures (Model(), ok) == Promoted(old(Model()), KeyOf, keyID)
    {
      if secondary == null || secondary.keyID != keyID % 8 {
        return false;
      }
      previous := current;
      current := secondary;
      secondary := null;
      return true;
    }

    method Rotate(next: Channel, now: int)
      requires next.Valid()
      modifies this
      ensures Valid() && Model() == Fresh(next)
      ensures startedAt == now && bytesSent == 0 && bytesRecv == 0
    {
      current, secondary, previous := next, null, null;
      startedAt := now;
      bytesSent, bytesRecv := 0, 0;
    }
  }
}
