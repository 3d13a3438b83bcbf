/** internal/compress: the one-byte stub framing. */
module Compress {
  import opened Bytes

  datatype Mode = ModeNone | ModeLZ4 | ModeLZO

  const STUB: Byte := 0x69

  function Wrap(mode: Mode, payload: seq<Byte>): seq<Byte> {
    if mode != ModeLZ4 then payload else [STUB] + payload
  }

  function Unwrap(mode: Mode, payload: seq<Byte>): Option<seq<Byte>> {
    if mode != ModeLZ4 then Some(payload)
    else if payload == [] || payload[0] != STUB then None
    else Some(payload[1..])
  }

  lemma UnwrapInvertsWrap(mode: Mode, payload: seq<Byte>)
    ensures Unwrap(mode, Wrap(mode, payload)) == Some(payload)
  {
  }
}

/** internal/datachannel Channel: P_DATA_V2 sealing and opening for one key epoch. */
module DataChannel {
  import opened Bytes
  import opened Framing
  import opened Crypto
  import Replay

  type Word24 = w: int | 0 <= w < 0x100_0000

  datatype Cipher = GcmCipher(gcm: Gcm) | CbcCipher(cbc: Cbc)

  function Header(keyId: Byte, peerId: Word24): (h: seq<Byte>)
    ensures |h| == 4
  {
    [FirstByte(P_DATA_V2, keyId), (peerId / 0x1_0000) as Byte,
     (peerId / 0x100 % 0x100) as Byte, (peerId % 0x100) as Byte]
  }

  /** GCM authenticates header and packet id; CBC encrypts the packet id with the plaintext. */
  function Sealed(c: Cipher, keyId: Byte, peerId: Word24, id: Word32, iv: seq<Byte>, plaintext: seq<Byte>): Packet
    requires |iv| == BLOCK
  {
    match c
    case GcmCipher(g) =>
      var aad := Header(keyId, peerId) + Be32(id);
      aad + GcmSeal(g, id, plaintext, aad)
    case CbcCipher(cbc) => Header(keyId, peerId) + CbcSeal(cbc, iv, Be32(id) + plaintext)
  }

  datatype Opened = Opened(plaintext: Option<seq<Byte>>, window: Replay.Window)

  /** A packet that is refused for whatever reason leaves the replay window as it was. */
  function Open(c: Cipher, w: Replay.Window, pkt: Packet): (r: Opened)
    requires Replay.Valid(w)
    ensures Replay.Valid(r.window)
    ensures r.plaintext == None ==> r.window == w
  {
    match c
    case GcmCipher(g) =>
      if |pkt| < 24 then Opened(None, w)
      else
        var id := FromBe32(pkt[4..8]);
        if !Replay.Passes(w, id) then Opened(None, w)
        else
          var p := GcmOpen(g, id, pkt[8..], pkt[..8]);
          Opened(p, if p.Some? then Replay.Marked(w, id) else w)
    case CbcCipher(cbc) =>
      if |pkt| < 68 then Opened(None, w)
      else
        var inner := CbcOpen(cbc, pkt[4..]);
        if inner == None || |inner.value| < 4 then Opened(None, w)
        else
          var id := FromBe32(inner.value[..4]);
          if !Replay.Passes(w, id) then Opened(None, w)
          else Opened(Some(inner.value[4..]), Replay.Marked(w, id))
  }

  lemma SealedHeader(c: Cipher, keyId: Byte, peerId: Word24, id: Word32, iv: seq<Byte>, plaintext: seq<Byte>)
    requires |iv| == BLOCK && keyId < 8
    ensures var pkt := Sealed(c, keyId, peerId, id, iv, plaintext);
            pkt != [] && OpcodeFromByte(pkt[0]) == P_DATA_V2 && KeyIdFromByte(pkt[0]) == keyId
  {
    assert Sealed(c, keyId, peerId, id, iv, plaintext)[0] == Header(keyId, peerId)[0];
  }

  /** Opening undoes sealing exactly when the replay window lets the packet id through. */
  lemma OpenInvertsSealed(c: Cipher, keyId: Byte, peerId: Word24, id: Word32, iv: seq<Byte>,
                          plaintext: seq<Byte>, w: Replay.Window)
    requires |iv| == BLOCK && Replay.Valid(w)
    ensures Open(c, w, Sealed(c, keyId, peerId, id, iv, plaintext))
            == if Replay.Passes(w, id) then Opened(Some(plaintext), Replay.Marked(w, id)) else Opened(None, w)
  {
    var pkt := Sealed(c, keyId, peerId, id, iv, plaintext);
    var head := Header(keyId, peerId);
    match c
    case GcmCipher(g) =>
      var aad := head + Be32(id);
      assert pkt[..8] == aad && pkt[8..] == GcmSeal(g, id, plaintext, aad);
      assert pkt[4..8] == Be32(id);
      GcmOpenInvertsSeal(g, id, plaintext, aad);
    case CbcCipher(cbc) =>
      var inner := Be32(id) + plaintext;
      assert pkt[4..] == CbcSeal(cbc, iv, inner);
      CbcOpenInvertsSeal(cbc, iv, inner);
      assert inner[..4] == Be32(id) && inner[4..] == plaintext;
  }

  class Channel {
    const peerID: Word24
    const keyID: Byte
    const encryptor: Cipher
    const decryptor: Cipher
    var sendSeq: Word32
    const replayBit: array<bool>
    var replayTop: Word32
    var replaySet: bool

    ghost predicate Valid() reads this { replayBit.Length == Replay.SIZE && keyID < 8 }

    ghost function Window(): (w: Replay.Window)
      reads this, replayBit
      requires Valid()
      ensures Replay.Valid(w)
    {
      Replay.Window(replayBit[..], replayTop, replaySet)
    }

    constructor (peerID: Word32, keyID: Byte, enc: Cipher, dec: Cipher)
      ensures Valid() && fresh(replayBit)
      ensures this.peerID == peerID % 0x100_0000 && this.keyID == keyID % 8
      ensures encryptor == enc && decryptor == dec
      ensures sendSeq == 0 && Window() == Replay.NewWindow()
    {
      this.peerID := peerID % 0x100_0000;
      this.keyID := keyID % 8;
      encryptor, decryptor := enc, dec;
      sendSeq := 0;
      replayBit := new bool[Replay.SIZE](_ => false);
      replayTop, replaySet := 0, false;
      new;
      assert replayBit[..] == Replay.NoBits();
    }

    method CheckReplay(seqNo: Word32) returns (ok: bool)
      requires Valid()
      ensures ok == Replay.Passes(Window(), seqNo)
    {
      if !replaySet {
        return true;
      }
      if seqNo > replayTop {
        return true;
      }
      var diff := replayTop - seqNo;
      if diff >= Replay.SIZE {
        return false;
      }
      if replayBit[diff] {
        return false;
      }
      return true;
    }

    method MarkSeen(seqNo: Word32)
      requires Valid()
      modifies this`replayTop, this`replaySet, replayBit
      ensures Window() == Replay.Marked(old(Window()), seqNo)
    {
      if !replaySet || seqNo > replayTop {
        var advance := 0;
        if replaySet {
          advance := seqNo - replayTop;
        }
        var i := 0;
        while i < advance && i < Replay.SIZE
          invariant 0 <= i && (i <= advance || advance < 0) && i <= Replay.SIZE
          invariant replayTop == old(replayTop) && replaySet == old(replaySet)
          invariant forall d :: 0 <= d < Replay.SIZE ==>
                      replayBit[d] == (old(replayBit[d]) && !Replay.InCleared(replayTop, i, d))
        {
          forall d | 0 <= d < Replay.SIZE {
            NextCleared(replayTop, i, d);
          }
          replayBit[(replayTop + 1 + i) % 0x1_0000_0000 % Replay.SIZE] := false;
          i := i + 1;
        }
        replayTop := seqNo;
        replaySet := true;
      }
      var diff := replayTop - seqNo;
      if diff < Replay.SIZE {
        replayBit[diff] := true;
      }
      assert replayBit[..] == Replay.Marked(old(Window()), seqNo).bits;
    }

    /** `iv` is the random vector CBC draws; GCM does not use it. */
    method Encrypt(plaintext: seq<Byte>, iv: seq<Byte>) returns (pkt: Packet)
      requires Valid() && |iv| == BLOCK
      modifies this`sendSeq
      ensures pkt == Sealed(encryptor, keyID, peerID, old(sendSeq), iv, plaintext)
      ensures sendSeq == (old(sendSeq) + 1) % 0x1_0000_0000
    {
      var seqNo := sendSeq;
      sendSeq := (sendSeq + 1) % 0x1_0000_0000;
      var header := Header(keyID, peerID);
      match encryptor {
        case GcmCipher(g) =>
          var aad := header + Be32(seqNo);
          var ct := GcmSeal(g, seqNo, plaintext, aad);
          pkt := header + Be32(seqNo) + ct;
        case CbcCipher(cbc) =>
          var inner := Be32(seqNo) + plaintext;
          var body := CbcSeal(cbc, iv, inner);
          pkt := header + body;
      }
    }

    method Decrypt(pkt: Packet) returns (r: Option<seq<Byte>>)
      requires Valid()
      modifies this`replayTop, this`replaySet, replayBit
      ensures Opened(r, Window()) == Open(decryptor, old(Window()), pkt)
    {
      match decryptor {
        case GcmCipher(g) =>
          if |pkt| < 24 {
            return None;
          }
          var seqNo := FromBe32(pkt[4..8]);
          var ok := CheckReplay(seqNo);
          if !ok {
            return None;
          }
          r := GcmOpen(g, seqNo, pkt[8..], pkt[..8]);
          if r.Some? {
            MarkSeen(seqNo);
          }
        case CbcCipher(cbc) =>
          if |pkt| < 68 {
            return None;
          }
          var inner := CbcOpen(cbc, pkt[4..]);
          if inner == None || |inner.value| < 4 {
            return None;
          }
          var seqNo := FromBe32(inner.value[..4]);
          var ok := CheckReplay(seqNo);
          if !ok {
            return None;
          }
          MarkSeen(seqNo);
          return Some(inner.value[4..]);
      }
    }
  }

  /** One more round of the shift loop clears one more slot. */
  lemma NextCleared(top: Word32, i: nat, d: nat)
    requires i < Replay.SIZE && d < Replay.SIZE
    ensures Replay.InCleared(top, i + 1, d) <==>
              Replay.InCleared(top, i, d) || d == (top + 1 + i) % 0x1_0000_0000 % Replay.SIZE
  {
    WrapKeepsSlot(top + 1 + i);
    SlotAt(d, top + 1, i);
  }

  /** 64 divides 2^32. */
  lemma WrapKeepsSlot(n: nat)
    requires n < 0x2_0000_0000
    ensures n % 0x1_0000_0000 % Replay.SIZE == n % Replay.SIZE
  {
    if n >= 0x1_0000_0000 {
      assert n % 0x1_0000_0000 == n - 0x1_0000_0000;
      Replay.Residue(n - 0x1_0000_0000, n / Replay.SIZE - 0x400_0000, n % Replay.SIZE);
    }
  }

  lemma SlotAt(d: nat, x: int, i: nat)
    requires d < Replay.SIZE && i < Replay.SIZE
    ensures (d - x) % Replay.SIZE == i <==> d == (x + i) % Replay.SIZE
  {
    var q, p := (d - x) / Replay.SIZE, (x + i) / Replay.SIZE;
    if (d - x) % Replay.SIZE == i {
      Replay.Residue(x + i, -q, d);
    }
    if d == (x + i) % Replay.SIZE {
      Replay.Residue(d - x, -p, i);
    }
  }

  /** The id the n-th packet of an epoch is sent under. */
  function NthId(n: nat): Word32 {
    n % 0x1_0000_0000
  }

  /** A packet of this channel with the n-th id. */
  ghost function NthPacket(c: Channel, n: nat, iv: seq<Byte>, plaintext: seq<Byte>): Packet
    requires |iv| == BLOCK
  {
    Sealed(c.encryptor, c.keyID, c.peerID, NthId(n), iv, plaintext)
  }

  /** The i-th of `pkts` has the i-th id from `first` on. */
  ghost predicate Numbered(c: Channel, first: nat, ivs: seq<seq<Byte>>, plaintexts: seq<seq<Byte>>, pkts: seq<Packet>)
    requires |ivs| == |plaintexts| && forall i :: 0 <= i < |ivs| ==> |ivs[i]| == BLOCK
  {
    && |pkts| <= |plaintexts|
    && forall i :: 0 <= i < |pkts| ==> pkts[i] == NthPacket(c, first + i, ivs[i], plaintexts[i])
  }

  lemma NumberedSnoc(c: Channel, first: nat, ivs: seq<seq<Byte>>, plaintexts: seq<seq<Byte>>,
                     pkts: seq<Packet>, pkt: Packet)
    requires |ivs| == |plaintexts| && forall i :: 0 <= i < |ivs| ==> |ivs[i]| == BLOCK
    requires Numbered(c, first, ivs, plaintexts, pkts) && |pkts| < |plaintexts|
    requires pkt == NthPacket(c, first + |pkts|, ivs[|pkts|], plaintexts[|pkts|])
    ensures Numbered(c, first, ivs, plaintexts, pkts + [pkt])
  {
  }

  method EncryptNth(c: Channel, ghost n: nat, plaintext: seq<Byte>, iv: seq<Byte>) returns (pkt: Packet)
    requires c.Valid() && |iv| == BLOCK && c.sendSeq == NthId(n)
    modifies c`sendSeq
    ensures pkt == NthPacket(c, n, iv, plaintext) && c.sendSeq == NthId(n + 1)
  {
    NextNth(n);
    pkt := c.Encrypt(plaintext, iv);
  }

  /** Any number of packets in a row: the i-th goes out under the i-th id after the counter's. */
  method EncryptAll(c: Channel, plaintexts: seq<seq<Byte>>, ivs: seq<seq<Byte>>) returns (pkts: seq<Packet>)
    requires c.Valid() && |ivs| == |plaintexts| && forall i :: 0 <= i < |ivs| ==> |ivs[i]| == BLOCK
    modifies c`sendSeq
    ensures |pkts| == |plaintexts| && c.sendSeq == NthId(old(c.sendSeq) + |pkts|)
    ensures Numbered(c, old(c.sendSeq), ivs, plaintexts, pkts)
  {
    ghost var first: nat := c.sendSeq;
    pkts := [];
    for i := 0 to |plaintexts|
      invariant |pkts| == i && c.sendSeq == NthId(first + i)
      invariant Numbered(c, first, ivs, plaintexts, pkts)
    {
      var pkt := EncryptNth(c, first + i, plaintexts[i], ivs[i]);
      NumberedSnoc(c, first, ivs, plaintexts, pkts, pkt);
      pkts := pkts + [pkt];
    }
  }

  lemma NextNth(n: nat)
    ensures (NthId(n) + 1) % 0x1_0000_0000 == NthId(n + 1)
  {
  }

  /** Two packets of one epoch share packet id and nonce exactly when they are a multiple of 2^32 apart. */
  lemma NoncesDistinct(g: Gcm, m: nat, n: nat)
    ensures Nonce(g, NthId(m)) == Nonce(g, NthId(n)) <==> (m - n) % 0x1_0000_0000 == 0
    ensures m < n < 0x1_0000_0000 ==> Nonce(g, NthId(m)) != Nonce(g, NthId(n))
  {
    NonceInjective(g, NthId(m), NthId(n));
    SameResidue(m, n);
  }

  lemma SameResidue(m: nat, n: nat)
    ensures m % 0x1_0000_0000 == n % 0x1_0000_0000 <==> (m - n) % 0x1_0000_0000 == 0
  {
  }
}
