/** Control-channel packets: the builders and the two independent parsers of client.go and framing.go. */
module ControlPacket {
  import opened Bytes
  import opened Framing

  type SessionId = s: seq<Byte> | |s| == 8 witness [0, 0, 0, 0, 0, 0, 0, 0]

  datatype Control = Control(opcode: Byte, keyId: Byte, packetId: Word32, ackIds: seq<Word32>, payload: seq<Byte>)

  /** What parseControlV1Payload returns; a failure is the empty payload with packet id 0. */
  datatype Body = Body(payload: seq<Byte>, packetId: Word32)

  // ---- Builders --------------------------------------------------------------

  function IdBytes(ids: seq<Word32>): (s: seq<Byte>)
    ensures |s| == 4 * |ids|
  {
    if ids == [] then [] else IdBytes(ids[..|ids| - 1]) + Be32(ids[|ids| - 1])
  }

  /** The list length is written as one byte. */
  function AckArray(remote: SessionId, ackIds: seq<Word32>): seq<Byte> {
    if ackIds == [] then [0] else [(|ackIds| % 0x100) as Byte] + IdBytes(ackIds) + remote
  }

  function ControlV1(sender: SessionId, remote: SessionId, keyId: Byte, packetId: Word32,
                     ackIds: seq<Word32>, payload: seq<Byte>): Packet
  {
    Head(sender, remote, keyId, ackIds) + (Be32(packetId) + payload)
  }

  function Head(sender: SessionId, remote: SessionId, keyId: Byte, ackIds: seq<Word32>): seq<Byte> {
    [FirstByte(P_CONTROL_V1, keyId)] + sender + AckArray(remote, ackIds)
  }

  function SoftReset(sender: SessionId, keyId: Byte): Packet {
    [FirstByte(P_CONTROL_SOFT_RESET_V1, keyId)] + sender + [0] + Be32(0)
  }

  function Ack(sender: SessionId, remote: SessionId, keyId: Byte, ackIds: seq<Word32>): Packet {
    [FirstByte(P_ACK_V1, keyId)] + sender + [(|ackIds| % 0x100) as Byte] + IdBytes(ackIds) + remote
  }

  method AppendIds(b0: seq<Byte>, ids: seq<Word32>) returns (b: seq<Byte>)
    ensures b == b0 + IdBytes(ids)
  {
    b := b0;
    for i := 0 to |ids|
      invariant b == b0 + IdBytes(ids[..i])
    {
      assert ids[..i + 1][..i] == ids[..i];
      b := b + Be32(ids[i]);
    }
    assert ids[..|ids|] == ids;
  }

  method BuildControlV1WithKeyId(sender: SessionId, remote: SessionId, keyId: Byte, packetId: Word32,
                                 ackIds: seq<Word32>, payload: seq<Byte>) returns (b: Packet)
    ensures b == ControlV1(sender, remote, keyId, packetId, ackIds, payload)
  {
    b := [FirstByte(P_CONTROL_V1, keyId)];
    b := b + sender;
    ghost var first := b;
    if |ackIds| > 0 {
      b := b + [(|ackIds| % 0x100) as Byte];
      b := AppendIds(b, ackIds);
      b := b + remote;
      Regroup(first, [(|ackIds| % 0x100) as Byte], IdBytes(ackIds), remote);
    } else {
      b := b + [0];
    }
    assert b == Head(sender, remote, keyId, ackIds);
    b := b + Be32(packetId);
    b := b + payload;
  }

  lemma Regroup(a: seq<Byte>, b: seq<Byte>, c: seq<Byte>, d: seq<Byte>)
    ensures a + b + c + d == a + (b + c + d)
  {
  }

  method BuildAck(sender: SessionId, remote: SessionId, keyId: Byte, ackIds: seq<Word32>) returns (b: Packet)
    ensures b == Ack(sender, remote, keyId, ackIds)
  {
    b := [FirstByte(P_ACK_V1, keyId)];
    b := b + sender;
    b := b + [(|ackIds| % 0x100) as Byte];
    b := AppendIds(b, ackIds);
    b := b + remote;
  }

  // ---- Parsers ---------------------------------------------------------------

  function IdsAt(raw: Packet, off: nat, n: nat): (ids: seq<Word32>)
    requires off + 4 * n <= |raw|
    ensures |ids| == n
  {
    if n == 0 then [] else IdsAt(raw, off, n - 1) + [FromBe32(raw[off + 4 * (n - 1)..])]
  }

  /** Offset of the packet id: past the opcode, the session id and a non-empty ack array. */
  function IdOffset(raw: Packet): nat
    requires |raw| >= 10
  {
    if raw[9] > 0 then 10 + 4 * raw[9] as int + 8 else 10
  }

  function Parse(raw: Packet): (p: Option<Control>)
    ensures p.Some? ==> |p.value.ackIds| <= 255 && p.value.keyId < 8
  {
    if |raw| < 10 then None
    else
      var off := IdOffset(raw);
      var opcode := OpcodeFromByte(raw[0]);
      if raw[9] > 0 && |raw| < off then None
      else
        var ids := if raw[9] > 0 then IdsAt(raw, 10, raw[9] as int) else [];
        if opcode == P_ACK_V1 then Some(Control(opcode, KeyIdFromByte(raw[0]), 0, ids, []))
        else if |raw| < off + 4 then None
        else Some(Control(opcode, KeyIdFromByte(raw[0]), FromBe32(raw[off..]), ids, raw[off + 4..]))
  }

  function ParseBody(pkt: Packet): Body {
    if |pkt| < 10 then Body([], 0)
    else
      var off := IdOffset(pkt);
      if off + 4 > |pkt| then Body([], 0) else Body(pkt[off + 4..], FromBe32(pkt[off..]))
  }

  function ParseAckIds(pkt: Packet): seq<Word32> {
    if |pkt| < 10 || pkt[9] == 0 || 10 + 4 * pkt[9] as int > |pkt| then [] else IdsAt(pkt, 10, pkt[9] as int)
  }

  /** The dispatcher's own reading of P_ACK_V1: as many of the announced ids as the packet holds. */
  function StandaloneAckIds(pkt: Packet): seq<Word32> {
    if |pkt| < 11 then []
    else
      var room := (|pkt| - 10) / 4;
      IdsAt(pkt, 10, if pkt[9] as int <= room then pkt[9] as int else room)
  }

  method ReadIds(raw: Packet, off0: nat, n: nat) returns (ids: seq<Word32>)
    requires off0 + 4 * n <= |raw|
    ensures ids == IdsAt(raw, off0, n)
  {
    ids := [];
    var off := off0;
    for i := 0 to n
      invariant off == off0 + 4 * i
      invariant ids == IdsAt(raw, off0, i)
    {
      ids := ids + [FromBe32(raw[off..])];
      off := off + 4;
    }
  }

  method ParseControl(raw: Packet) returns (p: Option<Control>)
    ensures p == Parse(raw)
  {
    if |raw| < 10 {
      return None;
    }
    var opcode, keyId := OpcodeFromByte(raw[0]), KeyIdFromByte(raw[0]);
    var offset := 1;
    offset := offset + 8;
    var ackLen := raw[offset] as int;
    offset := offset + 1;
    var ids := [];
    if ackLen > 0 {
      if |raw| < offset + ackLen * 4 + 8 {
        return None;
      }
      ids := ReadIds(raw, offset, ackLen);
      offset := offset + 4 * ackLen + 8;
    }
    if opcode == P_ACK_V1 {
      return Some(Control(opcode, keyId, 0, ids, []));
    }
    if |raw| < offset + 4 {
      return None;
    }
    return Some(Control(opcode, keyId, FromBe32(raw[offset..]), ids, raw[offset + 4..]));
  }

  method ParseControlV1Payload(pkt: Packet) returns (payload: seq<Byte>, packetID: Word32)
    ensures Body(payload, packetID) == ParseBody(pkt)
  {
    if |pkt| < 10 {
      return [], 0;
    }
    var off := 1 + 8;
    var ackLen := pkt[off] as int;
    off := off + 1;
    if ackLen > 0 {
      off := off + ackLen * 4 + 8;
    }
    if off + 4 > |pkt| {
      return [], 0;
    }
    packetID := FromBe32(pkt[off..]);
    off := off + 4;
    return pkt[off..], packetID;
  }

  method ParseControlV1AckIds(pkt: Packet) returns (ids: seq<Word32>)
    ensures ids == ParseAckIds(pkt)
  {
    if |pkt| < 10 {
      return [];
    }
    var ackLen := pkt[9] as int;
    if ackLen == 0 || 10 + ackLen * 4 > |pkt| {
      return [];
    }
    ids := ReadIds(pkt, 10, ackLen);
  }

  /** The loop of the dispatcher's P_ACK_V1 case. */
  method ReadStandaloneAck(pkt: Packet) returns (ids: seq<Word32>)
    ensures ids == StandaloneAckIds(pkt)
  {
    if |pkt| < 11 {
      return [];
    }
    var n := pkt[9] as int;
    var off, i := 10, 0;
    ids := [];
    while i < n && off + 4 <= |pkt|
      invariant 0 <= i <= n && off == 10 + 4 * i <= |pkt|
      invariant ids == IdsAt(pkt, 10, i)
    {
      ids := ids + [FromBe32(pkt[off..])];
      off := off + 4;
      i := i + 1;
    }
  }

  // ---- The two parsers agree -------------------------------------------------

  /** On everything but P_ACK_V1 the dispatcher's quick parsers and ParseControl say the same. */
  lemma ParsersAgree(pkt: Packet)
    requires |pkt| > 0 ==> OpcodeFromByte(pkt[0]) != P_ACK_V1
    ensures match Parse(pkt)
            case Some(c) => ParseBody(pkt) == Body(c.payload, c.packetId) && ParseAckIds(pkt) == c.ackIds
            case None => ParseBody(pkt) == Body([], 0)
  {
  }

  // ---- Parsing inverts building ----------------------------------------------

  lemma IdAndPayloadAfter(head: seq<Byte>, packetId: Word32, payload: seq<Byte>, raw: Packet)
    requires raw == head + (Be32(packetId) + payload)
    ensures |raw| >= |head| + 4 && FromBe32(raw[|head|..]) == packetId && raw[|head| + 4..] == payload
  {
  }

  lemma NextId(raw: Packet, off: nat, ids: seq<Word32>, n: nat)
    requires n + 1 == |ids| && off + 4 * |ids| <= |raw|
    requires IdsAt(raw, off, n) == ids[..n] && FromBe32(raw[off + 4 * n..]) == ids[n]
    ensures IdsAt(raw, off, |ids|) == ids
  {
    assert ids == ids[..n] + [ids[n]];
  }

  lemma {:induction false} IdsAtReadsIdBytes(ids: seq<Word32>, pre: seq<Byte>, post: seq<Byte>)
    ensures IdsAt(pre + IdBytes(ids) + post, |pre|, |ids|) == ids
    decreases |ids|
  {
    if ids != [] {
      var n := |ids| - 1;
      var front, last := IdBytes(ids[..n]), Be32(ids[n]);
      var raw := pre + front + (last + post);
      assert pre + IdBytes(ids) + post == raw by {
        Assoc(pre, front, last);
        Assoc(pre + front, last, post);
      }
      IdsAtReadsIdBytes(ids[..n], pre, last + post);
      IdAndPayloadAfter(pre + front, ids[n], post, raw);
      NextId(raw, |pre|, ids, n);
    }
  }

  lemma HeadLayout(sender: SessionId, remote: SessionId, keyId: Byte, ackIds: seq<Word32>)
    requires |ackIds| <= 255
    ensures var head := Head(sender, remote, keyId, ackIds);
            && |head| == (if ackIds == [] then 10 else 18 + 4 * |ackIds|)
            && head[0] == FirstByte(P_CONTROL_V1, keyId) && head[9] as int == |ackIds|
  {
  }

  /** The fields of `c` but for the acks, where the parsers look for them. */
  predicate FieldsAt(raw: Packet, c: Control) {
    && |raw| >= 14 && IdOffset(raw) + 4 <= |raw|
    && OpcodeFromByte(raw[0]) == c.opcode && KeyIdFromByte(raw[0]) == c.keyId && raw[9] as int == |c.ackIds|
    && FromBe32(raw[IdOffset(raw)..]) == c.packetId && raw[IdOffset(raw) + 4..] == c.payload
  }

  predicate AcksAt(raw: Packet, ackIds: seq<Word32>) {
    10 + 4 * |ackIds| <= |raw| && IdsAt(raw, 10, |ackIds|) == ackIds
  }

  lemma FieldsParse(raw: Packet, c: Control)
    requires FieldsAt(raw, c) && AcksAt(raw, c.ackIds) && c.opcode != P_ACK_V1
    ensures Parse(raw) == Some(c)
  {
  }

  lemma FieldsRead(raw: Packet, c: Control)
    requires FieldsAt(raw, c) && AcksAt(raw, c.ackIds)
    ensures ParseBody(raw) == Body(c.payload, c.packetId) && ParseAckIds(raw) == c.ackIds
  {
  }

  /** From the layout of the head alone. */
  lemma FieldsBehind(head: seq<Byte>, c: Control, raw: Packet)
    requires |c.ackIds| <= 255 && |head| == if c.ackIds == [] then 10 else 18 + 4 * |c.ackIds|
    requires OpcodeFromByte(head[0]) == c.opcode && KeyIdFromByte(head[0]) == c.keyId && head[9] as int == |c.ackIds|
    requires raw == head + (Be32(c.packetId) + c.payload)
    ensures FieldsAt(raw, c)
  {
    assert raw[0] == head[0] && raw[9] == head[9];
    IdAndPayloadAfter(head, c.packetId, c.payload, raw);
  }

  lemma ControlV1Fields(sender: SessionId, remote: SessionId, keyId: Byte, packetId: Word32,
                        ackIds: seq<Word32>, payload: seq<Byte>)
    requires |ackIds| <= 255
    ensures FieldsAt(ControlV1(sender, remote, keyId, packetId, ackIds, payload),
                     Control(P_CONTROL_V1, keyId % 8, packetId, ackIds, payload))
  {
    HeadLayout(sender, remote, keyId, ackIds);
    FieldsBehind(Head(sender, remote, keyId, ackIds), Control(P_CONTROL_V1, keyId % 8, packetId, ackIds, payload),
                 ControlV1(sender, remote, keyId, packetId, ackIds, payload));
  }

  lemma AcksBehind(pre: seq<Byte>, ackIds: seq<Word32>, remote: seq<Byte>, tail: seq<Byte>)
    requires |pre| == 10
    ensures AcksAt(pre + IdBytes(ackIds) + remote + tail, ackIds)
  {
    var ids := IdBytes(ackIds);
    assert pre + ids + remote + tail == pre + ids + (remote + tail) by { Assoc(pre + ids, remote, tail); }
    IdsAtReadsIdBytes(ackIds, pre, remote + tail);
  }

  lemma ControlV1Acks(sender: SessionId, remote: SessionId, keyId: Byte, packetId: Word32,
                      ackIds: seq<Word32>, payload: seq<Byte>)
    ensures AcksAt(ControlV1(sender, remote, keyId, packetId, ackIds, payload), ackIds)
  {
    if ackIds != [] {
      var pre, count := [FirstByte(P_CONTROL_V1, keyId)] + sender, [(|ackIds| % 0x100) as Byte];
      Regroup(pre, count, IdBytes(ackIds), remote);
      AcksBehind(pre + count, ackIds, remote, Be32(packetId) + payload);
    }
  }

  /**
   * ParseControl recovers what was built exactly when the ack list fits its one-byte count and the
   * key id its three bits: 256 acks announce none, and key id 8 becomes 0.
   */
  lemma ParseInvertsControlV1(sender: SessionId, remote: SessionId, keyId: Byte, packetId: Word32,
                              ackIds: seq<Word32>, payload: seq<Byte>)
    ensures var raw := ControlV1(sender, remote, keyId, packetId, ackIds, payload);
            Parse(raw) == Some(Control(P_CONTROL_V1, keyId, packetId, ackIds, payload))
            <==> |ackIds| <= 255 && keyId < 8
  {
    var raw := ControlV1(sender, remote, keyId, packetId, ackIds, payload);
    if |ackIds| <= 255 && keyId < 8 {
      ControlV1Fields(sender, remote, keyId, packetId, ackIds, payload);
      ControlV1Acks(sender, remote, keyId, packetId, ackIds, payload);
      FieldsParse(raw, Control(P_CONTROL_V1, keyId, packetId, ackIds, payload));
    } else {
      assert Parse(raw) != Some(Control(P_CONTROL_V1, keyId, packetId, ackIds, payload));
    }
  }

  /** The dispatcher's parsers invert the builder too, whatever the key id. */
  lemma BodyInvertsControlV1(sender: SessionId, remote: SessionId, keyId: Byte, packetId: Word32,
                             ackIds: seq<Word32>, payload: seq<Byte>)
    requires |ackIds| <= 255
    ensures var raw := ControlV1(sender, remote, keyId, packetId, ackIds, payload);
            ParseBody(raw) == Body(payload, packetId) && ParseAckIds(raw) == ackIds
  {
    ControlV1Fields(sender, remote, keyId, packetId, ackIds, payload);
    ControlV1Acks(sender, remote, keyId, packetId, ackIds, payload);
    FieldsRead(ControlV1(sender, remote, keyId, packetId, ackIds, payload),
               Control(P_CONTROL_V1, keyId % 8, packetId, ackIds, payload));
  }

  lemma BodyInvertsSoftReset(sender: SessionId, keyId: Byte)
    ensures var raw := SoftReset(sender, keyId);
            && |raw| == 14 && raw[0] == FirstByte(P_CONTROL_SOFT_RESET_V1, keyId)
            && ParseBody(raw) == Body([], 0) && ParseAckIds(raw) == []
  {
  }

  /** A standalone ACK of up to 255 ids is read back in full; the trailing session id is not taken for ids. */
  lemma StandaloneInvertsAck(sender: SessionId, remote: SessionId, keyId: Byte, ackIds: seq<Word32>)
    requires |ackIds| <= 255
    ensures var raw := Ack(sender, remote, keyId, ackIds);
            |raw| > 0 && raw[0] == FirstByte(P_ACK_V1, keyId) && StandaloneAckIds(raw) == ackIds
  {
    var raw := Ack(sender, remote, keyId, ackIds);
    var pre := [FirstByte(P_ACK_V1, keyId)] + sender + [(|ackIds| % 0x100) as Byte];
    assert raw == pre + IdBytes(ackIds) + remote;
    assert raw[9] == pre[9] && raw[9] as int == |ackIds|;
    IdsAtReadsIdBytes(ackIds, pre, remote);
  }
}
