/** internal/framing: packet opcodes and the two-byte length prefix of the TCP transport. */
module Framing {
  import opened Bytes

  type Packet = seq<Byte>

  const MAX_PACKET_SIZE := 65535

  const P_CONTROL_SOFT_RESET_V1: Byte := 0x03
  const P_CONTROL_V1: Byte := 0x04
  const P_ACK_V1: Byte := 0x05
  const P_DATA_V2: Byte := 0x09

  function OpcodeFromByte(b: Byte): Byte {
    b / 8
  }

  function KeyIdFromByte(b: Byte): Byte {
    b % 8
  }

  /** The shift is on uint8, so an opcode of 32 or more loses its high bits. */
  function FirstByte(opcode: Byte, keyId: Byte): (b: Byte)
    ensures OpcodeFromByte(b) == opcode % 32 && KeyIdFromByte(b) == keyId % 8
  {
    opcode % 32 * 8 + keyId % 8
  }

  // ---- TCP framing -----------------------------------------------------------

  datatype ReadResult = Frame(payload: Packet, rest: seq<Byte>) | Short | ZeroLength

  predicate Sendable(p: Packet) {
    1 <= |p| <= MAX_PACKET_SIZE
  }

  function WriteFrame(p: Packet): seq<Byte>
    requires Sendable(p)
  {
    Be16(|p|) + p
  }

  function ReadFrame(wire: seq<Byte>): ReadResult {
    if |wire| < 2 then Short
    else
      var n := FromBe16(wire);
      if n == 0 then ZeroLength
      else if |wire| < 2 + n then Short
      else Frame(wire[2..2 + n], wire[2 + n..])
  }

  /** What a peer that calls ReadTCP until it fails or must wait gets out of `wire`. */
  function ReadFrames(wire: seq<Byte>): seq<Packet> {
    match ReadFrame(wire)
    case Frame(p, rest) => [p] + ReadFrames(rest)
    case _ => []
  }

  /** One direction of the transport connection. */
  class Conn {
    var wire: seq<Byte>

    /** A write to the connection: all of `b`, or with an error the first `n` bytes of it. */
    method Write(b: seq<Byte>) returns (ok: bool, ghost n: nat)
      modifies this
      ensures n <= |b| && wire == old(wire) + b[..n]
      ensures ok ==> n == |b|
    {
      ok := *;
      if ok {
        assert b[..|b|] == b;
        wire := wire + b;
        return ok, |b|;
      }
      var written: nat :| 0 <= written <= |b|;
      wire := wire + b[..written];
      return ok, written;
    }

    /**
     * The length and the payload are two separate writes.  Nothing of a packet that cannot be framed
     * is written, and of another one the first `n` bytes of its frame.
     */
    method WriteTCP(payload: Packet) returns (ok: bool, ghost n: nat)
      modifies this
      ensures !Sendable(payload) ==> !ok && wire == old(wire)
      ensures Sendable(payload) ==> n <= |WriteFrame(payload)| && wire == old(wire) + WriteFrame(payload)[..n]
      ensures ok ==> n == 2 + |payload|
    {
      if |payload| == 0 || |payload| > MAX_PACKET_SIZE {
        return false, 0;
      }
      ghost var frame := WriteFrame(payload);
      ok, n := Write(Be16(|payload|));
      assert frame[..n] == Be16(|payload|)[..n];
      if !ok {
        return false, n;
      }
      ghost var k: nat;
      ok, k := Write(payload);
      Assoc(old(wire), frame[..2], payload[..k]);
      assert frame[..2 + k] == frame[..2] + payload[..k];
      return ok, 2 + k;
    }

    /** A failed read leaves nothing usable: io.ReadFull has consumed what there was. */
    method ReadTCP() returns (r: Option<Packet>)
      modifies this
      ensures match ReadFrame(old(wire))
              case Frame(p, rest) => r == Some(p) && wire == rest
              case Short => r == None && wire == []
              case ZeroLength => r == None && wire == old(wire)[2..]
    {
      if |wire| < 2 {
        wire := [];
        return None;
      }
      var n := FromBe16(wire[..2]);
      wire := wire[2..];
      if n == 0 {
        return None;
      }
      if |wire| < n {
        wire := [];
        return None;
      }
      assert wire[..n] == old(wire)[2..2 + n] && wire[n..] == old(wire)[2 + n..];
      r := Some(wire[..n]);
      wire := wire[n..];
    }
  }

  lemma ReadInvertsWrite(p: Packet, rest: seq<Byte>)
    requires Sendable(p)
    ensures ReadFrame(WriteFrame(p) + rest) == Frame(p, rest)
  {
  }

  lemma ReadFramesCons(p: Packet, rest: seq<Byte>)
    requires Sendable(p)
    ensures ReadFrames(WriteFrame(p) + rest) == [p] + ReadFrames(rest)
  {
  }

  predicate AllSendable(ps: seq<Packet>) {
    forall i :: 0 <= i < |ps| ==> Sendable(ps[i])
  }

  function WriteFrames(ps: seq<Packet>): seq<Byte>
    requires AllSendable(ps)
  {
    if ps == [] then [] else WriteFrame(ps[0]) + WriteFrames(ps[1..])
  }

  lemma {:induction false} WriteFramesSnoc(ps: seq<Packet>, p: Packet)
    requires AllSendable(ps) && Sendable(p)
    ensures WriteFrames(ps + [p]) == WriteFrames(ps) + WriteFrame(p)
  {
    if ps != [] {
      WriteFramesSnoc(ps[1..], p);
      assert (ps + [p])[1..] == ps[1..] + [p];
      Assoc(WriteFrame(ps[0]), WriteFrames(ps[1..]), WriteFrame(p));
    }
  }

  lemma {:induction false} ReadFramesInvertsWriteFrames(ps: seq<Packet>, tail: seq<Byte>)
    requires AllSendable(ps)
    ensures ReadFrames(WriteFrames(ps) + tail) == ps + ReadFrames(tail)
  {
    if ps == [] {
      assert WriteFrames(ps) + tail == tail;
    } else {
      var rest := WriteFrames(ps[1..]) + tail;
      calc {
        ReadFrames(WriteFrames(ps) + tail);
        { Assoc(WriteFrame(ps[0]), WriteFrames(ps[1..]), tail); }
        ReadFrames(WriteFrame(ps[0]) + rest);
        { ReadFramesCons(ps[0], rest); }
        [ps[0]] + ReadFrames(rest);
        { ReadFramesInvertsWriteFrames(ps[1..], tail); }
        [ps[0]] + (ps[1..] + ReadFrames(tail));
        { Assoc([ps[0]], ps[1..], ReadFrames(tail)); assert [ps[0]] + ps[1..] == ps; }
        ps + ReadFrames(tail);
      }
    }
  }

  // ---- What is left over -----------------------------------------------------------

  /** The bytes that reading until it fails or must wait leaves. */
  function Leftover(wire: seq<Byte>): seq<Byte> {
    match ReadFrame(wire)
    case Frame(_, rest) => Leftover(rest)
    case _ => wire
  }

  lemma FrameSplits(wire: seq<Byte>)
    requires ReadFrame(wire).Frame?
    ensures var f := ReadFrame(wire); Sendable(f.payload) && wire == WriteFrame(f.payload) + f.rest
  {
    assert Be16(FromBe16(wire)) == wire[..2];
  }

  lemma WriteFramesCons(p: Packet, ps: seq<Packet>)
    requires Sendable(p) && AllSendable(ps)
    ensures AllSendable([p] + ps) && WriteFrames([p] + ps) == WriteFrame(p) + WriteFrames(ps)
  {
    assert ([p] + ps)[1..] == ps;
  }

  lemma {:induction false} Splits(wire: seq<Byte>)
    ensures AllSendable(ReadFrames(wire)) && wire == WriteFrames(ReadFrames(wire)) + Leftover(wire)
    ensures !ReadFrame(Leftover(wire)).Frame?
  {
    match ReadFrame(wire)
    case Frame(p, rest) =>
      FrameSplits(wire);
      Splits(rest);
      WriteFramesCons(p, ReadFrames(rest));
      Assoc(WriteFrame(p), WriteFrames(ReadFrames(rest)), Leftover(rest));
    case _ =>
  }

  /** Later bytes are read on from what is left over. */
  lemma ReadsOn(wire: seq<Byte>, more: seq<Byte>)
    ensures ReadFrames(wire + more) == ReadFrames(wire) + ReadFrames(Leftover(wire) + more)
  {
    var ps, rest := ReadFrames(wire), Leftover(wire);
    Splits(wire);
    Assoc(WriteFrames(ps), rest, more);
    ReadFramesInvertsWriteFrames(ps, rest + more);
  }

  /** A one-byte packet behind left-over bytes is not read as itself, and no two frames are. */
  lemma Misread(rest: seq<Byte>, x: Byte)
    requires rest != [] && !ReadFrame(rest).Frame? && x != 0
    ensures var read := ReadFrames(rest + WriteFrame([x])); |read| <= 1 && read != [[x]]
  {
    var all := rest + WriteFrame([x]);
    assert WriteFrame([x]) == [0, 1, x];
    match ReadFrame(all)
    case Frame(p, after) =>
      assert |rest| >= 2 && FromBe16(all) == FromBe16(rest) && |after| <= 2;
      assert ReadFrames(after) == [];
      assert ReadFrames(all) == [p];
      if |p| == 1 {
        assert |rest| == 2 && p[0] == all[2] == 0;
        assert p[0] != [x][0];
      } else {
        assert |p| != |[x]|;
      }
      assert ReadFrames(all)[0] != [x];
    case _ =>
  }
}
