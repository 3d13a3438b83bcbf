/** auth/saml/msg.go: NUL-terminated control messages, and the replay of one already read. */
module ControlMessages {

  import opened Bytes

  const MAX_CONTROL_MESSAGE_BYTES := 128 * 1024

  function Limit(maxBytes: int): nat {
    if maxBytes <= 0 then MAX_CONTROL_MESSAGE_BYTES else maxBytes
  }

  /** How a stream of bytes stops: at its end, with an error, or with a read that returns nothing. */
  datatype Ending = Eof | ReadError | NoProgress

  datatype ReadResult =
    | Ok(raw: seq<Byte>, rest: seq<Byte>)
    | Malformed(rest: seq<Byte>)
    | TooLong
    | Failed

  /** What the caller is told. */
  datatype Answer = Text(raw: seq<Byte>) | ParseFailed | LimitExceeded | ReadFailed

  function AnswerOf(r: ReadResult): Answer {
    match r
    case Ok(raw, _) => Text(raw)
    case Malformed(_) => ParseFailed
    case TooLong => LimitExceeded
    case Failed => ReadFailed
  }

  /** The index of the first NUL, or the length. */
  function FirstNul(s: seq<Byte>): (k: nat)
    ensures k <= |s|
    ensures k < |s| ==> s[k] == 0
    ensures forall i :: 0 <= i < k ==> s[i] != 0
  {
    if s == [] || s[0] == 0 then 0 else 1 + FirstNul(s[1..])
  }

  /** ParseControlMsg keeps the text as Raw; `parses` says which texts it accepts. */
  function Parsed(raw: seq<Byte>, rest: seq<Byte>, parses: seq<Byte> -> bool): ReadResult {
    if parses(raw) then Ok(raw, rest) else Malformed(rest)
  }

  /** One message off the front of `s`: up to a NUL, or at the end of the stream what there is. */
  function Next(s: seq<Byte>, ending: Ending, limit: nat, parses: seq<Byte> -> bool): (r: ReadResult)
    ensures r.Ok? ==> |r.rest| < |s| && |r.raw| <= limit && 0 !in r.raw && parses(r.raw)
  {
    var k := FirstNul(s);
    if k < |s| && k <= limit then Parsed(s[..k], s[k + 1..], parses)
    else if |s| > limit then TooLong
    else if ending == Eof && s != [] then Parsed(s, [], parses)
    else Failed
  }

  /** The messages that repeated reads return, up to the first error. */
  function Received(s: seq<Byte>, ending: Ending, limit: nat, parses: seq<Byte> -> bool): seq<seq<Byte>>
    decreases |s|
  {
    match Next(s, ending, limit, parses)
    case Ok(raw, rest) => [raw] + Received(rest, ending, limit, parses)
    case _ => []
  }

  predicate Writable(m: seq<Byte>, limit: nat) {
    0 !in m && |m| <= limit
  }

  function Terminated(m: seq<Byte>): seq<Byte> {
    m + [0]
  }

  function Written(messages: seq<seq<Byte>>): seq<Byte> {
    if messages == [] then [] else Terminated(messages[0]) + Written(messages[1..])
  }

  lemma NextInvertsWrite(m: seq<Byte>, rest: seq<Byte>, ending: Ending, limit: nat, parses: seq<Byte> -> bool)
    requires Writable(m, limit)
    ensures Next(Terminated(m) + rest, ending, limit, parses) == Parsed(m, rest, parses)
  {
    var s := Terminated(m) + rest;
    assert s[|m|] == 0;
    assert forall i :: 0 <= i < |m| ==> s[i] == m[i] && m[i] in m;
    assert FirstNul(s) == |m|;
    assert s[..|m|] == m && s[|m| + 1..] == rest;
  }

  lemma ReceivedNext(m: seq<Byte>, rest: seq<Byte>, ending: Ending, limit: nat, parses: seq<Byte> -> bool)
    requires Writable(m, limit) && parses(m)
    ensures Received(Terminated(m) + rest, ending, limit, parses) == [m] + Received(rest, ending, limit, parses)
  {
    NextInvertsWrite(m, rest, ending, limit, parses);
  }

  /** Repeated reads return exactly the messages written, and then whatever follows them. */
  lemma {:induction false} ReceivedInvertsWritten(messages: seq<seq<Byte>>, rest: seq<Byte>, ending: Ending, limit: nat,
                                                  parses: seq<Byte> -> bool)
    requires forall i :: 0 <= i < |messages| ==> Writable(messages[i], limit) && parses(messages[i])
    ensures Received(Written(messages) + rest, ending, limit, parses)
            == messages + Received(rest, ending, limit, parses)
  {
    if messages == [] {
      assert Written(messages) + rest == rest;
    } else {
      var m, more, after := messages[0], messages[1..], Received(rest, ending, limit, parses);
      calc {
        Received(Written(messages) + rest, ending, limit, parses);
        { Assoc(Terminated(m), Written(more), rest); }
        Received(Terminated(m) + (Written(more) + rest), ending, limit, parses);
        { ReceivedNext(m, Written(more) + rest, ending, limit, parses); }
        [m] + Received(Written(more) + rest, ending, limit, parses);
        { ReceivedInvertsWritten(more, rest, ending, limit, parses); }
        [m] + (more + after);
        { Assoc([m], more, after); assert messages == [m] + more; }
        messages + after;
      }
    }
  }

  /** Putting a message just read back in front, terminated, changes nothing for later readers. */
  lemma ReplayChangesNothing(s: seq<Byte>, ending: Ending, limit: nat, parses: seq<Byte> -> bool)
    requires Next(s, ending, limit, parses).Ok?
    ensures var first := Next(s, ending, limit, parses);
            var replay := Terminated(first.raw) + first.rest;
            Next(replay, ending, limit, parses) == first
            && Received(replay, ending, limit, parses) == Received(s, ending, limit, parses)
  {
    var first := Next(s, ending, limit, parses);
    NextInvertsWrite(first.raw, first.rest, ending, limit, parses);
  }

  // ---- Streams ---------------------------------------------------------------------------------

  /** The bytes of the chunks before the first empty one, which is a read that returns nothing. */
  function Delivered(chunks: seq<seq<Byte>>): seq<Byte> {
    if chunks == [] || chunks[0] == [] then [] else chunks[0] + Delivered(chunks[1..])
  }

  function EndingOf(chunks: seq<seq<Byte>>, eof: bool): Ending {
    if chunks == [] then (if eof then Eof else ReadError)
    else if chunks[0] == [] then NoProgress
    else EndingOf(chunks[1..], eof)
  }

  /** Without empty reads the chunking does not show. */
  lemma {:induction false} ChunkingDoesNotShow(chunks: seq<seq<Byte>>, eof: bool)
    requires [] !in chunks
    ensures Delivered(chunks) == Concat(chunks)
    ensures EndingOf(chunks, eof) == if eof then Eof else ReadError
  {
    if chunks != [] {
      assert chunks[0] in chunks;
      assert forall c :: c in chunks[1..] ==> c in chunks;
      ChunkingDoesNotShow(chunks[1..], eof);
    }
  }

  /** The chunks left after a one-byte read. */
  function Rest(chunks: seq<seq<Byte>>): seq<seq<Byte>>
    requires chunks != [] && chunks[0] != []
  {
    if |chunks[0]| == 1 then chunks[1..] else [chunks[0][1..]] + chunks[1..]
  }

  lemma RestDelivers(chunks: seq<seq<Byte>>, eof: bool)
    requires chunks != [] && chunks[0] != []
    ensures Delivered(chunks) == [chunks[0][0]] + Delivered(Rest(chunks))
    ensures EndingOf(Rest(chunks), eof) == EndingOf(chunks, eof)
  {
  }

  /** The preread bytes and then the live stream, as io.MultiReader joins them. */
  class Reader {
    const data: seq<Byte>
    var pos: nat
    var chunks: seq<seq<Byte>>
    /** Whether the live stream ends or fails, and whether its last byte brings that news along. */
    const eof: bool
    const eager: bool

    ghost predicate Valid() reads this {
      pos <= |data|
    }

    ghost function Contents(): seq<Byte> reads this
      requires Valid()
    {
      data[pos..] + Delivered(chunks)
    }

    ghost function End(): Ending reads this {
      EndingOf(chunks, eof)
    }

    constructor Live(chunks: seq<seq<Byte>>, eof: bool, eager: bool)
      ensures Valid() && Contents() == Delivered(chunks) && End() == EndingOf(chunks, eof)
    {
      data, pos := [], 0;
      this.chunks, this.eof, this.eager := chunks, eof, eager;
    }

    /** The preread wrapper around a live reader whose message `raw` has been consumed. */
    constructor Replaying(raw: seq<Byte>, live: Reader)
      requires live.Valid()
      requires live.data == []
      ensures Valid() && Contents() == Terminated(raw) + live.Contents() && End() == live.End()
    {
      data, pos := Terminated(raw), 0;
      chunks, eof, eager := live.chunks, live.eof, live.eager;
      new;
      assert live.data[live.pos..] + Delivered(live.chunks) == Delivered(live.chunks);
      assert data[0..] == data;
    }

    /** Read into a one-byte buffer: `n` bytes, and `err` if the stream has stopped. */
    method Read() returns (n: nat, b: Byte, err: Option<Ending>)
      requires Valid()
      modifies this
      ensures Valid() && n <= 1
      ensures n == 1 ==> old(Contents()) == [b] + Contents() && End() == old(End())
      ensures n == 0 ==> old(Contents()) == [] && old(End()) == if err == None then NoProgress else err.value
      ensures err.Some? ==> Contents() == [] && err == Some(End()) && End() != NoProgress
    {
      if pos < |data| {
        n, b, err := 1, data[pos], None;
        assert data[pos..] == [b] + data[pos + 1..];
        Assoc([b], data[pos + 1..], Delivered(chunks));
        pos := pos + 1;
        return;
      }
      assert data[pos..] == [];
      assert forall d: seq<Byte> :: [] + d == d;
      if chunks == [] {
        return 0, 0, Some(if eof then Eof else ReadError);
      }
      if chunks[0] == [] {
        chunks := chunks[1..];
        return 0, 0, None;
      }
      RestDelivers(chunks, eof);
      n, b, err := 1, chunks[0][0], None;
      chunks := Rest(chunks);
      if eager && chunks == [] {
        err := Some(if eof then Eof else ReadError);
      }
    }
  }

  /** What the loop has yet to return, having gathered `buf`. */
  function Gathered(buf: seq<Byte>, s: seq<Byte>, ending: Ending, limit: nat, parses: seq<Byte> -> bool): ReadResult {
    Next(buf + s, ending, limit, parses)
  }

  lemma GatherNul(buf: seq<Byte>, s: seq<Byte>, ending: Ending, limit: nat, parses: seq<Byte> -> bool)
    requires Writable(buf, limit)
    ensures Gathered(buf, [0] + s, ending, limit, parses) == Parsed(buf, s, parses)
  {
    assert buf + ([0] + s) == Terminated(buf) + s;
    NextInvertsWrite(buf, s, ending, limit, parses);
  }

  lemma GatherFull(buf: seq<Byte>, b: Byte, s: seq<Byte>, ending: Ending, limit: nat, parses: seq<Byte> -> bool)
    requires 0 !in buf && |buf| == limit && b != 0
    ensures Gathered(buf, [b] + s, ending, limit, parses) == TooLong
  {
  }

  lemma GatherEnd(buf: seq<Byte>, ending: Ending, limit: nat, parses: seq<Byte> -> bool)
    requires Writable(buf, limit)
    ensures Gathered(buf, [], ending, limit, parses)
            == if ending == Eof && buf != [] then Parsed(buf, [], parses) else Failed
  {
    assert buf + [] == buf;
    assert forall i :: 0 <= i < |buf| ==> buf[i] in buf;
  }

  method ReadControlMsg(r: Reader, maxBytes: int, parses: seq<Byte> -> bool) returns (answer: Answer)
    requires r.Valid()
    modifies r
    ensures r.Valid()
    ensures var next := Next(old(r.Contents()), old(r.End()), Limit(maxBytes), parses);
            answer == AnswerOf(next) && (next.Ok? || next.Malformed? ==> r.Contents() == next.rest && r.End() == old(r.End()))
  {
    var limit := Limit(maxBytes);
    var buf: seq<Byte> := [];
    assert [] + r.Contents() == r.Contents();
    while true
      invariant r.Valid() && r.End() == old(r.End())
      invariant Writable(buf, limit)
      invariant Gathered(buf, r.Contents(), r.End(), limit, parses)
                == Next(old(r.Contents()), old(r.End()), limit, parses)
      decreases |r.Contents()|
    {
      ghost var end := r.End();
      var n, b, err := r.Read();
      if n > 0 {
        if b == 0 {
          GatherNul(buf, r.Contents(), end, limit, parses);
          return if parses(buf) then Text(buf) else ParseFailed;
        }
        if |buf| == limit {
          GatherFull(buf, b, r.Contents(), end, limit, parses);
          return LimitExceeded;
        }
        Assoc(buf, [b], r.Contents());
        buf := buf + [b];
      }
      if err.Some? {
        GatherEnd(buf, end, limit, parses);
        if err.value == Eof && |buf| > 0 {
          return if parses(buf) then Text(buf) else ParseFailed;
        }
        return ReadFailed;
      }
      if n == 0 {
        GatherEnd(buf, end, limit, parses);
        return ReadFailed;
      }
    }
  }

  // ---- Writing ---------------------------------------------------------------------------------

  datatype WriteAnswer = Sent | Refused | WriteFailed

  class Writer {
    var wire: seq<Byte>

    /** io.WriteString: all of `s`, or a part of it and an error or a short count. */
    method WriteString(s: seq<Byte>) returns (n: nat, ok: bool)
      modifies this
      ensures n <= |s| && wire == old(wire) + s[..n]
    {
      if * {
        n :| 0 <= n <= |s|;
        ok := *;
      } else {
        n, ok := |s|, true;
      }
      wire := wire + s[..n];
    }
  }

  /** Nothing is written of a message that no reader with the same limit could return. */
  method WriteControlMsg(w: Writer, message: seq<Byte>, maxBytes: int) returns (answer: WriteAnswer)
    modifies w
    ensures answer == Refused <==> !Writable(message, Limit(maxBytes))
    ensures answer == Refused ==> w.wire == old(w.wire)
    ensures answer == Sent ==> w.wire == old(w.wire) + Terminated(message)
    ensures answer == WriteFailed ==> exists n :: 0 <= n <= |Terminated(message)| && w.wire == old(w.wire) + Terminated(message)[..n]
  {
    if 0 in message || |message| > Limit(maxBytes) {
      return Refused;
    }
    var wire := Terminated(message);
    var n, ok := w.WriteString(wire);
    if !ok || n != |wire| {
      return WriteFailed;
    }
    assert wire[..n] == wire;
    return Sent;
  }

  /** Phase one and the start of phase two: a message read, put back, and read again. */
  method ReadTwice(live: Reader, parses: seq<Byte> -> bool) returns (first: Answer, replay: Reader, again: Answer)
    requires live.Valid() && live.data == []
    modifies live
    ensures replay.Valid()
    ensures first.Text? ==> again == first
    ensures first.Text? ==>
              Received(old(live.Contents()), old(live.End()), MAX_CONTROL_MESSAGE_BYTES, parses)
              == [first.raw] + Received(replay.Contents(), replay.End(), MAX_CONTROL_MESSAGE_BYTES, parses)
  {
    first := ReadControlMsg(live, 0, parses);
    if !first.Text? {
      return first, live, first;
    }
    replay := new Reader.Replaying(first.raw, live);
    ReplayChangesNothing(old(live.Contents()), old(live.End()), MAX_CONTROL_MESSAGE_BYTES, parses);
    again := ReadControlMsg(replay, 0, parses);
  }
}
