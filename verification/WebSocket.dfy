/** relay/relay.go: the WebSocket framing of the relay connection, section 5 of RFC 6455. */
module WebSocket {

  import opened Bytes

  // ---- Masking -----------------------------------------------------------------------

  /** Exclusive or of the low `k` bits. */
  function XorBits(a: nat, b: nat, k: nat): nat {
    if k == 0 then 0 else 2 * XorBits(a / 2, b / 2, k - 1) + (a % 2 + b % 2) % 2
  }

  lemma {:induction false} XorBitsBound(a: nat, b: nat, k: nat)
    ensures XorBits(a, b, k) < Pow2(k)
  {
    if k > 0 {
      XorBitsBound(a / 2, b / 2, k - 1);
    }
  }

  lemma LastBit(y: nat, a: nat, b: nat)
    ensures var x := 2 * y + (a % 2 + b % 2) % 2; x / 2 == y && (x % 2 + b % 2) % 2 == a % 2
  {
  }

  /** `x` is what becomes of `a`, `y` of its upper bits; `z` of those once more. */
  lemma BackAgain(a: nat, b: nat, x: nat, y: nat, z: nat)
    requires x == 2 * y + (a % 2 + b % 2) % 2 && z == a / 2
    ensures x / 2 == y && 2 * z + (x % 2 + b % 2) % 2 == a
  {
    LastBit(y, a, b);
  }

  lemma {:induction false} XorBitsTwice(a: nat, b: nat, k: nat)
    requires a < Pow2(k)
    ensures XorBits(XorBits(a, b, k), b, k) == a
  {
    if k > 0 {
      var c, d := a / 2, b / 2;
      var y := XorBits(c, d, k - 1);
      XorBitsTwice(c, d, k - 1);
      BackAgain(a, b, XorBits(a, b, k), y, XorBits(y, d, k - 1));
    }
  }

  lemma Pow2Of8()
    ensures Pow2(8) == 0x100
  {
  }

  function Xor(a: Byte, b: Byte): Byte {
    XorBitsBound(a as nat, b as nat, 8);
    Pow2Of8();
    XorBits(a as nat, b as nat, 8) as Byte
  }

  lemma XorTwice(a: Byte, b: Byte)
    ensures Xor(Xor(a, b), b) == a
  {
    Pow2Of8();
    XorBitsTwice(a as nat, b as nat, 8);
  }

  type MaskKey = k: seq<Byte> | |k| == 4 witness [0, 0, 0, 0]

  function Masked(p: seq<Byte>, key: MaskKey): (m: seq<Byte>)
    ensures |m| == |p|
  {
    seq(|p|, i requires 0 <= i < |p| => Xor(p[i], key[i % 4]))
  }

  lemma MaskedTwice(p: seq<Byte>, key: MaskKey)
    ensures Masked(Masked(p, key), key) == p
  {
    forall i | 0 <= i < |p| ensures Masked(Masked(p, key), key)[i] == p[i] {
      XorTwice(p[i], key[i % 4]);
    }
  }

  method MaskInPlace(a: array<Byte>, key: MaskKey)
    modifies a
    ensures a[..] == Masked(old(a[..]), key)
  {
    for i := 0 to a.Length
      invariant forall j :: 0 <= j < i ==> a[j] == Xor(old(a[j]), key[j % 4])
      invariant forall j :: i <= j < a.Length ==> a[j] == old(a[j])
    {
      a[i] := Xor(a[i], key[i % 4]);
    }
  }

  // ---- The byte stream -----------------------------------------------------------------

  /** What the reader meets next: a byte, or the two-second read deadline. */
  datatype Item = Data(byte: Byte) | Timeout

  datatype TakeResult = Got(bytes: seq<Byte>, rest: seq<Item>) | TimedOut(rest: seq<Item>) | Ended

  /** io.ReadFull: exactly `n` bytes, unless the deadline or the end comes first. */
  function Take(items: seq<Item>, n: nat): (r: TakeResult)
    ensures r.Got? ==> |r.bytes| == n && |r.rest| == |items| - n
    ensures r.TimedOut? ==> |r.rest| < |items|
  {
    if n == 0 then Got([], items)
    else if items == [] then Ended
    else if items[0].Timeout? then TimedOut(items[1..])
    else
      match Take(items[1..], n - 1)
      case Got(bs, rest) => Got([items[0].byte] + bs, rest)
      case other => other
  }

  function Left(t: TakeResult): seq<Item>
  {
    if t.Ended? then [] else t.rest
  }

  function Items(bs: seq<Byte>): (r: seq<Item>)
    ensures |r| == |bs|
  {
    seq(|bs|, i requires 0 <= i < |bs| => Data(bs[i]))
  }

  lemma {:induction false} TakeItems(bs: seq<Byte>, rest: seq<Item>)
    ensures Take(Items(bs) + rest, |bs|) == Got(bs, rest)
  {
    if bs == [] {
      assert Items(bs) + rest == rest;
    } else {
      assert (Items(bs) + rest)[1..] == Items(bs[1..]) + rest;
      TakeItems(bs[1..], rest);
      assert [bs[0]] + bs[1..] == bs;
    }
  }

  lemma ItemsAppend(a: seq<Byte>, b: seq<Byte>)
    ensures Items(a + b) == Items(a) + Items(b)
  {
  }

  // ---- One frame ------------------------------------------------------------------------

  datatype LengthResult = Length(n: nat, rest: seq<Item>) | NoLength(rest: seq<Item>)

  /** The 7-bit length, or the 16- or 64-bit one it announces (of 64 bits only the low 32 are used). */
  function ReadLength(code: nat, items: seq<Item>): (r: LengthResult)
    ensures |r.rest| <= |items|
  {
    if code == 126 then
      match Take(items, 2)
      case Got(e, rest) => Length(FromBe16(e), rest)
      case other => NoLength(Left(other))
    else if code == 127 then
      match Take(items, 8)
      case Got(e, rest) => Length(FromBe32(e[4..]), rest)
      case other => NoLength(Left(other))
    else Length(code, items)
  }

  datatype PayloadResult = Payload(bytes: seq<Byte>, rest: seq<Item>) | NoPayload(rest: seq<Item>)

  function ReadPlain(n: nat, items: seq<Item>): (r: PayloadResult)
    ensures |r.rest| <= |items|
  {
    match Take(items, n)
    case Got(p, rest) => Payload(p, rest)
    case other => NoPayload(Left(other))
  }

  function ReadPayload(masked: bool, n: nat, items: seq<Item>): (r: PayloadResult)
    ensures |r.rest| <= |items|
  {
    if !masked then ReadPlain(n, items)
    else
      match Take(items, 4)
      case Got(key, rest) =>
        (match ReadPlain(n, rest)
         case Payload(p, rest') => Payload(Masked(p, key), rest')
         case NoPayload(rest') => NoPayload(rest'))
      case other => NoPayload(Left(other))
  }

  datatype FrameResult =
    | Frame(fin: bool, opcode: nat, payload: seq<Byte>, rest: seq<Item>)
    | Idle(rest: seq<Item>)
    | Broken(rest: seq<Item>)

  function ReadBody(h0: Byte, h1: Byte, items: seq<Item>): (r: FrameResult)
    ensures !r.Idle? && |r.rest| <= |items|
  {
    match ReadLength(h1 as nat % 128, items)
    case NoLength(rest) => Broken(rest)
    case Length(n, rest) =>
      (match ReadPayload(h1 >= 128, n, rest)
       case NoPayload(rest') => Broken(rest')
       case Payload(p, rest') => Frame(h0 >= 128, h0 as nat % 16, p, rest'))
  }

  /** A deadline met before the second header byte is a pause; anywhere else it is an error. */
  function ReadFrame(items: seq<Item>): (r: FrameResult)
    ensures r.Broken? || |r.rest| < |items|
    ensures |r.rest| <= |items|
  {
    match Take(items, 2)
    case Ended => Broken([])
    case TimedOut(rest) => Idle(rest)
    case Got(h, rest) => ReadBody(h[0], h[1], rest)
  }

  /** A frame as a peer sends it, masked or not. */
  datatype Sent = Sent(fin: bool, opcode: nat, mask: Option<MaskKey>, payload: seq<Byte>)

  /** The wire holds the opcode in four bits and the length in 32. */
  predicate WellFormed(f: Sent) {
    f.opcode < 16 && |f.payload| < 0x1_0000_0000
  }

  function MaskBit(f: Sent): nat {
    if f.mask.Some? then 128 else 0
  }

  /** The 7-bit length field and what follows it: the shortest of the three encodings. */
  function LengthCode(n: nat): nat {
    if n < 126 then n else if n < 0x1_0000 then 126 else 127
  }

  /** The last encoding keeps the low 32 bits of the length. */
  function LengthTail(n: nat): seq<Byte> {
    if n < 126 then [] else if n < 0x1_0000 then Be16(n) else [0, 0, 0, 0] + Be32(n % 0x1_0000_0000)
  }

  function LengthBytes(n: nat, maskBit: nat): (s: seq<Byte>)
    requires maskBit == 0 || maskBit == 128
    ensures |s| >= 1
  {
    [(maskBit + LengthCode(n)) as Byte] + LengthTail(n)
  }

  function MaskedBody(f: Sent): seq<Byte> {
    match f.mask
    case None => f.payload
    case Some(key) => key + Masked(f.payload, key)
  }

  function FrameBytes(f: Sent): seq<Byte>
    requires f.opcode < 16
  {
    [((if f.fin then 128 else 0) + f.opcode) as Byte] + (LengthBytes(|f.payload|, MaskBit(f)) + MaskedBody(f))
  }

  lemma ReadShortLength(n: Word16, rest: seq<Item>)
    ensures ReadLength(126, Items(Be16(n)) + rest) == Length(n, rest)
  {
    TakeItems(Be16(n), rest);
  }

  lemma ReadLongLength(n: Word32, rest: seq<Item>)
    ensures ReadLength(127, Items([0, 0, 0, 0] + Be32(n)) + rest) == Length(n, rest)
  {
    var e := [0, 0, 0, 0] + Be32(n);
    TakeItems(e, rest);
    assert e[4..] == Be32(n);
  }

  lemma ReadLengthTail(n: nat, rest: seq<Item>)
    requires n < 0x1_0000_0000
    ensures ReadLength(LengthCode(n), Items(LengthTail(n)) + rest) == Length(n, rest)
  {
    if n < 126 {
      assert Items([]) + rest == rest;
    } else if n < 0x1_0000 {
      ReadShortLength(n, rest);
    } else {
      assert n % 0x1_0000_0000 == n;
      ReadLongLength(n, rest);
    }
  }

  /** The mask bit and the 7-bit field share a byte. */
  lemma LengthHead(n: nat, maskBit: nat)
    requires maskBit == 0 || maskBit == 128
    ensures var s := LengthBytes(n, maskBit);
            (s[0] >= 128 <==> maskBit == 128) && s[0] as nat % 128 == LengthCode(n) && s[1..] == LengthTail(n)
  {
  }

  lemma ReadLengthInverts(n: nat, maskBit: nat, rest: seq<Item>)
    requires n < 0x1_0000_0000
    requires maskBit == 0 || maskBit == 128
    ensures var s := LengthBytes(n, maskBit);
            (s[0] >= 128 <==> maskBit == 128) && ReadLength(s[0] as nat % 128, Items(s[1..]) + rest) == Length(n, rest)
  {
    LengthHead(n, maskBit);
    ReadLengthTail(n, rest);
  }

  lemma ReadPayloadInverts(f: Sent, rest: seq<Item>)
    ensures ReadPayload(f.mask.Some?, |f.payload|, Items(MaskedBody(f)) + rest) == Payload(f.payload, rest)
  {
    match f.mask
    case None => TakeItems(f.payload, rest);
    case Some(key) =>
      var m := Masked(f.payload, key);
      ItemsAppend(key, m);
      Assoc(Items(key), Items(m), rest);
      TakeItems(key, Items(m) + rest);
      TakeItems(m, rest);
      MaskedTwice(f.payload, key);
  }

  /** Reading a frame inverts sending it, masked or not, in all three length encodings. */
  lemma ReadFrameInverts(f: Sent, rest: seq<Item>)
    requires WellFormed(f)
    ensures ReadFrame(Items(FrameBytes(f)) + rest) == Frame(f.fin, f.opcode, f.payload, rest)
  {
    var h0 := ((if f.fin then 128 else 0) + f.opcode) as Byte;
    var len := LengthBytes(|f.payload|, MaskBit(f));
    var tail := Items(MaskedBody(f)) + rest;
    FrameSplits(h0, len, MaskedBody(f), rest);
    TakeItems([h0, len[0]], Items(len[1..]) + tail);
    ReadBodyInverts(f, h0, rest);
  }

  lemma HeaderBits(fin: bool, opcode: nat, h0: Byte)
    requires opcode < 16 && h0 as nat == (if fin then 128 else 0) + opcode
    ensures h0 >= 128 <==> fin
    ensures h0 as nat % 16 == opcode
  {
  }

  lemma ReadBodyInverts(f: Sent, h0: Byte, rest: seq<Item>)
    requires WellFormed(f)
    requires h0 as nat == (if f.fin then 128 else 0) + f.opcode
    ensures var len := LengthBytes(|f.payload|, MaskBit(f));
            ReadBody(h0, len[0], Items(len[1..]) + (Items(MaskedBody(f)) + rest))
            == Frame(f.fin, f.opcode, f.payload, rest)
  {
    var len, tail := LengthBytes(|f.payload|, MaskBit(f)), Items(MaskedBody(f)) + rest;
    HeaderBits(f.fin, f.opcode, h0);
    ReadLengthInverts(|f.payload|, MaskBit(f), tail);
    ReadPayloadInverts(f, rest);
    BodyOf(h0, len[0], Items(len[1..]) + tail, |f.payload|, tail, f.payload, rest);
  }

  lemma BodyOf(h0: Byte, h1: Byte, items: seq<Item>, n: nat, afterLength: seq<Item>, p: seq<Byte>, rest: seq<Item>)
    requires ReadLength(h1 as nat % 128, items) == Length(n, afterLength)
    requires ReadPayload(h1 >= 128, n, afterLength) == Payload(p, rest)
    ensures ReadBody(h0, h1, items) == Frame(h0 >= 128, h0 as nat % 16, p, rest)
  {
  }

  lemma FrameSplits(h0: Byte, len: seq<Byte>, body: seq<Byte>, rest: seq<Item>)
    requires |len| >= 1
    ensures Items([h0] + (len + body)) + rest == Items([h0, len[0]]) + (Items(len[1..]) + (Items(body) + rest))
  {
  }

  // ---- A deadline inside a frame ---------------------------------------------------------

  lemma {:induction false} TakeCutShort(bs: seq<Byte>, rest: seq<Item>, n: nat)
    requires |bs| < n
    ensures Take(Items(bs) + ([Timeout] + rest), n) == TimedOut(rest)
  {
    var all := Items(bs) + ([Timeout] + rest);
    if bs == [] {
      assert all[1..] == rest;
    } else {
      assert all[1..] == Items(bs[1..]) + ([Timeout] + rest);
      TakeCutShort(bs[1..], rest, n - 1);
    }
  }

  lemma OneMoreItem(buf: seq<Byte>, input: seq<Item>)
    requires input != []
    ensures Items(buf) + input == Items(buf) + ([input[0]] + input[1..])
    ensures input[0].Data? ==> Items(buf) + input == Items(buf + [input[0].byte]) + input[1..]
  {
    assert [input[0]] + input[1..] == input;
    if input[0].Data? {
      ItemsAppend(buf, [input[0].byte]);
      assert Items([input[0].byte]) == [input[0]];
      Assoc(Items(buf), [input[0]], input[1..]);
    }
  }

  lemma {:induction false} TakeEnded(bs: seq<Byte>, n: nat)
    requires |bs| < n
    ensures Take(Items(bs), n) == Ended
  {
    if bs != [] {
      assert Items(bs)[1..] == Items(bs[1..]);
      TakeEnded(bs[1..], n - 1);
    }
  }

  lemma LengthCutShort(n: nat, maskBit: nat, k: nat, rest: seq<Item>)
    requires maskBit == 0 || maskBit == 128
    requires 1 <= k < |LengthBytes(n, maskBit)|
    ensures var s := LengthBytes(n, maskBit);
            ReadLength(s[0] as nat % 128, Items(s[1..k]) + ([Timeout] + rest)).NoLength?
  {
    LengthHead(n, maskBit);
    TakeCutShort(LengthBytes(n, maskBit)[1..k], rest, if n < 0x1_0000 then 2 else 8);
  }

  lemma PayloadCutShort(f: Sent, k: nat, rest: seq<Item>)
    requires k < |MaskedBody(f)|
    ensures ReadPayload(f.mask.Some?, |f.payload|, Items(MaskedBody(f)[..k]) + ([Timeout] + rest)).NoPayload?
  {
    var cut := MaskedBody(f)[..k];
    match f.mask
    case None => TakeCutShort(cut, rest, |f.payload|);
    case Some(key) =>
      if k < 4 {
        TakeCutShort(cut, rest, 4);
      } else {
        assert cut == key + cut[4..];
        ItemsAppend(key, cut[4..]);
        Assoc(Items(key), Items(cut[4..]), [Timeout] + rest);
        TakeItems(key, Items(cut[4..]) + ([Timeout] + rest));
        TakeCutShort(cut[4..], rest, |f.payload|);
      }
  }

  lemma CutInLength(h0: Byte, n: nat, maskBit: nat, body: seq<Byte>, k: nat, rest: seq<Item>)
    requires (maskBit == 0 || maskBit == 128) && 1 <= k < |LengthBytes(n, maskBit)|
    ensures var len := LengthBytes(n, maskBit);
            ReadBody(h0, len[0], Items((len + body)[1..k]) + ([Timeout] + rest)).Broken?
  {
    var len := LengthBytes(n, maskBit);
    assert (len + body)[1..k] == len[1..k];
    LengthCutShort(n, maskBit, k, rest);
    NoLengthBreaks(h0, len[0], Items(len[1..k]) + ([Timeout] + rest));
  }

  lemma CutInBody(h0: Byte, n: nat, maskBit: nat, body: seq<Byte>, k: nat, rest: seq<Item>)
    requires n < 0x1_0000_0000 && (maskBit == 0 || maskBit == 128) && k < |body|
    requires ReadPayload(maskBit == 128, n, Items(body[..k]) + rest).NoPayload?
    ensures var len := LengthBytes(n, maskBit);
            ReadBody(h0, len[0], Items((len + body)[1..|len| + k]) + rest).Broken?
  {
    var len, tail := LengthBytes(n, maskBit), Items(body[..k]) + rest;
    CutAfterLength(len, body, |len| + k, rest);
    ReadLengthInverts(n, maskBit, tail);
    NoPayloadBreaks(h0, len[0], Items(len[1..]) + tail, n, tail);
  }

  lemma BodyCutShort(f: Sent, h0: Byte, k: nat, rest: seq<Item>)
    requires WellFormed(f)
    requires 1 <= k < |LengthBytes(|f.payload|, MaskBit(f))| + |MaskedBody(f)|
    ensures var len := LengthBytes(|f.payload|, MaskBit(f));
            ReadBody(h0, len[0], Items((len + MaskedBody(f))[1..k]) + ([Timeout] + rest)).Broken?
  {
    var n, maskBit, body := |f.payload|, MaskBit(f), MaskedBody(f);
    var len := LengthBytes(n, maskBit);
    if k < |len| {
      CutInLength(h0, n, maskBit, body, k, rest);
    } else {
      PayloadCutShort(f, k - |len|, rest);
      CutInBody(h0, n, maskBit, body, k - |len|, [Timeout] + rest);
    }
  }

  lemma NoLengthBreaks(h0: Byte, h1: Byte, items: seq<Item>)
    requires ReadLength(h1 as nat % 128, items).NoLength?
    ensures ReadBody(h0, h1, items).Broken?
  {
  }

  lemma NoPayloadBreaks(h0: Byte, h1: Byte, items: seq<Item>, n: nat, tail: seq<Item>)
    requires ReadLength(h1 as nat % 128, items) == Length(n, tail) && ReadPayload(h1 >= 128, n, tail).NoPayload?
    ensures ReadBody(h0, h1, items).Broken?
  {
  }

  lemma CutAfterLength(len: seq<Byte>, body: seq<Byte>, k: nat, rest: seq<Item>)
    requires 1 <= |len| <= k <= |len| + |body|
    ensures Items((len + body)[1..k]) + rest == Items(len[1..]) + (Items(body[..k - |len|]) + rest)
  {
    var cut := body[..k - |len|];
    assert (len + body)[1..k] == len[1..] + cut;
    ItemsAppend(len[1..], cut);
    Assoc(Items(len[1..]), Items(cut), rest);
  }

  /** The frame with a deadline met after its first `k` bytes. */
  function Interrupted(f: Sent, k: nat, rest: seq<Item>): seq<Item>
    requires f.opcode < 16 && k <= |FrameBytes(f)|
  {
    Items(FrameBytes(f)[..k]) + ([Timeout] + (Items(FrameBytes(f)[k..]) + rest))
  }

  /**
   * A deadline before a frame or after it is harmless; one after the first header byte drops that
   * byte and goes on reading the rest as a new frame; one anywhere else breaks the connection.
   */
  lemma DeadlineExactly(f: Sent, k: nat, rest: seq<Item>)
    requires WellFormed(f) && k <= |FrameBytes(f)|
    ensures k == 0 ==> ReadFrame(Interrupted(f, k, rest)) == Idle(Items(FrameBytes(f)) + rest)
    ensures k == 1 ==> ReadFrame(Interrupted(f, k, rest)) == Idle(Items(FrameBytes(f)[1..]) + rest)
    ensures 2 <= k < |FrameBytes(f)| ==> ReadFrame(Interrupted(f, k, rest)).Broken?
    ensures k == |FrameBytes(f)| ==>
              ReadFrame(Interrupted(f, k, rest)) == Frame(f.fin, f.opcode, f.payload, [Timeout] + rest)
  {
    var bytes := FrameBytes(f);
    var tail := Items(bytes[k..]) + rest;
    if k < 2 {
      TakeCutShort(bytes[..k], tail, 2);
      assert bytes[0..] == bytes;
    } else if k == |bytes| {
      assert bytes[..k] == bytes;
      assert Items(bytes[k..]) + rest == rest;
      ReadFrameInverts(f, [Timeout] + rest);
    } else {
      var len := LengthBytes(|f.payload|, MaskBit(f));
      var more := (len + MaskedBody(f))[1..k - 1];
      assert bytes[..k] == [bytes[0], len[0]] + more;
      ItemsAppend([bytes[0], len[0]], more);
      Assoc(Items([bytes[0], len[0]]), Items(more), [Timeout] + tail);
      TakeItems([bytes[0], len[0]], Items(more) + ([Timeout] + tail));
      BodyCutShort(f, bytes[0], k - 1, tail);
    }
  }

  // ---- Whole messages ----------------------------------------------------------------------

  const CONTINUATION := 0
  const TEXT := 1
  const BINARY := 2
  const CLOSE := 8
  const PING := 9
  const PONG := 10

  /** What one frame does, given the fragments gathered so far. */
  datatype Step = Deliver(bytes: seq<Byte>) | Stop | Go(msg: seq<Byte>, pings: seq<seq<Byte>>)

  function Handle(fin: bool, opcode: nat, p: seq<Byte>, msg: seq<Byte>): Step {
    if opcode == CONTINUATION then
      if fin && msg + p != [] then Deliver(msg + p) else Go(msg + p, [])
    else if opcode == TEXT || opcode == BINARY then
      if !fin then Go(p, []) else if p == [] then Go(msg, []) else Deliver(p)
    else if opcode == CLOSE then Stop
    else if opcode == PING then Go(msg, [p])
    else Go(msg, [])
  }

  datatype Outcome =
    | Message(bytes: seq<Byte>, rest: seq<Item>, pings: seq<seq<Byte>>)
    | Failure(rest: seq<Item>, pings: seq<seq<Byte>>)

  function Pinged(pings: seq<seq<Byte>>, o: Outcome): Outcome {
    o.(pings := pings + o.pings)
  }

  /** Frames are read until one completes a non-empty message. */
  function MessageFrom(items: seq<Item>, msg: seq<Byte>): (r: Outcome)
    ensures r.Message? ==> |r.rest| < |items|
    decreases |items|
  {
    match ReadFrame(items)
    case Broken(rest) => Failure(rest, [])
    case Idle(rest) => MessageFrom(rest, msg)
    case Frame(fin, opcode, p, rest) =>
      (match Handle(fin, opcode, p, msg)
       case Deliver(m) => Message(m, rest, [])
       case Stop => Failure(rest, [])
       case Go(m, pings) => Pinged(pings, MessageFrom(rest, m)))
  }

  function Continued(s: Step, rest: seq<Item>): Outcome {
    match s
    case Deliver(m) => Message(m, rest, [])
    case Stop => Failure(rest, [])
    case Go(m, pings) => Pinged(pings, MessageFrom(rest, m))
  }

  /** What a peer does: it sends a frame, or lets the deadline pass between frames. */
  datatype Event = Pause | Send(frame: Sent)

  function EventItems(e: Event): seq<Item>
    requires e.Send? ==> WellFormed(e.frame)
  {
    match e
    case Pause => [Timeout]
    case Send(f) => Items(FrameBytes(f))
  }

  predicate AllWellFormed(events: seq<Event>) {
    forall i :: 0 <= i < |events| && events[i].Send? ==> WellFormed(events[i].frame) && events[i].frame.opcode != CLOSE
  }

  function Stream(events: seq<Event>, rest: seq<Item>): seq<Item>
    requires AllWellFormed(events)
  {
    if events == [] then rest else EventItems(events[0]) + Stream(events[1..], rest)
  }

  predicate IsData(e: Event) {
    e.Send? && e.frame.opcode <= BINARY
  }

  function DataFrames(events: seq<Event>): seq<Sent> {
    if events == [] then []
    else if IsData(events[0]) then [events[0].frame] + DataFrames(events[1..])
    else DataFrames(events[1..])
  }

  function Pings(events: seq<Event>): seq<seq<Byte>> {
    if events == [] then []
    else if events[0].Send? && events[0].frame.opcode == PING then [events[0].frame.payload] + Pings(events[1..])
    else Pings(events[1..])
  }

  function Joined(frames: seq<Sent>): seq<Byte> {
    if frames == [] then [] else frames[0].payload + Joined(frames[1..])
  }

  /** The last frames of one message: `started` says whether its first frame has gone before. */
  predicate Fragments(frames: seq<Sent>, started: bool) {
    frames != []
    && (if started then frames[0].opcode == CONTINUATION else frames[0].opcode == TEXT || frames[0].opcode == BINARY)
    && (forall i :: 0 < i < |frames| ==> frames[i].opcode == CONTINUATION)
    && (forall i :: 0 <= i < |frames| ==> (frames[i].fin <==> i == |frames| - 1))
  }

  /** The stream up to the end of one message, with pauses and other frames anywhere in it. */
  predicate Carries(events: seq<Event>, started: bool) {
    AllWellFormed(events)
    && Fragments(DataFrames(events), started)
    && events != [] && IsData(events[|events| - 1])
  }

  lemma PingedTwice(a: seq<seq<Byte>>, b: seq<seq<Byte>>, o: Outcome)
    ensures Pinged(a, Pinged(b, o)) == Pinged(a + b, o)
  {
  }

  /** One event, as the reader sees it. */
  lemma ReadEvent(e: Event, rest: seq<Item>, msg: seq<Byte>)
    requires e.Send? ==> WellFormed(e.frame)
    ensures e.Pause? ==> MessageFrom(EventItems(e) + rest, msg) == MessageFrom(rest, msg)
    ensures e.Send? ==>
              MessageFrom(EventItems(e) + rest, msg)
              == Continued(Handle(e.frame.fin, e.frame.opcode, e.frame.payload, msg), rest)
  {
    match e
    case Pause =>
      assert ([Timeout] + rest)[1..] == rest;
      assert Take([Timeout] + rest, 2) == TimedOut(rest);
    case Send(f) =>
      ReadFrameInverts(f, rest);
  }

  lemma PingedStep(pings: seq<seq<Byte>>, s: Step, rest: seq<Item>)
    ensures s.Deliver? ==> Pinged(pings, Continued(s, rest)) == Message(s.bytes, rest, pings)
    ensures s.Stop? ==> Pinged(pings, Continued(s, rest)) == Failure(rest, pings)
    ensures s.Go? ==> Pinged(pings, Continued(s, rest)) == Pinged(pings + s.pings, MessageFrom(rest, s.msg))
    ensures s.Go? && s.pings == [] ==> pings + s.pings == pings
  {
    assert pings + [] == pings;
    if s.Go? {
      PingedTwice(pings, s.pings, MessageFrom(rest, s.msg));
    }
  }

  /** The message that `events` complete, and what the reader makes of it. */
  function Completed(events: seq<Event>, msg: seq<Byte>, rest: seq<Item>): Outcome {
    var whole := msg + Joined(DataFrames(events));
    if whole == [] then Pinged(Pings(events), MessageFrom(rest, [])) else Message(whole, rest, Pings(events))
  }

  lemma PingedNone(o: Outcome)
    ensures Pinged([], o) == o
  {
  }

  /** No data frame is left after the last one. */
  lemma LastData(more: seq<Event>)
    requires DataFrames(more) == []
    requires more != [] ==> IsData(more[|more| - 1])
    ensures more == []
  {
  }

  lemma {:induction false} DataFramesOfLast(events: seq<Event>)
    requires events != [] && IsData(events[|events| - 1])
    ensures DataFrames(events) != []
  {
    if |events| > 1 {
      DataFramesOfLast(events[1..]);
    }
  }

  lemma SingleFrame(f: Sent)
    requires IsData(Send(f))
    ensures DataFrames([Send(f)]) == [f] && Joined([f]) == f.payload && Pings([Send(f)]) == []
  {
    var events := [Send(f)];
    assert events[1..] == [] && [f][1..] == [];
    assert [f] + DataFrames([]) == [f] && f.payload + Joined([]) == f.payload;
  }

  lemma ReadLast(f: Sent, msg: seq<Byte>, rest: seq<Item>)
    requires AllWellFormed([Send(f)]) && IsData(Send(f)) && f.fin
    requires f.opcode != CONTINUATION ==> msg == []
    ensures MessageFrom(Stream([Send(f)], rest), msg) == Completed([Send(f)], msg, rest)
  {
    var events := [Send(f)];
    assert events[0] == Send(f) && events[1..] == [];
    assert Stream(events, rest) == EventItems(Send(f)) + rest;
    SingleFrame(f);
    ReadEvent(Send(f), rest, msg);
    PingedNone(MessageFrom(rest, []));
    assert [] + f.payload == f.payload;
  }

  /** What is left to read of a message after its next event. */
  lemma CarriesMore(e: Event, more: seq<Event>, started: bool)
    requires Carries([e] + more, started)
    ensures !IsData(e) ==> Carries(more, started)
    ensures IsData(e) && !e.frame.fin ==> Carries(more, true)
    ensures IsData(e) && e.frame.fin ==> more == []
    ensures IsData(e) ==> (e.frame.opcode == CONTINUATION <==> started)
  {
    var events := [e] + more;
    assert events[1..] == more;
    assert forall i :: 0 <= i < |more| ==> more[i] == events[i + 1];
    if IsData(e) {
      var frames, after := DataFrames(events), DataFrames(more);
      assert frames == [e.frame] + after;
      assert forall i :: 0 <= i < |after| ==> after[i] == frames[i + 1];
      if e.frame.fin {
        LastData(more);
      }
    }
  }

  lemma ReadPart(e: Event, more: seq<Event>, msg: seq<Byte>, rest: seq<Item>)
    requires IsData(e) && !e.frame.fin && AllWellFormed([e] + more) && AllWellFormed(more)
    requires e.frame.opcode != CONTINUATION ==> msg == []
    ensures MessageFrom(Stream([e] + more, rest), msg) == MessageFrom(Stream(more, rest), msg + e.frame.payload)
    ensures Completed([e] + more, msg, rest) == Completed(more, msg + e.frame.payload, rest)
  {
    var events, p := [e] + more, e.frame.payload;
    assert events[0] == e && events[1..] == more;
    ReadEvent(e, Stream(more, rest), msg);
    assert [] + p == p;
    PingedNone(MessageFrom(Stream(more, rest), msg + p));
    assert DataFrames(events)[1..] == DataFrames(more);
    Assoc(msg, p, Joined(DataFrames(more)));
  }

  lemma ReadOther(e: Event, more: seq<Event>, msg: seq<Byte>, rest: seq<Item>)
    requires !IsData(e) && AllWellFormed([e] + more) && AllWellFormed(more)
    requires MessageFrom(Stream(more, rest), msg) == Completed(more, msg, rest)
    ensures MessageFrom(Stream([e] + more, rest), msg) == Completed([e] + more, msg, rest)
  {
    var events := [e] + more;
    assert events[0] == e && events[1..] == more;
    ReadEvent(e, Stream(more, rest), msg);
    PingedNone(Completed(more, msg, rest));
    if e.Send? && e.frame.opcode == PING {
      PingedTwice([e.frame.payload], Pings(more), MessageFrom(rest, []));
    }
  }

  /**
   * However a message is cut into fragments, whichever of them are masked, and whatever pings,
   * pongs and pauses come in between, the reader returns the message; an empty one it skips.
   */
  lemma {:induction false} Reassembles(events: seq<Event>, started: bool, msg: seq<Byte>, rest: seq<Item>)
    requires Carries(events, started)
    requires !started ==> msg == []
    ensures MessageFrom(Stream(events, rest), msg) == Completed(events, msg, rest)
    decreases |events|
  {
    var e, more := events[0], events[1..];
    assert events == [e] + more;
    CarriesMore(e, more, started);
    if !IsData(e) {
      Reassembles(more, started, msg, rest);
      ReadOther(e, more, msg, rest);
    } else if e.frame.fin {
      assert events == [Send(e.frame)];
      ReadLast(e.frame, msg, rest);
    } else {
      Reassembles(more, true, msg + e.frame.payload, rest);
      ReadPart(e, more, msg, rest);
    }
  }

  // ---- A sequence of messages -----------------------------------------------------------------

  /** The messages that repeated reads return before the connection fails. */
  function Received(items: seq<Item>): seq<seq<Byte>>
    decreases |items|
  {
    match MessageFrom(items, [])
    case Message(m, rest, _) => [m] + Received(rest)
    case Failure(_, _) => []
  }

  predicate AllCarry(bursts: seq<seq<Event>>) {
    forall i :: 0 <= i < |bursts| ==> Carries(bursts[i], false)
  }

  function Streams(bursts: seq<seq<Event>>): seq<Item>
    requires AllCarry(bursts)
  {
    if bursts == [] then [] else Stream(bursts[0], Streams(bursts[1..]))
  }

  /** The messages sent, without the empty ones a peer uses as keepalives. */
  function NonEmpty(bursts: seq<seq<Event>>): seq<seq<Byte>> {
    if bursts == [] then []
    else
      var m := Joined(DataFrames(bursts[0]));
      if m == [] then NonEmpty(bursts[1..]) else [m] + NonEmpty(bursts[1..])
  }

  lemma {:induction false} ReceivesAll(bursts: seq<seq<Event>>)
    requires AllCarry(bursts)
    ensures Received(Streams(bursts)) == NonEmpty(bursts)
  {
    if bursts == [] {
      assert Take([], 2) == Ended;
    } else {
      var rest := Streams(bursts[1..]);
      ReceivesAll(bursts[1..]);
      Reassembles(bursts[0], false, [], rest);
      assert [] + Joined(DataFrames(bursts[0])) == Joined(DataFrames(bursts[0]));
    }
  }

  /** A deadline after the first header byte: the peer sent "ab", the reader returns another message. */
  lemma DeadlineCorrupts() returns (f: Sent)
    ensures WellFormed(f) && f.payload == [97, 98] && f.fin && f.opcode == TEXT
    ensures 1 <= |FrameBytes(f)| && MessageFrom(Interrupted(f, 1, []), []).Message?
    ensures MessageFrom(Interrupted(f, 1, []), []).bytes != f.payload
  {
    var key: MaskKey := [1, 7, 0, 0];
    f := Sent(true, TEXT, Some(key), [97, 98]);
    DeadlineExactly(f, 1, []);
    var g := Sent(true, BINARY, None, [7]);
    var tail := Items([0, 0] + Masked(f.payload, key));
    assert FrameBytes(g) == [130, 1, 7];
    assert FrameBytes(f) == [129, 130, 1, 7] + ([0, 0] + Masked(f.payload, key));
    ItemsAppend([130, 1, 7], [0, 0] + Masked(f.payload, key));
    assert FrameBytes(f)[1..] == [130, 1, 7] + ([0, 0] + Masked(f.payload, key));
    assert Items(FrameBytes(f)[1..]) + [] == Items(FrameBytes(g)) + tail;
    ReadEvent(Send(g), tail, []);
  }

  // ---- The connection ----------------------------------------------------------------------------

  /** A frame of ours, of which the connection has taken the first `n` bytes. */
  datatype Written = Written(frame: Sent, n: nat)

  predicate Partly(w: Written) {
    w.frame.opcode < 16 && w.n <= |FrameBytes(w.frame)|
  }

  /** The bytes of the frames written so far. */
  function Wire(frames: seq<Written>): seq<Byte>
    requires forall i :: 0 <= i < |frames| ==> Partly(frames[i])
  {
    if frames == [] then []
    else
      var last := frames[|frames| - 1];
      assert Partly(last);
      Wire(frames[..|frames| - 1]) + FrameBytes(last.frame)[..last.n]
  }

  lemma WireSnoc(frames: seq<Written>, w: Written)
    requires (forall i :: 0 <= i < |frames| ==> Partly(frames[i])) && Partly(w)
    ensures forall i :: 0 <= i < |frames + [w]| ==> Partly((frames + [w])[i])
    ensures Wire(frames + [w]) == Wire(frames) + FrameBytes(w.frame)[..w.n]
  {
    assert (frames + [w])[..|frames|] == frames;
  }

  predicate IsPong(f: Sent, payload: seq<Byte>) {
    f.fin && f.opcode == PONG && f.mask.Some? && f.payload == payload
  }

  /** `now` is `before` and a masked pong for each ping, in order. */
  ghost predicate Ponged(before: seq<Written>, now: seq<Written>, pings: seq<seq<Byte>>) {
    |now| == |before| + |pings| && before <= now
    && forall i :: 0 <= i < |pings| ==> IsPong(now[|before| + i].frame, pings[i])
  }

  lemma PongedOne(before: seq<Written>, now: seq<Written>, payload: seq<Byte>)
    requires |now| == |before| + 1 && now[..|before|] == before && IsPong(now[|before|].frame, payload)
    ensures Ponged(before, now, [payload])
  {
  }

  function StepPings(s: Step): seq<seq<Byte>> {
    if s.Go? then s.pings else []
  }

  lemma PongedJoin(a: seq<Written>, b: seq<Written>, c: seq<Written>, p: seq<seq<Byte>>, q: seq<seq<Byte>>)
    requires Ponged(a, b, p) && Ponged(b, c, q)
    ensures Ponged(a, c, p + q)
    ensures q == [] ==> p + q == p
  {
  }

  /** The part of sendFrame before the write. */
  method EncodeFrame(opcode: Byte, key: MaskKey, payload: seq<Byte>) returns (bytes: seq<Byte>)
    requires opcode < 16
    ensures bytes == FrameBytes(Sent(true, opcode as nat, Some(key), payload))
  {
    var n := |payload|;
    var header: seq<Byte> := [128 + opcode];
    if n < 126 {
      header := header + [(128 + n) as Byte];
    } else if n < 0x1_0000 {
      header := header + ([254] + Be16(n));
    } else {
      header := header + ([255] + ([0, 0, 0, 0] + Be32(n % 0x1_0000_0000)));
    }
    assert header == [128 + opcode] + LengthBytes(n, 128);
    header := header + key;
    var masked := new Byte[n](i requires 0 <= i < n => payload[i]);
    assert masked[..] == payload;
    MaskInPlace(masked, key);
    FrameParts(opcode, key, payload);
    return header + masked[..];
  }

  lemma FrameParts(opcode: Byte, key: MaskKey, payload: seq<Byte>)
    requires opcode < 16
    ensures FrameBytes(Sent(true, opcode as nat, Some(key), payload))
            == [128 + opcode] + LengthBytes(|payload|, 128) + key + Masked(payload, key)
  {
    var first, length, masked := [128 + opcode], LengthBytes(|payload|, 128), Masked(payload, key);
    Assoc(first + length, key, masked);
    Assoc(first, length, key + masked);
  }

  class Connection {
    var input: seq<Item>
    var sent: seq<Byte>
    ghost var frames: seq<Written>

    ghost predicate Valid() reads this {
      (forall i :: 0 <= i < |frames| ==> Partly(frames[i])) && sent == Wire(frames)
    }

    constructor (input: seq<Item>)
      ensures Valid() && this.input == input && sent == [] && frames == []
    {
      this.input, sent, frames := input, [], [];
    }

    /**
     * Exactly `n` bytes and no more are taken off the stream; a deadline or the end before that
     * loses the bytes read so far, which are `lost`.
     */
    method ReadFull(n: nat) returns (r: TakeResult, ghost lost: seq<Byte>)
      requires Valid()
      modifies this`input
      ensures Valid() && r == Take(old(input), n) && input == Left(r)
      ensures r.Got? ==> |r.bytes| == n && old(input) == Items(r.bytes) + input
      ensures r.TimedOut? ==> |lost| < n && old(input) == Items(lost) + ([Timeout] + input)
      ensures r.Ended? ==> |lost| < n && old(input) == Items(lost) && input == []
    {
      var buf: seq<Byte> := [];
      while |buf| < n
        invariant Valid() && |buf| <= n
        invariant old(input) == Items(buf) + input
        decreases n - |buf|
      {
        if |input| == 0 {
          assert Items(buf) + [] == Items(buf);
          TakeEnded(buf, n);
          return Ended, buf;
        }
        var item := input[0];
        OneMoreItem(buf, input);
        input := input[1..];
        if item.Timeout? {
          TakeCutShort(buf, input, n);
          return TimedOut(input), buf;
        }
        buf := buf + [item.byte];
      }
      TakeItems(buf, input);
      return Got(buf, input), [];
    }

    /**
     * Client frames are final and masked with a fresh random key, and go out in one write, of which
     * an error may leave any part.
     */
    method SendFrame(opcode: Byte, payload: seq<Byte>) returns (ok: bool)
      requires Valid() && opcode < 16
      modifies this`sent, this`frames
      ensures Valid()
      ensures |frames| == |old(frames)| + 1 && frames[..|old(frames)|] == old(frames)
      ensures var w := frames[|old(frames)|];
              && w.frame.fin && w.frame.opcode == opcode as nat && w.frame.mask.Some? && w.frame.payload == payload
              && (ok ==> w.n == |FrameBytes(w.frame)|)
    {
      var key: MaskKey := *;
      var bytes := EncodeFrame(opcode, key, payload);
      ok := *;
      var n := |bytes|;
      if !ok {
        n :| 0 <= n <= |bytes|;
      }
      ghost var w := Written(Sent(true, opcode as nat, Some(key), payload), n);
      WireSnoc(frames, w);
      sent := sent + bytes[..n];
      frames := frames + [w];
    }

    /** The answer to a ping; an error is ignored. */
    method Pong(payload: seq<Byte>)
      requires Valid()
      modifies this`sent, this`frames
      ensures Valid() && Ponged(old(frames), frames, [payload])
    {
      var _ := SendFrame(10, payload);
      PongedOne(old(frames), frames, payload);
    }

    method NextLength(code: nat) returns (r: LengthResult)
      requires Valid()
      modifies this`input
      ensures Valid() && r == ReadLength(code, old(input)) && input == r.rest
    {
      if code == 126 {
        var ext, _ := ReadFull(2);
        if !ext.Got? {
          return NoLength(input);
        }
        return Length(FromBe16(ext.bytes), input);
      }
      if code == 127 {
        var ext, _ := ReadFull(8);
        if !ext.Got? {
          return NoLength(input);
        }
        return Length(FromBe32(ext.bytes[4..]), input);
      }
      return Length(code, input);
    }

    method NextPayload(masked: bool, n: nat) returns (r: PayloadResult)
      requires Valid()
      modifies this`input
      ensures Valid() && r == ReadPayload(masked, n, old(input)) && input == r.rest
    {
      var key: MaskKey := [0, 0, 0, 0];
      if masked {
        var k, _ := ReadFull(4);
        if !k.Got? {
          return NoPayload(input);
        }
        key := k.bytes;
      }
      var p, _ := ReadFull(n);
      if !p.Got? {
        return NoPayload(input);
      }
      if !masked {
        return Payload(p.bytes, input);
      }
      var payload := new Byte[n](i requires 0 <= i < n => p.bytes[i]);
      assert payload[..] == p.bytes;
      MaskInPlace(payload, key);
      return Payload(payload[..], input);
    }

    /** The reading half of one round of readMessage's loop. */
    method NextFrame() returns (r: FrameResult)
      requires Valid()
      modifies this`input
      ensures Valid() && r == ReadFrame(old(input)) && input == r.rest
    {
      var header, _ := ReadFull(2);
      match header
      case Ended =>
        return Broken(input);
      case TimedOut(_) =>
        return Idle(input);
      case Got(h, _) =>
        var len := NextLength(h[1] as nat % 128);
        if len.NoLength? {
          return Broken(input);
        }
        var p := NextPayload(h[1] >= 128, len.n);
        if p.NoPayload? {
          return Broken(input);
        }
        return Frame(h[0] >= 128, h[0] as nat % 16, p.bytes, input);
    }

    /** Returns the next message, answering every ping met on the way, in order, with its payload. */
    method ReadMessage() returns (ok: bool, message: seq<Byte>)
      requires Valid()
      modifies this
      ensures Valid()
      ensures var o := MessageFrom(old(input), []);
              ok == o.Message? && (ok ==> message == o.bytes) && input == o.rest && Ponged(old(frames), frames, o.pings)
    {
      var msg: seq<Byte> := [];
      ghost var pings: seq<seq<Byte>> := [];
      PingedNone(MessageFrom(input, msg));
      while true
        invariant Valid()
        invariant MessageFrom(old(input), []) == Pinged(pings, MessageFrom(input, msg))
        invariant Ponged(old(frames), frames, pings)
        decreases |input|
      {
        ghost var before := input;
        var frame := NextFrame();
        match frame
        case Broken(_) =>
          assert pings + [] == pings;
          return false, [];
        case Idle(_) =>
        case Frame(fin, opcode, p, _) =>
          ghost var was := frames;
          var step := Dispatch(fin, opcode, p, msg);
          assert MessageFrom(before, msg) == Continued(step, input);
          PingedStep(pings, step, input);
          PongedJoin(old(frames), was, frames, pings, StepPings(step));
          match step {
            case Deliver(m) => return true, m;
            case Stop => return false, [];
            case Go(m, answered) =>
              msg := m;
              pings := pings + answered;
          }
      }
    }

    /** The deciding half of one round of readMessage's loop. */
    method Dispatch(fin: bool, opcode: nat, p: seq<Byte>, msg: seq<Byte>) returns (s: Step)
      requires Valid()
      modifies this`sent, this`frames
      ensures Valid()
      ensures s == Handle(fin, opcode, p, msg)
      ensures Ponged(old(frames), frames, StepPings(s))
    {
      if opcode == CONTINUATION {
        var m := msg + p;
        if fin && |m| > 0 {
          return Deliver(m);
        }
        return Go(m, []);
      } else if opcode == TEXT || opcode == BINARY {
        if !fin {
          return Go(p, []);
        }
        if |p| == 0 {
          return Go(msg, []);
        }
        return Deliver(p);
      } else if opcode == CLOSE {
        return Stop;
      } else if opcode == PING {
        Pong(p);
        return Go(msg, [p]);
      }
      return Go(msg, []);
    }
  }
}
