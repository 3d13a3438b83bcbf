/** Bytes, fixed-width words and their big-endian forms, as encoding/binary reads and writes them. */
module Bytes {

  newtype Byte = b: int | 0 <= b < 0x100
  type Word16 = w: int | 0 <= w < 0x1_0000
  type Word32 = w: int | 0 <= w < 0x1_0000_0000

  datatype Option<+T> = None | Some(value: T)

  function Pow2(k: nat): (p: int)
    ensures p > 0
  {
    if k == 0 then 1 else 2 * Pow2(k - 1)
  }

  function Be16(w: Word16): (s: seq<Byte>)
    ensures |s| == 2 && FromBe16(s) == w
  {
    [(w / 0x100) as Byte, (w % 0x100) as Byte]
  }

  /** Reads the first two bytes of `s`. */
  function FromBe16(s: seq<Byte>): Word16
    requires |s| >= 2
  {
    s[0] as int * 0x100 + s[1] as int
  }

  function Be32(w: Word32): (s: seq<Byte>)
    ensures |s| == 4 && FromBe32(s) == w
  {
    var hi, lo := w / 0x1_0000, w % 0x1_0000;
    [(hi / 0x100) as Byte, (hi % 0x100) as Byte, (lo / 0x100) as Byte, (lo % 0x100) as Byte]
  }

  /** Reads the first four bytes of `s`. */
  function FromBe32(s: seq<Byte>): Word32
    requires |s| >= 4
  {
    (s[0] as int * 0x100 + s[1] as int) * 0x1_0000 + (s[2] as int * 0x100 + s[3] as int)
  }

  function Concat(parts: seq<seq<Byte>>): seq<Byte> {
    if parts == [] then [] else parts[0] + Concat(parts[1..])
  }

  lemma Assoc<T>(a: seq<T>, b: seq<T>, c: seq<T>)
    ensures a + b + c == a + (b + c)
  {
  }

  lemma {:induction false} ConcatAppend(a: seq<seq<Byte>>, b: seq<seq<Byte>>)
    ensures Concat(a + b) == Concat(a) + Concat(b)
  {
    if a == [] {
      assert a + b == b;
    } else {
      calc {
        Concat(a + b);
        { assert (a + b)[0] == a[0] && (a + b)[1..] == a[1..] + b; }
        a[0] + Concat(a[1..] + b);
        { ConcatAppend(a[1..], b); }
        a[0] + (Concat(a[1..]) + Concat(b));
        { Assoc(a[0], Concat(a[1..]), Concat(b)); }
        Concat(a) + Concat(b);
      }
    }
  }

  lemma ConcatSnoc(a: seq<seq<Byte>>, p: seq<Byte>)
    ensures Concat(a + [p]) == Concat(a) + p
  {
    ConcatAppend(a, [p]);
    assert Concat([p]) == p + Concat([]);
  }
}
