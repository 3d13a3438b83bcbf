/** internal/mssfix: one's-complement checksums with a 32-bit accumulator. */
module InternetChecksum {
  import opened Bytes

  /** Sum of the big-endian 16-bit words; an odd last byte is the high half of a word. */
  function WordSum(b: seq<Byte>): nat {
    if b == [] then 0
    else if |b| == 1 then b[0] as int * 0x100
    else FromBe16(b) + WordSum(b[2..])
  }

  /** End-around carry. */
  function Fold(sum: nat): (r: nat)
    ensures r < 0x1_0000
  {
    if sum < 0x1_0000 then sum else Fold(sum % 0x1_0000 + sum / 0x1_0000)
  }

  lemma {:induction false} WordSumBound(b: seq<Byte>)
    ensures 2 * WordSum(b) <= 0xFFFF * (|b| + 1)
  {
    if |b| >= 2 {
      WordSumBound(b[2..]);
    }
  }

  /** Folding keeps the residue modulo 65535 and does not turn something into nothing. */
  lemma {:induction false} FoldResidue(sum: nat)
    ensures Fold(sum) % 0xFFFF == sum % 0xFFFF
    ensures sum > 0 ==> Fold(sum) > 0
  {
    if sum >= 0x1_0000 {
      var next := sum % 0x1_0000 + sum / 0x1_0000;
      FoldResidue(next);
      assert sum == next + 0xFFFF * (sum / 0x1_0000);
      AddMultiple(next, sum / 0x1_0000);
    }
  }

  lemma AddMultiple(x: nat, k: nat)
    ensures (x + 0xFFFF * k) % 0xFFFF == x % 0xFFFF
  {
  }

  /** Adding the complement of the folded sum makes the whole fold to 0xffff. */
  lemma ComplementVerifies(sum: nat)
    ensures Fold(sum + (0xFFFF - Fold(sum))) == 0xFFFF
  {
    FoldResidue(sum);
    var total := sum + (0xFFFF - Fold(sum));
    FoldResidue(total);
    ResidueZero(sum, Fold(sum));
    OnlyFullFold(Fold(total));
  }

  lemma ResidueZero(sum: nat, f: nat)
    requires f % 0xFFFF == sum % 0xFFFF && f <= 0xFFFF && (sum == 0 ==> f == 0)
    ensures (sum + (0xFFFF - f)) % 0xFFFF == 0 && sum + (0xFFFF - f) > 0
  {
  }

  lemma OnlyFullFold(g: nat)
    requires 0 < g <= 0xFFFF && g % 0xFFFF == 0
    ensures g == 0xFFFF
  {
  }

  /** Where the written 16-bit field sits on an even offset, it contributes its own value. */
  lemma {:induction false} WordSumPut(b: seq<Byte>, k: nat, v: Word16)
    requires k % 2 == 0 && k + 2 <= |b|
    ensures WordSum(Put16(b, k, v)) == WordSum(b) - FromBe16(b[k..]) + v
  {
    var b' := Put16(b, k, v);
    if k == 0 {
      assert b'[2..] == b[2..] && FromBe16(b') == v;
    } else {
      WordSumPut(b[2..], k - 2, v);
      assert b'[2..] == Put16(b[2..], k - 2, v);
      assert b[2..][k - 2..] == b[k..];
      assert FromBe16(b') == FromBe16(b);
    }
  }

  /** The field reads back as written, and nothing else changes. */
  function Put16(b: seq<Byte>, k: nat, v: Word16): (r: seq<Byte>)
    requires k + 2 <= |b|
    ensures |r| == |b| && FromBe16(r[k..]) == v
    ensures forall j :: 0 <= j < |b| && j != k && j != k + 1 ==> r[j] == b[j]
  {
    b[k := (v / 0x100) as Byte][k + 1 := (v % 0x100) as Byte]
  }

  lemma {:induction false} WordSumSplit(a: seq<Byte>, b: seq<Byte>)
    requires |a| % 2 == 0
    ensures WordSum(a + b) == WordSum(a) + WordSum(b)
  {
    if a == [] {
      assert a + b == b;
    } else {
      WordSumSplit(a[2..], b);
      assert (a + b)[2..] == a[2..] + b;
    }
  }

  lemma WordSumThree(a: seq<Byte>, b: seq<Byte>, c: seq<Byte>)
    requires |a| % 2 == 0 && |b| % 2 == 0
    ensures WordSum(a + b + c) == WordSum(a) + WordSum(b) + WordSum(c)
  {
    WordSumSplit(a + b, c);
    WordSumSplit(a, b);
  }

  lemma OneWord(x: Byte, y: Byte)
    ensures WordSum([x, y]) == x as int * 0x100 + y as int
  {
    assert [x, y][2..] == [];
  }

  lemma Be16Sum(n: Word16)
    ensures WordSum(Be16(n)) == n
  {
    OneWord((n / 0x100) as Byte, (n % 0x100) as Byte);
  }

  lemma Be32Sum(n: Word16)
    ensures WordSum(Be32(n)) == n
  {
    var hi, lo := (n / 0x100) as Byte, (n % 0x100) as Byte;
    assert Be32(n) == [0, 0] + [hi, lo];
    WordSumSplit([0, 0], [hi, lo]);
    OneWord(0, 0);
    OneWord(hi, lo);
  }

  lemma {:induction false} ZerosAddNothing(b: seq<Byte>, z: seq<Byte>)
    requires forall j :: 0 <= j < |z| ==> z[j] == 0
    ensures WordSum(b + z) == WordSum(b)
    decreases |b| + |z|
  {
    var all := b + z;
    if |b| >= 2 {
      assert all[2..] == b[2..] + z;
      ZerosAddNothing(b[2..], z);
    } else if |all| >= 2 {
      var rest := z[2 - |b|..];
      assert all[2..] == [] + rest;
      ZerosAddNothing([], rest);
    }
  }

  lemma FullFold(sum: nat)
    ensures Fold(sum) == 0xFFFF <==> sum > 0 && sum % 0xFFFF == 0
  {
    FoldResidue(sum);
    if sum > 0 && sum % 0xFFFF == 0 {
      OnlyFullFold(Fold(sum));
    }
  }

  lemma SumDivisible(r: int, e: int)
    requires (r + e) % 0xFFFF == 0
    ensures r % 0xFFFF == 0 <==> e % 0xFFFF == 0
  {
  }

  /** What a 32-bit accumulator keeps. */
  function Wrap32(sum: nat): Word32 {
    sum % 0x1_0000_0000
  }

  lemma WrapAdd(x: nat, y: nat)
    ensures Wrap32(Wrap32(x) + y) == Wrap32(x + y)
  {
  }

  lemma NextWord(b: seq<Byte>, i: nat)
    requires i + 1 < |b|
    ensures WordSum(b[i..]) == FromBe16(b[i..]) + WordSum(b[i + 2..])
  {
    assert b[i..][2..] == b[i + 2..];
  }

  /** A word more in the accumulator, a word less to come. */
  lemma Accumulates(sum: nat, word: nat, rest: nat, total: Word32)
    requires Wrap32(sum + (word + rest)) == total
    ensures Wrap32(Wrap32(sum + word) + rest) == total
  {
    WrapAdd(sum + word, rest);
    assert sum + word + rest == sum + (word + rest);
  }

  lemma LastByte(b: seq<Byte>, i: nat)
    requires i <= |b| <= i + 1 && i % 2 == 0
    ensures WordSum(b[i..]) == if |b| % 2 != 0 then b[|b| - 1] as int * 0x100 else 0
  {
  }

  /** Adding in 32 bits throughout is adding and then cutting to 32 bits. */
  method AddBytes(sum0: Word32, b: seq<Byte>) returns (sum: Word32)
    ensures sum == Wrap32(sum0 + WordSum(b))
  {
    sum := sum0;
    var i := 0;
    ghost var total := Wrap32(sum0 + WordSum(b));
    ghost var rest: nat := WordSum(b);
    assert b[0..] == b;
    while i + 1 < |b|
      invariant 0 <= i <= |b| && i % 2 == 0
      invariant rest == WordSum(b[i..]) && Wrap32(sum + rest) == total
    {
      var word := FromBe16(b[i..]);
      NextWord(b, i);
      Accumulates(sum, word, rest - word, total);
      sum := Wrap32(sum + word);
      rest := rest - word;
      i := i + 2;
    }
    LastByte(b, i);
    if |b| % 2 != 0 {
      sum := Wrap32(sum + b[|b| - 1] as int * 0x100);
    }
  }

  method FoldSum(sum0: Word32) returns (sum: Word16)
    ensures sum == Fold(sum0)
  {
    var s: nat := sum0;
    while s / 0x1_0000 != 0
      invariant Fold(s) == Fold(sum0)
      decreases s
    {
      s := s % 0x1_0000 + s / 0x1_0000;
    }
    return s;
  }

  /** The checksum the code makes of a sum. */
  function Complement(sum: nat): Word16 {
    0xFFFF - Fold(Wrap32(sum))
  }

  method Checksum(b: seq<Byte>) returns (c: Word16)
    ensures c == Complement(WordSum(b))
  {
    var sum := AddBytes(0, b);
    var folded := FoldSum(sum);
    return 0xFFFF - folded;
  }

  /** Up to 64 KiB behind a pseudo-header of at most 40 bytes the accumulator does not overflow. */
  lemma NoOverflow(a: seq<Byte>, b: seq<Byte>)
    requires |a| <= 40 && |b| <= 0x1_0000
    ensures Wrap32(WordSum(a) + WordSum(b)) == WordSum(a) + WordSum(b)
  {
    WordSumBound(a);
    WordSumBound(b);
  }

  method ChecksumVec(a: seq<Byte>, b: seq<Byte>) returns (c: Word16)
    ensures c == Complement(WordSum(a) + WordSum(b))
  {
    WrapAdd(WordSum(a), WordSum(b));
    var sum := AddBytes(0, a);
    sum := AddBytes(sum, b);
    var folded := FoldSum(sum);
    return 0xFFFF - folded;
  }
}

/** internal/mssfix: rewriting the MSS option of TCP SYN packets in place. */
module MssFix {
  import opened Bytes
  import opened InternetChecksum

  // ---- Where things are --------------------------------------------------------

  /** Offset of the TCP header if the packet is TCP over IPv4, or over IPv6 without extension headers. */
  function TcpOffset(p: seq<Byte>): (t: Option<nat>)
    ensures t.Some? ==> 20 <= t.value <= |p|
  {
    if |p| < 20 then None
    else if p[0] / 16 == 4 then
      var ihl := (p[0] % 16) as int * 4;
      if ihl < 20 || |p| < ihl || p[9] != 6 then None else Some(ihl)
    else if p[0] / 16 == 6 then
      if |p| < 40 || p[6] != 6 then None else Some(40)
    else None
  }

  /** The option walk: offset of the value of the first well-formed MSS option in p[i..end]. */
  function Walk(p: seq<Byte>, i: nat, end: nat): (m: Option<nat>)
    requires end <= |p|
    ensures m.Some? ==> i + 2 <= m.value && m.value + 2 <= end
    decreases end - i
  {
    if i >= end || p[i] == 0 then None
    else if p[i] == 1 then Walk(p, i + 1, end)
    else if i + 1 >= end then None
    else
      var length := p[i + 1] as int;
      if length < 2 || i + length > end then None
      else if p[i] == 2 && length == 4 then Some(i + 2)
      else Walk(p, i + length, end)
  }

  function DataOffset(p: seq<Byte>, t: nat): nat
    requires t + 13 < |p|
  {
    (p[t + 12] / 16) as int * 4
  }

  predicate IsSyn(p: seq<Byte>, t: nat)
    requires t + 13 < |p|
  {
    p[t + 13] / 2 % 2 == 1
  }

  /** Offset of the MSS value in a SYN whose TCP header starts at t. */
  function MssOffset(p: seq<Byte>, t: nat): (m: Option<nat>)
    requires t <= |p|
    ensures m.Some? ==> t + 22 <= m.value && m.value + 2 <= |p|
  {
    if |p| - t < 20 || !IsSyn(p, t) then None
    else
      var off := DataOffset(p, t);
      if off < 20 || |p| - t < off then None else Walk(p, t + 20, t + off)
  }

  predicate NeedsClamp(p: seq<Byte>, maxMSS: int) {
    && maxMSS > 0 && TcpOffset(p).Some? && MssOffset(p, TcpOffset(p).value).Some?
    && FromBe16(p[MssOffset(p, TcpOffset(p).value).value..]) > maxMSS
  }

  predicate IsV4(p: seq<Byte>) {
    |p| > 0 && p[0] / 16 == 4
  }

  /** The pseudo-header of section 3.1 of RFC 9293 or section 8.1 of RFC 8200, for `n` bytes of TCP. */
  function Pseudo(p: seq<Byte>, n: nat): (r: seq<Byte>)
    requires |p| >= 20 && (!IsV4(p) ==> |p| >= 40)
    ensures |r| <= 40 && |r| % 2 == 0
  {
    if IsV4(p) then p[12..16] + p[16..20] + [0, 6] + Be16(n % 0x1_0000)
    else p[8..24] + p[24..40] + Be32(n % 0x1_0000_0000) + [0, 0, 0, 6]
  }

  function SumOver(pseudo: seq<Byte>, segment: seq<Byte>): nat {
    WordSum(pseudo) + WordSum(segment)
  }

  /** The sum over pseudo-header and segment, checksum field included, with the length the code uses. */
  function TcpSum(p: seq<Byte>, t: nat): nat
    requires |p| >= 20 && t <= |p| && (!IsV4(p) ==> |p| >= 40)
  {
    SumOver(Pseudo(p, |p| - t), p[t..])
  }

  // ---- The result ----------------------------------------------------------------

  function WithIpChecksum(p: seq<Byte>, ihl: nat): (r: seq<Byte>)
    requires 20 <= ihl <= |p|
    ensures |r| == |p| && forall j :: 0 <= j < |p| && !(10 <= j < 12) ==> r[j] == p[j]
  {
    var z := Put16(p, 10, 0);
    Put16(z, 10, Complement(WordSum(z[..ihl])))
  }

  /** `p` with its TCP checksum taken over `pseudo`. */
  function Filled(p: seq<Byte>, t: nat, pseudo: seq<Byte>): (r: seq<Byte>)
    requires t + 20 <= |p|
    ensures |r| == |p| && forall j :: 0 <= j < |p| && !(t + 16 <= j < t + 18) ==> r[j] == p[j]
  {
    var z := Put16(p, t + 16, 0);
    Put16(z, t + 16, Complement(SumOver(pseudo, z[t..])))
  }

  function WithTcpChecksum(p: seq<Byte>, t: nat): (r: seq<Byte>)
    requires t >= 20 && t + 20 <= |p| && (!IsV4(p) ==> t == 40)
    ensures |r| == |p| && forall j :: 0 <= j < |p| && !(t + 16 <= j < t + 18) ==> r[j] == p[j]
  {
    Filled(p, t, Pseudo(p, |p| - t))
  }

  /** `p` with `maxMSS` at offset m and both checksums renewed. */
  function Rewritten(p: seq<Byte>, t: nat, m: nat, maxMSS: Word16): (r: seq<Byte>)
    requires 20 <= t && t + 22 <= m && m + 2 <= |p| && (!IsV4(p) ==> t == 40)
    ensures |r| == |p|
  {
    var p1 := Put16(p, m, maxMSS);
    WithTcpChecksum(if IsV4(p) then WithIpChecksum(p1, t) else p1, t)
  }

  /** The packet after Clamp. */
  function Clamped(p: seq<Byte>, maxMSS: int): (r: seq<Byte>)
    ensures |r| == |p|
  {
    if !NeedsClamp(p, maxMSS) then p
    else
      var t := TcpOffset(p).value;
      Rewritten(p, t, MssOffset(p, t).value, maxMSS)
  }

  // ---- What Clamped guarantees -----------------------------------------------------

  lemma {:induction false} WalkSame(p: seq<Byte>, q: seq<Byte>, i: nat, end: nat)
    requires end <= |p| == |q| && Walk(p, i, end).Some?
    requires forall j :: i <= j < Walk(p, i, end).value ==> q[j] == p[j]
    ensures Walk(q, i, end) == Walk(p, i, end)
    decreases end - i
  {
    if p[i] == 1 {
      WalkSame(p, q, i + 1, end);
    } else {
      var length := p[i + 1] as int;
      if !(p[i] == 2 && length == 4) {
        WalkSame(p, q, i + length, end);
      }
    }
  }

  /** The bytes a clamp may touch: the MSS value, the TCP checksum and the IPv4 header checksum. */
  predicate Touched(p: seq<Byte>, t: nat, m: nat, j: nat) {
    m <= j < m + 2 || t + 16 <= j < t + 18 || (IsV4(p) && 10 <= j < 12)
  }

  /** Three changes in a row, to `p1`, `p2` and `q`, each within its own two bytes. */
  lemma ThreeChanges(p: seq<Byte>, p1: seq<Byte>, p2: seq<Byte>, q: seq<Byte>, t: nat, m: nat)
    requires |p| == |p1| == |p2| == |q| && 20 <= t && t + 22 <= m && m + 2 <= |p|
    requires forall j :: 0 <= j < |p| && j != m && j != m + 1 ==> p1[j] == p[j]
    requires forall j :: 0 <= j < |p| && !(IsV4(p) && 10 <= j < 12) ==> p2[j] == p1[j]
    requires forall j :: 0 <= j < |p| && !(t + 16 <= j < t + 18) ==> q[j] == p2[j]
    ensures forall j :: 0 <= j < |p| && !Touched(p, t, m, j) ==> q[j] == p[j]
    ensures q[m] == p1[m] && q[m + 1] == p1[m + 1]
  {
  }

  lemma RewritesOnly(p: seq<Byte>, t: nat, m: nat, maxMSS: Word16)
    requires 20 <= t && t + 22 <= m && m + 2 <= |p| && (!IsV4(p) ==> t == 40)
    ensures var q := Rewritten(p, t, m, maxMSS);
            && (forall j :: 0 <= j < |p| && !Touched(p, t, m, j) ==> q[j] == p[j])
            && FromBe16(q[m..]) == maxMSS
  {
    var p1 := Put16(p, m, maxMSS);
    ThreeChanges(p, p1, if IsV4(p) then WithIpChecksum(p1, t) else p1, Rewritten(p, t, m, maxMSS), t, m);
    assert FromBe16(Rewritten(p, t, m, maxMSS)[m..]) == FromBe16(p1[m..]);
  }

  lemma OnlyTouched(p: seq<Byte>, maxMSS: int)
    requires NeedsClamp(p, maxMSS)
    ensures var q, t := Clamped(p, maxMSS), TcpOffset(p).value;
            var m := MssOffset(p, t).value;
            && (forall j :: 0 <= j < |p| && !Touched(p, t, m, j) ==> q[j] == p[j])
            && FromBe16(q[m..]) == maxMSS
  {
    var t := TcpOffset(p).value;
    RewritesOnly(p, t, MssOffset(p, t).value, maxMSS);
  }

  lemma LayoutKept(p: seq<Byte>, q: seq<Byte>, t: nat, m: nat)
    requires |p| == |q| && TcpOffset(p) == Some(t) && MssOffset(p, t) == Some(m)
    requires forall j :: 0 <= j < |p| && !Touched(p, t, m, j) ==> q[j] == p[j]
    ensures TcpOffset(q) == Some(t) && MssOffset(q, t) == Some(m) && IsV4(q) == IsV4(p)
  {
    assert q[0] == p[0] && q[9] == p[9] && q[6] == p[6];
    assert q[t + 12] == p[t + 12] && q[t + 13] == p[t + 13];
    WalkSame(p, q, t + 20, t + DataOffset(p, t));
  }

  lemma PseudoKept(p: seq<Byte>, q: seq<Byte>, t: nat, n: nat)
    requires |p| == |q| && 20 <= t <= |p| && IsV4(q) == IsV4(p) && (!IsV4(p) ==> t == 40)
    requires forall j :: 12 <= j < t ==> q[j] == p[j]
    requires !IsV4(p) ==> forall j :: 8 <= j < t ==> q[j] == p[j]
    ensures Pseudo(q, n) == Pseudo(p, n)
  {
  }

  lemma IpChecksumVerifies(p: seq<Byte>, ihl: nat)
    requires 20 <= ihl <= 60 && ihl <= |p|
    ensures Fold(WordSum(WithIpChecksum(p, ihl)[..ihl])) == 0xFFFF
  {
    var z := Put16(p, 10, 0);
    var sum := WordSum(z[..ihl]);
    NoOverflow([], z[..ihl]);
    assert WithIpChecksum(p, ihl)[..ihl] == Put16(z[..ihl], 10, Complement(sum));
    WordSumPut(z[..ihl], 10, Complement(sum));
    assert FromBe16(z[..ihl][10..]) == 0;
    ComplementVerifies(sum);
  }

  /** Filling in a zeroed checksum field adds its value to the sum. */
  lemma SegmentPut(z: seq<Byte>, t: nat, c: Word16)
    requires t + 20 <= |z| && FromBe16(z[t + 16..]) == 0
    ensures WordSum(Put16(z, t + 16, c)[t..]) == WordSum(z[t..]) + c
  {
    assert Put16(z, t + 16, c)[t..] == Put16(z[t..], 16, c);
    assert z[t..][16..] == z[t + 16..];
    WordSumPut(z[t..], 16, c);
  }

  /** Whatever the pseudo-header is. */
  lemma FilledVerifies(p: seq<Byte>, t: nat, pseudo: seq<Byte>)
    requires t + 20 <= |p| <= 0xFFFF && |pseudo| <= 40
    ensures Fold(SumOver(pseudo, Filled(p, t, pseudo)[t..])) == 0xFFFF
  {
    var z := Put16(p, t + 16, 0);
    var sum := SumOver(pseudo, z[t..]);
    NoOverflow(pseudo, z[t..]);
    SegmentPut(z, t, Complement(sum));
    ComplementVerifies(sum);
  }

  /** The TCP checksum lies behind the addresses. */
  lemma PseudoOfFilled(p: seq<Byte>, t: nat)
    requires 20 <= t && t + 20 <= |p| && (!IsV4(p) ==> t == 40)
    ensures var q := WithTcpChecksum(p, t); IsV4(q) == IsV4(p) && Pseudo(q, |q| - t) == Pseudo(p, |p| - t)
  {
    var q := WithTcpChecksum(p, t);
    assert forall j :: 0 <= j < t ==> q[j] == p[j];
    PseudoKept(p, q, t, |p| - t);
  }

  lemma TcpChecksumVerifies(p: seq<Byte>, t: nat)
    requires 20 <= t && t + 20 <= |p| <= 0xFFFF && (!IsV4(p) ==> t == 40)
    ensures Fold(TcpSum(WithTcpChecksum(p, t), t)) == 0xFFFF
  {
    PseudoOfFilled(p, t);
    FilledVerifies(p, t, Pseudo(p, |p| - t));
  }

  /**
   * A clamped packet advertises maxMSS in its first MSS option, differs from the original in the MSS
   * value and the checksum fields only, and is not clamped again; and its checksums are valid, the
   * TCP one if it is no longer than an IP packet can be.
   */
  lemma ClampedCorrect(p: seq<Byte>, maxMSS: int)
    requires NeedsClamp(p, maxMSS)
    ensures var q, t := Clamped(p, maxMSS), TcpOffset(p).value;
            var m := MssOffset(p, t).value;
            && TcpOffset(q) == Some(t) && MssOffset(q, t) == Some(m)
            && FromBe16(q[m..]) == maxMSS < FromBe16(p[m..])
            && (forall j :: 0 <= j < |p| && !Touched(p, t, m, j) ==> q[j] == p[j])
            && (|p| <= 0xFFFF ==> Fold(TcpSum(q, t)) == 0xFFFF)
            && (IsV4(p) ==> Fold(WordSum(q[..t])) == 0xFFFF)
            && Clamped(q, maxMSS) == q
  {
    var q, t := Clamped(p, maxMSS), TcpOffset(p).value;
    var m := MssOffset(p, t).value;
    OnlyTouched(p, maxMSS);
    LayoutKept(p, q, t, m);
    var p1 := Put16(p, m, maxMSS);
    var p2 := if IsV4(p) then WithIpChecksum(p1, t) else p1;
    if |p| <= 0xFFFF {
      TcpChecksumVerifies(p2, t);
    }
    if IsV4(p) {
      IpChecksumVerifies(p1, t);
      assert q[..t] == p2[..t];
    }
  }

  // ---- At the receiver -------------------------------------------------------------

  /** Where the packet ends by its own IP header. */
  function AnnouncedEnd(p: seq<Byte>): nat
    requires |p| >= 20
  {
    if IsV4(p) then FromBe16(p[2..]) else 40 + FromBe16(p[4..])
  }

  /** A receiver goes by the announced length and needs all of it. */
  function ReceiverSum(p: seq<Byte>, t: nat, end: nat): nat
    requires |p| >= 20 && t <= end <= |p| && (!IsV4(p) ==> |p| >= 40)
  {
    SumOver(Pseudo(p, end - t), p[t..end])
  }

  predicate ReceiverAccepts(p: seq<Byte>, t: nat)
    requires |p| >= 20 && t <= |p| && (!IsV4(p) ==> |p| >= 40)
  {
    t <= AnnouncedEnd(p) <= |p| && Fold(ReceiverSum(p, t, AnnouncedEnd(p))) == 0xFFFF
  }

  /** What the bytes past the announced end add to the sum the code takes, with the difference in length. */
  function Excess(p: seq<Byte>, t: nat, end: nat): int
    requires t <= end <= |p|
  {
    WordSum(p[t..]) - WordSum(p[t..end]) + (|p| - end)
  }

  /** The length enters the sum as itself. */
  lemma PseudoSum(p: seq<Byte>, n: nat)
    requires |p| >= 20 && (!IsV4(p) ==> |p| >= 40) && n < 0x1_0000
    ensures WordSum(Pseudo(p, n)) == WordSum(Pseudo(p, 0)) + n
    ensures WordSum(Pseudo(p, 0)) > 0
  {
    if IsV4(p) {
      PseudoSumV4(p, n);
      PseudoSumV4(p, 0);
    } else {
      PseudoSumV6(p, n);
      PseudoSumV6(p, 0);
    }
  }

  lemma PseudoSumV4(p: seq<Byte>, n: Word16)
    requires |p| >= 20 && IsV4(p)
    ensures WordSum(Pseudo(p, n)) == WordSum(p[12..16] + p[16..20]) + 6 + n
  {
    Cut(n, 0x1_0000);
    PseudoSum4(p[12..16] + p[16..20], n);
  }

  lemma PseudoSumV6(p: seq<Byte>, n: Word16)
    requires |p| >= 40 && !IsV4(p)
    ensures WordSum(Pseudo(p, n)) == WordSum(p[8..24] + p[24..40]) + n + 6
  {
    Cut(n, 0x1_0000_0000);
    PseudoSum6(p[8..24] + p[24..40], n);
  }

  lemma Cut(n: nat, width: nat)
    requires n < width
    ensures n % width == n
  {
  }

  lemma PseudoSum4(addresses: seq<Byte>, n: Word16)
    requires |addresses| % 2 == 0
    ensures WordSum(addresses + [0, 6] + Be16(n)) == WordSum(addresses) + 6 + n
  {
    WordSumThree(addresses, [0, 6], Be16(n));
    OneWord(0, 6);
    Be16Sum(n);
  }

  lemma NextHeaderSum()
    ensures WordSum([0, 0, 0, 6]) == 6
  {
    WordSumSplit([0, 0], [0, 6]);
    OneWord(0, 0);
    OneWord(0, 6);
    assert [0 as Byte, 0] + [0, 6] == [0, 0, 0, 6];
  }

  lemma PseudoSum6(addresses: seq<Byte>, n: Word16)
    requires |addresses| % 2 == 0
    ensures WordSum(addresses + Be32(n) + [0, 0, 0, 6]) == WordSum(addresses) + n + 6
  {
    WordSumThree(addresses, Be32(n), [0, 0, 0, 6]);
    Be32Sum(n);
    NextHeaderSum();
  }

  /**
   * The code takes the TCP length from the buffer, a receiver from the IP header.  A clamped SYN is
   * accepted if the header announces the whole buffer; if it announces less, exactly when what lies
   * beyond and the difference in length happen to cancel; and if it announces more, never.
   */
  lemma ReceiverExactly(p: seq<Byte>, maxMSS: int)
    requires |p| <= 0xFFFF && NeedsClamp(p, maxMSS)
    ensures var q, t := Clamped(p, maxMSS), TcpOffset(p).value;
            AnnouncedEnd(q) == AnnouncedEnd(p) && AcceptedExactly(q, t)
  {
    var q, t := Clamped(p, maxMSS), TcpOffset(p).value;
    ClampedCorrect(p, maxMSS);
    EndKept(p, q, t, MssOffset(p, t).value);
    AcceptedIfFilled(q, t);
  }

  ghost predicate AcceptedExactly(q: seq<Byte>, t: nat)
    requires |q| >= 20 && t <= |q| && (!IsV4(q) ==> |q| >= 40)
  {
    var end := AnnouncedEnd(q);
    && (end == |q| ==> ReceiverAccepts(q, t))
    && (t <= end <= |q| ==> (ReceiverAccepts(q, t) <==> Excess(q, t, end) % 0xFFFF == 0))
    && (!(t <= end <= |q|) ==> !ReceiverAccepts(q, t))
  }

  lemma AcceptedIfFilled(q: seq<Byte>, t: nat)
    requires 20 <= t <= |q| <= 0xFFFF && (!IsV4(q) ==> |q| >= 40) && Fold(TcpSum(q, t)) == 0xFFFF
    ensures AcceptedExactly(q, t)
  {
    var end := AnnouncedEnd(q);
    if t <= end <= |q| {
      ReceiverIff(q, t, end);
      NoExcess(q, t);
    }
  }

  /** Zeros past the announced end, as link padding leaves them, make the receiver drop the segment. */
  lemma PaddedSynRefused(p: seq<Byte>, maxMSS: int)
    requires |p| <= 0xFFFF && NeedsClamp(p, maxMSS) && TcpOffset(p).value <= AnnouncedEnd(p) < |p|
    requires forall j :: AnnouncedEnd(p) <= j < |p| ==> Clamped(p, maxMSS)[j] == 0
    ensures !ReceiverAccepts(Clamped(p, maxMSS), TcpOffset(p).value)
  {
    ReceiverExactly(p, maxMSS);
    PaddedRefused(Clamped(p, maxMSS), TcpOffset(p).value);
  }

  lemma PaddedRefused(q: seq<Byte>, t: nat)
    requires |q| >= 20 && t <= AnnouncedEnd(q) < |q| <= 0xFFFF && (!IsV4(q) ==> |q| >= 40) && AcceptedExactly(q, t)
    requires forall j :: AnnouncedEnd(q) <= j < |q| ==> q[j] == 0
    ensures !ReceiverAccepts(q, t)
  {
    ZeroExcess(q, t, AnnouncedEnd(q));
    assert AnnouncedEnd(q) > 0 || |q| < 0xFFFF;
  }

  lemma ZeroExcess(q: seq<Byte>, t: nat, end: nat)
    requires t <= end <= |q| && forall j :: end <= j < |q| ==> q[j] == 0
    ensures Excess(q, t, end) == |q| - end
  {
    assert q[t..] == q[t..end] + q[end..];
    ZerosAddNothing(q[t..end], q[end..]);
  }

  lemma NoExcess(q: seq<Byte>, t: nat)
    requires t <= |q|
    ensures Excess(q, t, |q|) == 0
  {
    assert q[t..|q|] == q[t..];
  }

  lemma EndKept(p: seq<Byte>, q: seq<Byte>, t: nat, m: nat)
    requires |p| == |q| && 20 <= t <= |p| && t + 22 <= m && IsV4(q) == IsV4(p)
    requires forall j :: 0 <= j < |p| && !Touched(p, t, m, j) ==> q[j] == p[j]
    ensures AnnouncedEnd(q) == AnnouncedEnd(p)
  {
    assert q[2] == p[2] && q[3] == p[3] && q[4] == p[4] && q[5] == p[5];
  }

  lemma ReceiverIff(q: seq<Byte>, t: nat, end: nat)
    requires 20 <= t <= end <= |q| <= 0xFFFF && (!IsV4(q) ==> |q| >= 40) && Fold(TcpSum(q, t)) == 0xFFFF
    ensures Fold(ReceiverSum(q, t, end)) == 0xFFFF <==> Excess(q, t, end) % 0xFFFF == 0
  {
    PseudoSum(q, |q| - t);
    PseudoSum(q, end - t);
    FullFold(ReceiverSum(q, t, end));
    FullFold(TcpSum(q, t));
    SumDivisible(ReceiverSum(q, t, end), Excess(q, t, end));
  }

  // ---- The code, in place --------------------------------------------------------

  method PutUint16(a: array<Byte>, k: nat, v: Word16)
    requires k + 2 <= a.Length
    modifies a
    ensures a[..] == Put16(old(a[..]), k, v)
  {
    a[k] := (v / 0x100) as Byte;
    a[k + 1] := (v % 0x100) as Byte;
  }

  /** clampTCP on the segment that starts at t; `opts` is pkt[t + 20..t + dataOffset]. */
  method ClampTCP(pkt: array<Byte>, t: nat, maxMSS: int) returns (changed: bool)
    requires t <= pkt.Length && maxMSS > 0
    modifies pkt
    ensures var p := old(pkt[..]);
            var m := MssOffset(p, t);
            && (changed <==> m.Some? && FromBe16(p[m.value..]) > maxMSS)
            && pkt[..] == if changed then Put16(p, m.value, maxMSS) else p
  {
    if pkt.Length - t < 20 {
      return false;
    }
    var flags := pkt[t + 13];
    var syn := flags / 2 % 2 != 0;
    if !syn {
      return false;
    }
    var dataOffset := (pkt[t + 12] / 16) as int * 4;
    if dataOffset < 20 || pkt.Length - t < dataOffset {
      return false;
    }
    var opts, n := t + 20, dataOffset - 20;
    var i := 0;
    while i < n
      invariant 0 <= i <= n && pkt[..] == old(pkt[..])
      invariant Walk(pkt[..], opts + i, opts + n) == MssOffset(pkt[..], t)
    {
      var kind := pkt[opts + i];
      if kind == 0 {
        break;
      }
      if kind == 1 {
        i := i + 1;
        continue;
      }
      if i + 1 >= n {
        break;
      }
      var length := pkt[opts + i + 1] as int;
      if length < 2 || i + length > n {
        break;
      }
      if kind == 2 && length == 4 {
        var cur := FromBe16(pkt[opts + i + 2..]);
        if cur > maxMSS {
          PutUint16(pkt, opts + i + 2, maxMSS);
          return true;
        }
        return false;
      }
      i := i + length;
    }
    return false;
  }

  /** The last two steps of both checksum fixes: zero the field, then fill it in. */
  method FillTcpChecksum(pkt: array<Byte>, t: nat, pseudo: seq<Byte>)
    requires t + 20 <= pkt.Length
    modifies pkt
    ensures pkt[..] == Filled(old(pkt[..]), t, pseudo)
  {
    PutUint16(pkt, t + 16, 0);
    ghost var z := pkt[..];
    assert pkt[t..] == z[t..];
    var c := ChecksumVec(pseudo, pkt[t..]);
    PutUint16(pkt, t + 16, c);
  }

  method FixTCPChecksum4(pkt: array<Byte>, ihl: nat)
    requires 20 <= ihl && ihl + 20 <= pkt.Length && IsV4(pkt[..])
    modifies pkt
    ensures pkt[..] == WithTcpChecksum(old(pkt[..]), ihl)
  {
    var tcpLen := pkt.Length - ihl;
    var p := pkt[..];
    var pseudo := p[12..16] + p[16..20] + [0, 6] + Be16(tcpLen % 0x1_0000);
    assert pseudo == Pseudo(p, tcpLen);
    FillTcpChecksum(pkt, ihl, pseudo);
  }

  method FixTCPChecksum6(pkt: array<Byte>)
    requires 60 <= pkt.Length && !IsV4(pkt[..])
    modifies pkt
    ensures pkt[..] == WithTcpChecksum(old(pkt[..]), 40)
  {
    var tcpLen := pkt.Length - 40;
    var p := pkt[..];
    var pseudo := p[8..24] + p[24..40] + Be32(tcpLen % 0x1_0000_0000) + [0, 0, 0, 6];
    assert pseudo == Pseudo(p, tcpLen);
    FillTcpChecksum(pkt, 40, pseudo);
  }

  method FixIPChecksum(pkt: array<Byte>, ihl: nat)
    requires 20 <= ihl <= pkt.Length
    modifies pkt
    ensures pkt[..] == WithIpChecksum(old(pkt[..]), ihl)
  {
    PutUint16(pkt, 10, 0);
    var c := Checksum(pkt[..ihl]);
    PutUint16(pkt, 10, c);
  }

  method Clamp4(pkt: array<Byte>, maxMSS: int)
    requires pkt.Length >= 20 && IsV4(pkt[..]) && maxMSS > 0
    modifies pkt
    ensures pkt[..] == Clamped(old(pkt[..]), maxMSS)
  {
    var ihl := (pkt[0] % 16) as int * 4;
    if ihl < 20 || pkt.Length < ihl {
      return;
    }
    if pkt[9] != 6 {
      return;
    }
    var changed := ClampTCP(pkt, ihl, maxMSS);
    if !changed {
      return;
    }
    FixIPChecksum(pkt, ihl);
    FixTCPChecksum4(pkt, ihl);
  }

  method Clamp6(pkt: array<Byte>, maxMSS: int)
    requires pkt.Length >= 20 && pkt[0] / 16 == 6 && maxMSS > 0
    modifies pkt
    ensures pkt[..] == Clamped(old(pkt[..]), maxMSS)
  {
    if pkt.Length < 40 {
      return;
    }
    if pkt[6] != 6 {
      return;
    }
    var changed := ClampTCP(pkt, 40, maxMSS);
    if !changed {
      return;
    }
    FixTCPChecksum6(pkt);
  }

  method Clamp(pkt: array<Byte>, maxMSS: int)
    modifies pkt
    ensures pkt[..] == Clamped(old(pkt[..]), maxMSS)
  {
    if maxMSS <= 0 || pkt.Length < 20 {
      return;
    }
    if pkt[0] / 16 == 4 {
      Clamp4(pkt, maxMSS);
    } else if pkt[0] / 16 == 6 {
      Clamp6(pkt, maxMSS);
    }
  }

  /** The largest MSS that fits an inner packet of `mtu` bytes behind option-free headers. */
  function MssForMTU(p: seq<Byte>, mtu: int): int
    requires |p| > 0
  {
    if p[0] / 16 == 4 then mtu - 20 - 20 else mtu - 40 - 20
  }

  method ClampToMTU(pkt: array<Byte>, mtu: int)
    modifies pkt
    ensures pkt.Length == 0 || mtu <= 0 ==> pkt[..] == old(pkt[..])
    ensures pkt.Length > 0 && mtu > 0 ==> pkt[..] == Clamped(old(pkt[..]), MssForMTU(old(pkt[..]), mtu))
  {
    if mtu <= 0 || pkt.Length == 0 {
      return;
    }
    ghost var p := pkt[..];
    var version := pkt[0] / 16;
    if version == 4 {
      assert MssForMTU(p, mtu) == mtu - 20 - 20;
      Clamp(pkt, mtu - 20 - 20);
    } else if version == 6 {
      assert MssForMTU(p, mtu) == mtu - 40 - 20;
      Clamp(pkt, mtu - 40 - 20);
    } else {
      OtherVersionsKept(p, MssForMTU(p, mtu));
    }
  }

  lemma OtherVersionsKept(p: seq<Byte>, maxMSS: int)
    requires |p| > 0 && p[0] / 16 != 4 && p[0] / 16 != 6
    ensures !NeedsClamp(p, maxMSS)
  {
  }
}
