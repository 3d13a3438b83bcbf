/**
 * internal/crypto: what the data-channel ciphers add around AES-GCM, AES-CBC and HMAC-SHA256.
 * The primitives themselves are function values that obey the laws below.
 */
module Crypto {
  import opened Bytes

  const TAG_LEN := 16
  const BLOCK := 16
  const MAC_LEN := 32

  // ---- GCM -------------------------------------------------------------------

  /** seal(nonce, plaintext, aad) is ciphertext || tag; open undoes it. */
  datatype AeadFunctions = AeadFunctions(seal: (seq<Byte>, seq<Byte>, seq<Byte>) -> seq<Byte>,
                                         open: (seq<Byte>, seq<Byte>, seq<Byte>) -> Option<seq<Byte>>)

  ghost predicate AeadLaws(a: AeadFunctions) {
    && (forall n, p, d :: |a.seal(n, p, d)| == |p| + TAG_LEN)
    && (forall n, p, d :: a.open(n, a.seal(n, p, d), d) == Some(p))
  }

  const NullTag: seq<Byte> := [0, 0, 0, 0, 0, 0, 0, 0, 0, 0, 0, 0, 0, 0, 0, 0]

  /** Authenticates nothing; it shows that the laws can be met. */
  const NullAead: AeadFunctions :=
    AeadFunctions((n, p, d) => p + NullTag,
                  (n, c, d) => if |c| < TAG_LEN then None else Some(c[..|c| - TAG_LEN]))

  lemma NullAeadLaws()
    ensures AeadLaws(NullAead)
  {
  }

  type Aead = a: AeadFunctions | AeadLaws(a) ghost witness (NullAeadLaws(); NullAead)

  /** `tail` is the eight-byte nonce tail from the key material. */
  datatype Gcm = Gcm(aead: Aead, tail: seq<Byte>)

  function Nonce(g: Gcm, packetId: Word32): seq<Byte> {
    Be32(packetId) + g.tail
  }

  /** The wire carries the tag before the ciphertext. */
  function GcmSeal(g: Gcm, packetId: Word32, plaintext: seq<Byte>, aad: seq<Byte>): (r: seq<Byte>)
    ensures |r| == |plaintext| + TAG_LEN
  {
    var out := g.aead.seal(Nonce(g, packetId), plaintext, aad);
    out[|out| - TAG_LEN..] + out[..|out| - TAG_LEN]
  }

  function GcmOpen(g: Gcm, packetId: Word32, body: seq<Byte>, aad: seq<Byte>): Option<seq<Byte>> {
    if |body| < TAG_LEN then None
    else g.aead.open(Nonce(g, packetId), body[TAG_LEN..] + body[..TAG_LEN], aad)
  }

  lemma GcmOpenInvertsSeal(g: Gcm, packetId: Word32, plaintext: seq<Byte>, aad: seq<Byte>)
    ensures GcmOpen(g, packetId, GcmSeal(g, packetId, plaintext, aad), aad) == Some(plaintext)
  {
    var out := g.aead.seal(Nonce(g, packetId), plaintext, aad);
    var body := GcmSeal(g, packetId, plaintext, aad);
    assert body[TAG_LEN..] + body[..TAG_LEN] == out;
  }

  /** The nonce determines the packet id. */
  lemma NonceInjective(g: Gcm, i: Word32, j: Word32)
    ensures Nonce(g, i) == Nonce(g, j) <==> i == j
  {
    if Nonce(g, i) == Nonce(g, j) {
      assert Be32(i) == Nonce(g, i)[..4] == Nonce(g, j)[..4] == Be32(j);
    }
  }

  // ---- PKCS#7 ----------------------------------------------------------------

  function Repeat(n: nat, b: Byte): (s: seq<Byte>)
    ensures |s| == n
  {
    seq(n, _ => b)
  }

  /** Always adds between one and BLOCK bytes, each holding their number. */
  function Pad(src: seq<Byte>): (r: seq<Byte>)
    ensures |r| % BLOCK == 0 && |r| == |src| + BLOCK - |src| % BLOCK
  {
    var n := BLOCK - |src| % BLOCK;
    src + Repeat(n, n as Byte)
  }

  function Unpad(src: seq<Byte>): Option<seq<Byte>> {
    if src == [] || |src| % BLOCK != 0 then None
    else
      var n := src[|src| - 1] as int;
      if n == 0 || n > BLOCK then None
      else if src[|src| - n..] == Repeat(n, n as Byte) then Some(src[..|src| - n])
      else None
  }

  method Pkcs7Pad(src: seq<Byte>) returns (padded: seq<Byte>)
    ensures padded == Pad(src)
  {
    var padLen := BLOCK - |src| % BLOCK;
    var buf := new Byte[|src| + padLen](i requires 0 <= i => if i < |src| then src[i] else 0);
    for i := |src| to buf.Length
      invariant forall k :: 0 <= k < |src| ==> buf[k] == src[k]
      invariant forall k :: |src| <= k < i ==> buf[k] == padLen as Byte
    {
      buf[i] := padLen as Byte;
    }
    padded := buf[..];
    assert padded == Pad(src);
  }

  method Pkcs7Unpad(src: seq<Byte>) returns (r: Option<seq<Byte>>)
    ensures r == Unpad(src)
  {
    if |src| == 0 || |src| % BLOCK != 0 {
      return None;
    }
    var padLen := src[|src| - 1] as int;
    if padLen == 0 || padLen > BLOCK {
      return None;
    }
    for i := |src| - padLen to |src|
      invariant forall k :: |src| - padLen <= k < i ==> src[k] == padLen as Byte
    {
      if src[i] != padLen as Byte {
        assert src[|src| - padLen..][i - (|src| - padLen)] == src[i];
        return None;
      }
    }
    assert src[|src| - padLen..] == Repeat(padLen, padLen as Byte);
    return Some(src[..|src| - padLen]);
  }

  /** Unpadding accepts exactly the padded strings, and gives back what was padded. */
  lemma UnpadExactly(s: seq<Byte>, p: seq<Byte>)
    ensures Unpad(s) == Some(p) <==> s == Pad(p)
  {
  }

  // ---- CBC with HMAC -----------------------------------------------------------

  datatype CbcFunctions = CbcFunctions(encrypt: (seq<Byte>, seq<Byte>) -> seq<Byte>,
                                       decrypt: (seq<Byte>, seq<Byte>) -> seq<Byte>,
                                       mac: seq<Byte> -> seq<Byte>)

  ghost predicate CbcLaws(c: CbcFunctions) {
    && (forall iv, p :: |p| % BLOCK == 0 ==> |c.encrypt(iv, p)| == |p|)
    && (forall iv, p :: |p| % BLOCK == 0 ==> c.decrypt(iv, c.encrypt(iv, p)) == p)
    && (forall m :: |c.mac(m)| == MAC_LEN)
  }

  /** Encrypts nothing; it shows that the laws can be met. */
  const NullCbc: CbcFunctions := CbcFunctions((iv, p) => p, (iv, p) => p, m => Repeat(MAC_LEN, 0))

  type Cbc = c: CbcFunctions | CbcLaws(c) ghost witness NullCbc

  /** `iv` is the random initialisation vector of this packet. */
  function CbcSeal(c: Cbc, iv: seq<Byte>, plaintext: seq<Byte>): (r: seq<Byte>)
    requires |iv| == BLOCK
    ensures |r| == MAC_LEN + BLOCK + |Pad(plaintext)|
  {
    var ct := c.encrypt(iv, Pad(plaintext));
    c.mac(iv + ct) + (iv + ct)
  }

  function CbcOpen(c: Cbc, body: seq<Byte>): Option<seq<Byte>> {
    if |body| < MAC_LEN + 2 * BLOCK then None
    else if (|body| - MAC_LEN - BLOCK) % BLOCK != 0 then None
    else
      var tag, iv, ct := body[..MAC_LEN], body[MAC_LEN..MAC_LEN + BLOCK], body[MAC_LEN + BLOCK..];
      if tag != c.mac(iv + ct) then None
      else Unpad(c.decrypt(iv, ct))
  }

  lemma CbcOpenInvertsSeal(c: Cbc, iv: seq<Byte>, plaintext: seq<Byte>)
    requires |iv| == BLOCK
    ensures CbcOpen(c, CbcSeal(c, iv, plaintext)) == Some(plaintext)
  {
    var padded := Pad(plaintext);
    var ct := c.encrypt(iv, padded);
    var body := CbcSeal(c, iv, plaintext);
    assert body[MAC_LEN..] == iv + ct;
    assert body[MAC_LEN..MAC_LEN + BLOCK] == iv && body[MAC_LEN + BLOCK..] == ct;
    assert body[..MAC_LEN] == c.mac(iv + ct);
    UnpadExactly(padded, plaintext);
  }
}
