/**
 * HMAC-SHA256 over the streaming hash (crypto/HmacSha256.cpp), the one-shot form of section 2 of
 * RFC 2104 it must equal, and the tags built on it (security/HandshakeAuth.cpp,
 * security/BlockAuth.cpp, crypto/ConstantTime.h).
 */
module Hmac {
  import opened Bytes
  import S = Sha256

  const IPAD: byte := 0x36
  const OPAD: byte := 0x5c

  // ---- bitwise operations on bytes ----

  /** Exclusive or of the lowest `n` bits. */
  function XorBits(n: nat, a: nat, b: nat): nat {
    if n == 0 then 0 else (if a % 2 == b % 2 then 0 else 1) + 2 * XorBits(n - 1, a / 2, b / 2)
  }

  function OrBits(n: nat, a: nat, b: nat): nat {
    if n == 0 then 0 else (if a % 2 == 1 || b % 2 == 1 then 1 else 0) + 2 * OrBits(n - 1, a / 2, b / 2)
  }

  predicate Bits(n: nat, p: nat) { if n == 0 then p == 1 else p % 2 == 0 && p > 0 && Bits(n - 1, p / 2) }

  lemma {:induction false} BitsBound(n: nat, p: nat, a: nat, b: nat)
    requires Bits(n, p)
    ensures XorBits(n, a, b) < p && OrBits(n, a, b) < p
  {
    if n > 0 {
      BitsBound(n - 1, p / 2, a / 2, b / 2);
    }
  }

  lemma {:induction false} XorZero(n: nat, p: nat, a: nat, b: nat)
    requires Bits(n, p) && a < p && b < p
    ensures XorBits(n, a, b) == 0 <==> a == b
  {
    if n > 0 {
      XorZero(n - 1, p / 2, a / 2, b / 2);
    }
  }

  lemma {:induction false} OrZero(n: nat, p: nat, a: nat, b: nat)
    requires Bits(n, p) && a < p && b < p
    ensures OrBits(n, a, b) == 0 <==> a == 0 && b == 0
  {
    if n > 0 {
      OrZero(n - 1, p / 2, a / 2, b / 2);
    }
  }

  lemma {:induction false} EightBits()
    ensures Bits(8, 256)
  {
    assert Bits(2, 4) && Bits(4, 0x10) && Bits(6, 0x40);
  }

  function Xor(a: byte, b: byte): byte {
    EightBits();
    BitsBound(8, 256, a, b);
    XorBits(8, a, b)
  }

  function Or(a: byte, b: byte): byte {
    EightBits();
    BitsBound(8, 256, a, b);
    OrBits(8, a, b)
  }

  function XorAll(p: bytes, x: byte): (r: bytes)
    ensures |r| == |p|
  {
    seq(|p|, i requires 0 <= i < |p| => Xor(p[i], x))
  }

  /** The comparison that looks at every byte answers as equality does. */
  method CtEqual(a: bytes, b: bytes) returns (equal: bool)
    requires |a| == |b|
    ensures equal <==> a == b
  {
    hide Xor, Or;
    var diff: byte := 0;
    for i := 0 to |a|
      invariant diff == 0 <==> a[..i] == b[..i]
    {
      SameSoFar(diff, a[i], b[i]);
      assert a[..i + 1] == a[..i] + [a[i]] && b[..i + 1] == b[..i] + [b[i]];
      diff := Or(diff, Xor(a[i], b[i]));
    }
    equal := diff == 0;
    assert a[..|a|] == a && b[..|b|] == b;
  }

  lemma {:induction false} SameSoFar(diff: byte, x: byte, y: byte)
    ensures Or(diff, Xor(x, y)) == 0 <==> diff == 0 && x == y
  {
    EightBits();
    XorZero(8, 256, x, y);
    OrZero(8, 256, diff, Xor(x, y));
  }

  // ---- section 2 of RFC 2104 ----

  /** The key brought to the size of a block. */
  function BlockKey(key: bytes): (k: bytes)
    ensures |k| == S.BLOCK
  {
    if |key| > S.BLOCK then S.Hash(key) + S.Zeros(S.BLOCK - S.SIZE) else key + S.Zeros(S.BLOCK - |key|)
  }

  function Mac(key: bytes, message: bytes): (tag: bytes)
    ensures |tag| == S.SIZE
  {
    var k := BlockKey(key);
    S.Hash(XorAll(k, OPAD) + S.Hash(XorAll(k, IPAD) + message))
  }

  // ---- the streaming form ----

  class StreamingHmac {
    const ipad: bytes
    const opad: bytes
    const inner: S.Hasher
    ghost const key: bytes

    ghost predicate Keyed() {
      ipad == XorAll(BlockKey(key), IPAD) && opad == XorAll(BlockKey(key), OPAD)
    }

    ghost predicate Valid()
      reads inner, inner.buf
    {
      Keyed() && inner.Valid() && inner.message == ipad + Message()
    }

    /** What has been authenticated since `Begin`. */
    ghost function Message(): bytes
      reads inner
    {
      if |inner.message| >= |ipad| then inner.message[|ipad|..] else []
    }

    constructor (key: bytes)
      ensures Valid() && Message() == [] && this.key == key && fresh(inner) && fresh(inner.buf)
    {
      hide S.Hash, S.Hasher.Valid, XorAll;
      var k: bytes;
      if |key| > S.BLOCK {
        var s := new S.Hasher();
        s.Update(key);
        k := s.Finish();
        assert [] + key == key;
        k := k + S.Zeros(S.BLOCK - S.SIZE);
      } else {
        k := key + S.Zeros(S.BLOCK - |key|);
      }
      var i: bytes, o: bytes := [], [];
      for n := 0 to S.BLOCK
        invariant i == XorAll(k[..n], IPAD) && o == XorAll(k[..n], OPAD)
      {
        XorNext(k, n, IPAD);
        XorNext(k, n, OPAD);
        i := i + [Xor(k[n], IPAD)];
        o := o + [Xor(k[n], OPAD)];
      }
      assert k[..S.BLOCK] == k;
      this.key, ipad, opad := key, i, o;
      inner := new S.Hasher();
      new;
      inner.Update(ipad);
      assert [] + ipad == ipad;
    }

    method Begin()
      requires Keyed() && inner.buf.Length == S.BLOCK
      modifies inner, inner.buf
      ensures Valid() && Message() == []
    {
      inner.Begin();
      inner.Update(ipad);
      assert [] + ipad == ipad;
    }

    method Update(data: bytes)
      requires Valid()
      modifies inner, inner.buf
      ensures Valid() && Message() == old(Message()) + data
    {
      hide S.Hasher.Valid, StreamingHmac.Keyed;
      ghost var before := Message();
      assert inner.message == ipad + before;
      inner.Update(data);
      assert inner.message == ipad + (before + data);
    }

    method Finish() returns (out: bytes)
      requires Valid()
      modifies inner, inner.buf
      ensures out == Mac(key, old(Message()))
      ensures Keyed() && inner.buf.Length == S.BLOCK
    {
      hide S.Hash, S.Hasher.Streaming;
      var innerHash := inner.Finish();
      var outer := new S.Hasher();
      outer.Update(opad);
      outer.Update(innerHash);
      out := outer.Finish();
      assert [] + opad + innerHash == opad + innerHash;
    }
  }

  lemma {:induction false} XorNext(k: bytes, n: nat, x: byte)
    requires n < |k|
    ensures XorAll(k[..n + 1], x) == XorAll(k[..n], x) + [Xor(k[n], x)]
  {
    hide Xor;
  }

  // ---- tags ----

  const LABEL: bytes := [77, 65, 76, 67, 79, 78, 71]
  const TYPE_BLOCK: byte := 0x03

  /** What a tag covers: label, message type, device, content. */
  function Covered(kind: byte, devId: bytes, content: bytes): bytes { LABEL + [kind] + devId + content }

  /** No two messages of one device, whatever their type, are covered by the same bytes. */
  lemma {:induction false} CoveredIsInjective(kind: byte, kind': byte, devId: bytes, content: bytes, content': bytes)
    requires Covered(kind, devId, content) == Covered(kind', devId, content')
    ensures kind == kind' && content == content'
  {
    var a, b := Covered(kind, devId, content), Covered(kind', devId, content');
    assert a[7] == kind && b[7] == kind';
    assert content == a[8 + |devId|..] && content' == b[8 + |devId|..];
  }

  class Authenticator {
    const hmac: StreamingHmac
    const devId: bytes

    ghost predicate Ready()
      reads hmac.inner
    {
      hmac.Keyed() && hmac.inner.buf.Length == S.BLOCK
    }

    constructor (hmac: StreamingHmac, devId: bytes)
      ensures this.hmac == hmac && this.devId == devId
    {
      this.hmac, this.devId := hmac, devId;
    }

    /** The full tag of a message, whatever was being authenticated before. */
    method FullTag(kind: byte, content: bytes) returns (out: bytes)
      requires Ready()
      modifies hmac.inner, hmac.inner.buf
      ensures Ready() && out == Mac(hmac.key, Covered(kind, devId, content))
    {
      hide Mac, S.Hasher.Valid, StreamingHmac.Message, StreamingHmac.Keyed, BlockKey;
      hmac.Begin();
      hmac.Update(LABEL);
      hmac.Update([kind]);
      hmac.Update(devId);
      hmac.Update(content);
      assert [] + LABEL + [kind] + devId + content == Covered(kind, devId, content);
      out := hmac.Finish();
    }

    /** `HmacHandshakeAuth::tag`: the first 16 bytes. */
    method Tag(kind: byte, payload: bytes) returns (out: bytes)
      requires Ready()
      modifies hmac.inner, hmac.inner.buf
      ensures Ready() && out == Mac(hmac.key, Covered(kind, devId, payload))[..16]
    {
      var full := FullTag(kind, payload);
      out := full[..16];
    }

    method Verify(kind: byte, payload: bytes, tag: bytes) returns (ok: bool)
      requires Ready() && |tag| == 16
      modifies hmac.inner, hmac.inner.buf
      ensures Ready() && (ok <==> tag == Mac(hmac.key, Covered(kind, devId, payload))[..16])
    {
      var expected := Tag(kind, payload);
      ok := CtEqual(expected, tag);
    }

    /** `HmacBlockAuth`: all 32 bytes, over the data area of a block. */
    method SignBlock(data: bytes) returns (tag: bytes)
      requires Ready()
      modifies hmac.inner, hmac.inner.buf
      ensures Ready() && tag == Mac(hmac.key, Covered(TYPE_BLOCK, devId, data)) && |tag| == 32
    {
      tag := FullTag(TYPE_BLOCK, data);
    }

    method VerifyBlock(data: bytes, tag: bytes) returns (ok: bool)
      requires Ready() && |tag| == 32
      modifies hmac.inner, hmac.inner.buf
      ensures Ready() && (ok <==> tag == Mac(hmac.key, Covered(TYPE_BLOCK, devId, data)))
    {
      var expected := SignBlock(data);
      ok := CtEqual(expected, tag);
    }
  }
}
