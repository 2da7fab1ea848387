/**
 * SHA-256 (crypto/Sha256.cpp): the streaming hash, and the one-shot hash of FIPS 180-4 it must
 * equal for every way of splitting the message.
 */
module Sha256 {
  import opened Bytes
  import opened Crc32

  const BLOCK: nat := 64
  const SIZE: nat := 32
  const BITS_END: nat := 0x1_0000_0000_0000_0000

  // ---- section 4.1.2 and 4.2.2: functions and constants ----

  function Add(a: word, b: word): word { a + b }

  function Sum4(a: word, b: word, c: word, d: word): word { a + b + c + d }

  function And(a: word, b: word): word { a & b }

  function Or(a: word, b: word): word { a | b }

  function Shr(x: word, n: nat): word
    requires n < 32
  {
    x >> n
  }

  function Shl(x: word, n: nat): word
    requires n < 32
  {
    x << n
  }

  function Rotr(x: word, n: nat): word
    requires 0 < n < 32
  {
    Or(Shr(x, n), Shl(x, 32 - n))
  }

  function Xor3(a: word, b: word, c: word): word { Xor(Xor(a, b), c) }

  function Ch(x: word, y: word, z: word): word { Xor(And(x, y), And(Not(x), z)) }

  function Maj(x: word, y: word, z: word): word { Xor3(And(x, y), And(x, z), And(y, z)) }

  function BigSigma0(x: word): word { Xor3(Rotr(x, 2), Rotr(x, 13), Rotr(x, 22)) }

  function BigSigma1(x: word): word { Xor3(Rotr(x, 6), Rotr(x, 11), Rotr(x, 25)) }

  function SmallSigma0(x: word): word { Xor3(Rotr(x, 7), Rotr(x, 18), Shr(x, 3)) }

  function SmallSigma1(x: word): word { Xor3(Rotr(x, 17), Rotr(x, 19), Shr(x, 10)) }

  const K: seq<word> :=
    [0x428a2f98, 0x71374491, 0xb5c0fbcf, 0xe9b5dba5, 0x3956c25b, 0x59f111f1, 0x923f82a4, 0xab1c5ed5]
    + [0xd807aa98, 0x12835b01, 0x243185be, 0x550c7dc3, 0x72be5d74, 0x80deb1fe, 0x9bdc06a7, 0xc19bf174]
    + [0xe49b69c1, 0xefbe4786, 0x0fc19dc6, 0x240ca1cc, 0x2de92c6f, 0x4a7484aa, 0x5cb0a9dc, 0x76f988da]
    + [0x983e5152, 0xa831c66d, 0xb00327c8, 0xbf597fc7, 0xc6e00bf3, 0xd5a79147, 0x06ca6351, 0x14292967]
    + [0x27b70a85, 0x2e1b2138, 0x4d2c6dfc, 0x53380d13, 0x650a7354, 0x766a0abb, 0x81c2c92e, 0x92722c85]
    + [0xa2bfe8a1, 0xa81a664b, 0xc24b8b70, 0xc76c51a3, 0xd192e819, 0xd6990624, 0xf40e3585, 0x106aa070]
    + [0x19a4c116, 0x1e376c08, 0x2748774c, 0x34b0bcb5, 0x391c0cb3, 0x4ed8aa4a, 0x5b9cca4f, 0x682e6ff3]
    + [0x748f82ee, 0x78a5636f, 0x84c87814, 0x8cc70208, 0x90befffa, 0xa4506ceb, 0xbef9a3f7, 0xc67178f2]

  function RoundConstant(t: nat): word { if t < |K| then K[t] else 0 }

  const INITIAL: Regs :=
    Regs(0x6a09e667, 0xbb67ae85, 0x3c6ef372, 0xa54ff53a, 0x510e527f, 0x9b05688c, 0x1f83d9ab, 0x5be0cd19)

  datatype Regs = Regs(a: word, b: word, c: word, d: word, e: word, f: word, g: word, h: word)

  // ---- section 5.2.1 and 6.2.2: one block ----

  /** The `i`-th big-endian word of a block. */
  function WordAt(block: bytes, i: nat): word {
    if 4 * i + 3 < |block| then
      Or(Or(Or(Shl(Widen(block[4 * i]), 24), Shl(Widen(block[4 * i + 1]), 16)), Shl(Widen(block[4 * i + 2]), 8)),
         Widen(block[4 * i + 3]))
    else 0
  }

  /** The message schedule: words 0 to n - 1. */
  function Schedule(block: bytes, n: nat): (w: seq<word>)
    ensures |w| == n
  {
    if n == 0 then []
    else
      var w := Schedule(block, n - 1);
      var t := n - 1;
      w + [if t < 16 then WordAt(block, t)
           else Sum4(SmallSigma1(w[t - 2]), w[t - 7], SmallSigma0(w[t - 15]), w[t - 16])]
  }

  function Round(r: Regs, k: word, w: word): Regs {
    var t1 := Add(Add(Add(Add(r.h, BigSigma1(r.e)), Ch(r.e, r.f, r.g)), k), w);
    var t2 := Add(BigSigma0(r.a), Maj(r.a, r.b, r.c));
    Regs(Add(t1, t2), r.a, r.b, r.c, Add(r.d, t1), r.e, r.f, r.g)
  }

  /** The first `n` rounds. */
  function Rounds(r: Regs, w: seq<word>, n: nat): Regs
    requires n <= |w|
  {
    if n == 0 then r else Round(Rounds(r, w, n - 1), RoundConstant(n - 1), w[n - 1])
  }

  function Plus(r: Regs, s: Regs): Regs {
    Regs(Add(r.a, s.a), Add(r.b, s.b), Add(r.c, s.c), Add(r.d, s.d),
         Add(r.e, s.e), Add(r.f, s.f), Add(r.g, s.g), Add(r.h, s.h))
  }

  function Compressed(r: Regs, block: bytes): Regs { Plus(r, Rounds(r, Schedule(block, 64), 64)) }

  // ---- section 5.1.1 and 6.2: the whole message ----

  function Zeros(n: nat): (z: bytes)
    ensures |z| == n
  {
    seq(n, _ => 0)
  }

  /** The 64-bit length, most significant byte first; longer messages wrap around. */
  function BigEndian(n: nat, width: nat): (p: bytes)
    ensures |p| == width
  {
    if width == 0 then [] else BigEndian(n / 256, width - 1) + [n % 256]
  }

  /** The number of zero bytes after 0x80: the least that ends 8 bytes short of a block. */
  function ZeroCount(length: nat): (k: nat)
    ensures k < BLOCK && (length + 1 + k + 8) % BLOCK == 0
  {
    (2 * BLOCK - 9 - length % BLOCK) % BLOCK
  }

  function Pad(message: bytes): (p: bytes)
    ensures |p| % BLOCK == 0
  {
    message + [0x80] + Zeros(ZeroCount(|message|)) + BigEndian(8 * |message|, 8)
  }

  /** All whole blocks, from the front. */
  function HashBlocks(r: Regs, p: bytes): Regs
    decreases |p|
  {
    if |p| < BLOCK then r else HashBlocks(Compressed(r, p[..BLOCK]), p[BLOCK..])
  }

  /** A byte of a word, `s` bits from the right. */
  function ByteOf(w: word, s: nat): (b: byte)
    requires s < 32
  {
    ByteBound(Shr(w, s));
    Value(8, Shr(w, s))
  }

  lemma {:induction false} ByteBound(w: word)
    ensures Value(8, w) < 256
  {
    assert IsPow2(2, 4) && IsPow2(4, 0x10) && IsPow2(6, 0x40);
    ValueBound(8, w, 256);
  }

  function WordBytes(w: word): bytes { [ByteOf(w, 24), ByteOf(w, 16), ByteOf(w, 8), ByteOf(w, 0)] }

  function Digest(r: Regs): (d: bytes)
    ensures |d| == SIZE
  {
    WordBytes(r.a) + WordBytes(r.b) + WordBytes(r.c) + WordBytes(r.d)
    + WordBytes(r.e) + WordBytes(r.f) + WordBytes(r.g) + WordBytes(r.h)
  }

  /** The hash of a whole message. */
  function Hash(message: bytes): (d: bytes)
    ensures |d| == SIZE
  {
    Digest(HashBlocks(INITIAL, Pad(message)))
  }

  // ---- lemmas ----

  /** Whole blocks can be hashed in two goes. */
  lemma {:induction false} HashInTwo(r: Regs, p: bytes, q: bytes)
    requires |p| % BLOCK == 0
    ensures HashBlocks(r, p + q) == HashBlocks(HashBlocks(r, p), q)
    decreases |p|
  {
    hide Compressed;
    if p == [] {
      assert p + q == q;
    } else {
      assert (p + q)[..BLOCK] == p[..BLOCK] && (p + q)[BLOCK..] == p[BLOCK..] + q;
      HashInTwo(Compressed(r, p[..BLOCK]), p[BLOCK..], q);
    }
  }

  lemma {:induction false} HashOne(r: Regs, block: bytes)
    requires |block| == BLOCK
    ensures HashBlocks(r, block) == Compressed(r, block)
  {
    hide Compressed;
    assert block[..BLOCK] == block && block[BLOCK..] == [];
  }

  /** One more block behind whole blocks. */
  lemma {:induction false} BlockTaken(done: bytes, block: bytes)
    requires |done| % BLOCK == 0 && |block| == BLOCK
    ensures HashBlocks(INITIAL, done + block) == Compressed(HashBlocks(INITIAL, done), block)
  {
    hide Compressed, HashBlocks;
    HashOne(HashBlocks(INITIAL, done), block);
    HashInTwo(INITIAL, done, block);
  }

  /** What follows the whole blocks before and after more data. */
  lemma {:induction false} TakenIn(message: bytes, data: bytes, done: bytes, rest: bytes)
    requires |rest| <= |message| && done == message[..|message| - |rest|] && rest == message[|message| - |rest|..]
    ensures var n := |message| + |data| - |rest + data|;
      (message + data)[..n] == done && (message + data)[n..] == rest + data && message + data == done + (rest + data)
  {
  }

  /** The order in which the four schedule terms are added does not matter. */
  lemma {:induction false} SumInAnyOrder(a: word, b: word, c: word, d: word)
    ensures Sum4(a, b, c, d) == Sum4(d, c, b, a)
  {
  }

  // ---- the streaming hash ----

  class Hasher {
    var regs: Regs
    var bits: nat
    const buf: array<byte>
    var used: nat
    /** Everything hashed since `Begin`. */
    ghost var message: bytes

    ghost predicate Valid()
      reads this, buf
    {
      Streaming() && bits == 8 * |message| % BITS_END
    }

    /** The whole blocks are in the registers, the rest in the buffer. */
    ghost predicate Streaming()
      reads `regs, `used, `message, buf
      ensures Streaming() ==> buf.Length == BLOCK && used < BLOCK
    {
      && buf.Length == BLOCK && used < BLOCK
      && used <= |message| && (|message| - used) % BLOCK == 0
      && buf[..used] == message[|message| - used..]
      && regs == HashBlocks(INITIAL, message[..|message| - used])
    }

    constructor ()
      ensures Valid() && message == [] && fresh(buf)
    {
      regs, bits, used, message := INITIAL, 0, 0, [];
      buf := new byte[BLOCK](_ => 0);
    }

    method Begin()
      requires buf.Length == BLOCK
      modifies this
      ensures Valid() && message == []
    {
      regs, bits, used, message := INITIAL, 0, 0, [];
    }

    method Update(data: bytes)
      requires Valid()
      modifies this, buf
      ensures Valid() && message == old(message) + data
    {
      hide Hasher.Streaming;
      bits := (bits + |data| * 8) % BITS_END;
      var at := 0;
      while at < |data|
        invariant at <= |data| && Streaming()
        invariant bits == (8 * |old(message)| % BITS_END + |data| * 8) % BITS_END
        invariant message == old(message) + data[..at]
      {
        var n := BLOCK - used;
        if n > |data| - at {
          n := |data| - at;
        }
        Take(data[at..at + n]);
        JoinSlices(data, at, n);
        at := at + n;
      }
      assert data[..at] == data;
      BitsAdd(|old(message)|, |data|);
    }

    /** Copies bytes into the buffer, and compresses it when it is full. */
    method Take(data: bytes)
      requires Streaming() && used + |data| <= BLOCK
      modifies this`regs, this`used, this`message, buf
      ensures Streaming() && message == old(message) + data
    {
      hide HashBlocks, Compressed;
      ghost var done, rest := message[..|message| - used], message[|message| - used..];
      Fill(data);
      TakenIn(message, data, done, rest);
      used := used + |data|;
      message := message + data;
      if used == BLOCK {
        assert buf[..] == rest + data;
        BlockTaken(done, buf[..]);
        Compress(buf[..]);
        used := 0;
        assert message[..|message|] == message && message[|message|..] == [];
      }
    }

    method Fill(data: bytes)
      requires buf.Length == BLOCK && used + |data| <= BLOCK
      modifies buf
      ensures buf[..used + |data|] == old(buf[..used]) + data
    {
      for k := 0 to |data|
        invariant buf[..used + k] == old(buf[..used]) + data[..k]
      {
        buf[used + k] := data[k];
        assert buf[..used + k + 1] == buf[..used + k] + [data[k]];
      }
    }

    method Finish() returns (out: bytes)
      requires Valid()
      modifies this, buf
      ensures out == Hash(old(message))
    {
      hide HashBlocks, Digest, PaddedTail;
      ghost var whole, rest := message[..|message| - used], buf[..used];
      assert message == whole + rest;
      ghost var tail := PaddedTail(rest, bits);
      PadAndCompress();
      HashInTwo(INITIAL, whole, tail);
      PadIs(whole, rest);
      out := Digest(regs);
      Clear(0, BLOCK);
    }

    /** Writes 0x80, zeros and the length behind what the buffer holds, and compresses the one or two blocks. */
    method PadAndCompress()
      requires buf.Length == BLOCK && used < BLOCK
      modifies this`regs, this`used, buf
      ensures regs == HashBlocks(old(regs), PaddedTail(old(buf[..used]), bits))
    {
      hide HashBlocks, BigEndian, Compressed, PaddedTail, ZeroCount;
      ghost var rest, before := buf[..used], regs;
      buf[used] := 0x80;
      used := used + 1;
      assert buf[..used] == rest + [0x80];
      ghost var first := [];
      if used > BLOCK - 8 {
        Clear(used, BLOCK);
        first := buf[..];
        assert first == rest + [0x80] + Zeros(BLOCK - |rest| - 1);
        HashOne(before, first);
        Compress(buf[..]);
        used := 0;
      }
      ghost var left := buf[..used];
      Clear(used, BLOCK - 8);
      PutLength();
      ghost var last := left + Zeros(BLOCK - 8 - used) + BigEndian(bits, 8);
      assert buf[..] == last;
      HashOne(regs, last);
      Compress(buf[..]);
      TailIs(rest, bits, first, last);
      if first == [] {
        assert first + last == last;
      } else {
        HashInTwo(before, first, last);
      }
    }

    /** Zeros a stretch of the buffer. */
    method Clear(from: nat, to: nat)
      requires buf.Length == BLOCK && from <= to <= BLOCK
      modifies buf
      ensures buf[..to] == old(buf[..from]) + Zeros(to - from) && buf[to..] == old(buf[to..])
    {
      for i := from to to
        invariant forall k :: 0 <= k < from ==> buf[k] == old(buf[k])
        invariant forall k :: from <= k < i ==> buf[k] == 0
        invariant forall k :: to <= k < BLOCK ==> buf[k] == old(buf[k])
      {
        buf[i] := 0;
      }
    }

    /** The length goes to the last eight bytes, its lowest byte last. */
    method PutLength()
      requires buf.Length == BLOCK
      modifies buf
      ensures buf[..] == old(buf[..BLOCK - 8]) + BigEndian(bits, 8)
    {
      var rest := bits;
      for i := 0 to 8
        invariant buf[..BLOCK - 8] == old(buf[..BLOCK - 8])
        invariant BigEndian(rest, 8 - i) + buf[BLOCK - i..] == BigEndian(bits, 8)
      {
        ghost var behind := buf[BLOCK - i..];
        buf[BLOCK - 1 - i] := rest % 256;
        assert buf[BLOCK - 1 - i..] == [rest % 256] + behind;
        rest := rest / 256;
      }
      assert buf[..] == buf[..BLOCK - 8] + buf[BLOCK - 8..];
    }

    method Compress(block: bytes)
      requires |block| == BLOCK
      modifies this`regs
      ensures regs == Compressed(old(regs), block)
    {
      hide WordAt, SmallSigma0, SmallSigma1, Add, Sum4, BigSigma0, BigSigma1, Ch, Maj, RoundConstant, Round;
      var w := Expand(block);
      var r := regs;
      for i := 0 to 64
        invariant regs == old(regs) && r == Rounds(regs, w, i)
      {
        r := OneRound(r, RoundConstant(i), w[i]);
      }
      regs := Plus(regs, r);
    }
  }

  method Expand(block: bytes) returns (w: seq<word>)
    ensures w == Schedule(block, 64)
  {
    hide WordAt, SmallSigma0, SmallSigma1, Add, Sum4;
    w := [];
    for i := 0 to 16
      invariant w == Schedule(block, i)
    {
      w := w + [WordAt(block, i)];
    }
    for i := 16 to 64
      invariant w == Schedule(block, i)
    {
      var s0 := SmallSigma0(w[i - 15]);
      var s1 := SmallSigma1(w[i - 2]);
      SumInAnyOrder(w[i - 16], s0, w[i - 7], s1);
      w := w + [Sum4(w[i - 16], s0, w[i - 7], s1)];
    }
  }

  method OneRound(r: Regs, k: word, w: word) returns (s: Regs)
    ensures s == Round(r, k, w)
  {
    hide Add, BigSigma0, BigSigma1, Ch, Maj;
    var S1 := BigSigma1(r.e);
    var ch := Ch(r.e, r.f, r.g);
    var t1 := Add(Add(Add(Add(r.h, S1), ch), k), w);
    var S0 := BigSigma0(r.a);
    var maj := Maj(r.a, r.b, r.c);
    var t2 := Add(S0, maj);
    s := Regs(Add(t1, t2), r.a, r.b, r.c, Add(r.d, t1), r.e, r.f, r.g);
  }

  /** What follows the whole blocks: the rest of the message, 0x80, zeros and the length. */
  function PaddedTail(rest: bytes, bits: nat): bytes {
    rest + [0x80] + Zeros(ZeroCount(|rest|)) + BigEndian(bits, 8)
  }

  /** When 0x80 leaves no room for the length, the zeros run over into another block. */
  lemma {:induction false} TailIs(rest: bytes, bits: nat, first: bytes, last: bytes)
    requires |rest| < BLOCK
    requires if |rest| + 1 > BLOCK - 8
      then first == rest + [0x80] + Zeros(BLOCK - |rest| - 1) && last == [] + Zeros(BLOCK - 8) + BigEndian(bits, 8)
      else first == [] && last == rest + [0x80] + Zeros(BLOCK - 8 - |rest| - 1) + BigEndian(bits, 8)
    ensures PaddedTail(rest, bits) == first + last
  {
    hide BigEndian;
    if |rest| + 1 > BLOCK - 8 {
      assert Zeros(ZeroCount(|rest|)) == Zeros(BLOCK - |rest| - 1) + Zeros(BLOCK - 8);
    } else {
      assert ZeroCount(|rest|) == BLOCK - 8 - |rest| - 1;
    }
  }

  lemma {:induction false} JoinSlices(data: bytes, at: nat, n: nat)
    requires at + n <= |data|
    ensures data[..at] + data[at..at + n] == data[..at + n]
  {
  }

  lemma {:induction false} BitsAdd(m: nat, n: nat)
    ensures (8 * m % BITS_END + n * 8) % BITS_END == 8 * (m + n) % BITS_END
  {
    var q := 8 * m / BITS_END;
    assert 8 * (m + n) == (8 * m % BITS_END + n * 8) + q * BITS_END;
    WholeTurns(8 * m % BITS_END + n * 8, q);
  }

  lemma {:induction false} WholeTurns(a: nat, q: nat)
    ensures (a + q * BITS_END) % BITS_END == a % BITS_END
  {
    var p := a / BITS_END;
    assert a + q * BITS_END == (p + q) * BITS_END + a % BITS_END;
  }

  /** Only the lowest 64 bits of the length are written. */
  lemma {:induction false} LengthWraps(n: nat)
    ensures BigEndian(n % BITS_END, 8) == BigEndian(n, 8)
  {
    LowBytes(n, 8, BITS_END);
  }

  predicate Power256(width: nat, p: nat) {
    if width == 0 then p == 1 else p % 256 == 0 && p > 0 && Power256(width - 1, p / 256)
  }

  lemma {:induction false} LowBytes(n: nat, width: nat, p: nat)
    requires Power256(width, p)
    ensures p > 0 && BigEndian(n % p, width) == BigEndian(n, width)
  {
    if width > 0 {
      var q := p / 256;
      LowBytes(n / 256, width - 1, q);
      LowDigit(n, q);
    }
  }

  /** Dropping the low digit commutes with dropping the high ones. */
  lemma {:induction false} LowDigit(n: nat, q: nat)
    requires q > 0
    ensures n % (256 * q) % 256 == n % 256 && n % (256 * q) / 256 == n / 256 % q
  {
    var m, d := n / 256, n % 256;
    var k, r := m / q, m % q;
    assert n == (256 * q) * k + (256 * r + d) by {
      assert m == q * k + r;
      assert 256 * (q * k) == (256 * q) * k;
    }
    Quotient(n, 256 * q, k, 256 * r + d);
  }

  lemma {:induction false} Quotient(x: nat, d: nat, k: nat, r: nat)
    requires r < d && x == d * k + r
    ensures x / d == k && x % d == r
  {
    var m, s := x / d, x % d;
    assert x == d * m + s;
    assert d * (k - m) == s - r && d * (m - k) == r - s;
    AtLeast(d, k - m);
    AtLeast(d, m - k);
  }

  lemma {:induction false} AtLeast(d: nat, n: int)
    ensures n >= 1 ==> d * n >= d
  {
  }

  /** The padding of the message is its whole blocks, then the padded tail. */
  lemma {:induction false} PadIs(whole: bytes, rest: bytes)
    requires |whole| % BLOCK == 0 && |rest| < BLOCK
    ensures var message := whole + rest;
      Pad(message) == whole + PaddedTail(rest, 8 * |message| % BITS_END)
  {
    hide BigEndian;
    var message := whole + rest;
    LengthWraps(8 * |message|);
    SameZeros(whole, rest);
    hide ZeroCount, Zeros;
    JoinTail(whole, rest, [0x80], Zeros(ZeroCount(|rest|)), BigEndian(8 * |message|, 8));
  }

  lemma {:induction false} SameZeros(whole: bytes, rest: bytes)
    requires |whole| % BLOCK == 0 && |rest| < BLOCK
    ensures ZeroCount(|whole + rest|) == ZeroCount(|rest|)
  {
    assert |whole + rest| % BLOCK == |rest|;
  }

  lemma {:induction false} JoinTail(a: bytes, b: bytes, c: bytes, d: bytes, e: bytes)
    ensures a + b + c + d + e == a + (b + c + d + e)
  {
  }

  /** However many pieces a message arrives in, and wherever it is cut, its hash is the same. */
  method HashInPieces(pieces: seq<bytes>) returns (out: bytes)
    ensures out == Hash(Concat(pieces))
  {
    hide Hash, Hasher.Valid;
    var s := new Hasher();
    assert pieces[0..] == pieces;
    for i := 0 to |pieces|
      invariant s.Valid() && fresh(s) && fresh(s.buf)
      invariant s.message + Concat(pieces[i..]) == Concat(pieces)
    {
      assert pieces[i..][1..] == pieces[i + 1..];
      ghost var before := s.message;
      s.Update(pieces[i]);
      assert s.message + Concat(pieces[i + 1..]) == before + (pieces[i] + Concat(pieces[i + 1..]));
    }
    assert pieces[|pieces|..] == [] && s.message + [] == s.message;
    out := s.Finish();
  }

  function Concat(pieces: seq<bytes>): bytes {
    if pieces == [] then [] else pieces[0] + Concat(pieces[1..])
  }
}
