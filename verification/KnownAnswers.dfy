/**
 * Known answers. Bytes that the firmware's own tests expect (test/support/vectors.h,
 * test/test_crypto/test_main.cpp, test/test_acquisition/test_main.cpp), and the constants of SHA-256
 * told from the primes they come from.
 */
module KnownAnswers {
  import opened Bytes
  import opened BlockFormat
  import opened SyncProtocol
  import B = BlockBuilder
  import opened Crc32
  import S = Sha256
  import Hmac

  // ---- formats ----

  lemma {:induction false} BootBytes()
    ensures BootMarker(192, 4, 812, 131, 191)
      == [0xC0, 0x00, 0x00, 0x00, 0x04, 0x00, 0x2C, 0x03, 0x00, 0x00, 0x17, 0x00, 0xFE, 0x00, 0x00, 0x83, 0x00,
      0x00, 0x00, 0xBF, 0x00, 0x00, 0x00]
  {
    SmallU32();
    assert U32(812) == [0x2C, 3, 0, 0] && U16(4) == [4, 0] && U16(23) == [23, 0] && U16(0) == [0, 0];
  }

  lemma {:induction false} LossBytes()
    ensures LossMarker(140, 141)
      == [0x8C, 0x00, 0x00, 0x00, 0x00, 0x00, 0x00, 0x00, 0x00, 0x00, 0x17, 0x00, 0xFD, 0x00, 0x00, 0x8C, 0x00,
      0x00, 0x00, 0x8D, 0x00, 0x00, 0x00]
  {
    SmallU32();
    assert U16(23) == [23, 0] && U16(0) == [0, 0];
  }

  lemma {:induction false} SmallU32()
    ensures forall v: nat :: v < 256 ==> U32(v) == [v, 0, 0, 0]
  {
  }

  /** A block of one PID reading, 300 ms after its start, and one position. */
  lemma {:induction false} DataBytes()
    ensures B.DataArea(5000, [B.Pid(0x0C, 300, 0x1A, 0xF8), B.Gps(400, -235000000, -466000000, 760000)])
      == [0, 0, 0, 0] + [0, 0] + [0x88, 0x13, 0x00, 0x00] + [0x20, 0x00]
         + ([0x0C, 0x2C, 0x01, 0x1A, 0xF8]
            + [0xFF, 0x90, 0x01, 0x40, 0x2F, 0xFE, 0xF1, 0x80, 0x67, 0x39, 0xE4, 0xC0, 0x98, 0x0B, 0x00])
  {
    var p, g := B.Pid(0x0C, 300, 0x1A, 0xF8), B.Gps(400, -235000000, -466000000, 760000);
    PidBytes();
    PositionBytes();
    hide B.Encode, B.EncodeAll, U32, U16;
    Encoded(p, g);
    HeaderNumbers();
  }

  lemma {:induction false} PidBytes()
    ensures B.Encode(B.Pid(0x0C, 300, 0x1A, 0xF8)) == [0x0C, 0x2C, 0x01, 0x1A, 0xF8]
  {
    assert U16(300) == [0x2C, 0x01];
  }

  lemma {:induction false} HeaderNumbers()
    ensures U32(0) == [0, 0, 0, 0] && U16(0) == [0, 0] && U32(5000) == [0x88, 0x13, 0, 0] && U16(32) == [32, 0]
  {
  }

  lemma {:induction false} Encoded(p: B.Reading, g: B.Reading)
    ensures B.EncodeAll([p, g]) == B.Encode(p) + B.Encode(g)
  {
    hide B.Encode;
    assert [p, g][..1] == [p] && [p][..0] == [];
    assert B.EncodeAll([p]) == [] + B.Encode(p);
  }

  lemma {:induction false} PositionBytes()
    ensures B.Encode(B.Gps(400, -235000000, -466000000, 760000))
      == [0xFF, 0x90, 0x01, 0x40, 0x2F, 0xFE, 0xF1, 0x80, 0x67, 0x39, 0xE4, 0xC0, 0x98, 0x0B, 0x00]
  {
    assert B.AsU32(-235000000) == 4059967296 && B.AsU32(-466000000) == 3828967296 && B.AsU32(760000) == 760000;
    assert U32(4059967296) == [0x40, 0x2F, 0xFE, 0xF1] && U32(3828967296) == [0x80, 0x67, 0x39, 0xE4];
    assert U32(760000) == [0xC0, 0x98, 0x0B, 0x00] && U16(400) == [0x90, 0x01];
  }

  // ---- messages ----

  function Nonce(): (p: bytes)
    ensures |p| == 16
  {
    [0, 1, 2, 3, 4, 5, 6, 7, 8, 9, 10, 11, 12, 13, 14, 15]
  }

  lemma {:induction false} ChallengeIs()
    ensures DecodeChallenge(ChallengeValue()) == Some(Challenge(7, Nonce(), 100, 6, false))
  {
    hide Nonce;
    var v := ChallengeValue();
    assert v[4..20] == Nonce() && v[20..] == ChallengeTail() && v[24..] == ChallengeTail()[4..]
      && v[28] == ChallengeTail()[8];
  }

  /** The type, the length, and then the value. */
  lemma {:induction false} MessageIs(kind: byte, value: bytes)
    requires |value| < 256
    ensures ParseTlv([kind, |value|, 0] + value) == Some(Tlv(kind, value))
  {
    var msg := [kind, |value|, 0] + value;
    assert msg[3..] == value && msg[1] == |value| && msg[2] == 0;
  }

  function ChallengeValue(): bytes { [0x07, 0x00, 0x00, 0x00] + Nonce() + ChallengeTail() }

  function ChallengeTail(): bytes {
    [0x64, 0x00, 0x00, 0x00, 0x06, 0x00, 0x00, 0x00, 0x00, 0x5E, 0x08, 0x17, 0x4F, 0x9D, 0x21, 0xCA, 0xA3,
     0x13, 0xD5, 0x2A, 0x39, 0xDC, 0xD3, 0x19, 0x43]
  }

  lemma {:induction false} DiagChallengeIs()
    ensures DecodeChallenge(DiagValue()) == Some(Challenge(8, Nonce(), 100, 7, true))
  {
    hide Nonce;
    var v := DiagValue();
    assert v[4..20] == Nonce() && v[20..] == DiagTail() && v[24..] == DiagTail()[4..] && v[28] == DiagTail()[8];
  }

  function DiagValue(): bytes { [0x08, 0x00, 0x00, 0x00] + Nonce() + DiagTail() }

  function DiagTail(): bytes {
    [0x64, 0x00, 0x00, 0x00, 0x07, 0x00, 0x00, 0x00, 0x01, 0x1E, 0x00, 0x26, 0x89, 0x76, 0x3B, 0x1F, 0xF2,
     0xBA, 0xD8, 0xFC, 0x79, 0x55, 0xD4, 0xC7, 0xEC, 0xDE, 0xB3]
  }

  lemma {:induction false} AckIs()
    ensures DecodeAck(AckValue()) == Some(Ack(130, 7, false))
  {
  }

  function AckValue(): bytes {
    [0x82, 0x00, 0x00, 0x00, 0x07, 0x00, 0x00, 0x00, 0x00, 0x84, 0xEB, 0x2C, 0x12, 0x03, 0xB2, 0x72, 0x0E,
     0x49, 0x2D, 0xB8, 0x9E, 0x04, 0xF1, 0xFA, 0xE7]
  }

  /** A request for ten blocks. */
  lemma {:induction false} RequestIs()
    ensures ParseTlv([0x05, 2, 0, 10, 0]) == Some(Tlv(BATCH_REQUEST, [10, 0]))
    ensures DecodeBatchRequest([10, 0]) == Some(10)
  {
    assert [0x05, 2, 0, 10, 0][3..] == [10, 0];
  }

  /** What a tag covers begins with MALCONG, the type and the device. */
  lemma {:induction false} CoveredBytes(kind: byte, devId: bytes, content: bytes)
    ensures Hmac.Covered(kind, devId, content)
      == ['M' as int, 'A' as int, 'L' as int, 'C' as int, 'O' as int, 'N' as int, 'G' as int, kind] + devId + content
  {
  }

  // ---- HMAC ----

  /** A key of up to 64 bytes, filled up with zeros and exclusive-ored with 0x36 inside and 0x5C outside. */
  lemma {:induction false} MacIs(key: bytes, message: bytes, inner: bytes, outer: bytes)
    requires |key| <= 64 && |inner| == |outer| == 64
    requires forall j :: 0 <= j < 64 ==> inner[j] == Hmac.Xor(if j < |key| then key[j] else 0, 0x36)
    requires forall j :: 0 <= j < 64 ==> outer[j] == Hmac.Xor(if j < |key| then key[j] else 0, 0x5C)
    ensures Hmac.Mac(key, message) == S.Hash(outer + S.Hash(inner + message))
  {
    hide S.Hash, Hmac.Xor;
    var k := Hmac.BlockKey(key);
    assert inner == Hmac.XorAll(k, 0x36) && outer == Hmac.XorAll(k, 0x5C);
  }

  /** A longer key counts as its hash. */
  lemma {:induction false} LongKeyIsHashed(key: bytes, message: bytes)
    requires |key| > 64
    ensures Hmac.Mac(key, message) == Hmac.Mac(S.Hash(key), message)
  {
    hide S.Hash, Hmac.XorAll;
    assert Hmac.BlockKey(key) == Hmac.BlockKey(S.Hash(key));
  }

  /** The bytes of a key of 0x0B. */
  lemma {:induction false} PadBytes()
    ensures Hmac.Xor(0x0B, 0x36) == 0x3D && Hmac.Xor(0x0B, 0x5C) == 0x57
  {
    assert Hmac.XorBits(4, 0, 3) == 3 && Hmac.XorBits(4, 0, 5) == 5;
  }

  // ---- CRC-32 ----

  function Eight(c: word): word { Shift(Shift(Shift(Shift(Shift(Shift(Shift(Shift(c)))))))) }

  lemma {:induction false} AbsorbIs(c: word, b: byte)
    ensures Absorb(c, b) == Eight(Xor(c, Widen(b)))
  {
    hide Shift, Xor, Widen;
    var x := Xor(c, Widen(b));
    ShiftsAdd(4, 4, x);
    FourShifts(x);
    FourShifts(Shifts(4, x));
  }

  lemma {:induction false} DigitsWide()
    ensures Widen(0x31) == 0x31 && Widen(0x32) == 0x32 && Widen(0x33) == 0x33 && Widen(0x34) == 0x34
    ensures Widen(0x35) == 0x35 && Widen(0x36) == 0x36 && Widen(0x37) == 0x37 && Widen(0x38) == 0x38
    ensures Widen(0x39) == 0x39
  {
    assert Widen(1) == 1 && Widen(3) == 3 && Widen(6) == 6 && Widen(12) == 12;
    assert Widen(24) == 24 && Widen(25) == 25 && Widen(26) == 26 && Widen(27) == 27 && Widen(28) == 28;
  }

  /** Nine bytes, one after the other. */
  lemma {:induction false} NineSteps()
    ensures Eight(Xor(0xffffffff, 0x31)) == 0x7c231048
    ensures Eight(Xor(0x7c231048, 0x32)) == 0xb0acbb32
    ensures Eight(Xor(0xb0acbb32, 0x33)) == 0x77b79c2d
    ensures Eight(Xor(0x77b79c2d, 0x34)) == 0x641c1f5c
    ensures Eight(Xor(0x641c1f5c, 0x35)) == 0x340ac5e3
    ensures Eight(Xor(0x340ac5e3, 0x36)) == 0xf68d2c9e
    ensures Eight(Xor(0xf68d2c9e, 0x37)) == 0xaffc9660
    ensures Eight(Xor(0xaffc9660, 0x38)) == 0x651f2550
    ensures Eight(Xor(0x651f2550, 0x39)) == 0x340bc6d9
  {
    FirstSteps();
    MoreSteps();
  }

  lemma {:induction false} FirstSteps()
    ensures Eight(Xor(0xffffffff, 0x31)) == 0x7c231048
    ensures Eight(Xor(0x7c231048, 0x32)) == 0xb0acbb32
    ensures Eight(Xor(0xb0acbb32, 0x33)) == 0x77b79c2d
    ensures Eight(Xor(0x77b79c2d, 0x34)) == 0x641c1f5c
    ensures Eight(Xor(0x641c1f5c, 0x35)) == 0x340ac5e3
  {
  }

  lemma {:induction false} MoreSteps()
    ensures Eight(Xor(0x340ac5e3, 0x36)) == 0xf68d2c9e
    ensures Eight(Xor(0xf68d2c9e, 0x37)) == 0xaffc9660
    ensures Eight(Xor(0xaffc9660, 0x38)) == 0x651f2550
    ensures Eight(Xor(0x651f2550, 0x39)) == 0x340bc6d9
  {
  }

  lemma {:induction false} RegisterMore(c: word, data: bytes, b: byte)
    ensures Register(c, data + [b]) == Absorb(Register(c, data), b)
  {
    hide Absorb;
    assert (data + [b])[..|data|] == data;
  }

  /** The check value of CRC-32: the CRC of the digits 1 to 9. */
  lemma {:induction false} CrcCheck()
    ensures Crc([0x31, 0x32, 0x33, 0x34, 0x35, 0x36, 0x37, 0x38, 0x39], 0) == 0xCBF43926
  {
    hide Register, Absorb, Eight, Xor, Widen;
    DigitsWide();
    NineSteps();
    var c := Not(0);
    assert c == 0xFFFFFFFF;
    EmptyRegister(c);
    NextByte([], 0x31, 0xffffffff, 0x7c231048);
    assert [] + [0x31] == [0x31];
    NextByte([0x31], 0x32, 0x7c231048, 0xb0acbb32);
    assert [0x31] + [0x32] == [0x31, 0x32];
    NextByte([0x31, 0x32], 0x33, 0xb0acbb32, 0x77b79c2d);
    assert [0x31, 0x32] + [0x33] == [0x31, 0x32, 0x33];
    NextByte([0x31, 0x32, 0x33], 0x34, 0x77b79c2d, 0x641c1f5c);
    assert [0x31, 0x32, 0x33] + [0x34] == [0x31, 0x32, 0x33, 0x34];
    NextByte([0x31, 0x32, 0x33, 0x34], 0x35, 0x641c1f5c, 0x340ac5e3);
    assert [0x31, 0x32, 0x33, 0x34] + [0x35] == [0x31, 0x32, 0x33, 0x34, 0x35];
    NextByte([0x31, 0x32, 0x33, 0x34, 0x35], 0x36, 0x340ac5e3, 0xf68d2c9e);
    assert [0x31, 0x32, 0x33, 0x34, 0x35] + [0x36] == [0x31, 0x32, 0x33, 0x34, 0x35, 0x36];
    NextByte([0x31, 0x32, 0x33, 0x34, 0x35, 0x36], 0x37, 0xf68d2c9e, 0xaffc9660);
    assert [0x31, 0x32, 0x33, 0x34, 0x35, 0x36] + [0x37] == [0x31, 0x32, 0x33, 0x34, 0x35, 0x36, 0x37];
    NextByte([0x31, 0x32, 0x33, 0x34, 0x35, 0x36, 0x37], 0x38, 0xaffc9660, 0x651f2550);
    assert [0x31, 0x32, 0x33, 0x34, 0x35, 0x36, 0x37] + [0x38] == [0x31, 0x32, 0x33, 0x34, 0x35, 0x36, 0x37, 0x38];
    NextByte([0x31, 0x32, 0x33, 0x34, 0x35, 0x36, 0x37, 0x38], 0x39, 0x651f2550, 0x340bc6d9);
    assert [0x31, 0x32, 0x33, 0x34, 0x35, 0x36, 0x37, 0x38] + [0x39]
      == [0x31, 0x32, 0x33, 0x34, 0x35, 0x36, 0x37, 0x38, 0x39];
  }

  lemma {:induction false} EmptyRegister(c: word)
    ensures Register(c, []) == c
  {
  }

  lemma {:induction false} NextByte(data: bytes, b: byte, c: word, r: word)
    requires Register(0xFFFFFFFF, data) == c && Eight(Xor(c, Widen(b))) == r
    ensures Register(0xFFFFFFFF, data + [b]) == r
  {
    hide Absorb, Eight, Xor, Widen, Register;
    RegisterMore(0xFFFFFFFF, data, b);
    AbsorbIs(c, b);
  }

  // ---- the constants of SHA-256 ----

  /** The whole part of a cube root. */
  function Whole(p: nat): nat {
    if p < 8 then 1 else if p < 27 then 2 else if p < 64 then 3 else if p < 125 then 4 else if p < 216 then 5 else 6
  }

  /** The word is the first 32 bits behind the point of the cube root of `p`. */
  predicate CubeRoot(p: nat, k: word) {
    var n := 0x1_0000_0000 * Whole(p) + k as nat;
    n * n * n <= p * 0x1_0000_0000_0000_0000_0000_0000 < (n + 1) * (n + 1) * (n + 1)
  }

  /** Four constants in a row come from these primes. */
  predicate RowIs(t: nat, ps: seq<nat>) {
    |ps| == 4 && t + 4 <= |S.K| && forall i :: 0 <= i < 4 ==> CubeRoot(ps[i], S.RoundConstant(t + i))
  }

  predicate SquareRoot(p: nat, w: nat, k: word) {
    var n := 0x1_0000_0000 * w + k as nat;
    n * n <= p * 0x1_0000_0000_0000_0000 < (n + 1) * (n + 1)
  }

  /** The initial words come from the square roots of the first eight primes. */
  lemma {:induction false} InitialWords()
    ensures var r := S.INITIAL;
      && SquareRoot(2, 1, r.a) && SquareRoot(3, 1, r.b) && SquareRoot(5, 2, r.c) && SquareRoot(7, 2, r.d)
      && SquareRoot(11, 3, r.e) && SquareRoot(13, 3, r.f) && SquareRoot(17, 4, r.g) && SquareRoot(19, 4, r.h)
  {
  }

  /** The round constants come from the cube roots of the first 64 primes. */
  lemma {:induction false} RoundConstants()
    ensures RowIs(0, [2, 3, 5, 7]) && RowIs(4, [11, 13, 17, 19])
    ensures RowIs(8, [23, 29, 31, 37]) && RowIs(12, [41, 43, 47, 53])
    ensures RowIs(16, [59, 61, 67, 71]) && RowIs(20, [73, 79, 83, 89])
    ensures RowIs(24, [97, 101, 103, 107]) && RowIs(28, [109, 113, 127, 131])
    ensures RowIs(32, [137, 139, 149, 151]) && RowIs(36, [157, 163, 167, 173])
    ensures RowIs(40, [179, 181, 191, 193]) && RowIs(44, [197, 199, 211, 223])
    ensures RowIs(48, [227, 229, 233, 239]) && RowIs(52, [241, 251, 257, 263])
    ensures RowIs(56, [269, 271, 277, 281]) && RowIs(60, [283, 293, 307, 311])
  {
    hide RowIs;
    Row0();
    Row1();
    Row2();
    Row3();
    Row4();
    Row5();
    Row6();
    Row7();
    Row8();
    Row9();
    Row10();
    Row11();
    Row12();
    Row13();
    Row14();
    Row15();
  }

  lemma {:induction false} Row0()
    ensures RowIs(0, [2, 3, 5, 7])
  {
    RootIs(2, 0, 0x428a2f98);
    RootIs(3, 1, 0x71374491);
    RootIs(5, 2, 0xb5c0fbcf);
    RootIs(7, 3, 0xe9b5dba5);
    hide CubeRoot, S.RoundConstant;
  }

  lemma {:induction false} Row1()
    ensures RowIs(4, [11, 13, 17, 19])
  {
    RootIs(11, 4, 0x3956c25b);
    RootIs(13, 5, 0x59f111f1);
    RootIs(17, 6, 0x923f82a4);
    RootIs(19, 7, 0xab1c5ed5);
    hide CubeRoot, S.RoundConstant;
  }

  lemma {:induction false} Row2()
    ensures RowIs(8, [23, 29, 31, 37])
  {
    RootIs(23, 8, 0xd807aa98);
    RootIs(29, 9, 0x12835b01);
    RootIs(31, 10, 0x243185be);
    RootIs(37, 11, 0x550c7dc3);
    hide CubeRoot, S.RoundConstant;
  }

  lemma {:induction false} Row3()
    ensures RowIs(12, [41, 43, 47, 53])
  {
    RootIs(41, 12, 0x72be5d74);
    RootIs(43, 13, 0x80deb1fe);
    RootIs(47, 14, 0x9bdc06a7);
    RootIs(53, 15, 0xc19bf174);
    hide CubeRoot, S.RoundConstant;
  }

  lemma {:induction false} Row4()
    ensures RowIs(16, [59, 61, 67, 71])
  {
    RootIs(59, 16, 0xe49b69c1);
    RootIs(61, 17, 0xefbe4786);
    RootIs(67, 18, 0x0fc19dc6);
    RootIs(71, 19, 0x240ca1cc);
    hide CubeRoot, S.RoundConstant;
  }

  lemma {:induction false} Row5()
    ensures RowIs(20, [73, 79, 83, 89])
  {
    RootIs(73, 20, 0x2de92c6f);
    RootIs(79, 21, 0x4a7484aa);
    RootIs(83, 22, 0x5cb0a9dc);
    RootIs(89, 23, 0x76f988da);
    hide CubeRoot, S.RoundConstant;
  }

  lemma {:induction false} Row6()
    ensures RowIs(24, [97, 101, 103, 107])
  {
    RootIs(97, 24, 0x983e5152);
    RootIs(101, 25, 0xa831c66d);
    RootIs(103, 26, 0xb00327c8);
    RootIs(107, 27, 0xbf597fc7);
    hide CubeRoot, S.RoundConstant;
  }

  lemma {:induction false} Row7()
    ensures RowIs(28, [109, 113, 127, 131])
  {
    RootIs(109, 28, 0xc6e00bf3);
    RootIs(113, 29, 0xd5a79147);
    RootIs(127, 30, 0x06ca6351);
    RootIs(131, 31, 0x14292967);
    hide CubeRoot, S.RoundConstant;
  }

  lemma {:induction false} Row8()
    ensures RowIs(32, [137, 139, 149, 151])
  {
    RootIs(137, 32, 0x27b70a85);
    RootIs(139, 33, 0x2e1b2138);
    RootIs(149, 34, 0x4d2c6dfc);
    RootIs(151, 35, 0x53380d13);
    hide CubeRoot, S.RoundConstant;
  }

  lemma {:induction false} Row9()
    ensures RowIs(36, [157, 163, 167, 173])
  {
    RootIs(157, 36, 0x650a7354);
    RootIs(163, 37, 0x766a0abb);
    RootIs(167, 38, 0x81c2c92e);
    RootIs(173, 39, 0x92722c85);
    hide CubeRoot, S.RoundConstant;
  }

  lemma {:induction false} Row10()
    ensures RowIs(40, [179, 181, 191, 193])
  {
    RootIs(179, 40, 0xa2bfe8a1);
    RootIs(181, 41, 0xa81a664b);
    RootIs(191, 42, 0xc24b8b70);
    RootIs(193, 43, 0xc76c51a3);
    hide CubeRoot, S.RoundConstant;
  }

  lemma {:induction false} Row11()
    ensures RowIs(44, [197, 199, 211, 223])
  {
    RootIs(197, 44, 0xd192e819);
    RootIs(199, 45, 0xd6990624);
    RootIs(211, 46, 0xf40e3585);
    RootIs(223, 47, 0x106aa070);
    hide CubeRoot, S.RoundConstant;
  }

  lemma {:induction false} Row12()
    ensures RowIs(48, [227, 229, 233, 239])
  {
    RootIs(227, 48, 0x19a4c116);
    RootIs(229, 49, 0x1e376c08);
    RootIs(233, 50, 0x2748774c);
    RootIs(239, 51, 0x34b0bcb5);
    hide CubeRoot, S.RoundConstant;
  }

  lemma {:induction false} Row13()
    ensures RowIs(52, [241, 251, 257, 263])
  {
    RootIs(241, 52, 0x391c0cb3);
    RootIs(251, 53, 0x4ed8aa4a);
    RootIs(257, 54, 0x5b9cca4f);
    RootIs(263, 55, 0x682e6ff3);
    hide CubeRoot, S.RoundConstant;
  }

  lemma {:induction false} Row14()
    ensures RowIs(56, [269, 271, 277, 281])
  {
    RootIs(269, 56, 0x748f82ee);
    RootIs(271, 57, 0x78a5636f);
    RootIs(277, 58, 0x84c87814);
    RootIs(281, 59, 0x8cc70208);
    hide CubeRoot, S.RoundConstant;
  }

  lemma {:induction false} Row15()
    ensures RowIs(60, [283, 293, 307, 311])
  {
    RootIs(283, 60, 0x90befffa);
    RootIs(293, 61, 0xa4506ceb);
    RootIs(307, 62, 0xbef9a3f7);
    RootIs(311, 63, 0xc67178f2);
    hide CubeRoot, S.RoundConstant;
  }

  lemma {:induction false} RootIs(p: nat, t: nat, k: word)
    requires t < |S.K| && S.K[t] == k && CubeRoot(p, k)
    ensures CubeRoot(p, S.RoundConstant(t))
  {
    hide CubeRoot;
  }

  // ---- the functions of SHA-256 ----

  /** The rotations and shifts of the words that occur first for the message abc. */
  lemma {:induction false} BigSigma1Turns()
    ensures S.Rotr(0x510e527f, 6) == 0xfd443949 && S.Rotr(0x510e527f, 11) == 0x4fea21ca
      && S.Rotr(0x510e527f, 25) == 0x87293fa8
  {
  }

  lemma {:induction false} BigSigma0Turns()
    ensures S.Rotr(0x6a09e667, 2) == 0xda827999 && S.Rotr(0x6a09e667, 13) == 0x333b504f
      && S.Rotr(0x6a09e667, 22) == 0x27999da8
  {
  }

  lemma {:induction false} SmallSigma0Turns()
    ensures S.Rotr(0x61626380, 7) == 0x00c2c4c7 && S.Rotr(0x61626380, 18) == 0x98e01858
      && S.Shr(0x61626380, 3) == 0x0c2c4c70
  {
  }

  lemma {:induction false} SmallSigma1Turns()
    ensures S.Rotr(0x00000018, 17) == 0x000c0000 && S.Rotr(0x00000018, 19) == 0x00030000
      && S.Shr(0x00000018, 10) == 0x00000000
  {
  }

  lemma {:induction false} SigmasAre()
    ensures S.BigSigma1(0x510e527f) == 0x3587272b
    ensures S.BigSigma0(0x6a09e667) == 0xce20b47e
    ensures S.SmallSigma0(0x61626380) == 0x940e90ef
    ensures S.SmallSigma1(0x00000018) == 0x000f0000
  {
    hide S.Rotr, S.Shr;
    BigSigma1Turns();
    BigSigma0Turns();
    SmallSigma0Turns();
    SmallSigma1Turns();
  }

  /** The first word chooses between the other two, bit by bit. */
  lemma {:induction false} Choice(x: word, y: word)
    ensures S.Ch(0xFFFFFFFF, x, y) == x && S.Ch(0, x, y) == y
  {
  }

  /** Two words that agree outvote the third. */
  lemma {:induction false} Majority(x: word, y: word)
    ensures S.Maj(x, x, y) == x && S.Maj(x, y, x) == x && S.Maj(y, x, x) == x
  {
  }

  lemma {:induction false} FirstChoices()
    ensures S.Ch(0x510e527f, 0x9b05688c, 0x1f83d9ab) == 0x1f85c98c
    ensures S.Maj(0x6a09e667, 0xbb67ae85, 0x3c6ef372) == 0x3a6fe667
  {
  }

  lemma {:induction false} FirstSums()
    ensures S.Add(S.Add(S.Add(S.Add(0x5be0cd19, 0x3587272b), 0x1f85c98c), 0x428a2f98), 0x61626380) == 0x54da50e8
    ensures S.Add(0xce20b47e, 0x3a6fe667) == 0x08909ae5
    ensures S.Add(0x54da50e8, 0x08909ae5) == 0x5d6aebcd && S.Add(0xa54ff53a, 0x54da50e8) == 0xfa2a4622
    ensures S.Sum4(1, 2, 4, 8) == 15
  {
  }

  /** The first round for the message abc. */
  lemma {:induction false} FirstRound()
    ensures S.Round(S.INITIAL, 0x428a2f98, 0x61626380)
      == S.Regs(0x5d6aebcd, 0x6a09e667, 0xbb67ae85, 0x3c6ef372, 0xfa2a4622, 0x510e527f, 0x9b05688c, 0x1f83d9ab)
  {
    hide S.Add, S.BigSigma0, S.BigSigma1, S.Ch, S.Maj;
    SigmasAre();
    FirstChoices();
    FirstSums();
  }

  /** 64 rounds, each with its constant and its word, and then what the registers held before is added. */
  lemma {:induction false} CompressionIs(r: S.Regs, block: bytes, s: seq<S.Regs>)
    requires |s| == 65 && s[0] == r
    requires forall t :: 0 <= t < 64 ==> s[t + 1] == S.Round(s[t], S.K[t], S.Schedule(block, 64)[t])
    ensures S.Compressed(r, block)
      == S.Regs(S.Add(r.a, s[64].a), S.Add(r.b, s[64].b), S.Add(r.c, s[64].c), S.Add(r.d, s[64].d),
                S.Add(r.e, s[64].e), S.Add(r.f, s[64].f), S.Add(r.g, s[64].g), S.Add(r.h, s[64].h))
  {
    hide S.Schedule, S.Round, S.Add;
    RoundsAre(r, S.Schedule(block, 64), s, 64);
  }

  lemma {:induction false} RoundsAre(r: S.Regs, w: seq<word>, s: seq<S.Regs>, n: nat)
    requires n <= 64 && |w| == 64 && |s| == 65 && s[0] == r
    requires forall t :: 0 <= t < 64 ==> s[t + 1] == S.Round(s[t], S.K[t], w[t])
    ensures S.Rounds(r, w, n) == s[n]
  {
    hide S.Round;
    if n > 0 {
      RoundsAre(r, w, s, n - 1);
    }
  }

  /** The schedule of a block, as step 1 writes it: its own 16 words, then each from four before. */
  lemma {:induction false} ScheduleIs(block: bytes, t: nat)
    requires t < 64
    ensures var w := S.Schedule(block, 64);
      w[t] == if t < 16 then S.WordAt(block, t)
              else S.Sum4(S.SmallSigma1(w[t - 2]), w[t - 7], S.SmallSigma0(w[t - 15]), w[t - 16])
  {
    hide S.WordAt, S.SmallSigma0, S.SmallSigma1, S.Sum4;
    SchedulePrefix(block, t + 1, 64);
    SchedulePrefix(block, t, 64);
    var w := S.Schedule(block, 64);
    var v := S.Schedule(block, t);
    assert forall i :: 0 <= i < t ==> v[i] == w[..t][i] == w[i];
    assert w[t] == w[..t + 1][t] == S.Schedule(block, t + 1)[t];
  }

  lemma {:induction false} SchedulePrefix(block: bytes, m: nat, n: nat)
    requires m <= n
    ensures S.Schedule(block, n)[..m] == S.Schedule(block, m)
    decreases n
  {
    hide S.WordAt, S.SmallSigma0, S.SmallSigma1, S.Sum4;
    if m < n {
      SchedulePrefix(block, m, n - 1);
      assert S.Schedule(block, n)[..n - 1] == S.Schedule(block, n - 1);
      assert S.Schedule(block, n)[..m] == S.Schedule(block, n)[..n - 1][..m];
    }
  }

  /** The words of a block are big-endian. */
  lemma {:induction false} WordBytes()
    ensures S.WordAt([0, 0, 0, 1], 0) == 1 && S.WordAt([1, 0, 0, 0], 0) == 0x01000000
    ensures S.WordBytes(0x01000002) == [1, 0, 0, 2]
  {
    assert S.Shr(0x01000002, 24) == 1 && S.Shr(0x01000002, 16) == 0x0100 && S.Shr(0x01000002, 8) == 0x010000;
    LowBytes();
  }

  lemma {:induction false} LowBytes()
    ensures Value(8, 1) == 1 && Value(8, 0x0100) == 0 && Value(8, 0x010000) == 0 && Value(8, 0x01000002) == 2
  {
  }

  /** The message abc, padded. */
  lemma {:induction false} PaddedBytes()
    ensures S.Pad([0x61, 0x62, 0x63]) == [0x61, 0x62, 0x63, 0x80] + S.Zeros(52) + [0, 0, 0, 0, 0, 0, 0, 24]
  {
    assert S.ZeroCount(3) == 52;
    LengthBytes();
  }

  lemma {:induction false} LengthBytes()
    ensures S.BigEndian(24, 8) == [0, 0, 0, 0, 0, 0, 0, 24]
  {
    assert S.BigEndian(0, 1) == [0] && S.BigEndian(0, 2) == [0, 0] && S.BigEndian(0, 3) == [0, 0, 0];
    assert S.BigEndian(0, 4) == [0, 0, 0, 0] && S.BigEndian(0, 5) == [0, 0, 0, 0, 0];
    assert S.BigEndian(0, 6) == [0, 0, 0, 0, 0, 0] && S.BigEndian(0, 7) == [0, 0, 0, 0, 0, 0, 0];
  }
}
