/**
 * CRC-32 (crypto/Crc32.cpp): the half-byte table form, the bit-by-bit reflected form it must
 * equal, chaining, and the detection of every change confined to four consecutive bytes.
 */
module Crc32 {
  import opened Bytes

  type word = bv32

  const POLY: word := 0xEDB88320

  const NIBBLE: seq<word> := [
    0x00000000, 0x1DB71064, 0x3B6E20C8, 0x26D930AC, 0x76DC4190, 0x6B6B51F4, 0x4DB26158, 0x5005713C,
    0xEDB88320, 0xF00F9344, 0xD6D6A3E8, 0xCB61B38C, 0x9B64C2B0, 0x86D3D2D4, 0xA00AE278, 0xBDBDF21C]

  function Append(w: word, bit: word): word { (w << 1) | bit }

  /** A byte widened to a register, bit by bit. */
  function Widen(b: nat): word {
    if b == 0 then 0 else Append(Widen(b / 2), if b % 2 == 1 then 1 else 0)
  }

  function Xor(a: word, b: word): word { a ^ b }

  function Not(a: word): word { !a }

  function Half(c: word): word { c >> 1 }

  predicate Odd(c: word) { c & 1 == 1 }

  /** One bit of the reflected division. */
  function Shift(c: word): word {
    if Odd(c) then Xor(Half(c), POLY) else Half(c)
  }

  /** `n` bits of it. */
  function Shifts(n: nat, c: word): word {
    if n == 0 then c else Shifts(n - 1, Shift(c))
  }

  /** The register after one more byte, bit by bit. */
  function Absorb(c: word, b: byte): word {
    Shifts(8, Xor(c, Widen(b)))
  }

  /** The register after `data`. */
  function Register(c: word, data: bytes): word
    decreases |data|
  {
    if data == [] then c else Absorb(Register(c, data[..|data| - 1]), data[|data| - 1])
  }

  /** CRC-32 of `data` continued from `previous`. */
  function Crc(data: bytes, previous: word): word {
    Not(Register(Not(previous), data))
  }

  // ---- the table form ----

  lemma {:induction false} ShiftsAdd(m: nat, n: nat, c: word)
    ensures Shifts(m + n, c) == Shifts(n, Shifts(m, c))
  {
    if m > 0 {
      ShiftsAdd(m - 1, n, Shift(c));
    }
  }

  lemma {:induction false} FourShifts(c: word)
    ensures Shifts(4, c) == Shift(Shift(Shift(Shift(c))))
  {
    var d := Shift(c);
    var e := Shift(d);
    var f := Shift(e);
    assert Shifts(1, f) == Shifts(0, Shift(f));
    assert Shifts(2, e) == Shifts(1, f);
    assert Shifts(3, d) == Shifts(2, e);
  }

  /** One lookup does four bits: the sixteen rows of the table are right. */
  lemma {:induction false} NibbleIsFourShifts(c: word)
    ensures (c & 0x0F) as int < 16
    ensures NIBBLE[(c & 0x0F) as int] ^ (c >> 4) == Shifts(4, c)
  {
    FourShifts(c);
    var n := c & 0x0F;
    assert n < 16;
    if n == 0 {} else if n == 1 {} else if n == 2 {} else if n == 3 {} else if n == 4 {}
    else if n == 5 {} else if n == 6 {} else if n == 7 {} else if n == 8 {} else if n == 9 {}
    else if n == 10 {} else if n == 11 {} else if n == 12 {} else if n == 13 {} else if n == 14 {}
    else { assert n == 15; }
  }

  method HalfByte(c: word) returns (r: word)
    ensures r == Shifts(4, c)
  {
    NibbleIsFourShifts(c);
    r := NIBBLE[(c & 0x0F) as int] ^ (c >> 4);
  }

  method ByteStep(c: word) returns (r: word)
    ensures r == Shifts(8, c)
  {
    ShiftsAdd(4, 4, c);
    r := HalfByte(c);
    r := HalfByte(r);
  }

  /** The loop of the firmware computes the bit-by-bit CRC. */
  method Compute(data: bytes, previous: word) returns (crc: word)
    ensures crc == Crc(data, previous)
  {
    var c := Not(previous);
    for i := 0 to |data|
      invariant c == Register(Not(previous), data[..i])
    {
      assert data[..i + 1][..i] == data[..i];
      c := Xor(c, Widen(data[i]));
      c := ByteStep(c);
    }
    assert data[..|data|] == data;
    crc := Not(c);
  }

  // ---- chaining ----

  lemma {:induction false} RegisterAppend(c: word, a: bytes, b: bytes)
    ensures Register(c, a + b) == Register(Register(c, a), b)
    decreases |b|
  {
    if b == [] {
      assert a + b == a;
    } else {
      var n := |b| - 1;
      assert (a + b)[..|a + b| - 1] == a + b[..n];
      RegisterAppend(c, a, b[..n]);
    }
  }

  /** `crc32(b, crc32(a)) == crc32(a + b)`. */
  lemma {:induction false} Chains(a: bytes, b: bytes, previous: word)
    ensures Crc(b, Crc(a, previous)) == Crc(a + b, previous)
  {
    RegisterAppend(Not(previous), a, b);
    NotNot(Register(Not(previous), a));
  }

  lemma {:induction false} NotNot(c: word)
    ensures Not(Not(c)) == c
  {
  }

  // ---- error detection ----

  lemma {:induction false} ShiftInjective(c: word, d: word)
    ensures Shift(c) == Shift(d) ==> c == d
  {
  }

  lemma {:induction false} ShiftsInjective(n: nat, c: word, d: word)
    requires Shifts(n, c) == Shifts(n, d)
    ensures c == d
  {
    if n > 0 {
      ShiftsInjective(n - 1, Shift(c), Shift(d));
      ShiftInjective(c, d);
    }
  }

  lemma {:induction false} AbsorbInjective(c: word, d: word, b: byte)
    requires Absorb(c, b) == Absorb(d, b)
    ensures c == d
  {
    ShiftsInjective(8, Xor(c, Widen(b)), Xor(d, Widen(b)));
    XorCancel(c, d, Widen(b));
  }

  /** Different registers stay different whatever common bytes follow. */
  lemma {:induction false} RegisterInjective(c: word, d: word, data: bytes)
    requires Register(c, data) == Register(d, data)
    ensures c == d
    decreases |data|
  {
    if data != [] {
      var n := |data| - 1;
      var x, y := Register(c, data[..n]), Register(d, data[..n]);
      AbsorbInjective(x, y, data[n]);
      RegisterInjective(c, d, data[..n]);
    }
  }

  lemma {:induction false} XorCancel(x: word, y: word, z: word)
    requires Xor(x, z) == Xor(y, z)
    ensures x == y
  {
    assert (x ^ z) ^ z == x;
    assert (y ^ z) ^ z == y;
  }

  // A burst of four bytes enters the register as one 32-bit word.

  function Double(y: word): word { y << 1 }

  function Up8(y: word): word { y << 8 }

  function Up(n: nat, y: word): word {
    if n == 0 then y else Double(Up(n - 1, y))
  }

  predicate Small(y: word) { y <= 0xFF_FFFF }

  /** The `n` top bits of `y` are clear. */
  predicate Room(n: nat, y: word) {
    n == 0 || (Room(n - 1, y) && TopClear(Up(n - 1, y)))
  }

  predicate TopClear(y: word) { y & 0x8000_0000 == 0 }

  lemma {:induction false} ShiftXor(x: word, u: word)
    requires TopClear(u)
    ensures Shift(Xor(x, Double(u))) == Xor(Shift(x), u)
  {
    OddXor(x, u);
    HalfXor(x, u);
    Commutes(Half(x), u);
  }

  lemma {:induction false} OddXor(x: word, u: word)
    ensures Odd(Xor(x, Double(u))) == Odd(x)
  {
    assert (x ^ (u << 1)) & 1 == x & 1;
  }

  lemma {:induction false} HalfXor(x: word, u: word)
    requires TopClear(u)
    ensures Half(Xor(x, Double(u))) == Xor(Half(x), u)
  {
  }

  lemma {:induction false} Commutes(x: word, u: word)
    ensures Xor(Xor(x, u), POLY) == Xor(Xor(x, POLY), u)
  {
  }

  /** Bits that only shift out may be added before or after the shifts. */
  lemma {:induction false} ShiftsXor(n: nat, x: word, y: word)
    requires Room(n, y)
    ensures Shifts(n, Xor(x, Up(n, y))) == Xor(Shifts(n, x), y)
  {
    hide TopClear, Shift, Double;
    if n == 0 {
    } else {
      ShiftXor(x, Up(n - 1, y));
      ShiftsXor(n - 1, Shift(x), y);
    }
  }

  lemma {:induction false} RoomForByte(y: word)
    requires Small(y)
    ensures Room(8, y) && Up(8, y) == Up8(y)
  {
    assert Room(0, y) && Up(0, y) == y;
    assert TopClear(y);
    assert Up(1, y) == y << 1 && Room(1, y);
    assert Up(2, y) == y << 2 && Room(2, y);
    assert Up(3, y) == y << 3 && Room(3, y);
    assert Up(4, y) == y << 4 && Room(4, y);
    assert Up(5, y) == y << 5 && Room(5, y);
    assert Up(6, y) == y << 6 && Room(6, y);
    assert Up(7, y) == y << 7 && Room(7, y);
  }

  lemma {:induction false} ByteXor(x: word, y: word)
    requires Small(y)
    ensures Xor(Shifts(8, x), y) == Shifts(8, Xor(x, Up8(y)))
  {
    RoomForByte(y);
    ShiftsXor(8, x, y);
  }

  /** Bytes widen to words of at most eight bits, different bytes to different words. */
  function Mask(n: nat): word {
    if n == 0 then 0 else Append(Mask(n - 1), 1)
  }

  lemma {:induction false} WidenMask(n: nat, b: nat, p: nat)
    requires n <= 8 && b < p && IsPow2(n, p)
    ensures Within(Widen(b), Mask(n))
  {
    if b == 0 {
      ZeroWithin(Mask(n));
    } else {
      WidenMask(n - 1, b / 2, p / 2);
      var bit: word := if b % 2 == 1 then 1 else 0;
      MaskStep(Widen(b / 2), Mask(n - 1), bit);
    }
  }

  predicate IsPow2(n: nat, p: nat) {
    if n == 0 then p == 1 else p % 2 == 0 && IsPow2(n - 1, p / 2)
  }

  predicate Within(w: word, mask: word) { w & !mask == 0 }

  lemma {:induction false} ZeroWithin(mask: word)
    ensures Within(0, mask)
  {
  }

  lemma {:induction false} MaskStep(w: word, m: word, bit: word)
    requires Within(w, m) && bit <= 1
    ensures Within(Append(w, bit), Append(m, 1))
  {
  }

  lemma {:induction false} WidenBound(b: nat)
    requires b < 256
    ensures Widen(b) <= 0xFF
  {
    assert IsPow2(2, 4);
    assert IsPow2(4, 16);
    assert IsPow2(6, 64);
    assert IsPow2(8, 256);
    assert Mask(2) == 3;
    assert Mask(4) == 15;
    assert Mask(6) == 63;
    assert Mask(8) == 255;
    WidenMask(8, b, 256);
    LowBits(Widen(b));
  }

  lemma {:induction false} LowBits(w: word)
    requires Within(w, 0xFF)
    ensures w <= 0xFF
  {
  }

  lemma {:induction false} WidenInjective(a: nat, b: nat)
    requires a < 256 && b < 256 && Widen(a) == Widen(b)
    ensures a == b
    decreases a + b
  {
    if a + b > 0 {
      WidenBound(a / 2);
      WidenBound(b / 2);
      LastBit(Widen(a / 2), Widen(b / 2), if a % 2 == 1 then 1 else 0, if b % 2 == 1 then 1 else 0);
      if a == 0 {
        assert Widen(a / 2) == 0;
      }
      if b == 0 {
        assert Widen(b / 2) == 0;
      }
      WidenInjective(a / 2, b / 2);
    }
  }

  lemma {:induction false} LastBit(w: word, v: word, x: word, y: word)
    requires w <= 0xFF && v <= 0xFF && x <= 1 && y <= 1
    requires Append(w, x) == Append(v, y)
    ensures w == v && x == y
  {
  }

  /** The register after four bytes: one word added, then 32 shifts. */
  function Packed(c: word, a0: word, a1: word, a2: word, a3: word): word {
    Xor(Xor(Xor(Xor(c, a0), Up8(a1)), Up8(Up8(a2))), Up8(Up8(Up8(a3))))
  }

  function Pack(c: word, w: bytes): word
    requires |w| == 4
  {
    Packed(c, Widen(w[0]), Widen(w[1]), Widen(w[2]), Widen(w[3]))
  }

  lemma {:induction false} FourAbsorbs(c: word, w: bytes)
    requires |w| == 4
    ensures Register(c, w) == Absorb(Absorb(Absorb(Absorb(c, w[0]), w[1]), w[2]), w[3])
  {
    assert w[..1][..0] == [] && w[..2][..1] == w[..1] && w[..3][..2] == w[..2] && w[..4] == w;
    assert Register(c, w[..1]) == Absorb(Register(c, []), w[0]);
    assert Register(c, w[..2]) == Absorb(Register(c, w[..1]), w[1]);
    assert Register(c, w[..3]) == Absorb(Register(c, w[..2]), w[2]);
  }

  lemma {:induction false} FourBytes(c: word, w: bytes)
    requires |w| == 4
    ensures Register(c, w) == Shifts(8, Shifts(8, Shifts(8, Shifts(8, Pack(c, w)))))
  {
    FourAbsorbs(c, w);
    forall i | 0 <= i < 4
      ensures Small(Widen(w[i])) && Small(Up8(Widen(w[i]))) && Small(Up8(Up8(Widen(w[i]))))
    {
      WidenBound(w[i]);
      Up8Bounds(Widen(w[i]));
    }
    var x1 := Xor(c, Widen(w[0]));
    var x2 := Xor(x1, Up8(Widen(w[1])));
    var x3 := Xor(x2, Up8(Up8(Widen(w[2]))));
    ByteXor(x1, Widen(w[1]));
    ByteXor(Shifts(8, x2), Widen(w[2]));
    ByteXor(x2, Up8(Widen(w[2])));
    ByteXor(Shifts(8, Shifts(8, x3)), Widen(w[3]));
    ByteXor(Shifts(8, x3), Up8(Widen(w[3])));
    ByteXor(x3, Up8(Up8(Widen(w[3]))));
  }

  lemma {:induction false} Up8Bounds(y: word)
    requires y <= 0xFF
    ensures Small(y) && Small(Up8(y)) && Small(Up8(Up8(y)))
  {
  }

  /** The four bytes of a word, the lowest first. */
  function Octet0(x: word): word { x & 0xFF }

  function Octet1(x: word): word { (x >> 8) & 0xFF }

  function Octet2(x: word): word { (x >> 16) & 0xFF }

  predicate Octets(a0: word, a1: word, a2: word, a3: word) { a0 <= 0xFF && a1 <= 0xFF && a2 <= 0xFF && a3 <= 0xFF }

  lemma {:induction false} PackedOctet0(c: word, a0: word, a1: word, a2: word, a3: word)
    requires Octets(a0, a1, a2, a3)
    ensures Octet0(Packed(c, a0, a1, a2, a3)) == Xor(Octet0(c), a0)
  {
  }

  lemma {:induction false} PackedOctet1(c: word, a0: word, a1: word, a2: word, a3: word)
    requires Octets(a0, a1, a2, a3)
    ensures Octet1(Packed(c, a0, a1, a2, a3)) == Xor(Octet1(c), a1)
  {
  }

  lemma {:induction false} PackedOctet2(c: word, a0: word, a1: word, a2: word, a3: word)
    requires Octets(a0, a1, a2, a3)
    ensures Octet2(Packed(c, a0, a1, a2, a3)) == Xor(Octet2(c), a2)
  {
  }

  lemma {:induction false} TopOctet(a: word, b: word)
    requires a <= 0xFF && b <= 0xFF && Up8(Up8(Up8(a))) == Up8(Up8(Up8(b)))
    ensures a == b
  {
  }

  lemma {:induction false} XorCancels(x: word, a: word, b: word)
    requires Xor(x, a) == Xor(x, b)
    ensures a == b
  {
  }

  lemma {:induction false} SameTop(c: word, a0: word, a1: word, a2: word, a3: word, b3: word)
    requires Octets(a0, a1, a2, a3) && Octets(a0, a1, a2, b3) && Packed(c, a0, a1, a2, a3) == Packed(c, a0, a1, a2, b3)
    ensures a3 == b3
  {
    hide Xor, Up8;
    XorCancels(Xor(Xor(Xor(c, a0), Up8(a1)), Up8(Up8(a2))), Up8(Up8(Up8(a3))), Up8(Up8(Up8(b3))));
    TopOctet(a3, b3);
  }

  lemma {:induction false} PackParts(c: word, a0: word, a1: word, a2: word, a3: word, b0: word, b1: word, b2: word,
      b3: word)
    requires Octets(a0, a1, a2, a3) && Octets(b0, b1, b2, b3)
    requires Packed(c, a0, a1, a2, a3) == Packed(c, b0, b1, b2, b3)
    ensures a0 == b0 && a1 == b1 && a2 == b2 && a3 == b3
  {
    hide Packed, Octets, Xor, Up8, Octet0, Octet1, Octet2;
    PackedOctet0(c, a0, a1, a2, a3);
    PackedOctet0(c, b0, b1, b2, b3);
    XorCancels(Octet0(c), a0, b0);
    PackedOctet1(c, a0, a1, a2, a3);
    PackedOctet1(c, b0, b1, b2, b3);
    XorCancels(Octet1(c), a1, b1);
    PackedOctet2(c, a0, a1, a2, a3);
    PackedOctet2(c, b0, b1, b2, b3);
    XorCancels(Octet2(c), a2, b2);
    SameTop(c, a0, a1, a2, a3, b3);
  }

  lemma {:induction false} WidenedOctets(w: bytes)
    requires |w| == 4
    ensures Octets(Widen(w[0]), Widen(w[1]), Widen(w[2]), Widen(w[3]))
  {
    hide Widen;
    WidenBound(w[0]);
    WidenBound(w[1]);
    WidenBound(w[2]);
    WidenBound(w[3]);
  }

  lemma {:induction false} FourBytesInjective(c: word, w: bytes, v: bytes)
    requires |w| == |v| == 4 && Register(c, w) == Register(c, v)
    ensures w == v
  {
    hide Packed, Octets, Widen, Register, Shifts;
    FourBytes(c, w);
    FourBytes(c, v);
    var p, q := Pack(c, w), Pack(c, v);
    ShiftsInjective(8, Shifts(8, Shifts(8, Shifts(8, p))), Shifts(8, Shifts(8, Shifts(8, q))));
    ShiftsInjective(8, Shifts(8, Shifts(8, p)), Shifts(8, Shifts(8, q)));
    ShiftsInjective(8, Shifts(8, p), Shifts(8, q));
    ShiftsInjective(8, p, q);
    WidenedOctets(w);
    WidenedOctets(v);
    PackParts(c, Widen(w[0]), Widen(w[1]), Widen(w[2]), Widen(w[3]), Widen(v[0]), Widen(v[1]), Widen(v[2]),
              Widen(v[3]));
    forall i | 0 <= i < 4
      ensures w[i] == v[i]
    {
      WidenInjective(w[i], v[i]);
    }
  }

  /** A window of up to four bytes is determined by the registers before and after it. */
  lemma {:induction false} WindowInjective(c: word, w: bytes, v: bytes)
    requires |w| == |v| <= 4 && Register(c, w) == Register(c, v)
    ensures w == v
  {
    var pad: bytes := seq(4 - |w|, i => 0);
    RegisterAppend(c, w, pad);
    RegisterAppend(c, v, pad);
    FourBytesInjective(c, w + pad, v + pad);
    assert w == (w + pad)[..|w|] && v == (v + pad)[..|v|];
  }

  /** Every change confined to four consecutive bytes, wherever it falls, changes the CRC. */
  lemma {:induction false} DetectsBurst(before: bytes, w: bytes, v: bytes, after: bytes, previous: word)
    requires |w| == |v| <= 4 && w != v
    ensures Crc(before + w + after, previous) != Crc(before + v + after, previous)
  {
    if Crc(before + w + after, previous) == Crc(before + v + after, previous) {
      var c := Register(Not(previous), before);
      RegisterAppend(Not(previous), before + w, after);
      RegisterAppend(Not(previous), before + v, after);
      RegisterAppend(Not(previous), before, w);
      RegisterAppend(Not(previous), before, v);
      NotNot(Register(Not(previous), before + w + after));
      NotNot(Register(Not(previous), before + v + after));
      RegisterInjective(Register(c, w), Register(c, v), after);
      WindowInjective(c, w, v);
    }
  }

  // ---- the CRC as the integer stored in a record ----

  function Value(n: nat, w: word): nat {
    if n == 0 then 0 else (if Odd(w) then 1 else 0) + 2 * Value(n - 1, Half(w))
  }

  predicate Short(n: nat, w: word) {
    if n == 0 then w == 0 else Short(n - 1, Half(w))
  }

  function Down8(w: word): word { w >> 8 }

  lemma {:induction false} ShortDown(n: nat, w: word)
    requires Short(n, Down8(w))
    ensures Short(n + 8, w)
  {
    var a := Half(w);
    var b := Half(a);
    var c := Half(b);
    var d := Half(c);
    HalfFour(w);
    assert Short(n + 4, d) by { ShortDown4(n, w, d); }
    assert Short(n + 5, c) && Short(n + 6, b) && Short(n + 7, a);
  }

  lemma {:induction false} ShortDown4(n: nat, w: word, d: word)
    requires Short(n, Down8(w)) && Half(Half(Half(Half(d)))) == Down8(w)
    ensures Short(n + 4, d)
  {
    var e := Half(d);
    var f := Half(e);
    var g := Half(f);
    assert Short(n + 1, g) && Short(n + 2, f) && Short(n + 3, e);
  }

  lemma {:induction false} HalfFour(w: word)
    ensures Half(Half(Half(Half(Half(Half(Half(Half(w)))))))) == Down8(w)
  {
  }

  lemma {:induction false} AllShort(w: word)
    ensures Short(32, w)
  {
    Gone(w);
    ShortDown(0, Down8(Down8(Down8(w))));
    ShortDown(8, Down8(Down8(w)));
    ShortDown(16, Down8(w));
    ShortDown(24, w);
  }

  lemma {:induction false} Gone(w: word)
    ensures Down8(Down8(Down8(Down8(w)))) == 0
  {
  }

  lemma {:induction false} HalvesDecide(w: word, v: word)
    requires Odd(w) == Odd(v) && Half(w) == Half(v)
    ensures w == v
  {
  }

  lemma {:induction false} ValueInjective(n: nat, w: word, v: word)
    requires Short(n, w) && Short(n, v) && Value(n, w) == Value(n, v)
    ensures w == v
  {
    if n > 0 {
      ValueInjective(n - 1, Half(w), Half(v));
      HalvesDecide(w, v);
    }
  }

  lemma {:induction false} ValueBound(n: nat, w: word, p: nat)
    requires IsPow2(n, p)
    ensures Value(n, w) < p
  {
    if n > 0 {
      ValueBound(n - 1, Half(w), p / 2);
    }
  }

  function Checksum(data: bytes): (v: nat)
    ensures v < U32_END
  {
    assert IsPow2(2, 4) && IsPow2(4, 0x10) && IsPow2(6, 0x40) && IsPow2(8, 0x100);
    assert IsPow2(10, 0x400) && IsPow2(12, 0x1000) && IsPow2(14, 0x4000) && IsPow2(16, 0x1_0000);
    assert IsPow2(18, 0x4_0000) && IsPow2(20, 0x10_0000) && IsPow2(22, 0x40_0000) && IsPow2(24, 0x100_0000);
    assert IsPow2(26, 0x400_0000) && IsPow2(28, 0x1000_0000) && IsPow2(30, 0x4000_0000) && IsPow2(32, U32_END);
    ValueBound(32, Crc(data, 0), U32_END);
    Value(32, Crc(data, 0))
  }

  /** The stored integer tells the two CRCs apart too. */
  lemma {:induction false} ChecksumDetectsBurst(before: bytes, w: bytes, v: bytes, after: bytes)
    requires |w| == |v| <= 4 && w != v
    ensures Checksum(before + w + after) != Checksum(before + v + after)
  {
    var x, y := Crc(before + w + after, 0), Crc(before + v + after, 0);
    DetectsBurst(before, w, v, after, 0);
    AllShort(x);
    AllShort(y);
    if Value(32, x) == Value(32, y) {
      ValueInjective(32, x, y);
    }
  }
}
