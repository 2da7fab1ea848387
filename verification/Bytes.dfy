/** Bytes and the little-endian integers of the block format (collector/BlockFormat.h). */
module Bytes {

  type byte = x: int | 0 <= x < 256
  type bytes = seq<byte>

  datatype Option<T> = None | Some(value: T)

  const U16_END := 0x1_0000
  const U32_END := 0x1_0000_0000

  /** The two bytes `putU16` writes. */
  function U16(v: nat): (p: bytes)
    ensures |p| == 2
  {
    [v % 256, v / 256 % 256]
  }

  /** The four bytes `putU32` writes. */
  function U32(v: nat): (p: bytes)
    ensures |p| == 4
  {
    [v % 256, v / 256 % 256, v / 0x1_0000 % 256, v / 0x100_0000 % 256]
  }

  function GetU16(p: bytes): (v: nat)
    requires |p| >= 2
    ensures v < U16_END
  {
    p[0] as int + 256 * p[1] as int
  }

  function GetU32(p: bytes): (v: nat)
    requires |p| >= 4
    ensures v < U32_END
  {
    p[0] as int + 256 * p[1] as int + 0x1_0000 * p[2] as int + 0x100_0000 * p[3] as int
  }

  /** Splitting off the low byte twice is splitting off the low half-word. */
  lemma {:induction false} Split16(v: nat)
    ensures v % 256 + 256 * (v / 256 % 256) == v % 0x1_0000
    ensures v / 256 / 256 == v / 0x1_0000
  {
    var q := v / 256;
    var k := q / 256;
    assert v == 0x1_0000 * k + (256 * (q % 256) + v % 256);
  }

  /** Reading back what was written, whatever follows it; wider values are truncated. */
  lemma {:induction false} GetPutU16(v: nat, rest: bytes)
    ensures GetU16(U16(v) + rest) == v % U16_END
  {
    var p := U16(v) + rest;
    assert p[0] == v % 256 && p[1] == v / 256 % 256;
    Split16(v);
  }

  lemma {:induction false} GetPutU32(v: nat, rest: bytes)
    ensures GetU32(U32(v) + rest) == v % U32_END
  {
    var p := U32(v) + rest;
    var h := v / 0x1_0000;
    assert p[0] == v % 256 && p[1] == v / 256 % 256 && p[2] == h % 256 && p[3] == v / 0x100_0000 % 256;
    Split16(v);
    Split16(h);
    assert v / 0x100_0000 == h / 256;
    assert v == U32_END * (h / 0x1_0000) + (0x1_0000 * (h % 0x1_0000) + v % 0x1_0000);
  }

  /** And the other way: four bytes are determined by the integer they spell. */
  lemma {:induction false} PutGetU32(p: bytes)
    requires |p| == 4
    ensures U32(GetU32(p)) == p
  {
    var v := GetU32(p);
    assert v / 256 == p[1] as int + 256 * p[2] as int + 0x1_0000 * p[3] as int;
    assert v / 0x1_0000 == p[2] as int + 256 * p[3] as int;
    assert v / 0x100_0000 == p[3];
  }
}
