/**
 * The block format (collector/BlockFormat.h) and the BOOT and LOSS markers
 * (collector/MarkerBlock.cpp). All integers are little-endian.
 */
module BlockFormat {
  import opened Bytes

  const HEADER: nat := 12
  const MAX_DATA: nat := 1024
  const MAX_TAG: nat := 64
  const CRC_SIZE: nat := 4

  const LOSS_TYPE: byte := 0xFD
  const BOOT_TYPE: byte := 0xFE
  const MARKER_LENGTH: nat := 23

  /** A block as it is kept: the data area, its tag, and the CRC stored beside them. */
  datatype Block = Block(data: bytes, tag: bytes, crc: nat)

  function SeqOf(b: Block): nat { BlockSeq(b.data) }

  /** The seq in the header; 0 stands for "no header". */
  function BlockSeq(data: bytes): (s: nat)
    ensures s < U32_END
  {
    if |data| >= HEADER then GetU32(data) else 0
  }

  function LengthField(data: bytes): nat {
    if |data| >= HEADER then GetU16(data[10..]) else 0
  }

  /** `stampHeader`: overwrites seq and boot_id, nothing else. */
  function Stamp(data: bytes, seqNo: nat, bootId: nat): (r: bytes)
    ensures |data| >= HEADER ==> |r| == |data| && r[6..] == data[6..]
  {
    U32(seqNo) + U16(bootId) + (if |data| >= 6 then data[6..] else [])
  }

  lemma {:induction false} StampSetsSeq(data: bytes, seqNo: nat, bootId: nat)
    requires |data| >= HEADER && seqNo < U32_END
    ensures BlockSeq(Stamp(data, seqNo, bootId)) == seqNo
    ensures LengthField(Stamp(data, seqNo, bootId)) == LengthField(data)
  {
    var r := Stamp(data, seqNo, bootId);
    assert r == U32(seqNo) + (U16(bootId) + data[6..]);
    GetPutU32(seqNo, U16(bootId) + data[6..]);
    assert r[10..] == r[6..][4..] && data[10..] == data[6..][4..];
  }

  // ---- markers ----

  datatype Marker = NoMarker | Boot(from: nat, to: nat) | Loss(from: nat, to: nat)

  function BuildMarker(seqNo: nat, bootId: nat, tMs: nat, kind: byte, from: nat, to: nat): (r: bytes)
    ensures |r| == MARKER_LENGTH
  {
    U32(seqNo) + U16(bootId) + U32(tMs) + U16(MARKER_LENGTH) + [kind] + U16(0) + U32(from) + U32(to)
  }

  function BootMarker(seqNo: nat, bootId: nat, tMs: nat, from: nat, to: nat): bytes {
    BuildMarker(seqNo, bootId, tMs, BOOT_TYPE, from, to)
  }

  function LossMarker(from: nat, to: nat): bytes {
    BuildMarker(from, 0, 0, LOSS_TYPE, from, to)
  }

  function ParseMarker(data: bytes): Marker {
    if |data| != MARKER_LENGTH then NoMarker
    else if data[12] != BOOT_TYPE && data[12] != LOSS_TYPE then NoMarker
    else
      var from, to := GetU32(data[15..]), GetU32(data[19..]);
      if data[12] == BOOT_TYPE then Boot(from, to) else Loss(from, to)
  }

  /** A marker is read back as it was built, and carries its seq and length in the header. */
  lemma {:induction false} MarkerRoundTrip(seqNo: nat, bootId: nat, tMs: nat, kind: byte, from: nat, to: nat)
    requires kind == BOOT_TYPE || kind == LOSS_TYPE
    requires seqNo < U32_END && from < U32_END && to < U32_END
    ensures var m := BuildMarker(seqNo, bootId, tMs, kind, from, to);
      && BlockSeq(m) == seqNo
      && LengthField(m) == MARKER_LENGTH
      && ParseMarker(m) == (if kind == BOOT_TYPE then Boot(from, to) else Loss(from, to))
  {
    hide U16, U32, GetU16, GetU32;
    var m := BuildMarker(seqNo, bootId, tMs, kind, from, to);
    assert m == U32(seqNo) + m[4..];
    GetPutU32(seqNo, m[4..]);
    assert m[10..] == U16(MARKER_LENGTH) + m[12..];
    GetPutU16(MARKER_LENGTH, m[12..]);
    assert m[15..] == U32(from) + m[19..];
    GetPutU32(from, m[19..]);
    assert m[19..] == U32(to) + [];
    GetPutU32(to, []);
  }

  /** Stamping a marker keeps what it declares. */
  lemma {:induction false} StampKeepsMarker(data: bytes, seqNo: nat, bootId: nat)
    requires |data| >= HEADER
    ensures ParseMarker(Stamp(data, seqNo, bootId)) == ParseMarker(data)
  {
    var r := Stamp(data, seqNo, bootId);
    if |data| == MARKER_LENGTH {
      assert r[6..][6] == r[12] && data[6..][6] == data[12];
      assert r[15..] == r[6..][9..] && data[15..] == data[6..][9..];
      assert r[19..] == r[6..][13..] && data[19..] == data[6..][13..];
    }
  }
}
