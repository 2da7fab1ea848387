/**
 * What the bench command `corrupt` (storage/LittleFsBlockStore.cpp) does: the block it hits is still
 * found, in its place and with its header, and its CRC no longer matches; nothing else changes.
 */
module Damage {
  import opened Bytes
  import opened BlockFormat
  import opened SegmentFormat
  import opened StoreSpec
  import opened LogSpec
  import opened Recovery
  import Crc32

  /** A block with the byte after its header inverted: of the data, else of the tag, else of the CRC. */
  function Damaged(b: Block): Block {
    if |b.data| > HEADER then b.(data := Flip(b.data, HEADER))
    else if b.tag != [] then b.(tag := Flip(b.tag, 0))
    else b.(crc := GetU32(Flip(U32(b.crc), 0)))
  }

  lemma {:induction false} FlipIn(a: bytes, x: bytes, c: bytes, at: nat)
    requires at < |x|
    ensures Flip(a + x + c, |a| + at) == a + Flip(x, at) + c
  {
  }

  /** Inverting that byte of the record is writing the damaged block. */
  lemma {:induction false} DamagedBytes(b: Block)
    requires |b.data| >= HEADER && b.crc < U32_END
    ensures RecordBytes(Damaged(b)) == Flip(RecordBytes(b), HEADER)
    ensures Damaged(b).crc < U32_END
  {
    hide U32, GetU32;
    var crc := U32(b.crc);
    assert RecordBytes(b) == [] + b.data + (b.tag + crc);
    assert RecordBytes(b) == b.data + b.tag + crc;
    if |b.data| > HEADER {
      FlipIn([], b.data, b.tag + crc, HEADER);
    } else if b.tag != [] {
      FlipIn(b.data, b.tag, crc, 0);
    } else {
      FlipIn(b.data + b.tag, crc, [], 0);
      PutGetU32(Flip(crc, 0));
    }
  }

  lemma {:induction false} DamagedSized(b: Block, tagLen: nat)
    requires Sized(b, tagLen)
    ensures Sized(Damaged(b), tagLen) && BlockSeq(Damaged(b).data) == BlockSeq(b.data)
    ensures Damaged(b).data[..HEADER] == b.data[..HEADER]
  {
    DamagedBytes(b);
    var h := b.data[..HEADER];
    assert Damaged(b).data[..HEADER] == h;
    SameLength(h, b.data);
    SameLength(h, Damaged(b).data);
  }

  lemma {:induction false} OneByteDiffers(a: bytes, x: byte, c: bytes)
    ensures Crc32.Checksum(a + [x] + c) != Crc32.Checksum(a + [255 - x] + c)
  {
    Crc32.ChecksumDetectsBurst(a, [x], [255 - x], c);
  }

  /** Inverting one byte changes the checksum. */
  lemma {:induction false} FlipIsSeen(a: bytes, x: bytes, at: nat, c: bytes)
    requires at < |x|
    ensures Crc32.Checksum(a + x + c) != Crc32.Checksum(a + Flip(x, at) + c)
  {
    hide Crc32.Checksum;
    var before, after := a + x[..at], x[at + 1..] + c;
    OneByteDiffers(before, x[at], after);
    assert a + x + c == before + [x[at]] + after;
    assert a + Flip(x, at) + c == before + [255 - x[at]] + after;
  }

  lemma {:induction false} FlippedCrcDiffers(v: nat)
    requires v < U32_END
    ensures GetU32(Flip(U32(v), 0)) != v
  {
    hide U32, GetU32;
    PutGetU32(Flip(U32(v), 0));
    assert Flip(U32(v), 0)[0] != U32(v)[0];
  }

  /** The CRC of an intact block gives its damage away. */
  lemma {:induction false} DamageIsSeen(b: Block)
    requires |b.data| >= HEADER && b.crc < U32_END && CrcMatches(b)
    ensures !CrcMatches(Damaged(b))
  {
    hide U32, GetU32, Crc32.Checksum, Flip;
    if |b.data| > HEADER {
      FlipIsSeen([], b.data, HEADER, b.tag);
      assert [] + b.data == b.data && [] + Flip(b.data, HEADER) == Flip(b.data, HEADER);
    } else if b.tag != [] {
      FlipIsSeen(b.data, b.tag, 0, []);
      assert b.data + b.tag + [] == b.data + b.tag;
      assert b.data + Flip(b.tag, 0) + [] == b.data + Flip(b.tag, 0);
    } else {
      FlippedCrcDiffers(b.crc);
    }
  }

  /** Walking over the lengths of written records lands on the right one. */
  lemma {:induction false} StartOfRecord(recs: seq<Block>, junk: bytes, tagLen: nat, k: nat)
    requires k <= |recs| && forall i :: 0 <= i < |recs| ==> Sized(recs[i], tagLen)
    ensures RecordStart(RecordsBytes(recs) + junk, tagLen, k) == |RecordsBytes(recs[..k])|
  {
    if k > 0 {
      var b, more := recs[0], recs[1..];
      var rest := RecordsBytes(more) + junk;
      assert RecordsBytes(recs) + junk == RecordBytes(b) + rest;
      SameLength(b.data, RecordBytes(b) + rest);
      assert recs[..k][1..] == more[..k - 1];
      StartOfRecord(more, junk, tagLen, k - 1);
      assert (RecordBytes(b) + rest)[|RecordBytes(b)|..] == rest;
    }
  }

  /** Replacing one record replaces its bytes. */
  lemma {:induction false} BytesAround(recs: seq<Block>, k: nat)
    requires k < |recs|
    ensures RecordsBytes(recs) == RecordsBytes(recs[..k]) + RecordBytes(recs[k]) + RecordsBytes(recs[k + 1..])
  {
    assert recs == recs[..k] + ([recs[k]] + recs[k + 1..]);
    RecordsBytesAppend(recs[..k], [recs[k]] + recs[k + 1..]);
    RecordsBytesAppend([recs[k]], recs[k + 1..]);
    assert RecordsBytes([recs[k]]) == RecordBytes(recs[k]) by {
      assert [recs[k]][1..] == [];
    }
  }

  function WithDamage(g: LogSeg, k: nat): LogSeg {
    if k < |g.recs| then g.(recs := g.recs[k := Damaged(g.recs[k])]) else g
  }

  /** The bytes of a segment file around one of its records. */
  lemma {:induction false} FileAround(g: LogSeg, k: nat)
    requires k < |g.recs|
    ensures g.File() == EncodeHeader(g.tagLen) + RecordsBytes(g.recs[..k]) + RecordBytes(g.recs[k])
      + (RecordsBytes(g.recs[k + 1..]) + g.junk)
  {
    hide EncodeHeader, RecordBytes, RecordsBytes;
    BytesAround(g.recs, k);
    var h, x, y, z := EncodeHeader(g.tagLen), RecordsBytes(g.recs[..k]), RecordBytes(g.recs[k]),
      RecordsBytes(g.recs[k + 1..]);
    assert h + (x + y + z) + g.junk == h + x + y + (z + g.junk);
  }

  lemma {:induction false} DamageOffset(g: LogSeg, k: nat, seg: Segment)
    requires g.Wf() && k < |g.recs| && seg.first == g.first && seg.tagLen == g.tagLen
    ensures DamageAt(g.File(), seg, g.first + k) == |EncodeHeader(g.tagLen) + RecordsBytes(g.recs[..k])| + HEADER
  {
    hide EncodeHeader, RecordBytes, RecordStart, BlockSeq, LengthField, RecordsBytes, Records;
    StartOfRecord(g.recs, g.junk, g.tagLen, k);
    assert BodyOf(g.File()) == RecordsBytes(g.recs) + g.junk by {
      assert g.File() == EncodeHeader(g.tagLen) + (RecordsBytes(g.recs) + g.junk);
    }
    FileAround(g, k);
    LongRecord(g.recs[k]);
  }

  lemma {:induction false} DamagedFile(g: LogSeg, k: nat, seg: Segment)
    requires g.Wf() && k < |g.recs| && seg.first == g.first && seg.tagLen == g.tagLen
    ensures var at := DamageAt(g.File(), seg, g.first + k);
      at >= 0 && Flip(g.File(), at) == WithDamage(g, k).File()
  {
    var b := g.recs[k];
    assert Sized(b, g.tagLen);
    DamageOffset(g, k, seg);
    FileAround(g, k);
    LongRecord(b);
    DamagedBytes(b);
    FileAround(WithDamage(g, k), k);
    var recs' := g.recs[k := Damaged(b)];
    assert recs'[..k] == g.recs[..k] && recs'[k + 1..] == g.recs[k + 1..];
    hide EncodeHeader, RecordBytes, DamageAt, Damaged, BlockSeq, LengthField, RecordsBytes, LogSeg.File, LogSeg.Wf,
        Flip, Sized;
    FlipIn(EncodeHeader(g.tagLen) + RecordsBytes(g.recs[..k]), RecordBytes(b),
           RecordsBytes(g.recs[k + 1..]) + g.junk, HEADER);
  }

  lemma {:induction false} LongRecord(b: Block)
    requires |b.data| >= HEADER
    ensures |RecordBytes(b)| >= HEADER + CRC_SIZE
  {
  }

  lemma {:induction false} DamagedWf(g: LogSeg, k: nat)
    requires g.Wf() && k < |g.recs|
    ensures WithDamage(g, k).Wf() && WithDamage(g, k).Entry() == g.Entry()
  {
    var b := g.recs[k];
    assert Sized(b, g.tagLen) && BlockSeq(b.data) == g.first + k;
    DamagedSized(b, g.tagLen);
    DamagedBytes(b);
    BytesAround(g.recs, k);
    var recs' := g.recs[k := Damaged(b)];
    BytesAround(recs', k);
    assert recs'[..k] == g.recs[..k] && recs'[k + 1..] == g.recs[k + 1..];
    hide Damaged, Sized, BlockSeq, RecordBytes, Records;
    assert Consecutive(recs', g.tagLen, g.first);
  }

  lemma {:induction false} ReplaceAt(st: Store, log: seq<LogSeg>, i: nat, g: LogSeg)
    requires Describes(st, log) && i < |log| && g.Wf() && g.Entry() == log[i].Entry()
    ensures Describes(st.(flash := st.flash[g.first := g.File()]), log[i := g])
  {
    hide LogSeg.Wf, LogSeg.File;
    FlashReplace(log, i, g);
    var log' := log[i := g];
    forall a, b | 0 <= a < b < |log'|
      ensures log'[a].Last() < log'[b].first
    {
      assert log[a].Last() < log[b].first;
    }
  }

  lemma {:induction false} FlashReplace(log: seq<LogSeg>, i: nat, g: LogSeg)
    requires LogWf(log) && i < |log| && g.first == log[i].first
    ensures FlashOf(log[i := g]) == FlashOf(log)[g.first := g.File()]
  {
    hide LogSeg.Wf, LogSeg.File;
    var n := |log| - 1;
    if i < n {
      assert log[i].Last() < log[n].first;
      assert log[i := g][..n] == log[..n][i := g];
      FlashReplace(log[..n], i, g);
    } else {
      assert log[i := g][..n] == log[..n];
    }
  }

  /**
   * `corrupt` on a stored block: every record stays where it was; the one hit keeps its seq and its
   * header, is still read, and fails its CRC if it was intact.
   */
  lemma {:induction false} CorruptDamagesOne(st: Store, log: seq<LogSeg>, i: nat, k: nat)
    requires Describes(st, log) && i < |log| && k < |log[i].recs|
    ensures var seqNo, st' := log[i].first + k, Corrupt(st, log[i].first + k, {}).0;
      && Corrupt(st, seqNo, {}).1
      && Describes(st', log[i := WithDamage(log[i], k)])
      && Read(st', seqNo, {}) == Found(Damaged(log[i].recs[k]))
      && Damaged(log[i].recs[k]).data[..HEADER] == log[i].recs[k].data[..HEADER]
      && (CrcMatches(log[i].recs[k]) ==> !CrcMatches(Damaged(log[i].recs[k])))
  {
    hide LogSeg.File, Damaged, DamageAt, CrcMatches, LogWf, FlashOf, Locate, Read, Flip;
    var g := log[i];
    var st' := Corrupt(st, g.first + k, {}).0;
    SegOfDescribed(st, log, i);
    FlashFiles(log, i);
    LocateDescribed(st, log, i, g.first + k);
    DamagedFile(g, k, st.segs[i]);
    DamagedWf(g, k);
    ReplaceAt(st, log, i, WithDamage(g, k));
    assert Sized(g.recs[k], g.tagLen);
    DamagedSized(g.recs[k], g.tagLen);
    if CrcMatches(g.recs[k]) {
      DamageIsSeen(g.recs[k]);
    }
    ReadsBack(st', log[i := WithDamage(g, k)], i, k);
  }
}
