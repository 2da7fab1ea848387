/**
 * What a commit leaves on flash, byte for byte: the signature it was given, the seq and the boot id
 * in the header, and the data area it was handed.
 */
module OnFlash {
  import opened Bytes
  import opened BlockFormat
  import opened SegmentFormat
  import opened StoreSpec
  import opened LogSpec
  import opened AppendKeeps
  import opened Recovery
  import opened CommitKeeps
  import D = Device
  import L = Lifetime
  import W = BlockWriter
  import B = BlockBuilder

  /** The bytes from `at` on spell the number, lowest byte first. */
  predicate Spells16(p: bytes, at: nat, v: nat) {
    at + 2 <= |p| && p[at] as int + 256 * p[at + 1] as int == v % 0x1_0000
  }

  predicate Spells32(p: bytes, at: nat, v: nat) {
    && at + 4 <= |p|
    && p[at] as int + 0x100 * p[at + 1] as int + 0x1_0000 * p[at + 2] as int + 0x100_0000 * p[at + 3] as int
       == v % 0x1_0000_0000
  }

  /** The first signature that succeeds. */
  function FirstSignature(f: W.Faults): bytes {
    if f.sign1.Some? then f.sign1.value else if f.sign2.Some? then f.sign2.value else []
  }

  /** A block made of this data area, with this seq, boot id and signature, and its CRC over all of it. */
  predicate Carries(b: Block, seqNo: nat, bootId: nat, data: bytes, tag: bytes) {
    && b.tag == tag
    && |b.data| == |data| >= HEADER && b.data[6..] == data[6..]
    && Spells32(b.data, 0, seqNo) && Spells16(b.data, 4, bootId)
    && CrcMatches(b)
  }

  lemma {:induction false} SpelledU32(v: nat, p: bytes, at: nat)
    requires at + 4 <= |p| && p[at..at + 4] == U32(v)
    ensures Spells32(p, at, v)
  {
    GetPutU32(v, []);
    assert U32(v) + [] == U32(v);
    var q := p[at..at + 4];
    assert q[0] == p[at] && q[1] == p[at + 1] && q[2] == p[at + 2] && q[3] == p[at + 3];
  }

  lemma {:induction false} SpelledU16(v: nat, p: bytes, at: nat)
    requires at + 2 <= |p| && p[at..at + 2] == U16(v)
    ensures Spells16(p, at, v)
  {
    GetPutU16(v, []);
    assert U16(v) + [] == U16(v);
    var q := p[at..at + 2];
    assert q[0] == p[at] && q[1] == p[at + 1];
  }

  lemma {:induction false} SignedCarries(w: W.Writer, data: bytes, tag: bytes)
    requires |data| >= HEADER
    ensures Carries(W.Signed(w, data, tag), w.next, w.bootId, data, tag)
  {
    hide U16, U32;
    var b := W.Signed(w, data, tag);
    assert b.data[0..4] == U32(w.next) && b.data[4..6] == U16(w.bootId) && b.data[6..] == data[6..];
    SpelledU32(w.next, b.data, 0);
    SpelledU16(w.bootId, b.data, 4);
  }

  /** After a commit that answers true its seq is read back as a block that carries what the commit was given. */
  lemma {:induction false} CommitLeaves(d: W.Device, log: seq<LogSeg>, data: bytes, tagLen: nat, free: Flash -> nat,
      f: W.Faults)
    returns (b: Block)
    requires Ready(d, log, data, tagLen, f) && W.Committed(d, data, free, f).1
    ensures Read(W.Committed(d, data, free, f).0.st, d.w.next, {}) == Found(b)
    ensures Carries(b, d.w.next, d.w.bootId, data, FirstSignature(f)) && |b.tag| == tagLen
  {
    hide Consistent, Read, Carries, Moved, W.Signed, W.AppendTwice, CommitLog, SeqOf, LengthField;
    b := BlockOf(d, data, f);
    CommitMoves(d, log, data, tagLen, free, f);
    BlockFits(d, log, data, tagLen, f);
    SignedCarries(d.w, data, FirstSignature(f));
    var log' := CommitLog(d, log, data, free, f);
    ReadsLast(d.st, log, b, W.Committed(d, data, free, f).0.st, log');
    SameTag(d, data, free, f);
    TagLength(d, data, FirstSignature(f));
  }

  lemma {:induction false} SameTag(d: W.Device, data: bytes, free: Flash -> nat, f: W.Faults)
    requires W.Committed(d, data, free, f).1
    ensures BlockOf(d, data, f) == W.Signed(d.w, data, FirstSignature(f)) && f.Tag().Some?
  {
    hide W.Signed, W.AppendTwice;
  }

  lemma {:induction false} TagLength(d: W.Device, data: bytes, tag: bytes)
    ensures W.Signed(d.w, data, tag).tag == tag
  {
  }

  lemma {:induction false} ReadsLast(st: Store, log: seq<LogSeg>, b: Block, s: Store, log': seq<LogSeg>)
    requires Moved(st, log, b, true, s, log')
    ensures Read(s, SeqOf(b), {}) == Found(b)
  {
    hide Flat, SeqOf, Read, Describes, MayGrow;
    var r := Flat(log');
    assert r[|r| - 1] == b by {
      var n := s.lost - st.lost;
      assert r == (Flat(log) + Added(b, true))[n..];
    }
    ReadIsLookup(s, log', |r| - 1);
  }

  /** The bytes of a record: data, tag, and the CRC, lowest byte first. */
  predicate IsRecord(p: bytes, b: Block) {
    && |p| == |b.data| + |b.tag| + 4
    && p[..|b.data|] == b.data && p[|b.data|..|b.data| + |b.tag|] == b.tag && Spells32(p, |p| - 4, b.crc)
  }

  lemma {:induction false} RecordIs(b: Block)
    ensures IsRecord(RecordBytes(b), b)
  {
    hide U32;
    var p := RecordBytes(b);
    assert p[|p| - 4..|p| - 4 + 4] == U32(b.crc);
    SpelledU32(b.crc, p, |p| - 4);
  }

  /** Making room leaves the newest file alone. */
  lemma {:induction false} NewestFileStays(st: Store, log: seq<LogSeg>, b: Block, free: Flash -> nat)
    requires Consistent(st, log) && Appendable(st, b) && st.segs != []
    ensures var s, f := Roomy(st, b, free), st.Newest().first;
      && s.Newest() == st.Newest() && s.forceNew == st.forceNew && s.segs != []
      && f in st.flash && f in s.flash && s.flash[f] == st.flash[f]
    ensures var s := Roomy(st, b, free); forall i :: 0 <= i < |s.segs| ==> s.segs[i].first <= st.Newest().last
  {
    hide RecordBytes, EncodeHeader, Flat, LogSeg.Wf, FlashOf, LogSeg.File, BlockSeq, Roomy, MayGrow, Store.Total,
        Appendable;
    var k := MakesRoom(st, log, b, free);
    NewestIn(st, log);
    DiscardedEnds(st, log, Roomy(st, b, free), k);
    NewestIn(Roomy(st, b, free), log[k..]);
    SameFree(st, b, free);
  }

  lemma {:induction false} SameFree(st: Store, b: Block, free: Flash -> nat)
    ensures Roomy(st, b, free).forceNew == st.forceNew
  {
  }

  lemma {:induction false} DiscardedEnds(st: Store, log: seq<LogSeg>, s: Store, k: nat)
    requires Discarded(st, log, s, k) && log != []
    ensures Describes(s, log[k..]) && log[k..] != [] && log[k..][|log| - k - 1] == log[|log| - 1]
      && s.Newest() == st.Newest()
  {
    hide Describes, Flat;
  }

  lemma {:induction false} NewestIn(st: Store, log: seq<LogSeg>)
    requires Describes(st, log) && st.segs != []
    ensures log != [] && st.Newest().first in st.flash && st.flash[st.Newest().first] == log[|log| - 1].File()
    ensures forall i :: 0 <= i < |st.segs| ==> st.segs[i].first <= st.Newest().last
  {
    FlashFiles(log, |log| - 1);
    SegOfDescribed(st, log, |log| - 1);
    forall i | 0 <= i < |log|
      ensures st.segs[i].first == log[i].first <= log[i].Last() && st.segs[i].last == log[i].Last()
    {
      SegOfDescribed(st, log, i);
    }
    hide FlashOf, LogSeg.Wf, LogSeg.File;
  }

  /** A new file is called for: at a restart or after a failure, for another tag length, a gap, or the 65th record. */
  predicate Starts(st: Store, b: Block) {
    || st.segs == [] || st.forceNew || st.Newest().sealed || st.Newest().count >= 64
    || st.Newest().tagLen != |b.tag| || SeqOf(b) != st.NewestSeq() + 1
  }

  lemma {:induction false} StartsIs(st: Store, b: Block)
    ensures Starts(st, b) == NeedsNew(st, BlockSeq(b.data), |b.tag|)
  {
  }

  /** What the write of the record does to the files, once there is room. */
  lemma {:induction false} WriteFiles(s: Store, b: Block, w: Outcome)
    requires Write(s, b, w).1 && |b.tag| < 256
    requires forall i :: 0 <= i < |s.segs| ==> s.segs[i].first < SeqOf(b)
    ensures var flash := Write(s, b, w).0.flash;
      if Starts(s, b)
      then SeqOf(b) in flash && flash[SeqOf(b)] == [0x54, 0x43, 0x53, 0x32, 2, |b.tag|, 0, 0] + RecordBytes(b)
      else s.Newest().first in flash && flash[s.Newest().first] == FileOf(s.flash, s.Newest().first) + RecordBytes(b)
  {
    hide RecordBytes, Starts;
    StartsIs(s, b);
    HeaderIs(|b.tag|);
    hide EncodeHeader;
  }

  lemma {:induction false} HeaderIs(tagLen: nat)
    requires tagLen < 256
    ensures EncodeHeader(tagLen) == [0x54, 0x43, 0x53, 0x32, 2, tagLen, 0, 0]
  {
    assert U16(0) == [0, 0];
  }

  /**
   * What an append that answers true adds to flash: a record behind the bytes of the open file, or a new
   * file with the header TCS2, version 2 and the tag length.
   */
  lemma {:induction false} FilesAre(st: Store, log: seq<LogSeg>, b: Block, free: Flash -> nat, w: Outcome)
    returns (p: bytes)
    requires Consistent(st, log) && Appendable(st, b) && Append(st, b, free, w).1
    ensures var flash, f := Append(st, b, free, w).0.flash, st.Newest().first;
      && IsRecord(p, b)
      && (if Starts(st, b)
          then SeqOf(b) in flash && flash[SeqOf(b)] == [0x54, 0x43, 0x53, 0x32, 2, |b.tag|, 0, 0] + p
          else f in st.flash && f in flash && flash[f] == st.flash[f] + p)
  {
    hide RecordBytes, Roomy, Write, IsRecord, Consistent, Sized, BlockSeq;
    RecordIs(b);
    p := RecordBytes(b);
    var s := Roomy(st, b, free);
    IsNewer(b);
    if st.segs != [] {
      NewestFileStays(st, log, b, free);
    }
    WriteFiles(s, b, w);
  }

  lemma {:induction false} IsNewer(b: Block)
    ensures SeqOf(b) == BlockSeq(b.data)
  {
  }

  // ---- what the record says ----

  /** Seq and boot id are no part of what a data area decodes to. */
  lemma {:induction false} DecodesAlike(data: bytes, data': bytes)
    requires |data'| == |data| >= HEADER && data'[6..] == data[6..]
    ensures B.DecodeBlock(data') == B.DecodeBlock(data)
  {
    hide B.DecodeAll;
    assert data'[10..] == data'[6..][4..] && data[10..] == data[6..][4..];
    assert data'[HEADER..] == data'[6..][6..] && data[HEADER..] == data[6..][6..];
  }

  /** The data area the block builder closed, once committed, is read back and decodes to the readings added. */
  lemma {:induction false} ReadingsReachFlash(d: W.Device, log: seq<LogSeg>, startMs: nat, rs: seq<B.Reading>,
      tagLen: nat, free: Flash -> nat, f: W.Faults)
    returns (b: Block)
    requires B.AllOk(rs) && startMs < U32_END && HEADER + |B.EncodeAll(rs)| <= MAX_DATA
    requires Ready(d, log, B.DataArea(startMs, rs), tagLen, f) && W.Committed(d, B.DataArea(startMs, rs), free, f).1
    ensures Read(W.Committed(d, B.DataArea(startMs, rs), free, f).0.st, d.w.next, {}) == Found(b)
    ensures B.DecodeBlock(b.data) == Some(B.Decoded(startMs, rs)) && b.tag == FirstSignature(f)
  {
    hide Ready, W.Committed, Read, B.DecodeBlock, B.DataArea, B.AllOk, Spells16, Spells32, CrcMatches, B.EncodeAll;
    b := CommitLeaves(d, log, B.DataArea(startMs, rs), tagLen, free, f);
    B.BlockRoundTrip(startMs, rs);
    DecodesAlike(B.DataArea(startMs, rs), b.data);
  }

  // ---- over the life of the device ----

  /** The block is what this event of the device commits: its signature, its seq and boot id, and what it was to say. */
  predicate IsCommitOf(x: D.World, e: D.Event, b: Block) {
    match e
    case BootRecord(tMs, f) => IsBootOf(x, tMs, f, b)
    case BootCut(tMs, f, _) => IsBootOf(x, tMs, f, b)
    case DataRecord(data, f) => Carries(b, x.d.w.next, x.d.w.bootId, data, FirstSignature(f))
    case DataCut(data, f, _) => Carries(b, x.d.w.next, x.d.w.bootId, data, FirstSignature(f))
    case _ => false
  }

  predicate IsBootOf(x: D.World, tMs: nat, f: W.Faults, b: Block) {
    && b.tag == FirstSignature(f) && CrcMatches(b) && |b.data| == MARKER_LENGTH
    && Spells32(b.data, 0, x.d.w.next) && Spells16(b.data, 4, x.d.w.bootId) && Spells32(b.data, 6, tMs)
    && Spells16(b.data, 10, 23) && b.data[12] == 0xFE
    && Spells32(b.data, 15, x.d.w.bootFrom) && Spells32(b.data, 19, x.d.w.bootTo)
  }

  lemma {:induction false} MarkerBytes(seqNo: nat, bootId: nat, tMs: nat, kind: byte, from: nat, to: nat)
    ensures var m := BuildMarker(seqNo, bootId, tMs, kind, from, to);
      && Spells32(m, 6, tMs) && Spells16(m, 10, 23) && m[12] == kind && Spells32(m, 15, from) && Spells32(m, 19, to)
  {
    hide U16, U32;
    var m := BuildMarker(seqNo, bootId, tMs, kind, from, to);
    assert m[6..10] == U32(tMs) && m[10..12] == U16(23) && m[15..19] == U32(from) && m[19..23] == U32(to);
    SpelledU32(tMs, m, 6);
    SpelledU16(23, m, 10);
    SpelledU32(from, m, 15);
    SpelledU32(to, m, 19);
  }

  lemma {:induction false} SameFrom6(p: bytes, q: bytes, v: nat, at: nat)
    requires |p| == |q| && |p| >= 6 && p[6..] == q[6..] && at >= 6
    ensures Spells32(p, at, v) == Spells32(q, at, v) && Spells16(p, at, v) == Spells16(q, at, v)
    ensures at < |p| ==> p[at] == q[at]
  {
    assert forall i :: 6 <= i < |p| ==> p[i] == p[6..][i - 6] && q[i] == q[6..][i - 6];
  }

  lemma {:induction false} BootCarries(x: D.World, tMs: nat, f: W.Faults, b: Block)
    requires Carries(b, x.d.w.next, x.d.w.bootId, D.BootData(x, tMs), FirstSignature(f))
    ensures IsBootOf(x, tMs, f, b)
  {
    hide Spells16, Spells32, CrcMatches, BuildMarker;
    var m := D.BootData(x, tMs);
    MarkerBytes(x.d.w.next, x.d.w.bootId, tMs, BOOT_TYPE, x.d.w.bootFrom, x.d.w.bootTo);
    SameFrom6(b.data, m, tMs, 6);
    SameFrom6(b.data, m, 23, 10);
    SameFrom6(b.data, m, 0, 12);
    SameFrom6(b.data, m, x.d.w.bootFrom, 15);
    SameFrom6(b.data, m, x.d.w.bootTo, 19);
  }

  /** Whatever an event makes durable, whole commit or one that a power failure cut, is that one block. */
  lemma {:induction false} DurableIsCommit(c: D.Config, x: D.World, e: D.Event)
    requires D.Enabled(c, x, e)
    ensures var more := D.Durable(c, x, e); |more| <= 1 && (more != [] ==> IsCommitOf(x, e, more[0].block))
  {
    hide D.BootData, W.Committed, CommitCutPoint, Left, LeftWhole, Carries, IsBootOf, W.Signed, D.BlockData,
        LengthField;
    var (d, bs) := D.Subject(x, e);
    if D.Durable(c, x, e) != [] {
      EntryTag(c, x, e);
      EntryLength(c, x, e);
      SignedCarries(d.w, bs, FirstSignature(e.f));
      if e.BootRecord? || e.BootCut? {
        BootCarries(x, e.tMs, e.f, BlockOf(d, bs, e.f));
      }
    }
  }

  lemma {:induction false} EntryTag(c: D.Config, x: D.World, e: D.Event)
    requires D.Enabled(c, x, e) && D.Durable(c, x, e) != []
    ensures e.BootRecord? || e.BootCut? || e.DataRecord? || e.DataCut?
    ensures var (d, bs) := D.Subject(x, e); BlockOf(d, bs, e.f) == W.Signed(d.w, bs, FirstSignature(e.f))
  {
    hide D.BootData, W.Signed, D.BlockData, LengthField, W.Committed, LeftWhole;
  }

  lemma {:induction false} EntryLength(c: D.Config, x: D.World, e: D.Event)
    requires D.Enabled(c, x, e) && D.Durable(c, x, e) != []
    ensures |D.Subject(x, e).1| >= HEADER
  {
    hide W.Committed, LeftWhole, CommitCutPoint, LengthField;
  }

  /**
   * Every record that ever became durable came from one commit of the device, and carries the first
   * signature of that commit that succeeded, its seq and boot id, and the data area handed in; a BOOT
   * carries its start time and its range.
   */
  lemma {:induction false} EveryRecordIsSigned(c: D.Config, legacy: nat, es: seq<D.Event>, i: nat) returns (k: nat)
    requires c.Ok() && i < |D.RunAll(c, D.Factory(legacy), es).hist|
    ensures k < |es| && var r := D.RunAll(c, D.Factory(legacy), es[..k]);
      && D.Enabled(c, r.x, es[k]) && |r.hist| == i
      && IsCommitOf(r.x, es[k], D.RunAll(c, D.Factory(legacy), es).hist[i].block)
    decreases |es|
  {
    hide D.Step, D.Durable, D.Tallied, D.RunAll, D.Enabled, IsCommitOf;
    if es == [] {
      NothingYet(c, legacy);
    } else {
      var n := |es| - 1;
      L.RunTo(c, D.Factory(legacy), es, n);
      assert es[..n + 1] == es;
      var r := D.RunAll(c, D.Factory(legacy), es[..n]);
      if i < |r.hist| {
        k := EveryRecordIsSigned(c, legacy, es[..n], i);
        assert es[..n][..k] == es[..k];
      } else {
        k := n;
        DurableIsCommit(c, r.x, es[n]);
      }
    }
  }

  lemma {:induction false} NothingYet(c: D.Config, legacy: nat)
    ensures D.RunAll(c, D.Factory(legacy), []).hist == []
  {
  }
}
