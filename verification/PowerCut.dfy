/**
 * A power cut at any moment of an append: between two removals of old segments, or after any
 * number of bytes of the write. RAM is lost; the next boot rebuilds the log from flash alone.
 */
module PowerCut {
  import opened Bytes
  import opened BlockFormat
  import opened SegmentFormat
  import opened StoreSpec
  import opened LogSpec
  import opened AppendKeeps
  import opened Recovery

  datatype Cut = InDiscards(n: nat) | InWrite(p: nat)

  function DiscardN(st: Store, n: nat): Store
    decreases n
  {
    if n == 0 then st else DiscardN(DiscardOldest(st), n - 1)
  }

  predicate CutPoint(st: Store, b: Block, free: Flash -> nat, cut: Cut)
  {
    match cut
    case InDiscards(n) => n <= |st.segs| - |Roomy(st, b, free).segs|
    case InWrite(p) => p <= |AppendBytes(st, b)|
  }

  /** The store whose segments are still on flash at the cut. */
  function Remaining(st: Store, b: Block, free: Flash -> nat, cut: Cut): Store
  {
    match cut
    case InDiscards(n) => DiscardN(st, n)
    case InWrite(_) => Roomy(st, b, free)
  }

  /** Flash when the write of `b` has put down `p` of its bytes. */
  function WriteFlash(s: Store, b: Block, p: nat): Flash {
    var written := Prefix(AppendBytes(s, b), p);
    if NeedsNew(s, BlockSeq(b.data), |b.tag|) then s.flash[BlockSeq(b.data) := written]
    else s.flash[s.Newest().first := FileOf(s.flash, s.Newest().first) + written]
  }

  /** Flash at the cut. */
  function CutFlash(st: Store, b: Block, free: Flash -> nat, cut: Cut): Flash {
    var s := Remaining(st, b, free, cut);
    match cut
    case InDiscards(_) => s.flash
    case InWrite(p) => WriteFlash(s, b, p)
  }

  /** The log the cut leaves, before the boot caps it. */
  function CutLog(st: Store, log: seq<LogSeg>, b: Block, free: Flash -> nat, cut: Cut): seq<LogSeg> {
    match cut
    case InDiscards(n) => if n <= |log| then log[n..] else log
    case InWrite(p) => AfterWrite(Roomy(st, b, free), RoomLog(st, log, b, free), b, Written(p))
  }

  predicate Whole(st: Store, b: Block, cut: Cut)
  {
    cut.InWrite? && cut.p == |AppendBytes(st, b)|
  }

  /** These files are all a boot gets to see of `log`: with any limit it makes of them what it makes of the log's. */
  ghost predicate Persists(flash: Flash, log: seq<LogSeg>) {
    && LogWf(log) && |log| <= MAX_SEGMENTS + 1
    && forall m: nat :: Begin(flash, m) == Begin(FlashOf(log), m)
  }

  /**
   * What the boot after the cut finds, whatever its limit of blocks: the records of before, plus the
   * one in flight if and only if all its bytes are there, minus the oldest ones already discarded
   * for it and the segments that are too many for the boot. With the limit of before these are none,
   * or those of the oldest of 257 files.
   */
  ghost predicate Survives(st: Store, log: seq<LogSeg>, b: Block, free: Flash -> nat, cut: Cut, r: Store, k: nat)
  {
    var gone := Remaining(st, b, free, cut).lost - st.lost;
    var all := Flat(log) + (if Whole(st, b, cut) then [b] else []);
    var left := CutLog(st, log, b, free, cut);
    && k <= |left| && Bounded(r, left[k..]) && !r.forceNew
    && (forall j :: 0 <= j < k ==> TooMuch(left[j..], r.maxBlocks))
    && 0 <= gone && gone + r.lost <= |all|
    && Flat(left[k..]) == all[gone + r.lost..]
    && (Flat(left[k..]) == [] ==> all == [])
    && (r.lost > 0 && r.maxBlocks >= st.maxBlocks ==>
      Whole(st, b, cut) && |CutFlash(st, b, free, cut)| == MAX_SEGMENTS + 1)
  }

  lemma {:induction false} DiscardNDiscards(st: Store, log: seq<LogSeg>, n: nat)
    requires Describes(st, log) && (if log == [] then n == 0 else n < |log|)
    ensures Discarded(st, log, DiscardN(st, n), n)
    decreases n
  {
    hide LogWf, FlashOf, Flat, Discarded, DiscardOldest, Max, LogSeg.Last;
    if n == 0 {
      DiscardedNone(st, log);
    } else {
      DropDescribes(st, log);
      DiscardNDiscards(DiscardOldest(st), log[1..], n - 1);
      hide Describes;
      DiscardOne(st, log, DiscardN(st, n), n - 1);
    }
  }

  lemma {:induction false} FlashSize(log: seq<LogSeg>)
    requires LogWf(log)
    ensures |FlashOf(log)| == |log|
  {
    if log != [] {
      var n := |log| - 1;
      FlashSize(log[..n]);
      FlashKeys(log[..n], log[n].first);
      forall i | 0 <= i < n
        ensures log[..n][i].first != log[n].first
      {
        assert log[i].Last() < log[n].first;
      }
    }
  }

  /** A new file cut short holds no record. */
  lemma {:induction false} CutFileIsEmpty(b: Block, p: nat)
    requires Sized(b, |b.tag|) && ValidTagLen(|b.tag|)
    requires p < |EncodeHeader(|b.tag|) + RecordBytes(b)|
    ensures FileRecords((EncodeHeader(|b.tag|) + RecordBytes(b))[..p], BlockSeq(b.data)) == []
  {
    var h := EncodeHeader(|b.tag|);
    var file := (h + RecordBytes(b))[..p];
    if p >= SEGMENT_HEADER {
      var q := p - SEGMENT_HEADER;
      assert file == h + RecordBytes(b)[..q];
      HeaderReadsBack(|b.tag|, RecordBytes(b)[..q]);
      CutIsNotRead(b, |b.tag|, q);
    }
  }

  /** Losing from the front, before and after adding at the end. */
  lemma {:induction false} SuffixOfAppend(r: seq<Block>, r1: seq<Block>, tail: seq<Block>, r2: seq<Block>, lost: nat,
      r': seq<Block>)
    requires |r1| <= |r| && r1 == r[|r| - |r1|..] && r2 == r1 + tail
    requires lost <= |r2| && r' == r2[lost..]
    requires r' == [] ==> r == [] && r2 == []
    ensures |r| - |r1| + lost <= |r + tail| && r' == (r + tail)[|r| - |r1| + lost..]
    ensures r' == [] ==> r + tail == []
  {
    assert (r + tail)[|r| - |r1|..] == r1 + tail;
  }

  /** What a cut leaves: flash holds the records of `log2`, those of `log1` and perhaps the one in flight. */
  ghost predicate Leaves(st: Store, log: seq<LogSeg>, b: Block, free: Flash -> nat, cut: Cut, log1: seq<LogSeg>,
      log2: seq<LogSeg>) {
    && Persists(CutFlash(st, b, free, cut), log2)
    && (|log2| > MAX_SEGMENTS ==> Whole(st, b, cut) && CutFlash(st, b, free, cut) == FlashOf(log2))
    && |Flat(log2)| <= st.maxBlocks
    && Flat(log2) == Flat(log1) + (if Whole(st, b, cut) then [b] else [])
    && Slid(st, Flat(log), Remaining(st, b, free, cut), Flat(log1))
    && (log2 == [] ==> log == [])
  }

  lemma {:induction false} LeavesSurvivors(st: Store, log: seq<LogSeg>, b: Block, free: Flash -> nat, cut: Cut,
      log1: seq<LogSeg>, log2: seq<LogSeg>, limit: nat)
    returns (k: nat)
    requires Leaves(st, log, b, free, cut, log1, log2) && log2 == CutLog(st, log, b, free, cut)
    requires limit >= 2 * BLOCKS_PER_SEGMENT
    ensures Survives(st, log, b, free, cut, Begin(CutFlash(st, b, free, cut), limit), k)
    ensures Begin(CutFlash(st, b, free, cut), limit).maxBlocks == limit
  {
    hide Leaves, Flat, Begin, CutFlash, CutLog, Bounded, Remaining, Whole, Survives, Rebuilt, TooMuch, FlashOf, LogWf;
    LeavesParts(st, log, b, free, cut, log1, log2, limit);
    k := BeginRebuilds(log2, limit);
    var r := Begin(FlashOf(log2), limit);
    RebuiltSlides(r, log2, k);
    EmptyRecords(log, log2, k);
    SurvivesAll(st, log, b, free, cut, log1, r, k);
  }

  /** Lost before the cut, and lost at the boot. */
  lemma {:induction false} SurvivesAll(st: Store, log: seq<LogSeg>, b: Block, free: Flash -> nat, cut: Cut,
      log1: seq<LogSeg>, r: Store, k: nat)
    requires var left := CutLog(st, log, b, free, cut);
      && Slid(st, Flat(log), Remaining(st, b, free, cut), Flat(log1))
      && Flat(left) == Flat(log1) + (if Whole(st, b, cut) then [b] else []) && |Flat(left)| <= st.maxBlocks
      && (|left| > MAX_SEGMENTS ==> Whole(st, b, cut) && |CutFlash(st, b, free, cut)| == MAX_SEGMENTS + 1)
      && k <= |left| && Bounded(r, left[k..]) && !r.forceNew
      && (forall j :: 0 <= j < k ==> TooMuch(left[j..], r.maxBlocks))
      && r.lost <= |Flat(left)| && Flat(left[k..]) == Flat(left)[r.lost..] && (r.lost > 0 ==> k > 0)
      && (Flat(left[k..]) == [] ==> Flat(log) == [] && Flat(left) == [])
    ensures Survives(st, log, b, free, cut, r, k)
  {
    hide Flat, CutFlash, CutLog, Bounded, Remaining, Whole, Survives, TooMuch, Slid;
    var left := CutLog(st, log, b, free, cut);
    SlidParts(st, Flat(log), Remaining(st, b, free, cut), Flat(log1));
    SuffixOfAppend(Flat(log), Flat(log1), if Whole(st, b, cut) then [b] else [], Flat(left), r.lost, Flat(left[k..]));
    SurvivesIf(st, log, b, free, cut, r, k);
  }

  lemma {:induction false} LeavesParts(st: Store, log: seq<LogSeg>, b: Block, free: Flash -> nat, cut: Cut,
      log1: seq<LogSeg>, log2: seq<LogSeg>, limit: nat)
    requires Leaves(st, log, b, free, cut, log1, log2)
    ensures Begin(CutFlash(st, b, free, cut), limit) == Begin(FlashOf(log2), limit)
    ensures LogWf(log2) && |log2| <= MAX_SEGMENTS + 1 && |Flat(log2)| <= st.maxBlocks && (log2 == [] ==> log == [])
    ensures |log2| > MAX_SEGMENTS ==> Whole(st, b, cut) && |CutFlash(st, b, free, cut)| == MAX_SEGMENTS + 1
    ensures Flat(log2) == Flat(log1) + (if Whole(st, b, cut) then [b] else [])
    ensures Slid(st, Flat(log), Remaining(st, b, free, cut), Flat(log1))
  {
    hide Flat, Begin, CutFlash, Remaining, Whole, FlashOf, LogWf, Slid;
    FlashSize(log2);
  }

  lemma {:induction false} SlidParts(st: Store, r: seq<Block>, st': Store, r': seq<Block>)
    requires Slid(st, r, st', r')
    ensures |r'| <= |r| && r' == r[|r| - |r'|..] && st'.lost == st.lost + |r| - |r'|
  {
    hide SeqOf;
  }

  /** A log without records has no segments, and a boot leaves one of any. */
  lemma {:induction false} EmptyRecords(log: seq<LogSeg>, log2: seq<LogSeg>, k: nat)
    requires LogWf(log2) && (log2 == [] ==> log == []) && k <= |log2| && (log2 != [] ==> k < |log2|)
    ensures Flat(log2[k..]) == [] ==> Flat(log) == [] && Flat(log2) == []
  {
    hide Flat, LogSeg.Wf;
    WfSuffix(log2, k);
    FlatIncreasing(log2[k..]);
    NoFlat();
  }

  lemma {:induction false} NoFlat()
    ensures Flat([]) == []
  {
  }

  lemma {:induction false} SurvivesIf(st: Store, log: seq<LogSeg>, b: Block, free: Flash -> nat, cut: Cut, r: Store,
      k: nat)
    requires var gone, all, left :=
        Remaining(st, b, free, cut).lost - st.lost, Flat(log) + (if Whole(st, b, cut) then [b] else []),
        CutLog(st, log, b, free, cut);
      && k <= |left| && Bounded(r, left[k..]) && !r.forceNew
      && (forall j :: 0 <= j < k ==> TooMuch(left[j..], r.maxBlocks))
      && 0 <= gone && gone + r.lost <= |all| && Flat(left[k..]) == all[gone + r.lost..]
      && (Flat(left[k..]) == [] ==> all == [])
      && (r.lost > 0 ==> k > 0) && |Flat(left)| <= st.maxBlocks
      && (|left| > MAX_SEGMENTS ==> Whole(st, b, cut) && |CutFlash(st, b, free, cut)| == MAX_SEGMENTS + 1)
    ensures Survives(st, log, b, free, cut, r, k)
  {
    hide Bounded, Remaining, Flat, Whole, CutFlash, CutLog, TooMuch;
    FirstTooMuch(CutLog(st, log, b, free, cut), k, r.maxBlocks);
  }

  lemma {:induction false} FirstTooMuch(left: seq<LogSeg>, k: nat, maxBlocks: nat)
    requires k <= |left| && forall j :: 0 <= j < k ==> TooMuch(left[j..], maxBlocks)
    ensures k > 0 && |Flat(left)| <= maxBlocks ==> |left| > MAX_SEGMENTS
  {
    hide Flat;
    assert left[0..] == left;
    assert k > 0 ==> TooMuch(left[0..], maxBlocks);
  }

  lemma {:induction false} RebuiltSlides(r: Store, log: seq<LogSeg>, k: nat)
    requires Rebuilt(r, log, k)
    ensures k <= |log| && (log != [] ==> k < |log|)
    ensures Bounded(r, log[k..]) && !r.forceNew && forall j :: 0 <= j < k ==> TooMuch(log[j..], r.maxBlocks)
    ensures r.lost <= |Flat(log)| && Flat(log[k..]) == Flat(log)[r.lost..]
    ensures r.lost > 0 ==> k > 0
  {
    hide Bounded, Flat, SeqOf, Max, TooMuch;
    assert log[0..] == log;
  }

  lemma {:induction false} DiscardedLeaves(st: Store, log: seq<LogSeg>, s: Store, k: nat)
    requires Describes(st, log) && Discarded(st, log, s, k) && |log| <= MAX_SEGMENTS
    ensures s.flash == FlashOf(log[k..]) && LogWf(log[k..]) && |log[k..]| <= MAX_SEGMENTS
    ensures Slid(st, Flat(log), s, Flat(log[k..]))
    ensures |Flat(log[k..])| <= |Flat(log)| == st.Total() && (log[k..] == [] ==> log == [])
  {
    hide Flat, LogWf, FlashOf, Slid, Store.Total;
    DiscardedSlides(st, log, s, k);
    FlatCut(log, k);
    TotalOfDescribed(st, log);
  }

  lemma {:induction false} CutInDiscards(st: Store, log: seq<LogSeg>, b: Block, free: Flash -> nat, n: nat)
    requires Consistent(st, log) && CutPoint(st, b, free, InDiscards(n))
    ensures n <= |log| && Leaves(st, log, b, free, InDiscards(n), log[n..], log[n..])
  {
    hide LogWf, FlashOf, Flat, Begin, Discarded, DiscardN, Store.Total, Roomy, BlockSeq, MayGrow, WriteFlash, Slid;
    DiscardNDiscards(st, log, n);
    DiscardedLeaves(st, log, DiscardN(st, n), n);
    assert Flat(log[n..]) + [] == Flat(log[n..]);
  }

  lemma {:induction false} CutInNewFile(s: Store, log: seq<LogSeg>, b: Block, p: nat)
    requires Describes(s, log) && Appendable(s, b) && p < |AppendBytes(s, b)| && |log| <= MAX_SEGMENTS
    requires NeedsNew(s, BlockSeq(b.data), |b.tag|)
    ensures Persists(WriteFlash(s, b, p), log)
  {
    CutFileIsEmpty(b, p);
    FirstsAreOlder(s, log);
    hide LogWf, FlashOf, Flat, Begin, SeqOf, RecordBytes, EncodeHeader, FileRecords, NeedsNew;
    forall m: nat
      ensures Begin(WriteFlash(s, b, p), m) == Begin(FlashOf(log), m)
    {
      DebrisIsRemoved(log, BlockSeq(b.data), Prefix(AppendBytes(s, b), p), m);
    }
  }

  lemma {:induction false} FirstsAreOlder(s: Store, log: seq<LogSeg>)
    requires Describes(s, log)
    ensures forall i :: 0 <= i < |log| ==> log[i].first <= s.NewestSeq()
  {
    if log != [] {
      NewestOfDescribed(s, log);
    }
    forall i | 0 <= i < |log|
      ensures log[i].first <= s.NewestSeq()
    {
      assert log[i].Wf();
      if i < |log| - 1 {
        assert log[i].Last() < log[|log| - 1].first;
        assert log[|log| - 1].Wf();
      }
    }
  }

  lemma {:induction false} CutInOldFile(s: Store, log: seq<LogSeg>, b: Block, p: nat)
    requires Describes(s, log) && MayGrow(s, log) && Appendable(s, b) && |log| <= MAX_SEGMENTS
    requires !NeedsNew(s, BlockSeq(b.data), |b.tag|) && p <= |RecordBytes(b)|
    ensures var log2 := AfterWrite(s, log, b, Written(p));
      && s.flash[s.Newest().first := FileOf(s.flash, s.Newest().first) + Prefix(RecordBytes(b), p)] == FlashOf(log2)
      && LogWf(log2) && |log2| == |log|
      && Flat(log2) == Flat(log) + (if p == |RecordBytes(b)| then [b] else [])
  {
    hide LogWf, FlashOf, Flat, SeqOf, RecordBytes, EncodeHeader, LogSeg.Wf, BlockSeq;
    if p == |RecordBytes(b)| {
      WriteGrows(s, log, b, Written(p));
    } else {
      WriteFails(s, log, b, Written(p));
      assert Flat(log) + [] == Flat(log);
    }
  }

  lemma {:induction false} WholeNewFile(s: Store, log: seq<LogSeg>, b: Block)
    requires Describes(s, log) && Appendable(s, b)
    ensures var log2 := log + [LogSeg(BlockSeq(b.data), |b.tag|, [b], [])];
      && s.flash[BlockSeq(b.data) := EncodeHeader(|b.tag|) + RecordBytes(b)] == FlashOf(log2)
      && LogWf(log2) && Flat(log2) == Flat(log) + [b]
  {
    var g := LogSeg(BlockSeq(b.data), |b.tag|, [b], []);
    FirstRecordIsWf(b);
    FlatPush(log, g);
    hide LogWf, FlashOf, Flat, SeqOf, RecordBytes, EncodeHeader, LogSeg.Wf, BlockSeq;
    PushDescribes(s, log, g, g.Entry());
  }

  /** The files after a cut inside the write, for a store with room for it. */
  lemma {:induction false} CutInRoom(s: Store, log: seq<LogSeg>, b: Block, p: nat)
    requires Describes(s, log) && MayGrow(s, log) && Appendable(s, b) && |log| <= MAX_SEGMENTS
    requires p <= |AppendBytes(s, b)|
    requires !NeedsNew(s, BlockSeq(b.data), |b.tag|) || p == |AppendBytes(s, b)|
    ensures var log2 := AfterWrite(s, log, b, Written(p));
      && WriteFlash(s, b, p) == FlashOf(log2) && LogWf(log2) && |log| <= |log2| <= |log| + 1
      && Flat(log2) == Flat(log) + (if p == |AppendBytes(s, b)| then [b] else [])
      && (|log2| > |log| ==> p == |AppendBytes(s, b)|)
  {
    hide LogWf, FlashOf, Flat, SeqOf, RecordBytes, EncodeHeader, LogSeg.Wf, BlockSeq, Describes, NeedsNew, MayGrow,
        Appendable, Prefix;
    if NeedsNew(s, BlockSeq(b.data), |b.tag|) {
      WholePrefix(AppendBytes(s, b));
      WholeNewFile(s, log, b);
    } else {
      CutInOldFile(s, log, b, p);
    }
  }

  lemma {:induction false} WholePrefix(p: bytes)
    ensures Prefix(p, |p|) == p
  {
  }

  lemma {:induction false} SameWriteFlash(st: Store, b: Block, free: Flash -> nat, p: nat)
    ensures CutFlash(st, b, free, InWrite(p)) == WriteFlash(Roomy(st, b, free), b, p)
    ensures AppendBytes(Roomy(st, b, free), b) == AppendBytes(st, b)
  {
    hide EncodeHeader, RecordBytes, BlockSeq, Roomy, NeedsNew;
    NeedsNewAfterRoom(st, b, free);
  }

  lemma {:induction false} CutInWrite(st: Store, log: seq<LogSeg>, b: Block, free: Flash -> nat, p: nat)
    returns (k: nat)
    requires Consistent(st, log) && Appendable(st, b) && p <= |AppendBytes(st, b)|
    ensures k <= |log| && Leaves(st, log, b, free, InWrite(p), log[k..], CutLog(st, log, b, free, InWrite(p)))
  {
    hide LogWf, FlashOf, Flat, AppendBytes, BlockSeq, Discarded, Describes, Consistent, NeedsNew, Roomy, MayGrow,
        Begin, Appendable, CutFlash, WriteFlash, Store.Total, RoomLog, AfterWrite, Slid, Persists;
    var s := Roomy(st, b, free);
    k := MakesRoom(st, log, b, free);
    RoomLeaves(st, log, s, k);
    SameWriteFlash(st, b, free, p);
    RoomLogIs(st, log, b, free, k);
    CutWithRoom(s, log[k..], b, p);
  }

  lemma {:induction false} RoomLeaves(st: Store, log: seq<LogSeg>, s: Store, k: nat)
    requires Consistent(st, log) && Discarded(st, log, s, k) && s.Total() + 1 <= s.maxBlocks
    ensures k <= |log| && Describes(s, log[k..]) && s.maxBlocks == st.maxBlocks
    ensures |log[k..]| <= MAX_SEGMENTS && |Flat(log[k..])| + 1 <= s.maxBlocks && (log[k..] == [] ==> log == [])
    ensures Slid(st, Flat(log), s, Flat(log[k..]))
  {
    hide LogWf, FlashOf, Flat, Store.Total, Max, Slid, MayGrow;
    DiscardedLeaves(st, log, s, k);
    RoomLeft(s, log[k..]);
  }

  lemma {:induction false} CutWithRoom(s: Store, log: seq<LogSeg>, b: Block, p: nat)
    requires Describes(s, log) && MayGrow(s, log) && Appendable(s, b) && |log| <= MAX_SEGMENTS
    requires p <= |AppendBytes(s, b)|
    ensures var log2 := AfterWrite(s, log, b, Written(p));
      && Persists(WriteFlash(s, b, p), log2)
      && (log2 == [] ==> log == [])
      && Flat(log2) == Flat(log) + (if p == |AppendBytes(s, b)| then [b] else [])
      && (|log2| > MAX_SEGMENTS ==> p == |AppendBytes(s, b)| && WriteFlash(s, b, p) == FlashOf(log2))
  {
    hide LogWf, FlashOf, Flat, AppendBytes, BlockSeq, NeedsNew, MayGrow, Begin, Appendable, WriteFlash;
    if NeedsNew(s, BlockSeq(b.data), |b.tag|) && p < |AppendBytes(s, b)| {
      CutInNewFile(s, log, b, p);
      assert Flat(log) + [] == Flat(log);
    } else {
      CutInRoom(s, log, b, p);
    }
  }

  /** What any cut leaves on flash. */
  lemma {:induction false} CutLeaves(st: Store, log: seq<LogSeg>, b: Block, free: Flash -> nat, cut: Cut)
    returns (log1: seq<LogSeg>)
    requires Consistent(st, log) && Appendable(st, b) && CutPoint(st, b, free, cut)
    ensures Leaves(st, log, b, free, cut, log1, CutLog(st, log, b, free, cut))
  {
    hide LogWf, FlashOf, Flat, CutFlash, AppendBytes, Consistent, Leaves, Appendable, Roomy, AfterWrite;
    if cut.InDiscards? {
      CutInDiscards(st, log, b, free, cut.n);
      log1 := log[cut.n..];
    } else {
      var k := CutInWrite(st, log, b, free, cut.p);
      log1 := log[k..];
    }
  }

  /** The main result: after a power cut at any point of an append, the boot finds what it should. */
  lemma {:induction false} SurvivesPowerCut(st: Store, log: seq<LogSeg>, b: Block, free: Flash -> nat, cut: Cut,
      limit: nat)
    returns (k: nat)
    requires Consistent(st, log) && Appendable(st, b) && CutPoint(st, b, free, cut) && limit >= 2 * BLOCKS_PER_SEGMENT
    ensures Survives(st, log, b, free, cut, Begin(CutFlash(st, b, free, cut), limit), k)
    ensures Begin(CutFlash(st, b, free, cut), limit).maxBlocks == limit
  {
    hide Survives, CutFlash, Consistent, Leaves, Appendable, CutLog, CutPoint, Begin;
    var log1 := CutLeaves(st, log, b, free, cut);
    k := LeavesSurvivors(st, log, b, free, cut, log1, CutLog(st, log, b, free, cut), limit);
  }

  lemma {:induction false} RoomLeft(s: Store, log: seq<LogSeg>)
    requires Describes(s, log) && s.Total() + 1 <= s.maxBlocks
    ensures |Flat(log)| + 1 <= s.maxBlocks
  {
    TotalOfDescribed(s, log);
  }

  // ---- inside a deletion or a boot ----

  function DropN(st: Store, n: nat): Store
    decreases n
  {
    if n == 0 then st else DropN(DropOldest(st), n - 1)
  }

  /** The bound that takes just the first `n` segments. */
  function UpToSegment(st: Store, n: nat): nat { if 0 < n <= |st.segs| then st.segs[n - 1].last else 0 }

  lemma {:induction false} TakesNone(st: Store, upTo: nat)
    requires st.segs != [] ==> upTo < st.segs[0].last
    ensures DeleteUpTo(st, upTo) == st
  {
  }

  lemma {:induction false} LastsRise(st: Store, log: seq<LogSeg>)
    requires Describes(st, log)
    ensures forall i, j :: 0 <= i < j < |st.segs| ==> 1 <= st.segs[i].last < st.segs[j].last
    ensures st.segs != [] ==> st.segs[0].last >= 1
  {
    forall i | 0 <= i < |log|
      ensures st.segs[i].first == log[i].first && st.segs[i].last == log[i].Last() && 1 <= log[i].first <= log[i].Last()
    {
      SegOfDescribed(st, log, i);
    }
  }

  /** A deletion cut short between two removals is, after `n` of them, the deletion up to the last segment removed. */
  lemma {:induction false} CutDeletionIsShorter(st: Store, log: seq<LogSeg>, upTo: nat, n: nat)
    requires Describes(st, log) && n <= |st.segs| - |DeleteUpTo(st, upTo).segs|
    ensures DropN(st, n) == DeleteUpTo(st, UpToSegment(st, n)) && UpToSegment(st, n) <= upTo
    decreases n
  {
    hide Describes;
    LastsRise(st, log);
    if n == 0 {
      TakesNone(st, 0);
    } else {
      var rest := DropOldest(st);
      DropOne(st, log);
      CutDeletionIsShorter(rest, log[1..], upTo, n - 1);
      LastsRise(rest, log[1..]);
      if n == 1 {
        TakesNone(rest, UpToSegment(st, 1));
      }
    }
  }

  lemma {:induction false} DropOne(st: Store, log: seq<LogSeg>)
    requires Describes(st, log) && st.segs != []
    ensures log != [] && Describes(DropOldest(st), log[1..]) && DropOldest(st).segs == st.segs[1..]
  {
    DropDescribes(st, log);
  }

  lemma {:induction false} EnoughIsNotTooMuch(st: Store, log: seq<LogSeg>)
    requires Bounded(st, log)
    ensures !TooMuch(log, st.maxBlocks)
  {
    TotalOfDescribed(st, log);
  }

  /** The records of fewer segments are fewer. */
  lemma {:induction false} FewerSegments(log: seq<LogSeg>, i: nat, n: nat)
    requires LogWf(log) && i < n <= |log|
    ensures |Flat(log[i..])| > |Flat(log[n..])|
  {
    hide Flat;
    assert log[n - 1].Wf();
    assert log[i..][n - i..] == log[n..] && log[i..][n - i - 1] == log[n - 1];
    FlatCut(log[i..], n - i);
  }

  /** How many segments a boot removes is told by what is too much. */
  lemma {:induction false} RemovesJust(log: seq<LogSeg>, n: nat, st: Store, k: nat)
    requires LogWf(log) && n < |log| && |log| - n <= MAX_SEGMENTS && Rebuilt(st, log, k)
    requires st.maxBlocks == |Flat(log[n..])|
    ensures k == n
  {
    hide Flat, LogWf, Bounded, Slid;
    EnoughIsNotTooMuch(st, log[k..]);
    assert k > n ==> TooMuch(log[n..], st.maxBlocks);
    if k < n {
      FewerSegments(log, k, n);
    }
  }

  lemma {:induction false} FilesLeft(log: seq<LogSeg>, maxBlocks: nat, n: nat, st: Store)
    requires LogWf(log) && |log| <= MAX_SEGMENTS + 1 && n < |log| && Rebuilt(st, log, n)
    ensures DiscardN(AllIndexed(log, maxBlocks), n).flash == st.flash == FlashOf(log[n..])
  {
    hide FlashOf, LogWf, Flat, Begin, TooMuch, AllIndexed, DiscardOldest, Slid, Store.Total, DiscardN;
    BeginIndexes(log, maxBlocks);
    DiscardNDiscards(AllIndexed(log, maxBlocks), log, n);
  }

  /**
   * A boot cut short between two removals leaves, after `n` of them, the files that a boot with a
   * higher limit leaves when it is done; it counts the same records as lost.
   */
  lemma {:induction false} CutBootIsMilder(log: seq<LogSeg>, maxBlocks: nat, k: nat, n: nat) returns (m: nat)
    requires LogWf(log) && |log| <= MAX_SEGMENTS + 1 && maxBlocks >= 2 * BLOCKS_PER_SEGMENT
    requires Rebuilt(Begin(FlashOf(log), maxBlocks), log, k) && 1 <= n <= k
    ensures m >= maxBlocks && Rebuilt(Begin(FlashOf(log), m), log, n)
    ensures DiscardN(AllIndexed(log, maxBlocks), n).flash == Begin(FlashOf(log), m).flash
  {
    hide FlashOf, LogWf, Flat, Begin, Bounded, AllIndexed, DiscardOldest, Slid, DiscardN;
    m := maxBlocks;
    if n < k {
      LimitKept(log, maxBlocks);
      assert TooMuch(log[n..], maxBlocks);
      m := |Flat(log[n..])|;
      var k' := BeginRebuilds(log, m);
      RemovesJust(log, n, Begin(FlashOf(log), m), k');
    }
    FilesLeft(log, maxBlocks, n, Begin(FlashOf(log), m));
  }

  lemma {:induction false} LimitKept(log: seq<LogSeg>, maxBlocks: nat)
    requires LogWf(log) && |log| <= MAX_SEGMENTS + 1 && maxBlocks >= 2 * BLOCKS_PER_SEGMENT
    ensures Begin(FlashOf(log), maxBlocks).maxBlocks == maxBlocks
  {
    hide LogWf, FlashOf, Begin, Rebuilt;
    var k := BeginRebuilds(log, maxBlocks);
  }
}
