/** What one commit, whole or cut short by a power failure, does to the records and the reserve. */
module CommitKeeps {
  import opened Bytes
  import opened BlockFormat
  import opened SegmentFormat
  import opened StoreSpec
  import opened LogSpec
  import opened AppendKeeps
  import opened Recovery
  import opened PowerCut
  import opened BlockWriter
  import Crc32

  predicate IsSuffix(a: seq<Block>, b: seq<Block>) { |a| <= |b| && a == b[|b| - |a|..] }

  function LastSeq(r: seq<Block>): nat { if r == [] then 0 else SeqOf(r[|r| - 1]) }

  function Added(b: Block, ok: bool): seq<Block> { if ok then [b] else [] }

  lemma {:induction false} NewestIsLast(st: Store, log: seq<LogSeg>)
    requires Describes(st, log)
    ensures st.NewestSeq() == LastSeq(Flat(log))
  {
    FlatIncreasing(log);
    if log != [] {
      NewestOfDescribed(st, log);
    }
  }

  lemma {:induction false} SlidIsSuffix(s: Store, r: seq<Block>, s': Store, r': seq<Block>)
    requires Slid(s, r, s', r')
    ensures IsSuffix(r', r) && (r' != [] ==> LastSeq(r') == LastSeq(r))
  {
    hide SeqOf;
  }

  /** A block the writer signed is whole, has the seq it was given, and declares what its data did. */
  lemma {:induction false} SignedFits(w: Writer, data: bytes, tag: bytes)
    requires HEADER <= |data| <= MAX_DATA && LengthField(data) == |data| && w.next < U32_END
    ensures var b := Signed(w, data, tag);
      && Sized(b, |tag|) && |b.tag| == |tag| && SeqOf(b) == w.next
      && ParseMarker(b.data) == ParseMarker(data) && CrcMatches(b)
  {
    hide Crc32.Checksum;
    StampSetsSeq(data, w.next, w.bootId);
    StampKeepsMarker(data, w.next, w.bootId);
  }

  // ---- two attempts ----

  function TwiceLog(st: Store, log: seq<LogSeg>, b: Block, free: Flash -> nat, w1: Outcome, w2: Outcome): seq<LogSeg> {
    var log1 := NextLog(st, log, b, free, w1);
    var (s1, ok) := Append(st, b, free, w1);
    if ok then log1 else NextLog(Retry(s1), log1, b, free, w2)
  }

  /** A store and the records it holds. */
  ghost predicate Moved(st: Store, log: seq<LogSeg>, b: Block, ok: bool, s: Store, log': seq<LogSeg>) {
    && Consistent(s, log')
    && s.maxBlocks == st.maxBlocks
    && Slid(st, Flat(log) + Added(b, ok), s, Flat(log'))
    && (Flat(log') == [] ==> Flat(log) == [] && !ok)
  }

  lemma {:induction false} AppendMoves(st: Store, log: seq<LogSeg>, b: Block, free: Flash -> nat, w: Outcome)
    requires Consistent(st, log) && Appendable(st, b)
    ensures var (s, ok) := Append(st, b, free, w); Moved(st, log, b, ok, s, NextLog(st, log, b, free, w))
  {
    hide Append, NextLog, Flat, Slid, Bounded, MayGrow, Appendable;
    AppendOutcome(st, log, b, free, w);
    var (s, ok) := Append(st, b, free, w);
    var log' := NextLog(st, log, b, free, w);
    NoRecords(s, log');
    if Flat(log') == [] {
      NoFlat();
    }
  }

  lemma {:induction false} NoRecords(s: Store, log: seq<LogSeg>)
    requires Consistent(s, log)
    ensures Flat(log) == [] ==> log == []
  {
    FlatIncreasing(log);
  }

  /** After a failed attempt the block can still be appended, now in a new segment. */
  lemma {:induction false} RetryReady(st: Store, log: seq<LogSeg>, b: Block, s: Store, log1: seq<LogSeg>)
    requires Consistent(st, log) && Appendable(st, b) && Moved(st, log, b, false, s, log1)
    ensures Consistent(Retry(s), log1) && Appendable(Retry(s), b)
  {
    hide Flat, Slid, SeqOf, BlockSeq, Describes, Sized, IsSuffix, Increasing, Store.NewestSeq, LastSeq, MayGrow;
    SoundParts(st, log);
    SoundParts(s, log1);
    NewestIsLast(st, log);
    NewestIsLast(s, log1);
    assert Flat(log) + [] == Flat(log);
    SlidIsSuffix(st, Flat(log), s, Flat(log1));
    RetryConsistent(s, log1);
    NothingLast();
    NewestOfRetry(s);
  }

  lemma {:induction false} SoundParts(st: Store, log: seq<LogSeg>)
    requires Consistent(st, log)
    ensures Describes(st, log)
  {
  }

  lemma {:induction false} NothingLast()
    ensures LastSeq([]) == 0
  {
  }

  lemma {:induction false} NewestOfRetry(s: Store)
    ensures Retry(s).NewestSeq() == s.NewestSeq()
  {
  }

  lemma {:induction false} RetryConsistent(s: Store, log: seq<LogSeg>)
    requires Consistent(s, log)
    ensures Consistent(Retry(s), log)
  {
    hide LogWf, FlashOf;
  }

  lemma {:induction false} TwiceMoves(st: Store, log: seq<LogSeg>, b: Block, free: Flash -> nat, w1: Outcome,
      w2: Outcome)
    requires Consistent(st, log) && Appendable(st, b)
    ensures var (s, ok) := AppendTwice(st, b, free, w1, w2);
      Moved(st, log, b, ok, s, TwiceLog(st, log, b, free, w1, w2))
  {
    hide Append, NextLog, Flat, Slid, Bounded, MayGrow, Appendable, Moved, Consistent, Retry;
    AppendMoves(st, log, b, free, w1);
    var (s1, ok1) := Append(st, b, free, w1);
    var log1 := NextLog(st, log, b, free, w1);
    if !ok1 {
      RetryReady(st, log, b, s1, log1);
      AppendMoves(Retry(s1), log1, b, free, w2);
      var (s2, ok2) := Append(Retry(s1), b, free, w2);
      MovedTwice(st, log, b, s1, log1, ok2, s2, NextLog(Retry(s1), log1, b, free, w2));
    }
  }

  lemma {:induction false} MovedTwice(st: Store, log: seq<LogSeg>, b: Block, s1: Store, log1: seq<LogSeg>, ok: bool,
      s2: Store, log2: seq<LogSeg>)
    requires Consistent(st, log) && Appendable(st, b)
    requires Moved(st, log, b, false, s1, log1) && Moved(Retry(s1), log1, b, ok, s2, log2)
    ensures Moved(st, log, b, ok, s2, log2)
  {
    hide Consistent, Appendable, Flat, Increasing, SeqOf, Max, Slid;
    NewestAdded(st, log, b, ok);
    assert Flat(log) + [] == Flat(log);
    RetrySlides(s1, Flat(log1) + Added(b, ok), s2, Flat(log2));
    SlidTwice(st, Flat(log), s1, Flat(log1), s2, Added(b, ok), Flat(log2));
  }

  lemma {:induction false} NewestAdded(st: Store, log: seq<LogSeg>, b: Block, ok: bool)
    requires Consistent(st, log) && Appendable(st, b)
    ensures Increasing(Flat(log) + Added(b, ok))
  {
    hide Appendable, Flat, Increasing, SeqOf;
    NewestLast(st, log, b);
  }

  /** Forcing a new segment loses nothing. */
  lemma {:induction false} RetrySlides(s1: Store, r: seq<Block>, s2: Store, r': seq<Block>)
    requires Slid(Retry(s1), r, s2, r')
    ensures Slid(s1, r, s2, r')
  {
    hide SeqOf, Max;
  }

  // ---- one commit ----

  /** What a commit relies on. */
  ghost predicate Ready(d: Device, log: seq<LogSeg>, data: bytes, tagLen: nat, f: Faults) {
    && Consistent(d.st, log)
    && d.st.NewestSeq() < d.w.next && d.w.next + d.w.step < U32_END && d.w.step >= 1
    && HEADER <= |data| <= MAX_DATA && LengthField(data) == |data|
    && ValidTagLen(tagLen) && f.Ok(tagLen)
    && d.w.reserve <= d.nvs <= d.w.next + d.w.step
  }

  function BlockOf(d: Device, data: bytes, f: Faults): Block {
    Signed(d.w, data, if f.Tag().Some? then f.Tag().value else [])
  }

  predicate Writes(d: Device, f: Faults) { ReserveSeq(d, f.save).1 && f.Tag().Some? }

  function CommitLog(d: Device, log: seq<LogSeg>, data: bytes, free: Flash -> nat, f: Faults): seq<LogSeg> {
    if Writes(d, f) then TwiceLog(d.st, log, BlockOf(d, data, f), free, f.write1, f.write2) else log
  }

  lemma {:induction false} BlockFits(d: Device, log: seq<LogSeg>, data: bytes, tagLen: nat, f: Faults)
    requires Ready(d, log, data, tagLen, f)
    ensures SeqOf(BlockOf(d, data, f)) == d.w.next && ParseMarker(BlockOf(d, data, f).data) == ParseMarker(data)
    ensures Writes(d, f) ==> Appendable(d.st, BlockOf(d, data, f))
  {
    hide Signed, Consistent, ParseMarker;
    SignedFits(d.w, data, if f.Tag().Some? then f.Tag().value else []);
  }

  /** The reserve saved covers the seq about to be written, and never shrinks. */
  lemma {:induction false} ReserveCovers(d: Device, save: Save)
    requires d.w.reserve <= d.nvs <= d.w.next + d.w.step && d.w.step >= 1 && (save.answers ==> save.persists)
    ensures var (d1, ok) := ReserveSeq(d, save);
      && d.nvs <= d1.nvs && d1.w.reserve <= d1.nvs <= d.w.next + d.w.step
      && (d1.nvs == d.nvs || d1.nvs >= d.w.next + d.w.step)
      && (ok ==> d.w.next < d1.nvs && d1.w == d.w.(reserve := d1.w.reserve))
      && (!ok ==> d1.w == d.w.Failed())
      && d1.st == d.st
  {
  }

  lemma {:induction false} StaysPut(st: Store, log: seq<LogSeg>, b: Block)
    requires Consistent(st, log)
    ensures Moved(st, log, b, false, st, log)
  {
    hide Flat, SeqOf, Bounded, MayGrow;
    assert Flat(log) + [] == Flat(log) == Flat(log)[0..];
  }

  /**
   * One commit: the block is added or it is not, its seq is below the reserve in NVS, and is consumed only if
   * added.
   */
  lemma {:induction false} CommitMoves(d: Device, log: seq<LogSeg>, data: bytes, tagLen: nat, free: Flash -> nat,
      f: Faults)
    requires Ready(d, log, data, tagLen, f)
    ensures var (d', ok) := Committed(d, data, free, f);
      && Moved(d.st, log, BlockOf(d, data, f), ok, d'.st, CommitLog(d, log, data, free, f))
      && d.nvs <= d'.nvs && d'.w.reserve <= d'.nvs <= d'.w.next + d'.w.step
      && (d'.nvs == d.nvs || d'.nvs >= d.w.next + d.w.step) && (ok ==> d.w.next < d'.nvs)
      && d'.w == d.w.(next := d.w.next + (if ok then 1 else 0), reserve := d'.w.reserve,
                       failed := d.w.failed + (if ok then 0 else 1))
  {
    hide Signed, Consistent, ParseMarker, Moved, TwiceLog, AppendTwice, Appendable, SeqOf;
    var b := BlockOf(d, data, f);
    BlockFits(d, log, data, tagLen, f);
    ReserveCovers(d, f.save);
    StaysPut(d.st, log, b);
    hide ReserveSeq, Ready;
    if Writes(d, f) {
      TwiceMoves(d.st, log, b, free, f.write1, f.write2);
    }
  }

  predicate Completes(w: Outcome, n: nat) { w.Written? && w.n >= n }

  /**
   * A commit succeeds exactly when the reserve covers the seq or its save is answered, one of two
   * signatures succeeds, and one of two writes is complete; the second carries a segment header.
   */
  lemma {:induction false} CommitSucceeds(d: Device, log: seq<LogSeg>, data: bytes, tagLen: nat, free: Flash -> nat,
      f: Faults)
    requires Ready(d, log, data, tagLen, f)
    ensures var b := BlockOf(d, data, f);
      Committed(d, data, free, f).1 <==>
        && (d.w.next < d.w.reserve || f.save.answers)
        && (f.sign1.Some? || f.sign2.Some?)
        && (Completes(f.write1, |AppendBytes(d.st, b)|) || Completes(f.write2, SEGMENT_HEADER + |RecordBytes(b)|))
  {
    hide Signed, Consistent, ParseMarker, Append, NextLog, Appendable, SeqOf, AppendBytes, Moved;
    var b := BlockOf(d, data, f);
    BlockFits(d, log, data, tagLen, f);
    if Writes(d, f) {
      TwiceSucceeds(d.st, log, b, free, f.write1, f.write2);
    }
  }

  lemma {:induction false} TwiceSucceeds(st: Store, log: seq<LogSeg>, b: Block, free: Flash -> nat, w1: Outcome,
      w2: Outcome)
    requires Consistent(st, log) && Appendable(st, b)
    ensures AppendTwice(st, b, free, w1, w2).1 <==>
      Completes(w1, |AppendBytes(st, b)|) || Completes(w2, SEGMENT_HEADER + |RecordBytes(b)|)
  {
    hide Append, NextLog, Appendable, SeqOf, AppendBytes, Moved, Appended, Consistent, Retry;
    AppendOutcome(st, log, b, free, w1);
    var (s1, ok1) := Append(st, b, free, w1);
    if !ok1 {
      AppendMoves(st, log, b, free, w1);
      RetryReady(st, log, b, s1, NextLog(st, log, b, free, w1));
      AppendOutcome(Retry(s1), NextLog(st, log, b, free, w1), b, free, w2);
      NewSegmentBytes(s1, b);
    }
  }

  lemma {:induction false} NewSegmentBytes(st: Store, b: Block)
    ensures |AppendBytes(Retry(st), b)| == SEGMENT_HEADER + |RecordBytes(b)|
  {
    hide RecordBytes;
  }

  // ---- a commit cut short ----

  datatype CommitCut = BeforeSave | AfterSave | InFirst(cut: Cut) | InSecond(cut: Cut)

  /** What a power failure leaves: flash, and the reserve in NVS. */
  datatype Remnant = Remnant(flash: Flash, nvs: nat)

  /** The store at the second attempt. */
  function SecondStore(d: Device, data: bytes, free: Flash -> nat, f: Faults): Store {
    Retry(Append(d.st, BlockOf(d, data, f), free, f.write1).0)
  }

  predicate CommitCutPoint(d: Device, data: bytes, free: Flash -> nat, f: Faults, c: CommitCut) {
    match c
    case BeforeSave => true
    case AfterSave => true
    case InFirst(cut) => Writes(d, f) && CutPoint(d.st, BlockOf(d, data, f), free, cut)
    case InSecond(cut) =>
      && Writes(d, f) && !Append(d.st, BlockOf(d, data, f), free, f.write1).1
      && CutPoint(SecondStore(d, data, free, f), BlockOf(d, data, f), free, cut)
  }

  function Left(d: Device, data: bytes, free: Flash -> nat, f: Faults, c: CommitCut): Remnant {
    var nvs := ReserveSeq(d, f.save).0.nvs;
    match c
    case BeforeSave => Remnant(d.st.flash, d.nvs)
    case AfterSave => Remnant(d.st.flash, nvs)
    case InFirst(cut) => Remnant(CutFlash(d.st, BlockOf(d, data, f), free, cut), nvs)
    case InSecond(cut) => Remnant(CutFlash(SecondStore(d, data, free, f), BlockOf(d, data, f), free, cut), nvs)
  }

  /** Whether the block is on flash all the same. */
  predicate LeftWhole(d: Device, data: bytes, free: Flash -> nat, f: Faults, c: CommitCut) {
    match c
    case InFirst(cut) => Whole(d.st, BlockOf(d, data, f), cut)
    case InSecond(cut) => Whole(SecondStore(d, data, free, f), BlockOf(d, data, f), cut)
    case _ => false
  }

  /** The index in RAM at the moment of the cut: what had been discarded by then shows in its loss counter. */
  function AtCut(d: Device, data: bytes, free: Flash -> nat, f: Faults, c: CommitCut): Store {
    var b := BlockOf(d, data, f);
    match c
    case InFirst(cut) => Remaining(d.st, b, free, cut)
    case InSecond(cut) => Remaining(SecondStore(d, data, free, f), b, free, cut)
    case _ => d.st
  }

  function LeftLog(d: Device, log: seq<LogSeg>, data: bytes, free: Flash -> nat, f: Faults, c: CommitCut): seq<LogSeg> {
    var b := BlockOf(d, data, f);
    match c
    case InFirst(cut) => CutLog(d.st, log, b, free, cut)
    case InSecond(cut) => CutLog(SecondStore(d, data, free, f), NextLog(d.st, log, b, free, f.write1), b, free, cut)
    case _ => log
  }

  /** The records are those of before, with the block or without, minus what the loss counter says. */
  ghost predicate Kept(st: Store, log: seq<LogSeg>, b: Block, whole: bool, s: Store, log': seq<LogSeg>) {
    && Slid(st, Flat(log) + Added(b, whole), s, Flat(log'))
    && (Flat(log') == [] ==> Flat(log) == [] && !whole)
  }

  lemma {:induction false} PowerOffKeeps(st: Store, log: seq<LogSeg>, b: Block)
    requires Consistent(st, log)
    ensures Persists(st.flash, log) && Kept(st, log, b, false, st, log)
  {
    hide Flat, LogWf, FlashOf, Begin, Store.Total, MayGrow, SeqOf;
    assert Flat(log) + [] == Flat(log) == Flat(log)[0..];
  }

  lemma {:induction false} SlidMore(st: Store, r: seq<Block>, s: Store, r': seq<Block>, tail: seq<Block>)
    requires Slid(st, r, s, r')
    ensures Slid(st, r + tail, s, r' + tail)
  {
    hide SeqOf;
    var n := s.lost - st.lost;
    assert (r + tail)[n..] == r' + tail;
  }

  lemma {:induction false} CutKeeps(st: Store, log: seq<LogSeg>, b: Block, free: Flash -> nat, cut: Cut)
    requires Consistent(st, log) && Appendable(st, b) && CutPoint(st, b, free, cut)
    ensures Persists(CutFlash(st, b, free, cut), CutLog(st, log, b, free, cut))
    ensures Kept(st, log, b, Whole(st, b, cut), Remaining(st, b, free, cut), CutLog(st, log, b, free, cut))
  {
    hide CutFlash, CutLog, Whole, Consistent, CutPoint, Appendable, Slid, Remaining, Flat, Persists;
    var log1 := CutLeaves(st, log, b, free, cut);
    SlidMore(st, Flat(log), Remaining(st, b, free, cut), Flat(log1), Added(b, Whole(st, b, cut)));
    LeftEmpty(CutFlash(st, b, free, cut), CutLog(st, log, b, free, cut));
    NoFlat();
  }

  lemma {:induction false} LeftEmpty(flash: Flash, log: seq<LogSeg>)
    requires Persists(flash, log)
    ensures Flat(log) == [] ==> log == []
  {
    FlatIncreasing(log);
  }

  lemma {:induction false} KeptLater(st: Store, log: seq<LogSeg>, b: Block, s1: Store, log1: seq<LogSeg>,
      whole: bool, s2: Store, log2: seq<LogSeg>)
    requires Consistent(st, log) && Appendable(st, b)
    requires Moved(st, log, b, false, s1, log1) && Kept(Retry(s1), log1, b, whole, s2, log2)
    ensures Kept(st, log, b, whole, s2, log2)
  {
    hide Consistent, Flat, SeqOf, Slid, Increasing, Appendable;
    assert Flat(log) + [] == Flat(log);
    NewestAdded(st, log, b, whole);
    RetrySlides(s1, Flat(log1) + Added(b, whole), s2, Flat(log2));
    SlidTwice(st, Flat(log), s1, Flat(log1), s2, Added(b, whole), Flat(log2));
  }

  lemma {:induction false} SecondCutKeeps(d: Device, log: seq<LogSeg>, data: bytes, tagLen: nat, free: Flash -> nat,
      f: Faults, cut: Cut)
    requires Ready(d, log, data, tagLen, f) && CommitCutPoint(d, data, free, f, InSecond(cut))
    ensures Persists(Left(d, data, free, f, InSecond(cut)).flash, LeftLog(d, log, data, free, f, InSecond(cut)))
    ensures Kept(d.st, log, BlockOf(d, data, f), LeftWhole(d, data, free, f, InSecond(cut)),
                 AtCut(d, data, free, f, InSecond(cut)), LeftLog(d, log, data, free, f, InSecond(cut)))
  {
    hide BlockOf, Append, Consistent, Moved, NextLog, Persists, Kept, CutFlash, CutLog, CutPoint, Whole, Remaining,
        Appendable, ReserveSeq;
    var b := BlockOf(d, data, f);
    BlockFits(d, log, data, tagLen, f);
    AppendMoves(d.st, log, b, free, f.write1);
    var s1 := Append(d.st, b, free, f.write1).0;
    var log1 := NextLog(d.st, log, b, free, f.write1);
    RetryReady(d.st, log, b, s1, log1);
    CutKeeps(Retry(s1), log1, b, free, cut);
    KeptLater(d.st, log, b, s1, log1, Whole(Retry(s1), b, cut), Remaining(Retry(s1), b, free, cut),
              CutLog(Retry(s1), log1, b, free, cut));
  }

  /**
   * A commit cut at any moment: flash holds the records, with the block or without, minus what had
   * been discarded by then, and the reserve covers it.
   */
  lemma {:induction false} CutCommitKeeps(d: Device, log: seq<LogSeg>, data: bytes, tagLen: nat, free: Flash -> nat,
      f: Faults, c: CommitCut)
    requires Ready(d, log, data, tagLen, f) && CommitCutPoint(d, data, free, f, c)
    ensures var left, log' := Left(d, data, free, f, c), LeftLog(d, log, data, free, f, c);
      && Persists(left.flash, log')
      && Kept(d.st, log, BlockOf(d, data, f), LeftWhole(d, data, free, f, c), AtCut(d, data, free, f, c), log')
      && d.nvs <= left.nvs <= d.w.next + d.w.step
      && (left.nvs == d.nvs || left.nvs >= d.w.next + d.w.step)
      && (LeftWhole(d, data, free, f, c) ==> d.w.next < left.nvs)
  {
    hide BlockOf, Append, Consistent, NextLog, Persists, Kept, CutFlash, CutLog, CutPoint, Whole, Appendable,
        ReserveSeq, Remaining;
    ReserveCovers(d, f.save);
    match c
    case InFirst(cut) =>
      BlockFits(d, log, data, tagLen, f);
      CutKeeps(d.st, log, BlockOf(d, data, f), free, cut);
    case InSecond(cut) =>
      SecondCutKeeps(d, log, data, tagLen, free, f, cut);
    case _ =>
      PowerOffKeeps(d.st, log, BlockOf(d, data, f));
  }
}
