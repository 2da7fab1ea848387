/** What one append does to the records of the log, whatever the file system answers. */
module AppendKeeps {
  import opened Bytes
  import opened BlockFormat
  import opened SegmentFormat
  import opened StoreSpec
  import opened LogSpec

  /** An append, seen from the records. */
  ghost predicate Appended(st: Store, log: seq<LogSeg>, b: Block, st': Store, log': seq<LogSeg>, ok: bool) {
    && Consistent(st', log')
    && Slid(st, Flat(log) + (if ok then [b] else []), st', Flat(log'))
    && st'.maxBlocks == st.maxBlocks
    && (st'.forceNew <==> !ok)
    && (ok ==> Flat(log') != [] && Flat(log')[|Flat(log')| - 1] == b)
    && (log != [] ==> log' != [])
  }

  lemma {:induction false} NeedsNewAfterRoom(st: Store, b: Block, free: Flash -> nat)
    ensures NeedsNew(Roomy(st, b, free), BlockSeq(b.data), |b.tag|) == NeedsNew(st, BlockSeq(b.data), |b.tag|)
    ensures Roomy(st, b, free).NewestSeq() == st.NewestSeq()
    ensures AppendBytes(Roomy(st, b, free), b) == AppendBytes(st, b)
  {
  }

  lemma {:induction false} MakesRoom(st: Store, log: seq<LogSeg>, b: Block, free: Flash -> nat) returns (k: nat)
    requires Consistent(st, log) && Appendable(st, b)
    ensures var s := Roomy(st, b, free);
      && Discarded(st, log, s, k) && MayGrow(s, log[k..]) && Appendable(s, b)
      && s.Total() + 1 <= s.maxBlocks && |log| - k <= MAX_SEGMENTS
  {
    hide BlockSeq, FlashOf, Records, RecordBytes, EncodeHeader, Flat, LogWf, LogSeg.Wf, EnsureSpace, Store.Total,
        Describes;
    var s := Roomy(st, b, free);
    k := EnsureSpaceDiscards(st, log, |AppendBytes(st, b)|, free);
    NeedsNewAfterRoom(st, b, free);
    if log != [] {
      assert log[k..][|log| - k - 1] == log[|log| - 1];
    }
    DescribedLength(s, log[k..]);
    DescribedLength(st, log);
    if |log| - k <= 1 {
      FewRecords(s, log[k..]);
    }
  }

  lemma {:induction false} DescribedLength(s: Store, log: seq<LogSeg>)
    requires Describes(s, log)
    ensures |s.segs| == |log|
  {
  }

  ghost predicate Wrote(s: Store, log: seq<LogSeg>, b: Block, st': Store, log': seq<LogSeg>, ok: bool) {
    && Describes(st', log') && MayGrow(st', log') && |log'| <= MAX_SEGMENTS
    && Slid(s, Flat(log) + (if ok then [b] else []), st', Flat(log'))
    && st'.maxBlocks == s.maxBlocks
    && (st'.forceNew <==> !ok)
    && (log != [] || ok ==> log' != [])
  }

  lemma {:induction false} WroteFail(s: Store, log: seq<LogSeg>, b: Block, w: Outcome)
    requires Describes(s, log) && MayGrow(s, log) && Appendable(s, b) && |log| <= MAX_SEGMENTS
    requires !Succeeds(s, b, w)
    ensures Wrote(s, log, b, Write(s, b, w).0, AfterWrite(s, log, b, w), false)
  {
    hide BlockSeq, FlashOf, Records, RecordBytes, EncodeHeader, LogWf, LogSeg.Wf, SeqOf, Flat;
    WriteFails(s, log, b, w);
    assert Flat(log)[0..] == Flat(log) == Flat(log) + [];
  }

  lemma {:induction false} WroteGrow(s: Store, log: seq<LogSeg>, b: Block, w: Outcome)
    requires Describes(s, log) && MayGrow(s, log) && Appendable(s, b) && |log| <= MAX_SEGMENTS
    requires Succeeds(s, b, w) && !NeedsNew(s, BlockSeq(b.data), |b.tag|)
    ensures Wrote(s, log, b, Write(s, b, w).0, AfterWrite(s, log, b, w), true)
  {
    hide BlockSeq, FlashOf, Records, RecordBytes, EncodeHeader, LogWf, LogSeg.Wf, SeqOf, Flat;
    WriteGrows(s, log, b, w);
    assert (Flat(log) + [b])[0..] == Flat(log) + [b];
  }

  lemma {:induction false} WroteNew(s: Store, log: seq<LogSeg>, b: Block, w: Outcome)
    requires Describes(s, log) && Appendable(s, b) && |log| <= MAX_SEGMENTS
    requires Succeeds(s, b, w) && NeedsNew(s, BlockSeq(b.data), |b.tag|)
    ensures Wrote(s, log, b, Write(s, b, w).0, Capped(AfterWrite(s, log, b, w)), true)
  {
    hide BlockSeq, FlashOf, Records, RecordBytes, EncodeHeader, LogWf, LogSeg.Wf, SeqOf, Flat;
    WriteInNew(s, log, b, w);
    WriteSlides(s, log, b, w);
  }

  /** The segments that stay when room has been made. */
  function RoomLog(st: Store, log: seq<LogSeg>, b: Block, free: Flash -> nat): seq<LogSeg> {
    var n := |Roomy(st, b, free).segs|;
    if n <= |log| then log[|log| - n..] else log
  }

  function LogAfter(s: Store, log: seq<LogSeg>, b: Block, w: Outcome): seq<LogSeg> {
    Capped(AfterWrite(s, log, b, w))
  }

  /** The log after an append. */
  function NextLog(st: Store, log: seq<LogSeg>, b: Block, free: Flash -> nat, w: Outcome): seq<LogSeg> {
    LogAfter(Roomy(st, b, free), RoomLog(st, log, b, free), b, w)
  }

  lemma {:induction false} RoomLogIs(st: Store, log: seq<LogSeg>, b: Block, free: Flash -> nat, k: nat)
    requires Discarded(st, log, Roomy(st, b, free), k)
    ensures RoomLog(st, log, b, free) == log[k..]
  {
  }

  lemma {:induction false} WriteKeeps(s: Store, log: seq<LogSeg>, b: Block, w: Outcome)
    requires Describes(s, log) && MayGrow(s, log) && Appendable(s, b) && |log| <= MAX_SEGMENTS
    ensures Wrote(s, log, b, Write(s, b, w).0, LogAfter(s, log, b, w), Succeeds(s, b, w))
  {
    hide Describes, Appendable, AppendBytes, NeedsNew, MayGrow, AfterWrite, Write, Slid, Flat;
    if !Succeeds(s, b, w) {
      WroteFail(s, log, b, w);
    } else if NeedsNew(s, BlockSeq(b.data), |b.tag|) {
      WroteNew(s, log, b, w);
    } else {
      WroteGrow(s, log, b, w);
    }
  }

  lemma {:induction false} DiscardedRoom(st: Store, log: seq<LogSeg>, s: Store, k: nat)
    requires Discarded(st, log, s, k)
    ensures k <= |log| && Describes(s, log[k..]) && s.maxBlocks == st.maxBlocks && (log != [] ==> log[k..] != [])
  {
    hide Describes, Flat;
  }

  lemma {:induction false} WriteAnswers(s: Store, b: Block, w: Outcome)
    ensures Write(s, b, w).1 == Succeeds(s, b, w)
  {
    hide AppendBytes, NeedsNew, Push;
  }

  /**
   * One append: the records afterwards are the records before, plus the block if and only if the
   * append answered true, minus the oldest ones that the loss counters account for.
   */
  lemma {:induction false} AppendOutcome(st: Store, log: seq<LogSeg>, b: Block, free: Flash -> nat, w: Outcome)
    requires Consistent(st, log) && Appendable(st, b)
    ensures Appended(st, log, b, Append(st, b, free, w).0, NextLog(st, log, b, free, w), Append(st, b, free, w).1)
    ensures Append(st, b, free, w).1 <==> w.Written? && w.n >= |AppendBytes(st, b)|
  {
    hide Flat, Slid, Describes, Appendable, MayGrow, Roomy, RoomLog, Write, AfterWrite, AppendBytes, Wrote, Appended,
        Store.Total;
    var s := Roomy(st, b, free);
    var k := MakesRoom(st, log, b, free);
    RoomLogIs(st, log, b, free, k);
    NeedsNewAfterRoom(st, b, free);
    DiscardedRoom(st, log, s, k);
    WriteAnswers(s, b, w);
    var ok := Succeeds(s, b, w);
    var st' := Write(s, b, w).0;
    WriteKeeps(s, log[k..], b, w);
    DiscardedSlides(st, log, s, k);
    AppendComposes(st, log, b, s, log[k..], st', NextLog(st, log, b, free, w), ok);
  }

  /** While there is room and the ring has a free entry, an append discards nothing, whatever becomes of the write. */
  lemma {:induction false} NothingLostWithRoom(st: Store, log: seq<LogSeg>, b: Block, free: Flash -> nat, w: Outcome)
    requires Consistent(st, log) && Appendable(st, b) && |log| < MAX_SEGMENTS
    requires HasRoom(log, st.maxBlocks, |AppendBytes(st, b)|, free)
    ensures var (s, ok) := Append(st, b, free, w);
      s.lost == st.lost && Flat(NextLog(st, log, b, free, w)) == Flat(log) + (if ok then [b] else [])
  {
    hide BlockSeq, FlashOf, RecordBytes, EncodeHeader, Flat, LogWf, LogSeg.Wf, Store.Total, NextLog, HasRoom,
        AppendBytes,
        Appended;
    RoomOf(st, log, |AppendBytes(st, b)|, free);
    AppendOutcome(st, log, b, free, w);
    var (s, ok) := Append(st, b, free, w);
    assert Roomy(st, b, free) == st;
    assert s.lost == st.lost;
    AppendedSlides(st, log, b, s, NextLog(st, log, b, free, w), ok);
    SlidAll(st, Flat(log) + (if ok then [b] else []), s, Flat(NextLog(st, log, b, free, w)));
  }

  lemma {:induction false} AppendedSlides(st: Store, log: seq<LogSeg>, b: Block, st': Store, log': seq<LogSeg>,
      ok: bool)
    requires Appended(st, log, b, st', log', ok)
    ensures Slid(st, Flat(log) + (if ok then [b] else []), st', Flat(log'))
  {
  }

  lemma {:induction false} SlidAll(s: Store, r: seq<Block>, s': Store, r': seq<Block>)
    requires Slid(s, r, s', r') && s'.lost == s.lost
    ensures r' == r
  {
    hide SeqOf;
  }

  lemma {:induction false} AppendComposes(st: Store, log: seq<LogSeg>, b: Block, s: Store, log1: seq<LogSeg>,
      st': Store, log': seq<LogSeg>, ok: bool)
    requires Consistent(st, log) && Appendable(st, b)
    requires Slid(st, Flat(log), s, Flat(log1)) && s.maxBlocks == st.maxBlocks && (log != [] ==> log1 != [])
    requires Describes(s, log1) && s.Total() + 1 <= s.maxBlocks
    requires Wrote(s, log1, b, st', log', ok)
    ensures Appended(st, log, b, st', log', ok)
  {
    hide Describes, MayGrow, SeqOf, LogWf, Flat, BlockSeq, FlashOf, Slid, Increasing, Store.Total, Appendable;
    var tail := if ok then [b] else [];
    NewestLast(st, log, b);
    TotalOfDescribed(s, log1);
    TotalOfDescribed(st', log');
    DescribedWf(st', log');
    if log' != [] {
      FlatIncreasing(log');
    }
    SlidShrinks(s, Flat(log1) + tail, st', Flat(log'));
    SlidTwice(st, Flat(log), s, Flat(log1), st', tail, Flat(log'));
    SlidShrinks(st, Flat(log) + tail, st', Flat(log'));
  }

  lemma {:induction false} SlidShrinks(s: Store, r: seq<Block>, s': Store, r': seq<Block>)
    requires Slid(s, r, s', r')
    ensures |r'| <= |r|
    ensures r' != [] ==> r'[|r'| - 1] == r[|r| - 1]
  {
    hide SeqOf;
  }

  /** A newer block keeps the records in increasing order of seq. */
  lemma {:induction false} NewestLast(st: Store, log: seq<LogSeg>, b: Block)
    requires Describes(st, log) && Appendable(st, b)
    ensures Increasing(Flat(log) + [b]) && Increasing(Flat(log) + [])
  {
    FlatIncreasing(log);
    if log != [] {
      NewestOfDescribed(st, log);
    }
    assert SeqOf(b) > st.NewestSeq();
    hide Describes, SeqOf, Flat, BlockSeq;
    var r := Flat(log);
    assert r + [] == r;
    forall i, j | 0 <= i < j < |r + [b]|
      ensures SeqOf((r + [b])[i]) < SeqOf((r + [b])[j])
    {
      if j == |r| && i < |r| - 1 {
        assert SeqOf(r[i]) < SeqOf(r[|r| - 1]);
      }
    }
  }
}
