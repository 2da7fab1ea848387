/** Segments and restarts: a record that opens a restart always opens a segment. */
module Boots {
  import opened Bytes
  import opened BlockFormat
  import opened SegmentFormat
  import opened StoreSpec
  import opened LogSpec
  import opened AppendKeeps
  import opened PowerCut
  import opened BlockWriter
  import opened CommitKeeps

  /** No record with one of these seqs sits behind another one in its segment. */
  ghost predicate OpenSegments(log: seq<LogSeg>, heads: set<nat>) {
    forall j, i :: 0 <= j < |log| && 0 < i < |log[j].recs| ==> SeqOf(log[j].recs[i]) !in heads
  }

  lemma {:induction false} Dropped(log: seq<LogSeg>, heads: set<nat>, k: nat)
    requires OpenSegments(log, heads) && k <= |log|
    ensures OpenSegments(log[k..], heads)
  {
    hide SeqOf;
  }

  lemma {:induction false} AfterWriteOpens(s: Store, log: seq<LogSeg>, b: Block, w: Outcome, heads: set<nat>)
    requires OpenSegments(log, heads) && (s.forceNew || SeqOf(b) !in heads)
    ensures OpenSegments(AfterWrite(s, log, b, w), heads) && OpenSegments(Capped(AfterWrite(s, log, b, w)), heads)
  {
    hide SeqOf, BlockSeq, AppendBytes, RecordBytes;
    if log == [] {
    } else {
      var n := |log| - 1;
      assert log[..n] + [log[n]] == log;
    }
    var log' := AfterWrite(s, log, b, w);
    assert OpenSegments(log', heads);
    if |log'| > MAX_SEGMENTS {
      Dropped(log', heads, 1);
    }
  }

  lemma {:induction false} RoomOpens(st: Store, log: seq<LogSeg>, b: Block, free: Flash -> nat, heads: set<nat>)
    requires OpenSegments(log, heads)
    ensures OpenSegments(RoomLog(st, log, b, free), heads)
    ensures Roomy(st, b, free).forceNew == st.forceNew
  {
    hide SeqOf, BlockSeq;
  }

  lemma {:induction false} NextOpens(st: Store, log: seq<LogSeg>, b: Block, free: Flash -> nat, w: Outcome,
      heads: set<nat>)
    requires OpenSegments(log, heads) && (st.forceNew || SeqOf(b) !in heads)
    ensures OpenSegments(NextLog(st, log, b, free, w), heads)
  {
    hide OpenSegments, AfterWrite, Roomy, RoomLog, SeqOf, Capped;
    RoomOpens(st, log, b, free, heads);
    AfterWriteOpens(Roomy(st, b, free), RoomLog(st, log, b, free), b, w, heads);
  }

  lemma {:induction false} CutOpens(st: Store, log: seq<LogSeg>, b: Block, free: Flash -> nat, cut: Cut,
      heads: set<nat>)
    requires OpenSegments(log, heads) && (st.forceNew || SeqOf(b) !in heads)
    ensures OpenSegments(CutLog(st, log, b, free, cut), heads)
  {
    hide OpenSegments, AfterWrite, Roomy, RoomLog, SeqOf;
    match cut
    case InDiscards(n) =>
      if n <= |log| {
        Dropped(log, heads, n);
      }
    case InWrite(p) =>
      RoomOpens(st, log, b, free, heads);
      AfterWriteOpens(Roomy(st, b, free), RoomLog(st, log, b, free), b, Written(p), heads);
  }

  lemma {:induction false} CommitOpens(d: Device, log: seq<LogSeg>, data: bytes, free: Flash -> nat, f: Faults,
      heads: set<nat>)
    requires OpenSegments(log, heads) && (d.st.forceNew || SeqOf(BlockOf(d, data, f)) !in heads)
    ensures OpenSegments(CommitLog(d, log, data, free, f), heads)
  {
    hide OpenSegments, SeqOf, NextLog, Append, BlockOf, Writes;
    var b := BlockOf(d, data, f);
    NextOpens(d.st, log, b, free, f.write1, heads);
    var s1 := Append(d.st, b, free, f.write1).0;
    NextOpens(Retry(s1), NextLog(d.st, log, b, free, f.write1), b, free, f.write2, heads);
  }

  lemma {:induction false} LeftOpens(d: Device, log: seq<LogSeg>, data: bytes, free: Flash -> nat, f: Faults,
      c: CommitCut, heads: set<nat>)
    requires OpenSegments(log, heads) && (d.st.forceNew || SeqOf(BlockOf(d, data, f)) !in heads)
    ensures OpenSegments(LeftLog(d, log, data, free, f, c), heads)
  {
    hide OpenSegments, SeqOf, NextLog, Append, BlockOf, CutLog;
    var b := BlockOf(d, data, f);
    match c
    case InFirst(cut) => CutOpens(d.st, log, b, free, cut, heads);
    case InSecond(cut) =>
      NextOpens(d.st, log, b, free, f.write1, heads);
      CutOpens(SecondStore(d, data, free, f), NextLog(d.st, log, b, free, f.write1), b, free, cut, heads);
    case _ =>
  }

  /** A seq newer than the whole log opens nothing in it. */
  lemma {:induction false} NewerOpens(log: seq<LogSeg>, heads: set<nat>, s: nat)
    requires LogWf(log) && OpenSegments(log, heads) && s > LastSeq(Flat(log))
    ensures OpenSegments(log, heads + {s})
  {
    FlatIncreasing(log);
    forall j, i | 0 <= j < |log| && 0 < i < |log[j].recs|
      ensures SeqOf(log[j].recs[i]) < s
    {
      assert log[j].Wf() && Sized(log[j].recs[i], log[j].tagLen);
      if j < |log| - 1 {
        assert log[j].Last() < log[|log| - 1].first && log[|log| - 1].Wf();
      }
    }
  }
}
