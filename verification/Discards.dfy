/** Which stored seqs an append discards, told from the log as it is before the append. */
module Discards {
  import opened Bytes
  import opened BlockFormat
  import opened SegmentFormat
  import opened StoreSpec
  import opened LogSpec
  import opened AppendKeeps
  import opened Recovery
  import opened PowerCut
  import opened CommitKeeps
  import W = BlockWriter

  /** Another record of `n` bytes fits. */
  predicate Fits(st: Store, n: nat, free: Flash -> nat) {
    st.Total() + 1 <= st.maxBlocks && free(st.flash) >= n + RESERVE_BYTES
  }

  /** Making room for `n` bytes takes the segment at `p`: it is not the newest, and nothing fits before it is gone. */
  ghost predicate RoomTakes(st: Store, n: nat, free: Flash -> nat, p: nat) {
    p + 1 < |st.segs| && forall j :: 0 <= j <= p ==> !Fits(DiscardN(st, j), n, free)
  }

  /** An append that opens a segment in a full ring takes the oldest one. */
  predicate RingTakes(st: Store, b: Block, w: Outcome, p: nat) {
    p == 0 && |st.segs| == MAX_SEGMENTS && NeedsNew(st, BlockSeq(b.data), |b.tag|) && Succeeds(st, b, w)
  }

  /** An append discards the segment of a seq. */
  ghost predicate Takes(st: Store, b: Block, free: Flash -> nat, w: Outcome, q: nat) {
    var p := Locate(st.segs, q);
    p < |st.segs| && (RoomTakes(st, |AppendBytes(st, b)|, free, p) || RingTakes(st, b, w, p))
  }

  /** So do the one or two attempts of a commit. */
  ghost predicate TwiceTakes(st: Store, b: Block, free: Flash -> nat, w1: Outcome, w2: Outcome, q: nat) {
    || Takes(st, b, free, w1, q)
    || (!Succeeds(st, b, w1) && Takes(W.Retry(Append(st, b, free, w1).0), b, free, w2, q))
  }

  // ---- making room ----

  lemma {:induction false} RoomIsSuffix(st: Store, n: nat, free: Flash -> nat)
    ensures var r := EnsureSpace(st, n, free); |r.segs| <= |st.segs| && r.segs == st.segs[|st.segs| - |r.segs|..]
    decreases |st.segs|
  {
    if |st.segs| > 1 && !Fits(st, n, free) {
      RoomIsSuffix(DiscardOldest(st), n, free);
    }
  }

  lemma {:induction false} RoomTakesIs(st: Store, n: nat, free: Flash -> nat, p: nat)
    requires p < |st.segs|
    ensures RoomTakes(st, n, free, p) <==> |EnsureSpace(st, n, free).segs| < |st.segs| - p
    decreases |st.segs|
  {
    hide Fits;
    RoomIsSuffix(st, n, free);
    RoomGuard(st, n, free);
    assert DiscardN(st, 0) == st;
    if |st.segs| > 1 && !Fits(st, n, free) {
      var s := DiscardOldest(st);
      RoomIsSuffix(s, n, free);
      if p > 0 {
        RoomTakesIs(s, n, free, p - 1);
        forall j | 1 <= j <= p
          ensures DiscardN(st, j) == DiscardN(s, j - 1)
        {
        }
        TakesOneMore(st, n, free, p);
      }
    }
  }

  lemma {:induction false} RoomGuard(st: Store, n: nat, free: Flash -> nat)
    ensures EnsureSpace(st, n, free)
      == if |st.segs| > 1 && !Fits(st, n, free) then EnsureSpace(DiscardOldest(st), n, free) else st
    ensures |st.segs| > 0 ==> |DiscardOldest(st).segs| == |st.segs| - 1
  {
  }

  lemma {:induction false} TakesOneMore(st: Store, n: nat, free: Flash -> nat, p: nat)
    requires 0 < p < |st.segs| && !Fits(st, n, free) && |DiscardOldest(st).segs| == |st.segs| - 1
    requires forall j :: 1 <= j <= p ==> DiscardN(st, j) == DiscardN(DiscardOldest(st), j - 1)
    ensures RoomTakes(st, n, free, p) <==> RoomTakes(DiscardOldest(st), n, free, p - 1)
  {
    hide Fits, DiscardOldest;
    assert DiscardN(st, 0) == st;
    if RoomTakes(DiscardOldest(st), n, free, p - 1) {
      forall j | 0 <= j <= p
        ensures !Fits(DiscardN(st, j), n, free)
      {
        if j > 0 {
          assert !Fits(DiscardN(DiscardOldest(st), j - 1), n, free);
        }
      }
    }
    if RoomTakes(st, n, free, p) {
      forall j | 0 <= j <= p - 1
        ensures !Fits(DiscardN(DiscardOldest(st), j), n, free)
      {
        assert !Fits(DiscardN(st, j + 1), n, free);
      }
    }
  }

  // ---- what an append leaves ----

  ghost predicate Ordered(segs: seq<Segment>) {
    && (forall i :: 0 <= i < |segs| ==> segs[i].first <= segs[i].last)
    && (forall i, j :: 0 <= i < j < |segs| ==> segs[i].last < segs[j].first)
  }

  lemma {:induction false} DescribedOrdered(st: Store, log: seq<LogSeg>)
    requires Describes(st, log)
    ensures Ordered(st.segs) && forall q: nat :: Stored(st, q) ==> q <= st.NewestSeq()
  {
    forall i | 0 <= i < |log|
      ensures st.segs[i].first == log[i].first && st.segs[i].last == log[i].Last() && log[i].first <= log[i].Last()
    {
      SegOfDescribed(st, log, i);
    }
    forall q: nat | Stored(st, q)
      ensures q <= st.NewestSeq()
    {
      NewestIsMost(st, q);
    }
  }

  lemma {:induction false} NewestIsMost(st: Store, q: nat)
    requires Ordered(st.segs) && Stored(st, q)
    ensures q <= st.NewestSeq()
  {
    var i, n := Locate(st.segs, q), |st.segs| - 1;
    if i < n {
      assert st.segs[i].last < st.segs[n].first;
    }
  }

  /** The same segments, the newest perhaps longer, and perhaps one more, beyond `q`. */
  ghost predicate Continues(a: seq<Segment>, t: seq<Segment>, q: nat) {
    && |a| <= |t|
    && (forall j :: 0 <= j < |a| ==>
          t[j].first == a[j].first && (t[j].last == a[j].last || (j == |a| - 1 && t[j].last > a[j].last)))
    && (forall j :: |a| <= j < |t| ==> t[j].first > q)
  }

  /** A seq is found again exactly if its segment is. */
  lemma {:induction false} FoundAgain(segs: seq<Segment>, k: nat, t: seq<Segment>, q: nat)
    requires Ordered(segs) && k <= |segs| && Locate(segs, q) < |segs| && Continues(segs[k..], t, q)
    ensures Locate(t, q) < |t| <==> Locate(segs, q) >= k
  {
    var p := Locate(segs, q);
    if p >= k {
      assert t[p - k].first == segs[k..][p - k].first;
    } else {
      forall j | 0 <= j < |t|
        ensures q < t[j].first
      {
        if j < |segs| - k {
          assert t[j].first == segs[k..][j].first == segs[j + k].first;
        }
      }
    }
  }

  /** What the write does to the index, once there is room. */
  lemma {:induction false} WriteContinues(s: Store, b: Block, w: Outcome, q: nat)
    requires q < BlockSeq(b.data)
    ensures var full := Succeeds(s, b, w) && NeedsNew(s, BlockSeq(b.data), |b.tag|) && |s.segs| == MAX_SEGMENTS;
      Continues(if full then s.segs[1..] else s.segs, Write(s, b, w).0.segs, q)
  {
    hide RecordBytes, EncodeHeader, BlockSeq;
  }

  /** An append discards exactly the seqs whose segment it takes. */
  lemma {:induction false} AppendTakes(st: Store, log: seq<LogSeg>, b: Block, free: Flash -> nat, w: Outcome, q: nat)
    requires Describes(st, log) && |log| <= MAX_SEGMENTS && Appendable(st, b) && Stored(st, q)
    ensures Stored(Append(st, b, free, w).0, q) <==> !Takes(st, b, free, w, q)
  {
    hide BlockSeq, Describes, Write, RoomTakes, EnsureSpace, AppendBytes, Ordered, Locate, NeedsNew, Continues;
    DescribedOrdered(st, log);
    SegCount(st, log);
    var s, n := Roomy(st, b, free), |AppendBytes(st, b)|;
    RoomIsSuffix(st, n, free);
    RoomTakesIs(st, n, free, Locate(st.segs, q));
    NeedsNewAfterRoom(st, b, free);
    WriteContinues(s, b, w, q);
    var k := |st.segs| - |s.segs|;
    var t := Write(s, b, w).0.segs;
    if Succeeds(s, b, w) && NeedsNew(s, BlockSeq(b.data), |b.tag|) && |s.segs| == MAX_SEGMENTS {
      assert s.segs[1..] == st.segs[1..];
      FoundAgain(st.segs, 1, t, q);
    } else {
      FoundAgain(st.segs, k, t, q);
    }
  }

  lemma {:induction false} SegCount(st: Store, log: seq<LogSeg>)
    requires Describes(st, log)
    ensures |st.segs| == |log|
  {
  }

  /** What one attempt has discarded, or never held, the next does not bring back. */
  lemma {:induction false} StaysGone(st: Store, log: seq<LogSeg>, b: Block, ok: bool, s: Store, log': seq<LogSeg>,
      q: nat)
    requires Consistent(st, log) && Moved(st, log, b, ok, s, log') && !Stored(st, q) && q < SeqOf(b)
    ensures !Stored(s, q)
  {
    hide Flat, SeqOf, LogWf, FlashOf, MayGrow, Stored, Slid;
    StoredIsHeld(st, log, q);
    StoredIsHeld(s, log', q);
    SlidIsSuffix(st, Flat(log) + Added(b, ok), s, Flat(log'));
    NotAmong(Flat(log), Added(b, ok), Flat(log'), q);
  }

  lemma {:induction false} NotAmong(r: seq<Block>, tail: seq<Block>, r': seq<Block>, q: nat)
    requires IsSuffix(r', r + tail) && !Holds(r, q) && forall b :: b in tail ==> SeqOf(b) > q
    ensures !Holds(r', q)
  {
    hide SeqOf;
    forall i | 0 <= i < |r'|
      ensures SeqOf(r'[i]) != q
    {
      var j := |r + tail| - |r'| + i;
      assert r'[i] == (r + tail)[j];
      assert j >= |r| ==> (r + tail)[j] == tail[j - |r|];
    }
  }

  /** The one or two attempts of a commit discard exactly the seqs whose segments they take. */
  lemma {:induction false} TwiceTakesIs(st: Store, log: seq<LogSeg>, b: Block, free: Flash -> nat, w1: Outcome,
      w2: Outcome, q: nat)
    requires Consistent(st, log) && Appendable(st, b) && Stored(st, q)
    ensures Stored(W.AppendTwice(st, b, free, w1, w2).0, q) <==> !TwiceTakes(st, b, free, w1, w2, q)
  {
    hide Append, NextLog, Flat, Slid, BlockSeq, Appendable, Moved, Takes, Stored, Bounded, MayGrow, Succeeds, Appended;
    AppendOutcome(st, log, b, free, w1);
    AppendMoves(st, log, b, free, w1);
    ConsistentTakes(st, log, b, free, w1, q);
    var (s1, ok1) := Append(st, b, free, w1);
    var log1 := NextLog(st, log, b, free, w1);
    SucceedsIs(st, b, w1);
    if !ok1 {
      RetryReady(st, log, b, s1, log1);
      AppendMoves(W.Retry(s1), log1, b, free, w2);
      var s2 := Append(W.Retry(s1), b, free, w2).0;
      SameStored(s1, q);
      if Stored(s1, q) {
        ConsistentTakes(W.Retry(s1), log1, b, free, w2, q);
      } else {
        AppendableSeq(st, log, b, q);
        StaysGone(W.Retry(s1), log1, b, Append(W.Retry(s1), b, free, w2).1, s2,
                  NextLog(W.Retry(s1), log1, b, free, w2), q);
      }
    }
  }

  lemma {:induction false} SucceedsIs(st: Store, b: Block, w: Outcome)
    ensures Succeeds(st, b, w) <==> w.Written? && w.n >= |AppendBytes(st, b)|
  {
  }

  lemma {:induction false} SameStored(st: Store, q: nat)
    ensures Stored(W.Retry(st), q) == Stored(st, q)
  {
  }

  lemma {:induction false} ConsistentTakes(st: Store, log: seq<LogSeg>, b: Block, free: Flash -> nat, w: Outcome,
      q: nat)
    requires Consistent(st, log) && Appendable(st, b) && Stored(st, q)
    ensures Stored(Append(st, b, free, w).0, q) <==> !Takes(st, b, free, w, q)
  {
    hide Append, Appendable, Takes, Stored, Describes, MayGrow;
    AppendTakes(st, log, b, free, w, q);
  }

  lemma {:induction false} AppendableSeq(st: Store, log: seq<LogSeg>, b: Block, q: nat)
    requires Consistent(st, log) && Appendable(st, b) && Stored(st, q)
    ensures q < SeqOf(b)
  {
    DescribedOrdered(st, log);
  }
}
