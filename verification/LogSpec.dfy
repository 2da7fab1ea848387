/**
 * The log behind the index: which records the files hold, and what every operation, every failed
 * write and every power cut does to them.
 */
module LogSpec {
  import opened Bytes
  import opened BlockFormat
  import opened SegmentFormat
  import opened StoreSpec

  /** One segment file: its records, then bytes no scan accepts. */
  datatype LogSeg = LogSeg(first: nat, tagLen: nat, recs: seq<Block>, junk: bytes)
  {
    predicate Wf() {
      && first >= 1
      && ValidTagLen(tagLen)
      && 1 <= |recs| <= BLOCKS_PER_SEGMENT
      && Consecutive(recs, tagLen, first)
      && Records(junk, tagLen, first + |recs|) == []
    }

    function Last(): nat { first + Max(|recs|, 1) - 1 }

    function File(): bytes { EncodeHeader(tagLen) + RecordsBytes(recs) + junk }

    /** The index entry of this segment, apart from the sealed flag. */
    function Entry(): Segment {
      Segment(first, Last(), |recs|, SEGMENT_HEADER + |RecordsBytes(recs)|, tagLen, false)
    }
  }

  predicate LogWf(log: seq<LogSeg>) {
    && (forall i :: 0 <= i < |log| ==> log[i].Wf())
    && (forall i, j :: 0 <= i < j < |log| ==> log[i].Last() < log[j].first)
  }

  function FlashOf(log: seq<LogSeg>): Flash {
    if log == [] then map[] else FlashOf(log[..|log| - 1])[log[|log| - 1].first := log[|log| - 1].File()]
  }

  /** All records, oldest first. */
  function Flat(log: seq<LogSeg>): seq<Block> {
    if log == [] then [] else Flat(log[..|log| - 1]) + log[|log| - 1].recs
  }

  /** RAM and flash both describe `log`. */
  ghost predicate Describes(st: Store, log: seq<LogSeg>) {
    && LogWf(log)
    && st.flash == FlashOf(log)
    && |st.segs| == |log|
    && (forall i :: 0 <= i < |log| ==> st.segs[i].(sealed := false) == log[i].Entry())
  }

  /** A segment that may still grow ends in a whole record and has room. */
  ghost predicate MayGrow(st: Store, log: seq<LogSeg>) {
    log != [] && !st.forceNew && !st.Newest().sealed ==>
      log[|log| - 1].junk == [] && |log[|log| - 1].recs| < BLOCKS_PER_SEGMENT
  }

  ghost predicate Bounded(st: Store, log: seq<LogSeg>) {
    && Describes(st, log)
    && |log| <= MAX_SEGMENTS
    && st.Total() <= st.maxBlocks
    && st.maxBlocks >= 2 * BLOCKS_PER_SEGMENT
  }

  ghost predicate Consistent(st: Store, log: seq<LogSeg>) {
    Bounded(st, log) && MayGrow(st, log)
  }

  // ---- flash and records of longer and shorter logs ----

  lemma {:induction false} FlashKeys(log: seq<LogSeg>, f: nat)
    ensures f in FlashOf(log) <==> exists i :: 0 <= i < |log| && log[i].first == f
  {
    if log != [] {
      var n := |log| - 1;
      FlashKeys(log[..n], f);
      if f in FlashOf(log) {
        if log[n].first != f {
          var i :| 0 <= i < n && log[..n][i].first == f;
          assert log[i].first == f;
        }
      }
      if i :| 0 <= i < |log| && log[i].first == f {
        if i < n {
          assert log[..n][i].first == f;
        }
      }
    }
  }

  lemma {:induction false} FlashFiles(log: seq<LogSeg>, i: nat)
    requires LogWf(log) && i < |log|
    ensures log[i].first in FlashOf(log) && FlashOf(log)[log[i].first] == log[i].File()
  {
    var n := |log| - 1;
    if i < n {
      assert log[i].Last() < log[n].first;
      FlashFiles(log[..n], i);
    }
  }

  lemma {:induction false} SegmentBounds(log: seq<LogSeg>, n: nat)
    requires LogWf(log) && n < |log|
    ensures n > 0 ==> log[0].first < log[n].first
  {
    if n > 0 {
      assert log[0].Wf() && log[0].Last() < log[n].first;
    }
  }

  lemma {:induction false} FlashDrop(log: seq<LogSeg>)
    requires LogWf(log) && log != []
    ensures FlashOf(log[1..]) == FlashOf(log) - {log[0].first}
  {
    hide LogSeg.Wf, LogSeg.File, LogSeg.Last;
    var n := |log| - 1;
    SegmentBounds(log, n);
    if n == 0 {
      assert FlashOf(log[..0]) == map[];
    } else {
      FlashDrop(log[..n]);
      assert log[..n][1..] == log[1..][..n - 1];
    }
  }

  lemma {:induction false} FlatSplit(log: seq<LogSeg>, k: nat)
    requires k <= |log|
    ensures Flat(log) == Flat(log[..k]) + Flat(log[k..])
    decreases |log|
  {
    var n := |log| - 1;
    if k == |log| {
      assert log[..k] == log && log[k..] == [];
    } else {
      FlatSplit(log[..n], k);
      assert log[..n][..k] == log[..k];
      assert log[k..][..n - k] == log[..n][k..];
      var a, b, c := Flat(log[..k]), Flat(log[..n][k..]), log[n].recs;
      assert Flat(log) == (a + b) + c == a + (b + c);
    }
  }

  lemma {:induction false} FlatDrop(log: seq<LogSeg>)
    requires log != []
    ensures Flat(log) == log[0].recs + Flat(log[1..])
  {
    FlatSplit(log, 1);
    assert log[..1][..0] == [];
  }

  lemma {:induction false} WfSuffix(log: seq<LogSeg>, k: nat)
    requires LogWf(log) && k <= |log|
    ensures LogWf(log[k..])
  {
  }

  lemma {:induction false} TotalIsFlat(segs: seq<Segment>, log: seq<LogSeg>)
    requires |segs| == |log|
    requires forall i :: 0 <= i < |log| ==> segs[i].count == |log[i].recs|
    ensures TotalOf(segs) == |Flat(log)|
  {
    if log != [] {
      FlatDrop(log);
      TotalIsFlat(segs[1..], log[1..]);
    }
  }

  lemma {:induction false} TotalOfDescribed(st: Store, log: seq<LogSeg>)
    requires Describes(st, log)
    ensures st.Total() == |Flat(log)|
  {
    forall i | 0 <= i < |log|
      ensures st.segs[i].count == |log[i].recs|
    {
      assert st.segs[i].(sealed := false) == log[i].Entry();
    }
    TotalIsFlat(st.segs, log);
  }

  // ---- dropping ----

  lemma {:induction false} DropDescribes(st: Store, log: seq<LogSeg>)
    requires Describes(st, log) && log != []
    ensures Describes(DropOldest(st), log[1..]) && Describes(DiscardOldest(st), log[1..])
    ensures DiscardOldest(st).lost == st.lost + |log[0].recs|
    ensures DiscardOldest(st).overflow == Max(log[0].Last(), st.overflow)
  {
    FlashDrop(log);
    assert st.segs[0].(sealed := false) == log[0].Entry();
    forall i | 0 <= i < |log| - 1
      ensures DropOldest(st).segs[i].(sealed := false) == log[1..][i].Entry()
    {
      assert st.segs[i + 1].(sealed := false) == log[i + 1].Entry();
    }
  }

  /** `k` whole segments went, each counted as lost; the newest is untouched. */
  ghost predicate Discarded(st: Store, log: seq<LogSeg>, st': Store, k: nat) {
    && k <= |log| && (log != [] ==> k < |log|)
    && Describes(st', log[k..])
    && st'.lost == st.lost + |Flat(log)| - |Flat(log[k..])|
    && st'.overflow == (if k == 0 then st.overflow else Max(log[k - 1].Last(), st.overflow))
    && st'.forceNew == st.forceNew && st'.maxBlocks == st.maxBlocks
    && (log != [] ==> st'.Newest() == st.Newest())
  }

  lemma {:induction false} DiscardedNone(st: Store, log: seq<LogSeg>)
    requires Describes(st, log)
    ensures Discarded(st, log, st, 0)
  {
    hide Describes, Flat;
    assert log[0..] == log;
  }

  lemma {:induction false} DiscardOne(st: Store, log: seq<LogSeg>, st': Store, k: nat)
    requires Describes(st, log) && |log| > 1
    requires Describes(DiscardOldest(st), log[1..]) && Discarded(DiscardOldest(st), log[1..], st', k)
    ensures Discarded(st, log, st', k + 1)
  {
    hide FlashOf, Flat, LogSeg.Wf, LogWf, LogSeg.Last, Max;
    DropDescribes(st, log);
    FlatDrop(log);
    assert log[1..][k..] == log[k + 1..];
    if k > 0 {
      LastGrows(log, k);
      assert log[1..][k - 1] == log[k];
      MaxOfMax(log[k].Last(), log[0].Last(), st.overflow);
    }
    DescribedWf(st, log);
  }

  lemma {:induction false} MaxOfMax(a: nat, b: nat, c: nat)
    requires b <= a
    ensures Max(a, Max(b, c)) == Max(a, c)
  {
  }

  lemma {:induction false} DescribedWf(st: Store, log: seq<LogSeg>)
    requires Describes(st, log)
    ensures LogWf(log)
  {
  }

  lemma {:induction false} LastGrows(log: seq<LogSeg>, k: nat)
    requires LogWf(log) && 0 < k < |log|
    ensures log[0].Last() < log[k].first <= log[k].Last()
  {
    hide LogSeg.Wf;
  }

  /** Another block of `n` bytes fits beside these segments. */
  predicate HasRoom(log: seq<LogSeg>, maxBlocks: nat, n: nat, free: Flash -> nat) {
    |Flat(log)| + 1 <= maxBlocks && free(FlashOf(log)) >= n + RESERVE_BYTES
  }

  lemma {:induction false} RoomOf(st: Store, log: seq<LogSeg>, n: nat, free: Flash -> nat)
    requires Describes(st, log)
    ensures HasRoom(log, st.maxBlocks, n, free) <==>
      st.Total() + 1 <= st.maxBlocks && free(st.flash) >= n + RESERVE_BYTES
    ensures |st.segs| == |log|
  {
    TotalOfDescribed(st, log);
  }

  lemma {:induction false} SomeLeft(st: Store, log: seq<LogSeg>, st': Store, k: nat)
    requires Discarded(st, log, st', k)
    ensures log != [] ==> k < |log|
  {
    hide Describes, Flat;
  }

  lemma {:induction false} NoRoomOneMore(log: seq<LogSeg>, k: nat, maxBlocks: nat, n: nat, free: Flash -> nat)
    requires 0 < |log| && k < |log| && !HasRoom(log, maxBlocks, n, free)
    requires forall j :: 0 <= j < k ==> !HasRoom(log[1..][j..], maxBlocks, n, free)
    ensures forall j :: 0 <= j < k + 1 ==> !HasRoom(log[j..], maxBlocks, n, free)
    ensures log[1..][k..] == log[k + 1..]
  {
    hide HasRoom;
    forall j | 0 <= j < k + 1
      ensures !HasRoom(log[j..], maxBlocks, n, free)
    {
      if j > 0 {
        assert log[j..] == log[1..][j - 1..];
      } else {
        assert log[j..] == log;
      }
    }
  }

  /** Segments go until there is room or one is left, and not one more. */
  lemma {:induction false} EnsureSpaceDiscards(st: Store, log: seq<LogSeg>, n: nat, free: Flash -> nat) returns (k: nat)
    requires Describes(st, log)
    ensures Discarded(st, log, EnsureSpace(st, n, free), k)
    ensures |log| - k > 1 ==> EnsureSpace(st, n, free).Total() + 1 <= st.maxBlocks
    ensures |log| - k > 1 ==> HasRoom(log[k..], st.maxBlocks, n, free)
    ensures forall j :: 0 <= j < k ==> !HasRoom(log[j..], st.maxBlocks, n, free)
    decreases |log|
  {
    hide LogWf, FlashOf, Flat, TotalOf, HasRoom, Store.Total, Describes, Discarded;
    RoomOf(st, log, n, free);
    assert log[0..] == log;
    if |st.segs| > 1 && (st.Total() + 1 > st.maxBlocks || free(st.flash) < n + RESERVE_BYTES) {
      DropDescribes(st, log);
      k := EnsureSpaceDiscards(DiscardOldest(st), log[1..], n, free);
      SomeLeft(DiscardOldest(st), log[1..], EnsureSpace(st, n, free), k);
      DiscardOne(st, log, EnsureSpace(st, n, free), k);
      NoRoomOneMore(log, k, st.maxBlocks, n, free);
      k := k + 1;
    } else {
      k := 0;
      DiscardedNone(st, log);
    }
  }

  lemma {:induction false} FewRecords(s: Store, log: seq<LogSeg>)
    requires Describes(s, log) && |log| <= 1
    ensures s.Total() <= BLOCKS_PER_SEGMENT
  {
    TotalOfDescribed(s, log);
    if log != [] {
      SegOfDescribed(s, log, 0);
      assert log[..0] == [];
    }
  }

  /** A boot finds more segments, or more records in them, than it may keep. */
  predicate TooMuch(log: seq<LogSeg>, maxBlocks: nat) {
    |log| > MAX_SEGMENTS || (|log| > 1 && |Flat(log)| > maxBlocks)
  }

  /** Segments go until the limit holds or one is left, and not one more. */
  lemma {:induction false} ShrinkDiscards(st: Store, log: seq<LogSeg>) returns (k: nat)
    requires Describes(st, log)
    ensures Discarded(st, log, Shrink(st), k)
    ensures |log| - k > 1 ==> |Flat(log[k..])| <= st.maxBlocks
    ensures forall j :: 0 <= j < k ==> |Flat(log[j..])| > st.maxBlocks && |log[j..]| > 1
    decreases |log|
  {
    hide LogWf, FlashOf, Flat, TotalOf, Store.Total, Describes, Discarded;
    TotalOfDescribed(st, log);
    SameCount(st, log);
    assert log[0..] == log;
    if |st.segs| > 1 && st.Total() > st.maxBlocks {
      DropDescribes(st, log);
      k := ShrinkDiscards(DiscardOldest(st), log[1..]);
      SomeLeft(DiscardOldest(st), log[1..], Shrink(st), k);
      DiscardOne(st, log, Shrink(st), k);
      LargeOneMore(log, k, st.maxBlocks);
      k := k + 1;
    } else {
      k := 0;
      DiscardedNone(st, log);
    }
  }

  lemma {:induction false} SameCount(st: Store, log: seq<LogSeg>)
    requires Describes(st, log)
    ensures |st.segs| == |log|
  {
  }

  lemma {:induction false} LargeOneMore(log: seq<LogSeg>, k: nat, maxBlocks: nat)
    requires |log| > 1 && k < |log| && |Flat(log)| > maxBlocks
    requires forall j :: 0 <= j < k ==> |Flat(log[1..][j..])| > maxBlocks && |log[1..][j..]| > 1
    ensures forall j :: 0 <= j < k + 1 ==> |Flat(log[j..])| > maxBlocks && |log[j..]| > 1
    ensures log[1..][k..] == log[k + 1..]
  {
    hide Flat;
    forall j | 0 <= j < k + 1
      ensures |Flat(log[j..])| > maxBlocks && |log[j..]| > 1
    {
      if j > 0 {
        assert log[j..] == log[1..][j - 1..];
      } else {
        assert log[j..] == log;
      }
    }
  }

  // ---- append ----

  /** What the writer hands to the log: a whole block of a known profile, newer than all others. */
  predicate Appendable(st: Store, b: Block) {
    Sized(b, |b.tag|) && ValidTagLen(|b.tag|) && BlockSeq(b.data) > st.NewestSeq()
  }

  lemma {:induction false} NewestOfDescribed(st: Store, log: seq<LogSeg>)
    requires Describes(st, log) && log != []
    ensures log[|log| - 1].Wf() && st.Newest().(sealed := false) == log[|log| - 1].Entry()
    ensures st.NewestSeq() == log[|log| - 1].Last()
    ensures st.Newest().first == log[|log| - 1].first && st.Newest().tagLen == log[|log| - 1].tagLen
    ensures st.Newest().count == |log[|log| - 1].recs|
    ensures log[|log| - 1].first in st.flash && st.flash[log[|log| - 1].first] == log[|log| - 1].File()
  {
    var n := |log| - 1;
    assert st.segs[n].(sealed := false) == log[n].Entry();
    FlashFiles(log, n);
  }

  lemma {:induction false} NewerIsNoFile(st: Store, log: seq<LogSeg>, f: nat)
    requires Describes(st, log) && f > st.NewestSeq()
    ensures f !in st.flash
  {
    FlashKeys(log, f);
    if log != [] {
      NewestOfDescribed(st, log);
    }
    forall i | 0 <= i < |log|
      ensures log[i].first < f
    {
      if i < |log| - 1 {
        assert log[i].Last() < log[|log| - 1].first;
      }
    }
  }

  /** Replaces the newest segment of the log. */
  function WithNewest(log: seq<LogSeg>, g: LogSeg): seq<LogSeg> {
    if log == [] then [g] else log[..|log| - 1] + [g]
  }

  function NewestOf(log: seq<LogSeg>): LogSeg {
    if log == [] then LogSeg(0, 0, [], []) else log[|log| - 1]
  }

  lemma {:induction false} ReplaceDescribes(st: Store, log: seq<LogSeg>, g: LogSeg, e: Segment)
    requires Describes(st, log) && log != []
    requires g.Wf() && g.first == log[|log| - 1].first && e.(sealed := false) == g.Entry()
    ensures Describes(st.(segs := WithLast(st.segs, e), flash := st.flash[g.first := g.File()]), WithNewest(log, g))
  {
    var n := |log| - 1;
    var log' := WithNewest(log, g);
    assert log'[..n] == log[..n];
    assert FlashOf(log') == FlashOf(log)[g.first := g.File()];
    assert LogWf(log') by {
      hide LogSeg.Wf;
      forall i, j | 0 <= i < j < |log'|
        ensures log'[i].recs != [] && log'[i].Last() < log'[j].first
      {
        assert log[i].Last() < log[j].first;
      }
    }
  }

  lemma {:induction false} PushDescribes(st: Store, log: seq<LogSeg>, g: LogSeg, e: Segment)
    requires Describes(st, log) && g.Wf() && g.first > st.NewestSeq() && e.(sealed := false) == g.Entry()
    ensures Describes(st.(segs := st.segs + [e], flash := st.flash[g.first := g.File()]), log + [g])
  {
    var log' := log + [g];
    assert log'[..|log|] == log;
    if log != [] {
      NewestOfDescribed(st, log);
    }
    assert LogWf(log') by {
      hide LogSeg.Wf;
      forall i, j | 0 <= i < j < |log'|
        ensures log'[i].recs != [] && log'[i].Last() < log'[j].first
      {
        if j < |log| {
          assert log[i].Last() < log[j].first;
        } else if i < |log| - 1 {
          assert log[i].Last() < log[|log| - 1].first;
        }
      }
    }
  }

  lemma {:induction false} FlatWithNewest(log: seq<LogSeg>, g: LogSeg)
    requires log != []
    ensures Flat(WithNewest(log, g)) == Flat(log[..|log| - 1]) + g.recs
  {
    assert WithNewest(log, g)[..|log| - 1] == log[..|log| - 1];
  }

  /** A whole record added to the newest segment. */
  lemma {:induction false} GrownIsWf(g: LogSeg, b: Block)
    requires g.Wf() && g.junk == [] && |g.recs| < BLOCKS_PER_SEGMENT
    requires Sized(b, g.tagLen) && BlockSeq(b.data) == g.Last() + 1
    ensures var h := g.(recs := g.recs + [b]);
      && h.Wf() && h.File() == g.File() + RecordBytes(b)
      && h.Entry() == g.Entry().(last := BlockSeq(b.data), count := |g.recs| + 1,
                                    size := g.Entry().size + |RecordBytes(b)|)
  {
    hide BlockSeq, RecordBytes, NextRecord;
    RecordsBytesAppend(g.recs, [b]);
    assert RecordsBytes([b]) == RecordBytes(b) by {
      assert [b][1..] == [];
    }
    NothingLeft(g.tagLen, g.first + |g.recs| + 1);
  }

  /** A record cut short after the newest segment: its records stay, and nothing else is read. */
  lemma {:induction false} CutIsJunk(g: LogSeg, b: Block, p: nat)
    requires g.Wf() && g.junk == [] && Sized(b, g.tagLen) && p < |RecordBytes(b)|
    ensures var h := g.(junk := RecordBytes(b)[..p]);
      h.Wf() && h.File() == g.File() + RecordBytes(b)[..p]
  {
    CutIsNotRead(b, g.tagLen, p);
  }

  lemma {:induction false} FirstRecordIsWf(b: Block)
    requires Sized(b, |b.tag|) && ValidTagLen(|b.tag|) && BlockSeq(b.data) >= 1
    ensures var h := LogSeg(BlockSeq(b.data), |b.tag|, [b], []);
      && h.Wf() && h.File() == EncodeHeader(|b.tag|) + RecordBytes(b)
      && h.Entry().size == SEGMENT_HEADER + |RecordBytes(b)|
  {
    hide BlockSeq, RecordBytes, NextRecord;
    assert RecordsBytes([b]) == RecordBytes(b) by {
      assert [b][1..] == [];
    }
    NothingLeft(|b.tag|, BlockSeq(b.data) + 1);
  }

  /** The log after the write itself, before a full index drops one more segment. */
  function AfterWrite(st: Store, log: seq<LogSeg>, b: Block, w: Outcome): seq<LogSeg> {
    var isNew := NeedsNew(st, BlockSeq(b.data), |b.tag|);
    if w.OpenFails? then log
    else if w.n < |AppendBytes(st, b)| then
      if isNew then log else WithNewest(log, NewestOf(log).(junk := Prefix(RecordBytes(b), w.n)))
    else if isNew then log + [LogSeg(BlockSeq(b.data), |b.tag|, [b], [])]
    else
      var g := NewestOf(log);
      WithNewest(log, g.(recs := g.recs + [b]))
  }

  predicate Succeeds(st: Store, b: Block, w: Outcome) {
    w.Written? && w.n >= |AppendBytes(st, b)|
  }

  /** A push onto a full index is a push, then a discard. */
  lemma {:induction false} PushIsDiscard(t: Store, e: Segment)
    requires t.segs != []
    ensures DiscardOldest(t.(segs := t.segs + [e])) == DiscardOldest(t).(segs := DiscardOldest(t).segs + [e])
  {
    assert (t.segs + [e])[1..] == t.segs[1..] + [e];
  }

  /** At most 256 segments stay indexed. */
  function Capped(log: seq<LogSeg>): seq<LogSeg> {
    if |log| > MAX_SEGMENTS then log[1..] else log
  }

  lemma {:induction false} PushCaps(t: Store, e: Segment, log: seq<LogSeg>)
    requires |t.segs| <= MAX_SEGMENTS && Describes(t.(segs := t.segs + [e]), log)
    ensures Describes(Push(t, e), Capped(log))
  {
    hide LogWf, FlashOf, LogSeg.Wf;
    if |t.segs| == MAX_SEGMENTS {
      DropDescribes(t.(segs := t.segs + [e]), log);
      PushIsDiscard(t, e);
    }
  }

  lemma {:induction false} WriteInNew(st: Store, log: seq<LogSeg>, b: Block, w: Outcome)
    requires Describes(st, log) && Appendable(st, b) && |log| <= MAX_SEGMENTS
    requires NeedsNew(st, BlockSeq(b.data), |b.tag|) && Succeeds(st, b, w)
    ensures Write(st, b, w).1
    ensures Describes(Write(st, b, w).0, Capped(AfterWrite(st, log, b, w)))
  {
    var g := LogSeg(BlockSeq(b.data), |b.tag|, [b], []);
    FirstRecordIsWf(b);
    hide BlockSeq, RecordBytes, LogWf, FlashOf, LogSeg.Wf, RecordsBytes, Push, Records, EncodeHeader;
    var e := Segment(g.first, g.first, 1, |AppendBytes(st, b)|, |b.tag|, false);
    PushDescribes(st, log, g, e);
    var t := st.(flash := st.flash[g.first := AppendBytes(st, b)], forceNew := false);
    assert Describes(t.(segs := t.segs + [e]), log + [g]);
    assert AfterWrite(st, log, b, w) == log + [g] && Write(st, b, w).0 == Push(t, e);
    PushCaps(t, e, log + [g]);
  }

  lemma {:induction false} FlatPush(log: seq<LogSeg>, g: LogSeg)
    ensures Flat(log + [g]) == Flat(log) + g.recs
  {
    assert (log + [g])[..|log|] == log;
  }

  lemma {:induction false} WriteFails(st: Store, log: seq<LogSeg>, b: Block, w: Outcome)
    requires Describes(st, log) && MayGrow(st, log) && Appendable(st, b) && |log| <= MAX_SEGMENTS
    requires !Succeeds(st, b, w)
    ensures !Write(st, b, w).1
    ensures Describes(Write(st, b, w).0, AfterWrite(st, log, b, w))
    ensures MayGrow(Write(st, b, w).0, AfterWrite(st, log, b, w))
    ensures Flat(AfterWrite(st, log, b, w)) == Flat(log) && |AfterWrite(st, log, b, w)| == |log|
  {
    hide BlockSeq, RecordBytes, LogWf, FlashOf, LogSeg.Wf, RecordsBytes, Records;
    if NeedsNew(st, BlockSeq(b.data), |b.tag|) {
      NewerIsNoFile(st, log, BlockSeq(b.data));
      assert st.flash - {BlockSeq(b.data)} == st.flash;
    } else {
      NewestOfDescribed(st, log);
      var n := |log| - 1;
      var g := log[n];
      if w.OpenFails? {
        assert Describes(st.(segs := Seal(st.segs), forceNew := true), log);
      } else {
        var h := g.(junk := RecordBytes(b)[..w.n]);
        CutIsJunk(g, b, w.n);
        ReplaceDescribes(st, log, h, st.segs[n].(sealed := true));
        FlatWithNewest(log, h);
      }
    }
  }

  lemma {:induction false} WriteGrows(st: Store, log: seq<LogSeg>, b: Block, w: Outcome)
    requires Describes(st, log) && MayGrow(st, log) && Appendable(st, b)
    requires !NeedsNew(st, BlockSeq(b.data), |b.tag|) && Succeeds(st, b, w)
    ensures Write(st, b, w).1
    ensures Describes(Write(st, b, w).0, AfterWrite(st, log, b, w))
    ensures MayGrow(Write(st, b, w).0, AfterWrite(st, log, b, w))
    ensures Flat(AfterWrite(st, log, b, w)) == Flat(log) + [b] && |AfterWrite(st, log, b, w)| == |log|
  {
    hide BlockSeq, RecordBytes, LogWf, FlashOf, LogSeg.Wf, RecordsBytes, Records;
    NewestOfDescribed(st, log);
    var n := |log| - 1;
    var g := log[n];
    var h := g.(recs := g.recs + [b]);
    GrownIsWf(g, b);
    var o := st.Newest();
    var e := o.(last := BlockSeq(b.data), count := o.count + 1, size := o.size + |RecordBytes(b)|,
                sealed := o.sealed || o.count + 1 >= BLOCKS_PER_SEGMENT);
    assert Prefix(RecordBytes(b), w.n) == RecordBytes(b);
    ReplaceDescribes(st, log, h, e);
    FlatWithNewest(log, h);
    assert Flat(log[..n]) + (g.recs + [b]) == (Flat(log[..n]) + g.recs) + [b];
  }

  // ---- one append, whole ----

  /** The oldest `lost' - lost` records went, and `overflow` remembers the newest of them. */
  ghost predicate Slid(st: Store, before: seq<Block>, st': Store, after: seq<Block>) {
    var n := st'.lost - st.lost;
    && 0 <= n <= |before|
    && after == before[n..]
    && st'.overflow == (if n == 0 then st.overflow else Max(SeqOf(before[n - 1]), st.overflow))
  }

  /** Where the records of the first `k` segments end. */
  lemma {:induction false} FlatCut(log: seq<LogSeg>, k: nat)
    requires k <= |log|
    ensures |Flat(log[k..])| <= |Flat(log)|
    ensures Flat(log[k..]) == Flat(log)[|Flat(log)| - |Flat(log[k..])|..]
    ensures k == 0 ==> |Flat(log)| == |Flat(log[k..])|
    ensures k > 0 && log[k - 1].recs != [] ==>
      |Flat(log)| > |Flat(log[k..])|
      && Flat(log)[|Flat(log)| - |Flat(log[k..])| - 1] == log[k - 1].recs[|log[k - 1].recs| - 1]
  {
    FlatSplit(log, k);
    if k > 0 {
      assert log[..k][..k - 1] == log[..k - 1];
    }
  }

  lemma {:induction false} DiscardedSlides(st: Store, log: seq<LogSeg>, st': Store, k: nat)
    requires Describes(st, log) && Discarded(st, log, st', k)
    ensures Slid(st, Flat(log), st', Flat(log[k..]))
  {
    hide BlockSeq, LogWf, FlashOf, LogSeg.Wf, Records, SeqOf, Describes, Flat;
    FlatCut(log, k);
    if k > 0 {
      SegOfDescribed(st, log, k - 1);
      LastOf(log[k - 1]);
    }
    SlidBy(st, Flat(log), st', Flat(log[k..]));
  }

  lemma {:induction false} SlidBy(st: Store, r: seq<Block>, st': Store, r': seq<Block>)
    requires |r'| <= |r| && st'.lost == st.lost + |r| - |r'| && r' == r[|r| - |r'|..]
    requires st'.overflow == if |r| == |r'| then st.overflow else Max(SeqOf(r[|r| - |r'| - 1]), st.overflow)
    ensures Slid(st, r, st', r')
  {
    hide SeqOf;
  }

  lemma {:induction false} SegOfDescribed(st: Store, log: seq<LogSeg>, i: nat)
    requires Describes(st, log) && i < |log|
    ensures |st.segs| == |log| && log[i].Wf() && st.segs[i].(sealed := false) == log[i].Entry()
  {
  }

  lemma {:induction false} LastOf(g: LogSeg)
    requires g.Wf()
    ensures g.recs != [] && SeqOf(g.recs[|g.recs| - 1]) == g.Last()
  {
    assert BlockSeq(g.recs[|g.recs| - 1].data) == g.first + (|g.recs| - 1);
  }

  lemma {:induction false} CappedSlides(st: Store, log: seq<LogSeg>, g: LogSeg, t: Store, e: Segment)
    requires |st.segs| == |log| && t.segs == st.segs && t.lost == st.lost && t.overflow == st.overflow
    requires log != [] ==>
      log[0].recs != [] && st.segs[0].count == |log[0].recs| && st.segs[0].last == SeqOf(log[0].recs[|log[0].recs| - 1])
    ensures |log| <= MAX_SEGMENTS ==> Slid(st, Flat(log) + g.recs, Push(t, e), Flat(Capped(log + [g])))
  {
    hide SeqOf;
    FlatPush(log, g);
    FlatCut(log + [g], 1);
    if log != [] {
      FlatDrop(log + [g]);
    }
    hide Flat;
    PushSlides(t, e, st);
  }

  lemma {:induction false} WriteSlides(st: Store, log: seq<LogSeg>, b: Block, w: Outcome)
    requires Describes(st, log) && Appendable(st, b) && |log| <= MAX_SEGMENTS
    requires NeedsNew(st, BlockSeq(b.data), |b.tag|) && Succeeds(st, b, w)
    ensures Slid(st, Flat(log) + [b], Write(st, b, w).0, Flat(Capped(AfterWrite(st, log, b, w))))
  {
    var g := LogSeg(BlockSeq(b.data), |b.tag|, [b], []);
    if log != [] {
      SegOfDescribed(st, log, 0);
      LastOf(log[0]);
    }
    hide Flat, SeqOf, BlockSeq, RecordBytes, EncodeHeader, LogSeg.Wf, FlashOf, LogWf, Slid, Push, Capped;
    var e := Segment(g.first, g.first, 1, |AppendBytes(st, b)|, |b.tag|, false);
    var t := st.(flash := st.flash[g.first := AppendBytes(st, b)], forceNew := false);
    assert AfterWrite(st, log, b, w) == log + [g] && Write(st, b, w).0 == Push(t, e);
    CappedSlides(st, log, g, t, e);
  }

  lemma {:induction false} PushSlides(t: Store, e: Segment, st: Store)
    requires t.segs == st.segs && t.lost == st.lost && t.overflow == st.overflow
    ensures |st.segs| != MAX_SEGMENTS ==> Push(t, e).lost == st.lost && Push(t, e).overflow == st.overflow
    ensures |st.segs| == MAX_SEGMENTS ==>
      Push(t, e).lost == st.lost + st.segs[0].count && Push(t, e).overflow == Max(st.segs[0].last, st.overflow)
  {
  }

  lemma {:induction false} SlidTwice(s0: Store, r0: seq<Block>, s1: Store, r1: seq<Block>, s2: Store,
      tail: seq<Block>, r2: seq<Block>)
    requires Slid(s0, r0, s1, r1) && Slid(s1, r1 + tail, s2, r2)
    requires Increasing(r0 + tail)
    ensures Slid(s0, r0 + tail, s2, r2)
  {
    hide SeqOf;
    var n, m := s1.lost - s0.lost, s2.lost - s1.lost;
    var all := r0 + tail;
    assert r1 + tail == all[n..];
    assert r2 == all[n + m..];
    if n > 0 {
      assert r0[n - 1] == all[n - 1];
      if m > 0 {
        assert (r1 + tail)[m - 1] == all[n + m - 1];
        assert SeqOf(all[n - 1]) < SeqOf(all[n + m - 1]);
      }
    }
  }

  ghost predicate Increasing(r: seq<Block>) {
    forall i, j :: 0 <= i < j < |r| ==> SeqOf(r[i]) < SeqOf(r[j])
  }

  lemma {:induction false} FlatIncreasing(log: seq<LogSeg>)
    requires LogWf(log)
    ensures Increasing(Flat(log))
    ensures log != [] ==> Flat(log) != [] && SeqOf(Flat(log)[|Flat(log)| - 1]) == log[|log| - 1].Last()
  {
    hide LogSeg.Wf, SeqOf, Increasing;
    if log == [] {
      NothingIncreasing();
    } else {
      var n := |log| - 1;
      var g := log[n];
      FlatIncreasing(log[..n]);
      assert n > 0 ==> log[n - 1].Last() < g.first;
      SegmentIncreasing(g);
      IncreasingJoin(Flat(log[..n]), g.recs);
    }
  }

  lemma {:induction false} NothingIncreasing()
    ensures Increasing([])
  {
  }

  lemma {:induction false} SegmentIncreasing(g: LogSeg)
    requires g.Wf()
    ensures g.recs != [] && Increasing(g.recs) && SeqOf(g.recs[0]) == g.first
    ensures SeqOf(g.recs[|g.recs| - 1]) == g.Last()
  {
    forall k | 0 <= k < |g.recs|
      ensures SeqOf(g.recs[k]) == g.first + k
    {
      assert Sized(g.recs[k], g.tagLen);
    }
  }

  lemma {:induction false} IncreasingJoin(a: seq<Block>, b: seq<Block>)
    requires Increasing(a) && Increasing(b)
    requires a != [] && b != [] ==> SeqOf(a[|a| - 1]) < SeqOf(b[0])
    ensures Increasing(a + b)
  {
    hide SeqOf;
    forall i, j | 0 <= i < j < |a + b|
      ensures SeqOf((a + b)[i]) < SeqOf((a + b)[j])
    {
      if i < |a| <= j {
        assert i < |a| - 1 ==> SeqOf(a[i]) < SeqOf(a[|a| - 1]);
        assert j > |a| ==> SeqOf(b[0]) < SeqOf(b[j - |a|]);
      }
    }
  }
}
