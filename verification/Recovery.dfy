/**
 * Reading, deleting and rebuilding the log: what `read` finds, what `deleteUpTo` frees, and what
 * `begin` makes of the files a power cut left behind.
 */
module Recovery {
  import opened Bytes
  import opened BlockFormat
  import opened SegmentFormat
  import opened StoreSpec
  import opened LogSpec
  import opened AppendKeeps

  // ---- reading ----

  lemma {:induction false} HeaderReadsBack(tagLen: byte, rest: bytes)
    requires ValidTagLen(tagLen)
    ensures HeaderOk(EncodeHeader(tagLen) + rest)
    ensures (EncodeHeader(tagLen) + rest)[5] == tagLen
    ensures (EncodeHeader(tagLen) + rest)[SEGMENT_HEADER..] == rest
  {
    var h := EncodeHeader(tagLen) + rest;
    assert h[..4] == MAGIC;
  }

  lemma {:induction false} JunkIsLeft(junk: bytes, tagLen: nat, first: nat)
    requires Records(junk, tagLen, first) == []
    ensures Leftover(junk, tagLen, first) == junk
  {
  }

  /** A scan of a segment file finds its records, and leaves its junk. */
  lemma {:induction false} FileHolds(g: LogSeg)
    requires g.Wf()
    ensures HeaderOk(g.File()) && g.File()[5] == g.tagLen
    ensures FileRecords(g.File(), g.first) == g.recs
    ensures Leftover(g.File()[SEGMENT_HEADER..], g.tagLen, g.first) == g.junk
  {
    hide NextRecord, RecordsBytes, GetU32, GetU16;
    var body := RecordsBytes(g.recs) + g.junk;
    assert g.File() == EncodeHeader(g.tagLen) + body;
    HeaderReadsBack(g.tagLen, body);
    RecordsOfWritten(g.recs, g.junk, g.tagLen, g.first);
    assert g.recs + [] == g.recs;
    JunkIsLeft(g.junk, g.tagLen, g.first + |g.recs|);
  }

  lemma {:induction false} LocateIs(segs: seq<Segment>, seqNo: nat, i: nat)
    requires i < |segs| && segs[i].first <= seqNo <= segs[i].last
    requires forall j :: 0 <= j < i ==> segs[j].last < segs[i].first
    ensures Locate(segs, seqNo) == i
  {
    if i > 0 {
      assert segs[0].last < segs[i].first;
      LocateIs(segs[1..], seqNo, i - 1);
    }
  }

  lemma {:induction false} LocateDescribed(st: Store, log: seq<LogSeg>, i: nat, seqNo: nat)
    requires Describes(st, log) && i < |log| && log[i].first <= seqNo < log[i].first + |log[i].recs|
    ensures Locate(st.segs, seqNo) == i
  {
    SegOfDescribed(st, log, i);
    forall j | 0 <= j < i
      ensures st.segs[j].last < st.segs[i].first
    {
      SegOfDescribed(st, log, j);
      assert log[j].Last() < log[i].first;
    }
    LocateIs(st.segs, seqNo, i);
  }

  lemma {:induction false} FetchOfFile(g: LogSeg, k: nat)
    requires g.Wf() && k < |g.recs|
    ensures Fetch(g.File(), g.first, g.first + k) == Found(g.recs[k])
    ensures SeqOf(g.recs[k]) == g.first + k
  {
    FileHolds(g);
    assert Sized(g.recs[k], g.tagLen) && BlockSeq(g.recs[k].data) == g.first + k;
    hide LogSeg.File, Fetch, LogSeg.Wf, Sized, BlockSeq;
    ScannedIsFetched(g.File(), g.first, g.first + k);
  }

  /** Every record is read back byte for byte, when its file opens. */
  lemma {:induction false} ReadsBack(st: Store, log: seq<LogSeg>, i: nat, k: nat)
    requires Describes(st, log) && i < |log| && k < |log[i].recs|
    ensures Read(st, log[i].first + k, {}) == Found(log[i].recs[k])
    ensures SeqOf(log[i].recs[k]) == log[i].first + k
  {
    hide LogWf, FlashOf, LogSeg.Wf, LogSeg.File, Fetch, SeqOf, Locate, BlockSeq;
    var g := log[i];
    LocateDescribed(st, log, i, g.first + k);
    SegOfDescribed(st, log, i);
    FlashFiles(log, i);
    FetchOfFile(g, k);
  }

  lemma {:induction false} FlatAt(log: seq<LogSeg>, n: nat) returns (i: nat, k: nat)
    requires n < |Flat(log)|
    ensures i < |log| && k < |log[i].recs| && Flat(log)[n] == log[i].recs[k]
  {
    var m := |log| - 1;
    if n < |Flat(log[..m])| {
      i, k := FlatAt(log[..m], n);
    } else {
      i, k := m, n - |Flat(log[..m])|;
    }
  }

  lemma {:induction false} FlatHas(log: seq<LogSeg>, i: nat, k: nat) returns (n: nat)
    requires i < |log| && k < |log[i].recs|
    ensures n < |Flat(log)| && Flat(log)[n] == log[i].recs[k]
  {
    var m := |log| - 1;
    if i == m {
      n := |Flat(log[..m])| + k;
    } else {
      n := FlatHas(log[..m], i, k);
    }
  }

  ghost predicate Holds(r: seq<Block>, seqNo: nat) {
    exists n :: 0 <= n < |r| && SeqOf(r[n]) == seqNo
  }

  /** `read` on a log that describes `log`: the record with that seq, or NotFound if there is none. */
  lemma {:induction false} ReadIsLookup(st: Store, log: seq<LogSeg>, n: nat)
    requires Describes(st, log) && n < |Flat(log)|
    ensures Read(st, SeqOf(Flat(log)[n]), {}) == Found(Flat(log)[n])
  {
    hide SeqOf, Read, Flat, Describes;
    var i, k := FlatAt(log, n);
    ReadsBack(st, log, i, k);
  }

  lemma {:induction false} StoredIsHeld(st: Store, log: seq<LogSeg>, seqNo: nat)
    requires Describes(st, log)
    ensures Stored(st, seqNo) <==> Holds(Flat(log), seqNo)
    ensures Read(st, seqNo, {}) == Missing <==> !Holds(Flat(log), seqNo)
  {
    hide SeqOf, Fetch, Flat, LogWf, FlashOf, LogSeg.Wf;
    if Stored(st, seqNo) {
      var i := Locate(st.segs, seqNo);
      SegOfDescribed(st, log, i);
      var k := seqNo - log[i].first;
      ReadsBack(st, log, i, k);
      var n := FlatHas(log, i, k);
      assert SeqOf(Flat(log)[n]) == seqNo;
    }
    if Holds(Flat(log), seqNo) {
      var n :| 0 <= n < |Flat(log)| && SeqOf(Flat(log)[n]) == seqNo;
      ReadIsLookup(st, log, n);
    }
  }

  /** `nextStoredSeq`: the least stored seq from `from` on; 0 exactly when there is none. */
  lemma {:induction false} NextIsLeast(segs: seq<Segment>, from: nat)
    requires forall i :: 0 <= i < |segs| ==> 1 <= segs[i].first <= segs[i].last
    requires forall i, j :: 0 <= i < j < |segs| ==> segs[i].last < segs[j].first
    ensures var t := NextStored(segs, from);
      && (t != 0 ==> t >= from && Locate(segs, t) < |segs|)
      && (forall q :: from <= q && (q < t || (t == 0 && q > 0)) ==> Locate(segs, q) == |segs|)
  {
    if segs != [] {
      var rest := segs[1..];
      NextIsLeast(rest, from);
      var t := NextStored(segs, from);
      if segs[0].last >= from {
        LocateIs(segs, t, 0);
        forall q | from <= q && (q < t || (t == 0 && q > 0))
          ensures Locate(segs, q) == |segs|
        {
          NotBefore(segs, q);
        }
      } else if t != 0 {
        var i := Locate(rest, t);
        assert rest[i] == segs[i + 1];
      }
    }
  }

  lemma {:induction false} NotBefore(segs: seq<Segment>, q: nat)
    requires segs != [] && q < segs[0].first <= segs[0].last
    requires forall i, j :: 0 <= i < j < |segs| ==> segs[i].last < segs[j].first
    ensures Locate(segs, q) == |segs|
  {
    forall i | 0 <= i < |segs|
      ensures q < segs[i].first
    {
      assert i > 0 ==> segs[0].last < segs[i].first;
    }
  }

  // ---- deleting ----

  /** Exactly the segments up to `upTo` went, except the newest; everything newer than `upTo` is still there. */
  ghost predicate Freed(st: Store, log: seq<LogSeg>, upTo: nat, st': Store, log': seq<LogSeg>) {
    && Describes(st', log')
    && st'.lost == st.lost && st'.overflow == st.overflow
    && st'.forceNew == st.forceNew && st'.maxBlocks == st.maxBlocks
    && |Flat(log')| <= |Flat(log)|
    && Flat(log') == Flat(log)[|Flat(log)| - |Flat(log')|..]
    && (forall n :: 0 <= n < |Flat(log)| - |Flat(log')| ==> SeqOf(Flat(log)[n]) <= upTo)
    && (log != [] ==> log' != [] && log'[|log'| - 1] == log[|log| - 1])
    && (st.segs != [] ==> st'.segs != [] && st'.Newest() == st.Newest())
    && |log'| <= |log| && log' == log[|log| - |log'|..]
    && (|log'| > 1 ==> log'[0].Last() > upTo)
  }

  lemma {:induction false} DeleteFrees(st: Store, log: seq<LogSeg>, upTo: nat) returns (log': seq<LogSeg>)
    requires Describes(st, log)
    ensures Freed(st, log, upTo, DeleteUpTo(st, upTo), log')
    decreases |log|
  {
    if |st.segs| > 1 && st.segs[0].last <= upTo {
      DropDescribes(st, log);
      log' := DeleteFrees(DropOldest(st), log[1..], upTo);
      FreedOneMore(st, log, upTo, DeleteUpTo(st, upTo), log');
    } else {
      log' := log;
      if log != [] {
        SegOfDescribed(st, log, 0);
      }
    }
  }

  lemma {:induction false} FreedOneMore(st: Store, log: seq<LogSeg>, upTo: nat, st': Store, log': seq<LogSeg>)
    requires Describes(st, log) && |log| > 1 && st.segs[0].last <= upTo
    requires Freed(DropOldest(st), log[1..], upTo, st', log')
    ensures Freed(st, log, upTo, st', log')
  {
    hide Describes, LogSeg.Wf, LogWf, SeqOf, Flat, FlashOf;
    SegOfDescribed(st, log, 0);
    FlatDrop(log);
    OldestSeqs(log[0]);
    SuffixAfter(log[0].recs, Flat(log[1..]), |Flat(log')|);
    SuffixAfter([log[0]], log[1..], |log'|);
    assert [log[0]] + log[1..] == log;
  }

  lemma {:induction false} SuffixAfter<T>(a: seq<T>, r: seq<T>, n: nat)
    requires n <= |r|
    ensures (a + r)[|a| + |r| - n..] == r[|r| - n..]
  {
  }

  lemma {:induction false} OldestSeqs(g: LogSeg)
    requires g.Wf()
    ensures forall n :: 0 <= n < |g.recs| ==> SeqOf(g.recs[n]) <= g.Last()
  {
    forall n | 0 <= n < |g.recs|
      ensures SeqOf(g.recs[n]) <= g.Last()
    {
      assert Sized(g.recs[n], g.tagLen);
    }
  }

  lemma {:induction false} DeleteKeeps(st: Store, log: seq<LogSeg>, upTo: nat) returns (log': seq<LogSeg>)
    requires Consistent(st, log)
    ensures Consistent(DeleteUpTo(st, upTo), log') && Freed(st, log, upTo, DeleteUpTo(st, upTo), log')
  {
    log' := DeleteFrees(st, log, upTo);
    TotalOfDescribed(st, log);
    TotalOfDescribed(DeleteUpTo(st, upTo), log');
  }

  // ---- rebuilding ----

  function Firsts(log: seq<LogSeg>): seq<nat> { seq(|log|, i requires 0 <= i < |log| => log[i].first) }

  lemma {:induction false} ListingIs(s: set<nat>, ks: seq<nat>)
    requires forall i, j :: 0 <= i < j < |ks| ==> ks[i] < ks[j]
    requires forall x :: x in s <==> x in ks
    ensures Listing(s) == ks
    decreases |ks|
  {
    if ks == [] {
      assert s == {};
    } else {
      assert ks[0] in s;
      assert Least(s) == ks[0];
      forall x
        ensures x in s - {ks[0]} <==> x in ks[1..]
      {
      }
      ListingIs(s - {ks[0]}, ks[1..]);
    }
  }

  /** The listing of a log's flash is the log, oldest first. */
  lemma {:induction false} ListingOfLog(log: seq<LogSeg>)
    requires LogWf(log)
    ensures Listing(FlashOf(log).Keys) == Firsts(log)
  {
    forall i, j | 0 <= i < j < |log|
      ensures Firsts(log)[i] < Firsts(log)[j]
    {
      assert log[i].Last() < log[j].first;
    }
    forall f
      ensures f in FlashOf(log).Keys <==> f in Firsts(log)
    {
      FlashKeys(log, f);
      if f in Firsts(log) {
        var i :| 0 <= i < |log| && Firsts(log)[i] == f;
        assert log[i].first == f;
      }
      if i :| 0 <= i < |log| && log[i].first == f {
        assert Firsts(log)[i] == f;
      }
    }
    ListingIs(FlashOf(log).Keys, Firsts(log));
  }

  /** The index entry the boot scan makes of a segment file. */
  function Scanned(g: LogSeg): Segment {
    g.Entry().(sealed := |g.junk| > HEADER || |g.recs| >= BLOCKS_PER_SEGMENT)
  }

  lemma {:induction false} ScanOfFile(g: LogSeg)
    requires g.Wf()
    ensures HeaderOk(g.File()) && FileRecords(g.File(), g.first) == g.recs
    ensures IndexedFile(g.File(), g.first) == Scanned(g)
  {
    FileHolds(g);
  }

  lemma {:induction false} OneSegment(g: LogSeg, h: LogSeg)
    requires g.Wf() && h.Wf() && g.first == h.first && g.tagLen == h.tagLen && g.File() == h.File()
    ensures g == h
  {
    ScanOfFile(g);
    ScanOfFile(h);
    hide LogSeg.Wf, FileRecords, HeaderOk, EncodeHeader, RecordsBytes;
    var n := |EncodeHeader(g.tagLen) + RecordsBytes(g.recs)|;
    assert g.File()[n..] == g.junk && h.File()[n..] == h.junk;
  }

  /** A store describes one log only. */
  lemma {:induction false} OneLog(st: Store, a: seq<LogSeg>, b: seq<LogSeg>)
    requires Describes(st, a) && Describes(st, b)
    ensures a == b
  {
    forall i | 0 <= i < |a|
      ensures |a| == |b| && a[i] == b[i]
    {
      SegOfDescribed(st, a, i);
      SegOfDescribed(st, b, i);
      FlashFiles(a, i);
      FlashFiles(b, i);
      hide Describes, LogSeg.Wf, LogSeg.File;
      OneSegment(a[i], b[i]);
    }
  }

  function ScannedAll(log: seq<LogSeg>): seq<Segment> {
    seq(|log|, i requires 0 <= i < |log| => Scanned(log[i]))
  }

  lemma {:induction false} IndexAll(st: Store, log: seq<LogSeg>)
    requires LogWf(log) && |st.segs| + |log| <= MAX_SEGMENTS
    requires forall i :: 0 <= i < |log| ==> log[i].first in st.flash && st.flash[log[i].first] == log[i].File()
    ensures IndexFiles(st, Firsts(log)) == st.(segs := st.segs + ScannedAll(log))
    decreases |log|
  {
    if log == [] {
      assert st.segs + [] == st.segs;
    } else {
      IndexFirst(st, log);
      var st1 := st.(segs := st.segs + [Scanned(log[0])]);
      WfSuffix(log, 1);
      ScannedCons(log, st.segs);
      hide LogSeg.File, LogSeg.Wf, LogWf, IndexFiles, Scanned, LogSeg.Entry, Firsts, ScannedAll;
      IndexAll(st1, log[1..]);
    }
  }

  lemma {:induction false} ScannedCons(log: seq<LogSeg>, a: seq<Segment>)
    requires log != []
    ensures a + ScannedAll(log) == (a + [Scanned(log[0])]) + ScannedAll(log[1..])
  {
    hide Scanned;
    assert ScannedAll(log) == [Scanned(log[0])] + ScannedAll(log[1..]);
  }

  lemma {:induction false} IndexFirst(st: Store, log: seq<LogSeg>)
    requires LogWf(log) && log != [] && |st.segs| < MAX_SEGMENTS
    requires log[0].first in st.flash && st.flash[log[0].first] == log[0].File()
    ensures IndexFiles(st, Firsts(log)) == IndexFiles(st.(segs := st.segs + [Scanned(log[0])]), Firsts(log[1..]))
  {
    hide LogSeg.File, LogSeg.Wf, FileRecords, HeaderOk, IndexedFile, Scanned;
    ScanOfFile(log[0]);
    LastOf(log[0]);
    assert Firsts(log)[1..] == Firsts(log[1..]);
  }

  lemma {:induction false} IndexAppend(st: Store, a: seq<nat>, b: seq<nat>)
    ensures IndexFiles(st, a + b) == IndexFiles(IndexFiles(st, a), b)
    decreases |a|
  {
    hide Records, IndexedFile, Push, HeaderOk;
    if a == [] {
      assert a + b == b;
    } else {
      var f := a[0];
      assert (a + b)[1..] == a[1..] + b;
      if f !in st.flash {
        IndexAppend(st, a[1..], b);
      } else if FileRecords(st.flash[f], f) == [] {
        IndexAppend(st.(flash := st.flash - {f}), a[1..], b);
      } else {
        IndexAppend(Push(st, IndexedFile(st.flash[f], f)), a[1..], b);
      }
    }
  }

  function Fresh(flash: Flash, maxBlocks: nat): Store { Store([], flash, maxBlocks, false, 0, 0) }

  lemma {:induction false} AllFilesPresent(log: seq<LogSeg>, flash: Flash)
    requires LogWf(log) && forall f :: f in FlashOf(log) ==> f in flash && flash[f] == FlashOf(log)[f]
    ensures forall i :: 0 <= i < |log| ==> log[i].first in flash && flash[log[i].first] == log[i].File()
  {
    forall i | 0 <= i < |log|
      ensures log[i].first in flash && flash[log[i].first] == log[i].File()
    {
      FlashFiles(log, i);
    }
  }

  lemma {:induction false} ScannedDescribes(log: seq<LogSeg>, maxBlocks: nat)
    requires LogWf(log)
    ensures Describes(Fresh(FlashOf(log), maxBlocks).(segs := ScannedAll(log)), log)
  {
    forall i | 0 <= i < |log|
      ensures log[i].recs != [] && ScannedAll(log)[i].(sealed := false) == log[i].Entry()
    {
      assert log[i].Wf();
    }
  }

  /** The files of a log of at most 256 segments are all indexed. */
  lemma {:induction false} IndexesLog(log: seq<LogSeg>, maxBlocks: nat)
    requires LogWf(log) && |log| <= MAX_SEGMENTS
    ensures var st := Fresh(FlashOf(log), maxBlocks);
      IndexFiles(st, Listing(st.flash.Keys)) == st.(segs := ScannedAll(log))
  {
    ListingOfLog(log);
    AllFilesPresent(log, FlashOf(log));
    hide LogWf, LogSeg.Wf, FlashOf, IndexFiles, Firsts, ScannedAll;
    IndexAll(Fresh(FlashOf(log), maxBlocks), log);
    assert [] + ScannedAll(log) == ScannedAll(log);
  }

  /** One file more than the index holds: the oldest is given up. */
  lemma {:induction false} IndexesFullLog(log: seq<LogSeg>, maxBlocks: nat)
    requires LogWf(log) && |log| == MAX_SEGMENTS + 1
    ensures var st := Fresh(FlashOf(log), maxBlocks);
      IndexFiles(st, Listing(st.flash.Keys)) == DiscardOldest(st.(segs := ScannedAll(log)))
  {
    hide LogSeg.Wf, FlashOf, IndexFiles, Firsts, Scanned, LogSeg.File, Listing;
    var n := |log| - 1;
    ListingOfLog(log);
    AllFilesPresent(log, FlashOf(log));
    SplitFirsts(log, n);
    IndexesOneMore(Fresh(FlashOf(log), maxBlocks), log[..n], log[n]);
    assert ScannedAll(log) == ScannedAll(log[..n]) + [Scanned(log[n])];
  }

  lemma {:induction false} IndexesOneMore(st: Store, log: seq<LogSeg>, g: LogSeg)
    requires LogWf(log) && g.Wf() && st.segs == [] && |log| == MAX_SEGMENTS
    requires forall i :: 0 <= i < |log| ==> log[i].first in st.flash && st.flash[log[i].first] == log[i].File()
    requires g.first in st.flash && st.flash[g.first] == g.File()
    ensures IndexFiles(st, Firsts(log) + [g.first]) == DiscardOldest(st.(segs := ScannedAll(log) + [Scanned(g)]))
  {
    ScanOfFile(g);
    IndexAll(st, log);
    hide LogSeg.Wf, Firsts, LogWf, HeaderOk, FileRecords, IndexedFile;
    var st1 := st.(segs := ScannedAll(log));
    assert [] + ScannedAll(log) == ScannedAll(log);
    IndexAppend(st, Firsts(log), [g.first]);
    IndexesOne(st1, g);
    PushIsDiscard(st1, Scanned(g));
  }

  lemma {:induction false} IndexesOne(st: Store, g: LogSeg)
    requires g.Wf() && g.first in st.flash && st.flash[g.first] == g.File()
    ensures IndexFiles(st, [g.first]) == Push(st, Scanned(g))
  {
    ScanOfFile(g);
    assert [g.first][1..] == [];
  }

  lemma {:induction false} SplitFirsts(log: seq<LogSeg>, n: nat)
    requires |log| == n + 1
    ensures Firsts(log) == Firsts(log[..n]) + [log[n].first]
  {
  }

  /**
   * What a boot makes of the segments on flash: all but the first `k` are indexed, and their records
   * are counted as lost. Segments go until 256 are left, then until their records fit the limit or
   * one is left, and not one more.
   */
  ghost predicate Rebuilt(st: Store, log: seq<LogSeg>, k: nat) {
    && k <= |log| && (log != [] ==> k < |log|)
    && Bounded(st, log[k..]) && !st.forceNew
    && Slid(Fresh(st.flash, st.maxBlocks), Flat(log), st, Flat(log[k..]))
    && (forall j :: 0 <= j < k ==> TooMuch(log[j..], st.maxBlocks))
  }

  /** All segments indexed, as if the ring had no end. */
  function AllIndexed(log: seq<LogSeg>, maxBlocks: nat): Store {
    Fresh(FlashOf(log), maxBlocks).(segs := ScannedAll(log))
  }

  /** Before the limit is looked at, only a 257th segment is given up. */
  lemma {:induction false} BeginIndexes(log: seq<LogSeg>, maxBlocks: nat)
    requires LogWf(log) && |log| <= MAX_SEGMENTS + 1
    ensures var all := AllIndexed(log, maxBlocks);
      && Describes(all, log)
      && Begin(FlashOf(log), maxBlocks) == Shrink(if |log| > MAX_SEGMENTS then DiscardOldest(all) else all)
  {
    hide LogSeg.Wf, FlashOf, LogWf, IndexFiles, Listing, Describes, ScannedAll, Shrink;
    ScannedDescribes(log, maxBlocks);
    if |log| > MAX_SEGMENTS {
      IndexesFullLog(log, maxBlocks);
    } else {
      IndexesLog(log, maxBlocks);
    }
  }

  lemma {:induction false} BeginDiscards(log: seq<LogSeg>, maxBlocks: nat) returns (k: nat)
    requires LogWf(log) && |log| <= MAX_SEGMENTS + 1
    ensures Discarded(AllIndexed(log, maxBlocks), log, Begin(FlashOf(log), maxBlocks), k)
    ensures |log| - k <= MAX_SEGMENTS && (|log| - k > 1 ==> |Flat(log[k..])| <= maxBlocks)
    ensures forall j :: 0 <= j < k ==> TooMuch(log[j..], maxBlocks)
  {
    hide LogSeg.Wf, FlashOf, LogWf, Begin, Shrink, Flat, Describes, Discarded, AllIndexed;
    var all := AllIndexed(log, maxBlocks);
    BeginIndexes(log, maxBlocks);
    LimitOf(log, maxBlocks);
    if |log| > MAX_SEGMENTS {
      DropDescribes(all, log);
      k := ShrinkDiscards(DiscardOldest(all), log[1..]);
      SomeLeft(DiscardOldest(all), log[1..], Begin(FlashOf(log), maxBlocks), k);
      DiscardOne(all, log, Begin(FlashOf(log), maxBlocks), k);
      TooMuchOneMore(log, k, maxBlocks);
      k := k + 1;
    } else {
      k := ShrinkDiscards(all, log);
    }
  }

  lemma {:induction false} LimitOf(log: seq<LogSeg>, maxBlocks: nat)
    ensures AllIndexed(log, maxBlocks).maxBlocks == maxBlocks
    ensures DiscardOldest(AllIndexed(log, maxBlocks)).maxBlocks == maxBlocks
  {
  }

  lemma {:induction false} TooMuchOneMore(log: seq<LogSeg>, k: nat, maxBlocks: nat)
    requires |log| > MAX_SEGMENTS && k < |log|
    requires forall j :: 0 <= j < k ==> |Flat(log[1..][j..])| > maxBlocks && |log[1..][j..]| > 1
    ensures forall j :: 0 <= j < k + 1 ==> TooMuch(log[j..], maxBlocks)
    ensures log[1..][k..] == log[k + 1..]
  {
    hide Flat;
    forall j | 0 <= j < k + 1
      ensures TooMuch(log[j..], maxBlocks)
    {
      if j > 0 {
        assert log[j..] == log[1..][j - 1..];
      } else {
        assert log[j..] == log;
      }
    }
  }

  /** The boot finds exactly the records on flash, apart from the oldest segments that are too many for it. */
  lemma {:induction false} BeginRebuilds(log: seq<LogSeg>, maxBlocks: nat) returns (k: nat)
    requires LogWf(log) && |log| <= MAX_SEGMENTS + 1 && maxBlocks >= 2 * BLOCKS_PER_SEGMENT
    ensures Rebuilt(Begin(FlashOf(log), maxBlocks), log, k)
    ensures Begin(FlashOf(log), maxBlocks).maxBlocks == maxBlocks
  {
    hide LogSeg.Wf, FlashOf, LogWf, Begin, Flat, Describes, TooMuch, Slid, Store.Total, ScannedAll;
    k := BeginDiscards(log, maxBlocks);
    var st := Begin(FlashOf(log), maxBlocks);
    BeginIndexes(log, maxBlocks);
    DiscardedSlides(AllIndexed(log, maxBlocks), log, st, k);
    SlidFrom(AllIndexed(log, maxBlocks), Fresh(st.flash, maxBlocks), Flat(log), st, Flat(log[k..]));
    TotalOfDescribed(st, log[k..]);
    if |log| - k <= 1 {
      FewRecords(st, log[k..]);
    }
  }

  lemma {:induction false} SlidFrom(a: Store, b: Store, r: seq<Block>, st: Store, r': seq<Block>)
    requires Slid(a, r, st, r') && a.lost == b.lost && a.overflow == b.overflow
    ensures Slid(b, r, st, r')
  {
    hide SeqOf;
  }

  /** A file with no whole record, newer than the log, is removed and changes nothing else. */
  lemma {:induction false} DebrisIsRemoved(log: seq<LogSeg>, f: nat, junk: bytes, maxBlocks: nat)
    requires LogWf(log) && |log| <= MAX_SEGMENTS
    requires forall i :: 0 <= i < |log| ==> log[i].first < f
    requires FileRecords(junk, f) == []
    ensures Begin(FlashOf(log)[f := junk], maxBlocks) == Begin(FlashOf(log), maxBlocks)
  {
    hide LogWf, FlashOf, Firsts, Listing, ScannedAll, FileRecords, Shrink, LogSeg.File, IndexFiles;
    var flash := FlashOf(log)[f := junk];
    var st := Fresh(flash, maxBlocks);
    FlashKeys(log, f);
    AllFilesPresent(log, flash);
    ListingWithDebris(log, f, junk);
    IndexesLog(log, maxBlocks);
    IndexAll(st, log);
    assert [] + ScannedAll(log) == ScannedAll(log);
    IndexAppend(st, Firsts(log), [f]);
    var st1 := st.(segs := ScannedAll(log));
    IndexesDebris(st1, f);
    assert flash - {f} == FlashOf(log);
  }

  lemma {:induction false} IndexesDebris(st: Store, f: nat)
    requires f in st.flash && FileRecords(st.flash[f], f) == []
    ensures IndexFiles(st, [f]) == st.(flash := st.flash - {f})
  {
    hide FileRecords;
    assert [f][1..] == [];
  }

  lemma {:induction false} ListingWithDebris(log: seq<LogSeg>, f: nat, junk: bytes)
    requires LogWf(log) && forall i :: 0 <= i < |log| ==> log[i].first < f
    ensures Listing(FlashOf(log)[f := junk].Keys) == Firsts(log) + [f]
  {
    var ks := Firsts(log) + [f];
    forall i, j | 0 <= i < j < |ks|
      ensures ks[i] < ks[j]
    {
      if j < |log| {
        assert log[i].Last() < log[j].first;
      }
    }
    forall x
      ensures x in FlashOf(log)[f := junk].Keys <==> x in ks
    {
      FlashKeys(log, x);
      if x in ks && x != f {
        var i :| 0 <= i < |ks| && ks[i] == x;
        assert log[i].first == x;
      }
      if i :| 0 <= i < |log| && log[i].first == x {
        assert ks[i] == x;
      }
      if x == f {
        assert ks[|log|] == f;
      }
    }
    ListingIs(FlashOf(log)[f := junk].Keys, ks);
  }
}
