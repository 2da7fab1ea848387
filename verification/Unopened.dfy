/**
 * A boot in which the files of some segments do not open. The program removes such a file like one
 * without a record, so its records are gone, and nothing counts them.
 */
module Unopened {
  import opened Bytes
  import opened SegmentFormat
  import opened StoreSpec
  import opened LogSpec
  import opened Recovery

  function Without(ks: seq<nat>, io: set<nat>): seq<nat> {
    if ks == [] then [] else (if ks[0] in io then [] else [ks[0]]) + Without(ks[1..], io)
  }

  function Among(ks: seq<nat>, io: set<nat>): set<nat> { set f | f in ks && f in io }

  /** Removing a file when its turn comes is as good as removing it beforehand. */
  lemma {:induction false} RemovedBefore(st: Store, ks: seq<nat>, io: set<nat>)
    ensures IndexOpened(st, ks, io) == IndexFiles(st.(flash := st.flash - Among(ks, io)), Without(ks, io))
    decreases |ks|
  {
    hide FileRecords, IndexedFile, Push;
    if ks == [] {
      assert st.flash - {} == st.flash;
    } else {
      var f, more := ks[0], Among(ks[1..], io);
      assert ks == [f] + ks[1..];
      if f in io {
        assert Among(ks, io) == more + {f};
        assert (st.flash - {f}) - more == st.flash - Among(ks, io);
        assert f !in st.flash ==> st.flash - more == st.flash - Among(ks, io);
        assert [] + Without(ks[1..], io) == Without(ks[1..], io);
        RemovedBefore(if f in st.flash then st.(flash := st.flash - {f}) else st, ks[1..], io);
      } else {
        assert Among(ks, io) == more;
        OpenedStep(st, ks, io, more);
      }
    }
  }

  lemma {:induction false} OpenedStep(st: Store, ks: seq<nat>, io: set<nat>, more: set<nat>)
    requires ks != [] && ks[0] !in io && more == Among(ks[1..], io)
    ensures IndexOpened(st, ks, io) == IndexFiles(st.(flash := st.flash - more), Without(ks, io))
    decreases |ks|, 0
  {
    hide FileRecords, IndexedFile, Push;
    var f := ks[0];
    var s := st.(flash := st.flash - more);
    assert Without(ks, io)[0] == f && Without(ks, io)[1..] == Without(ks[1..], io);
    assert f in s.flash <==> f in st.flash;
    if f !in st.flash {
      RemovedBefore(st, ks[1..], io);
    } else if FileRecords(st.flash[f], f) == [] {
      RemovedBefore(st.(flash := st.flash - {f}), ks[1..], io);
      assert (st.flash - {f}) - more == (st.flash - more) - {f};
    } else {
      var seg := IndexedFile(st.flash[f], f);
      RemovedBefore(Push(st, seg), ks[1..], io);
      PushCommutes(st, seg, more);
    }
  }

  lemma {:induction false} PushCommutes(st: Store, seg: Segment, more: set<nat>)
    ensures Push(st.(flash := st.flash - more), seg) == Push(st, seg).(flash := Push(st, seg).flash - more)
  {
    if st.segs != [] {
      assert (st.flash - more) - {st.segs[0].first} == (st.flash - {st.segs[0].first}) - more;
    }
  }

  predicate Sorted(ks: seq<nat>) { forall i, j :: 0 <= i < j < |ks| ==> ks[i] < ks[j] }

  lemma {:induction false} SortedMore(f: nat, ks: seq<nat>)
    requires Sorted(ks) && forall x :: x in ks ==> f < x
    ensures Sorted([f] + ks)
  {
    forall i, j | 0 <= i < j < |[f] + ks|
      ensures ([f] + ks)[i] < ([f] + ks)[j]
    {
      assert ([f] + ks)[j] == ks[j - 1] && ks[j - 1] in ks;
      if i > 0 {
        assert ([f] + ks)[i] == ks[i - 1];
      }
    }
  }

  lemma {:induction false} ListingHas(s: set<nat>)
    ensures forall x :: x in s <==> x in Listing(s)
    decreases |s|
  {
    if s != {} {
      var m := Least(s);
      ListingHas(s - {m});
      forall x
        ensures x in s <==> x in [m] + Listing(s - {m})
      {
        assert x in s <==> x == m || x in s - {m};
      }
    }
  }

  lemma {:induction false} ListingSorted(s: set<nat>)
    ensures Sorted(Listing(s))
    decreases |s|
  {
    if s != {} {
      var m := Least(s);
      assert Listing(s) == [m] + Listing(s - {m});
      hide Sorted, Listing;
      ListingHas(s - {m});
      ListingSorted(s - {m});
      SortedMore(m, Listing(s - {m}));
    }
  }

  lemma {:induction false} WithoutHas(ks: seq<nat>, io: set<nat>)
    ensures forall x :: x in Without(ks, io) <==> x in ks && x !in io
    decreases |ks|
  {
    if ks != [] {
      WithoutHas(ks[1..], io);
      assert ks == [ks[0]] + ks[1..];
    }
  }

  lemma {:induction false} WithoutSorted(ks: seq<nat>, io: set<nat>)
    requires Sorted(ks)
    ensures Sorted(Without(ks, io))
    decreases |ks|
  {
    if ks != [] {
      Behind(ks);
      WithoutSorted(ks[1..], io);
      WithoutHas(ks[1..], io);
      var rest := Without(ks[1..], io);
      assert [] + rest == rest;
      hide Sorted, Without;
      SortedMore(ks[0], rest);
    }
  }

  lemma {:induction false} Behind(ks: seq<nat>)
    requires Sorted(ks) && ks != []
    ensures Sorted(ks[1..]) && forall x :: x in ks[1..] ==> ks[0] < x
  {
  }

  /** A boot removes the files that do not open, and does the rest as if they had never been. */
  lemma {:induction false} BeginsWithout(flash: Flash, maxBlocks: nat, io: set<nat>)
    ensures BeginWith(flash, maxBlocks, io) == Begin(flash - io, maxBlocks)
  {
    hide IndexOpened, IndexFiles, Shrink, Listing, Without;
    var ks := Listing(flash.Keys);
    SortedLeft(flash, io);
    RemovedBefore(Fresh(flash, maxBlocks), ks, io);
  }

  lemma {:induction false} SortedLeft(flash: Flash, io: set<nat>)
    ensures Listing((flash - io).Keys) == Without(Listing(flash.Keys), io)
    ensures flash - Among(Listing(flash.Keys), io) == flash - io
  {
    hide Listing, Without;
    var ks := Listing(flash.Keys);
    ListingSorted(flash.Keys);
    ListingHas(flash.Keys);
    WithoutSorted(ks, io);
    WithoutHas(ks, io);
    ListingIs((flash - io).Keys, Without(ks, io));
  }

  // ---- the log of the files that open ----

  function Opened(log: seq<LogSeg>, io: set<nat>): seq<LogSeg> {
    if log == [] then []
    else
      var n := |log| - 1;
      Opened(log[..n], io) + (if log[n].first in io then [] else [log[n]])
  }

  lemma {:induction false} OpenedAre(log: seq<LogSeg>, io: set<nat>)
    ensures forall g :: g in Opened(log, io) <==> g in log && g.first !in io
    ensures |Opened(log, io)| <= |log|
    decreases |log|
  {
    if log != [] {
      var n := |log| - 1;
      OpenedAre(log[..n], io);
      assert log == log[..n] + [log[n]];
    }
  }

  lemma {:induction false} OpenedWf(log: seq<LogSeg>, io: set<nat>)
    requires LogWf(log)
    ensures LogWf(Opened(log, io))
    decreases |log|
  {
    hide LogSeg.Wf, LogSeg.Last;
    if log != [] {
      var n := |log| - 1;
      OpenedWf(log[..n], io);
      OpenedAre(log[..n], io);
      WfMore(log, Opened(log[..n], io));
    }
  }

  lemma {:induction false} WfMore(log: seq<LogSeg>, a: seq<LogSeg>)
    requires LogWf(log) && log != [] && LogWf(a) && forall g :: g in a ==> g in log[..|log| - 1]
    ensures LogWf(a + [log[|log| - 1]]) && LogWf(a + [])
  {
    hide LogSeg.Wf, LogSeg.Last;
    var n := |log| - 1;
    assert a + [] == a;
    forall i | 0 <= i < |a|
      ensures a[i].Last() < log[n].first
    {
      assert a[i] in a;
      var k :| 0 <= k < n && log[..n][k] == a[i];
      assert log[k].Last() < log[n].first;
    }
  }

  lemma {:induction false} OpenedFlash(log: seq<LogSeg>, io: set<nat>)
    ensures FlashOf(Opened(log, io)) == FlashOf(log) - io
    decreases |log|
  {
    hide LogSeg.File;
    if log != [] {
      var n := |log| - 1;
      var a, g := Opened(log[..n], io), log[n];
      OpenedFlash(log[..n], io);
      if g.first in io {
        assert a + [] == a;
        assert FlashOf(log[..n])[g.first := g.File()] - io == FlashOf(log[..n]) - io;
      } else {
        assert (a + [g])[..|a|] == a;
        assert FlashOf(log[..n])[g.first := g.File()] - io == (FlashOf(log[..n]) - io)[g.first := g.File()];
      }
    }
  }

  /**
   * What such a boot finds: exactly the records of the segments whose files opened, minus those that
   * are too many for it; the loss counter and the overflow mark know of these alone. The records of the
   * other segments are on flash no more.
   */
  lemma {:induction false} UnopenedAreGone(log: seq<LogSeg>, maxBlocks: nat, io: set<nat>) returns (k: nat)
    requires LogWf(log) && |log| <= MAX_SEGMENTS + 1 && maxBlocks >= 2 * BLOCKS_PER_SEGMENT
    ensures Rebuilt(BeginWith(FlashOf(log), maxBlocks, io), Opened(log, io), k)
    ensures forall g :: g in Opened(log, io) <==> g in log && g.first !in io
    ensures forall f :: f in io ==> f !in BeginWith(FlashOf(log), maxBlocks, io).flash
  {
    hide FlashOf, LogWf, Begin, BeginWith, Opened, Flat, Slid, TooMuch, Store.Total, MayGrow;
    OpenedAre(log, io);
    OpenedWf(log, io);
    OpenedFlash(log, io);
    BeginsWithout(FlashOf(log), maxBlocks, io);
    k := BeginRebuilds(Opened(log, io), maxBlocks);
    forall f | f in io
      ensures f !in BeginWith(FlashOf(log), maxBlocks, io).flash
    {
      FlashKeys(Opened(log, io)[k..], f);
    }
  }
}
