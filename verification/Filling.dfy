/**
 * How records fill segments: 64 to a file, and a new file only then. So as many records fit the ring
 * as 256 files of 64 hold, and nothing is discarded before.
 */
module Filling {
  import opened BlockFormat
  import opened SegmentFormat
  import opened StoreSpec

  /** A record to append, and what becomes of its write. */
  datatype Job = Job(b: Block, w: Outcome)

  /** One append after the other; whether all of them answered true. */
  function AppendAll(st: Store, js: seq<Job>, free: Flash -> nat): (Store, bool)
    decreases |js|
  {
    if js == [] then (st, true)
    else
      var (s, ok) := Append(st, js[0].b, free, js[0].w);
      var (t, more) := AppendAll(s, js[1..], free);
      (t, ok && more)
  }

  /** Whole records of one tag length, with the seqs from `next` on. */
  ghost predicate Contiguous(js: seq<Job>, next: nat, tagLen: nat) {
    ValidTagLen(tagLen) && forall i :: 0 <= i < |js| ==> Sized(js[i].b, tagLen) && SeqOf(js[i].b) == next + i
  }

  /** The newest segment was opened by a record of this tag length, and no write to it has failed. */
  predicate Growing(st: Store, tagLen: nat) {
    && st.segs != [] && !st.forceNew
    && st.Newest().tagLen == tagLen && 1 <= st.Newest().count <= 64 && (st.Newest().sealed ==> st.Newest().count == 64)
  }

  /** There is room for one more record and a segment header: N allows it, and 8 KiB of flash stay free. */
  predicate HasSpace(st: Store, b: Block, free: Flash -> nat) {
    st.Total() + 1 <= st.maxBlocks && free(st.flash) >= 8 + |RecordBytes(b)| + 8192
  }

  ghost predicate SpaceAlong(st: Store, js: seq<Job>, free: Flash -> nat)
    decreases |js|
  {
    js != [] ==> HasSpace(st, js[0].b, free) && SpaceAlong(Append(st, js[0].b, free, js[0].w).0, js[1..], free)
  }

  // ---- one record ----

  /** What a complete write does, once there is room. */
  lemma {:induction false} Written(s: Store, b: Block, w: Outcome)
    requires Growing(s, |b.tag|) && SeqOf(b) == s.NewestSeq() + 1 && Write(s, b, w).1
    ensures var t, g := Write(s, b, w).0, s.Newest();
      && Growing(t, |b.tag|) && t.NewestSeq() == SeqOf(b)
      && t.Newest().first == (if g.count < 64 then g.first else SeqOf(b))
      && t.Newest().count == (if g.count < 64 then g.count + 1 else 1)
    ensures var t, g := Write(s, b, w).0, s.Newest();
      if g.count < 64 then |t.segs| == |s.segs| && t.segs[..|s.segs| - 1] == s.segs[..|s.segs| - 1] && t.lost == s.lost
      else if |s.segs| != 256 then t.segs[..|t.segs| - 1] == s.segs && t.lost == s.lost
      else t.segs[..|t.segs| - 1] == s.segs[1..] && t.lost == s.lost + s.segs[0].count
  {
    hide RecordBytes, EncodeHeader;
    SeqIs(b);
    var t, g := Write(s, b, w).0, s.Newest();
    if g.count < 64 {
      assert !NeedsNew(s, SeqOf(b), |b.tag|);
      assert t.segs[..|s.segs| - 1] == s.segs[..|s.segs| - 1];
    } else {
      assert NeedsNew(s, SeqOf(b), |b.tag|);
      assert |s.segs| != 256 ==> t.segs[..|t.segs| - 1] == s.segs;
      assert |s.segs| == 256 ==> t.segs[..|t.segs| - 1] == s.segs[1..];
    }
  }

  lemma {:induction false} SeqIs(b: Block)
    ensures SeqOf(b) == BlockSeq(b.data)
  {
  }

  lemma {:induction false} RoomKeeps(st: Store, b: Block, free: Flash -> nat)
    ensures var s := Roomy(st, b, free);
      s.forceNew == st.forceNew && (st.segs != [] ==> s.segs != [] && s.Newest() == st.Newest())
  {
  }

  /** A record of the restart joins the newest segment until that holds 64; then it opens the next one. */
  lemma {:induction false} OneRecord(st: Store, b: Block, free: Flash -> nat, w: Outcome)
    requires Growing(st, |b.tag|) && SeqOf(b) == st.NewestSeq() + 1 && Append(st, b, free, w).1
    ensures var s, g := Append(st, b, free, w).0, st.Newest();
      && Growing(s, |b.tag|) && s.NewestSeq() == SeqOf(b)
      && s.Newest().first == (if g.count < 64 then g.first else SeqOf(b))
      && s.Newest().count == (if g.count < 64 then g.count + 1 else 1)
  {
    hide Write, Roomy;
    RoomKeeps(st, b, free);
    Written(Roomy(st, b, free), b, w);
  }

  /** While there is space, a record of the restart costs at most the oldest segment, and that only as the 257th. */
  lemma {:induction false} OneWithSpace(st: Store, b: Block, free: Flash -> nat, w: Outcome)
    requires Growing(st, |b.tag|) && SeqOf(b) == st.NewestSeq() + 1 && Append(st, b, free, w).1
    requires HasSpace(st, b, free)
    ensures var s, g := Append(st, b, free, w).0, st.Newest();
      if g.count < 64 then |s.segs| == |st.segs| && s.segs[..|st.segs| - 1] == st.segs[..|st.segs| - 1]
        && s.lost == st.lost
      else if |st.segs| != 256 then s.segs[..|s.segs| - 1] == st.segs && s.lost == st.lost
      else s.segs[..|s.segs| - 1] == st.segs[1..] && s.lost == st.lost + st.segs[0].count
  {
    hide Write, NeedsNew, RecordBytes, DiscardOldest;
    StaysWhole(st, b, free);
    Written(st, b, w);
  }

  lemma {:induction false} AtMostHeader(st: Store, b: Block)
    ensures |AppendBytes(st, b)| <= 8 + |RecordBytes(b)|
  {
    hide RecordBytes;
  }

  /** Without space for the bytes of the next record the oldest segment goes, unless it is the only one. */
  lemma {:induction false} NoSpaceDiscards(st: Store, b: Block, free: Flash -> nat, w: Outcome)
    requires |st.segs| > 1 && st.segs[0].count >= 1
    requires st.Total() + 1 > st.maxBlocks || free(st.flash) < |RecordBytes(b)| + 8192
    ensures Append(st, b, free, w).0.lost > st.lost
  {
    hide Write, RecordBytes, Store.Total;
    var n := |AppendBytes(st, b)|;
    assert n >= |RecordBytes(b)|;
    LostRises(DiscardOldest(st), n, free);
    WriteLosesNone(Roomy(st, b, free), b, w);
  }

  lemma {:induction false} LostRises(st: Store, n: nat, free: Flash -> nat)
    ensures EnsureSpace(st, n, free).lost >= st.lost
    decreases |st.segs|
  {
    hide Store.Total;
    if |st.segs| > 1 && (st.Total() + 1 > st.maxBlocks || free(st.flash) < n + RESERVE_BYTES) {
      LostRises(DiscardOldest(st), n, free);
    }
  }

  lemma {:induction false} WriteLosesNone(s: Store, b: Block, w: Outcome)
    ensures Write(s, b, w).0.lost >= s.lost
  {
    hide NeedsNew, AppendBytes;
  }

  /** The first record after a restart, or of all, opens a segment. */
  lemma {:induction false} OpensSegment(st: Store, b: Block, free: Flash -> nat, w: Outcome)
    requires (st.segs == [] || st.forceNew) && Append(st, b, free, w).1
    ensures var s := Append(st, b, free, w).0;
      Growing(s, |b.tag|) && s.NewestSeq() == SeqOf(b) && s.Newest().first == SeqOf(b) && s.Newest().count == 1
    ensures var s := Append(st, b, free, w).0;
      HasSpace(st, b, free) && |st.segs| < 256 ==> s.segs[..|s.segs| - 1] == st.segs && s.lost == st.lost
  {
    hide EnsureSpace, RecordBytes, EncodeHeader;
    SeqIs(b);
    RoomKeeps(st, b, free);
    AtMostHeader(st, b);
    assert NeedsNew(Roomy(st, b, free), SeqOf(b), |b.tag|);
    if HasSpace(st, b, free) && |st.segs| < 256 {
      StaysWhole(st, b, free);
      var s := Append(st, b, free, w).0;
      assert s.segs == st.segs + [s.Newest()];
    }
  }

  lemma {:induction false} StaysWhole(st: Store, b: Block, free: Flash -> nat)
    requires HasSpace(st, b, free)
    ensures Roomy(st, b, free) == st
  {
    hide RecordBytes, AppendBytes, Store.Total;
    AtMostHeader(st, b);
  }

  // ---- a run of records ----

  lemma {:induction false} ContiguousRest(js: seq<Job>, next: nat, tagLen: nat)
    requires Contiguous(js, next, tagLen) && js != []
    ensures Contiguous(js[1..], next + 1, tagLen)
  {
    hide Sized, SeqOf;
    forall i | 0 <= i < |js| - 1
      ensures Sized(js[1..][i].b, tagLen) && SeqOf(js[1..][i].b) == next + 1 + i
    {
      assert js[1..][i] == js[i + 1];
    }
  }

  /**
   * Records of one restart and tag length that are all written fill each file up to 64 before the next
   * one appears, however full the log is: after `n` of them, with `c` in the newest file before, that
   * file holds `(c + n - 1) % 64 + 1`.
   */
  lemma {:induction false} FilesHoldSixtyFour(st: Store, js: seq<Job>, free: Flash -> nat, tagLen: nat)
    requires Growing(st, tagLen) && Contiguous(js, st.NewestSeq() + 1, tagLen) && AppendAll(st, js, free).1
    ensures var s := AppendAll(st, js, free).0;
      && Growing(s, tagLen) && s.NewestSeq() == st.NewestSeq() + |js|
      && s.Newest().count == (st.Newest().count + |js| - 1) % 64 + 1
      && (st.Newest().count + |js| <= 64 ==> s.Newest().first == st.Newest().first)
      && (st.Newest().count + |js| > 64 ==> s.Newest().first == s.NewestSeq() + 1 - s.Newest().count)
    decreases |js|
  {
    hide Append, Growing, Sized;
    if js != [] {
      FirstOf(js, st.NewestSeq() + 1, tagLen);
      OneRecord(st, js[0].b, free, js[0].w);
      ContiguousRest(js, st.NewestSeq() + 1, tagLen);
      var s := Append(st, js[0].b, free, js[0].w).0;
      FilesHoldSixtyFour(s, js[1..], free, tagLen);
      CountOf(st, tagLen);
      NextFile(st.Newest().count, |js|);
    } else {
      CountOf(st, tagLen);
    }
  }

  lemma {:induction false} FirstOf(js: seq<Job>, next: nat, tagLen: nat)
    requires Contiguous(js, next, tagLen) && js != []
    ensures SeqOf(js[0].b) == next && |js[0].b.tag| == tagLen && Sized(js[0].b, tagLen)
  {
    hide SeqOf;
  }

  lemma {:induction false} CountOf(st: Store, tagLen: nat)
    requires Growing(st, tagLen)
    ensures 1 <= st.Newest().count <= 64 && st.segs != []
  {
  }

  lemma {:induction false} NextFile(c: nat, n: nat)
    requires 1 <= c <= 64 && n >= 1
    ensures (c + n - 1) % 64 == if c < 64 then (c + 1 + (n - 1) - 1) % 64 else (1 + (n - 1) - 1) % 64
    ensures (c + n - 1) / 64 == if c < 64 then (c + 1 + (n - 1) - 1) / 64 else 1 + (1 + (n - 1) - 1) / 64
  {
  }

  // ---- as many as fit ----

  /** The segments of `segs` from `from` on, except the last, hold 64 records. */
  predicate FullFrom(segs: seq<Segment>, from: nat) {
    forall i :: from <= i < |segs| - 1 ==> segs[i].count == 64
  }

  /**
   * The same while there is space: `n` records take `(c + n - 1) / 64` new files, each of the others is
   * full or as it was, and nothing is discarded as long as they are at most 256.
   */
  lemma {:induction false} NothingLostUntilFull(st: Store, js: seq<Job>, free: Flash -> nat, tagLen: nat)
    requires Growing(st, tagLen) && Contiguous(js, st.NewestSeq() + 1, tagLen) && AppendAll(st, js, free).1
    requires SpaceAlong(st, js, free) && |st.segs| + (st.Newest().count + |js| - 1) / 64 <= 256
    ensures var s, k := AppendAll(st, js, free).0, |st.segs| - 1;
      && |s.segs| == |st.segs| + (st.Newest().count + |js| - 1) / 64
      && s.segs[..k] == st.segs[..k] && FullFrom(s.segs, k) && s.lost == st.lost
    decreases |js|
  {
    hide Append, Growing, Sized, HasSpace;
    CountOf(st, tagLen);
    if js != [] {
      FirstOf(js, st.NewestSeq() + 1, tagLen);
      OneRecord(st, js[0].b, free, js[0].w);
      OneWithSpace(st, js[0].b, free, js[0].w);
      ContiguousRest(js, st.NewestSeq() + 1, tagLen);
      var s := Append(st, js[0].b, free, js[0].w).0;
      NextFile(st.Newest().count, |js|);
      NothingLostUntilFull(s, js[1..], free, tagLen);
      FillsOn(st, s, AppendAll(s, js[1..], free).0);
    }
  }

  /** One record more, then the others. */
  lemma {:induction false} FillsOn(st: Store, s: Store, t: Store)
    requires st.segs != [] && s.segs != [] && |t.segs| >= |s.segs|
    requires t.segs[..|s.segs| - 1] == s.segs[..|s.segs| - 1] && FullFrom(t.segs, |s.segs| - 1)
    requires if |s.segs| == |st.segs| then s.segs[..|st.segs| - 1] == st.segs[..|st.segs| - 1]
      else s.segs[..|s.segs| - 1] == st.segs && st.Newest().count == 64
    ensures t.segs[..|st.segs| - 1] == st.segs[..|st.segs| - 1] && FullFrom(t.segs, |st.segs| - 1)
  {
    var k := |st.segs| - 1;
    if |s.segs| != |st.segs| {
      assert |s.segs| - 1 == |st.segs|;
      assert t.segs[..|st.segs|] == st.segs;
      assert t.segs[..k] == t.segs[..|st.segs|][..k];
      assert t.segs[k] == t.segs[..|st.segs|][k];
    }
  }

  /**
   * From a restart on, `n` records take `n / 64` files, rounded up, beside those there are; up to 256
   * files nothing is discarded. On an empty log that is up to 16384 records.
   */
  lemma {:induction false} FilesNeeded(st: Store, js: seq<Job>, free: Flash -> nat, tagLen: nat, next: nat)
    requires (st.segs == [] || st.forceNew) && js != [] && Contiguous(js, next, tagLen) && AppendAll(st, js, free).1
    requires SpaceAlong(st, js, free) && |st.segs| + (|js| + 63) / 64 <= 256
    ensures var s := AppendAll(st, js, free).0;
      && |s.segs| == |st.segs| + (|js| + 63) / 64 && s.segs[..|st.segs|] == st.segs && FullFrom(s.segs, |st.segs|)
      && s.lost == st.lost
  {
    hide Append, Growing, Sized, HasSpace;
    FirstOf(js, next, tagLen);
    OpensSegment(st, js[0].b, free, js[0].w);
    ContiguousRest(js, next, tagLen);
    var s := Append(st, js[0].b, free, js[0].w).0;
    CountOf(s, tagLen);
    NothingLostUntilFull(s, js[1..], free, tagLen);
  }
}
