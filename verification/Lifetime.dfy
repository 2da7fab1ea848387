/** What holds of every run of the device, from the factory on, whatever fails and whenever the power goes. */
module Lifetime {
  import opened Bytes
  import opened BlockFormat
  import opened SegmentFormat
  import opened StoreSpec
  import opened LogSpec
  import opened AppendKeeps
  import opened Recovery
  import opened PowerCut
  import W = BlockWriter
  import opened CommitKeeps
  import opened Boots
  import opened Device
  import SeqReserve

  lemma {:induction false} FactoryInv(c: Config, legacy: nat)
    requires c.Ok()
    ensures Inv(c, legacy, Factory(legacy), [])
  {
    hide Begin;
    assert FlashOf([]) == map[] && Flat([]) == [];
  }

  lemma {:induction false} RunKeeps(c: Config, legacy: nat, r: Run, log: seq<LogSeg>, es: seq<Event>)
    returns (log': seq<LogSeg>)
    requires c.Ok() && Inv(c, legacy, r, log)
    ensures Inv(c, legacy, RunAll(c, r, es), log')
    decreases |es|
  {
    hide Inv, Advance;
    if es == [] {
      log' := log;
    } else {
      var log1 := StepKeeps(c, legacy, r, log, es[0]);
      log' := RunKeeps(c, legacy, Advance(c, r, es[0]), log1, es[1..]);
    }
  }

  /** The log any run from the factory ends with. */
  lemma {:induction false} Reached(c: Config, legacy: nat, es: seq<Event>) returns (log: seq<LogSeg>)
    requires c.Ok()
    ensures Inv(c, legacy, RunAll(c, Factory(legacy), es), log)
  {
    hide Inv, RunAll;
    FactoryInv(c, legacy);
    log := RunKeeps(c, legacy, Factory(legacy), [], es);
  }

  /**
   * No seq is ever written twice: over any number of restarts and power failures the durable
   * records carry strictly increasing seqs, above those of the old log, and every one of them is
   * below the reserve in NVS.
   */
  lemma {:induction false} SeqsNeverReused(c: Config, legacy: nat, es: seq<Event>)
    requires c.Ok()
    ensures var r := RunAll(c, Factory(legacy), es);
      && (forall i, j :: 0 <= i < j < |r.hist| ==> SeqAt(r.hist, i) < SeqAt(r.hist, j))
      && (forall i :: 0 <= i < |r.hist| ==> legacy < SeqAt(r.hist, i) < r.x.d.nvs)
  {
    hide RunAll, Linked, SeqAt, Logged, Counting, Persists, Consistent;
    var log := Reached(c, legacy, es);
    var r := RunAll(c, Factory(legacy), es);
    forall i, j | 0 <= i < j < |r.hist|
      ensures SeqAt(r.hist, i) < SeqAt(r.hist, j)
    {
      Ordered(r.hist, i, j);
    }
  }

  /**
   * Each restart writes its BOOT before anything else and without gaps after it, and the BOOT
   * declares exactly the seqs between the newest durable record and itself.
   */
  lemma {:induction false} EveryRunIsShaped(c: Config, legacy: nat, es: seq<Event>)
    requires c.Ok()
    ensures Shaped(RunAll(c, Factory(legacy), es).hist)
  {
    hide RunAll, Shaped, Logged, Counting, Persists, Consistent;
    var log := Reached(c, legacy, es);
  }

  // ---- the reserve ----

  lemma {:induction false} StepReserves(c: Config, legacy: nat, r: Run, log: seq<LogSeg>, e: Event)
    requires c.Ok() && Inv(c, legacy, r, log)
    ensures r.x.d.nvs <= Advance(c, r, e).x.d.nvs
  {
    hide W.Committed, Left, Set, BlockData, CommitCutPoint, Begin, History, Logged, Consistent, Persists, BootData,
        Counting, W.WriteBoot;
    if Enabled(c, r.x, e) {
      var (d, bs) := Subject(r.x, e);
      match e
      case BootRecord(tMs, f) =>
        BootIsSet(c, legacy, r, log, tMs, f);
        CommitSet(c, legacy, r, log, d, bs, f);
        WriteBootIs(r.x, tMs, c.free, f);
      case DataRecord(_, f) =>
        DataIsSet(c, legacy, r, log, bs, f);
        CommitSet(c, legacy, r, log, d, bs, f);
      case BootCut(tMs, f, k) =>
        BootIsSet(c, legacy, r, log, tMs, f);
        CutSet(c, legacy, r, log, d, bs, f, k);
      case DataCut(_, f, k) =>
        DataIsSet(c, legacy, r, log, bs, f);
        CutSet(c, legacy, r, log, d, bs, f, k);
      case _ =>
    }
  }

  /** The reserve in NVS only ever grows. */
  lemma {:induction false} ReserveOnlyGrows(c: Config, legacy: nat, r: Run, log: seq<LogSeg>, es: seq<Event>)
    requires c.Ok() && Inv(c, legacy, r, log)
    ensures r.x.d.nvs <= RunAll(c, r, es).x.d.nvs
    decreases |es|
  {
    hide Inv, Advance;
    if es != [] {
      StepReserves(c, legacy, r, log, es[0]);
      var log1 := StepKeeps(c, legacy, r, log, es[0]);
      ReserveOnlyGrows(c, legacy, Advance(c, r, es[0]), log1, es[1..]);
    }
  }

  // ---- what is still there ----

  /**
   * A running device holds the newest records and no others: every record from some point of the
   * history on is read back byte for byte, and none before it is found. That point is exactly as far
   * as the counters of the log say: records freed by confirmations, discarded by appends, by appends
   * cut short, and at boots. All that is gone lies at or below a confirmed seq or the overflow mark
   * of a discard, and the newest record is never gone.
   */
  lemma {:induction false} HoldsTheTail(c: Config, legacy: nat, es: seq<Event>)
    requires c.Ok() && RunAll(c, Factory(legacy), es).x.on
    ensures var r := RunAll(c, Factory(legacy), es);
      var n := r.tally.freed + r.tally.dropped + r.tally.cutShort + r.tally.atBoot;
      && n <= |r.hist| && (r.hist != [] ==> n < |r.hist|)
      && (forall i :: n <= i < |r.hist| ==> Read(r.x.d.st, SeqAt(r.hist, i), {}) == Found(r.hist[i].block))
      && (forall i :: 0 <= i < n ==> Read(r.x.d.st, SeqAt(r.hist, i), {}) == Missing)
      && (forall i :: 0 <= i < n ==> SeqAt(r.hist, i) <= Max(r.tally.confirmed, r.tally.mark))
  {
    hide RunAll, Inv, Read, SeqAt;
    var log := Reached(c, legacy, es);
    HeldTail(c, legacy, RunAll(c, Factory(legacy), es), log);
  }

  lemma {:induction false} HeldTail(c: Config, legacy: nat, r: Run, log: seq<LogSeg>)
    requires Inv(c, legacy, r, log) && r.x.on
    ensures var n := r.tally.freed + r.tally.dropped + r.tally.cutShort + r.tally.atBoot;
      && n <= |r.hist| && (r.hist != [] ==> n < |r.hist|)
      && (forall i :: n <= i < |r.hist| ==> Read(r.x.d.st, SeqAt(r.hist, i), {}) == Found(r.hist[i].block))
      && (forall i :: 0 <= i < n ==> Read(r.x.d.st, SeqAt(r.hist, i), {}) == Missing)
      && (forall i :: 0 <= i < n ==> SeqAt(r.hist, i) <= Max(r.tally.confirmed, r.tally.mark))
  {
    hide Counting, Persists, Linked, Read, SeqAt, Flat, Heads, OpenSegments, Describes;
    var n := TailOf(r.x.d.st, log, r.hist);
  }

  lemma {:induction false} TailOf(st: Store, log: seq<LogSeg>, hist: seq<Rec>) returns (n: nat)
    requires Describes(st, log) && Logged(hist, log) && Shaped(hist)
    ensures n <= |hist| && (hist != [] ==> n < |hist|) && n == |hist| - |Flat(log)|
    ensures forall i :: n <= i < |hist| ==> Read(st, SeqAt(hist, i), {}) == Found(hist[i].block)
    ensures forall i :: 0 <= i < n ==> Read(st, SeqAt(hist, i), {}) == Missing
  {
    hide Describes, Linked, Read, Flat, OpenSegments, Heads, SeqOf;
    n := |hist| - |Flat(log)|;
    forall i | n <= i < |hist|
      ensures Read(st, SeqAt(hist, i), {}) == Found(hist[i].block)
    {
      InTail(hist, Flat(log), i);
      ReadIsLookup(st, log, i - n);
    }
    forall i | 0 <= i < n
      ensures Read(st, SeqAt(hist, i), {}) == Missing
    {
      BeforeTail(hist, Flat(log), i);
      StoredIsHeld(st, log, SeqAt(hist, i));
    }
  }

  lemma {:induction false} InTail(hist: seq<Rec>, r: seq<Block>, i: nat)
    requires IsSuffix(r, Blocks(hist)) && |hist| - |r| <= i < |hist|
    ensures r[i - (|hist| - |r|)] == hist[i].block && SeqAt(hist, i) == SeqOf(hist[i].block)
  {
    hide SeqOf;
    assert Blocks(hist)[i] == hist[i].block;
  }

  lemma {:induction false} BeforeTail(hist: seq<Rec>, r: seq<Block>, i: nat)
    requires IsSuffix(r, Blocks(hist)) && Shaped(hist) && i < |hist| - |r|
    ensures !Holds(r, SeqAt(hist, i))
  {
    hide Linked, SeqOf;
    forall k | 0 <= k < |r|
      ensures SeqOf(r[k]) != SeqAt(hist, i)
    {
      var j := k + (|hist| - |r|);
      InTail(hist, r, j);
      Ordered(hist, i, j);
    }
  }

  // ---- one restart per segment ----

  /** All records the index puts in one segment were written by one restart. */
  lemma {:induction false} OneRestartPerSegment(c: Config, legacy: nat, es: seq<Event>, j: nat, a: nat, b: nat)
    requires c.Ok() && RunAll(c, Factory(legacy), es).x.on
    requires var r := RunAll(c, Factory(legacy), es);
      && j < |r.x.d.st.segs| && a <= b < |r.hist|
      && r.x.d.st.segs[j].first <= SeqAt(r.hist, a) && SeqAt(r.hist, b) <= r.x.d.st.segs[j].last
      && Read(r.x.d.st, SeqAt(r.hist, a), {}).Found?
    ensures var hist := RunAll(c, Factory(legacy), es).hist; hist[a].era == hist[b].era
  {
    hide RunAll, Counting, Persists, Linked, Read, SeqAt, Flat, OpenSegments, FlashOf, LogSeg.Wf, Heads, SeqOf;
    var log := Reached(c, legacy, es);
    var r := RunAll(c, Factory(legacy), es);
    SegOfDescribed(r.x.d.st, log, j);
    SameEra(r.hist, log, j, a, b);
  }

  lemma {:induction false} SameEra(hist: seq<Rec>, log: seq<LogSeg>, j: nat, a: nat, b: nat)
    requires Shaped(hist) && OpenSegments(log, Heads(hist)) && j < |log| && log[j].Wf() && a <= b < |hist|
    requires log[j].first <= SeqAt(hist, a) && SeqAt(hist, b) <= log[j].Last()
    ensures hist[a].era == hist[b].era
    decreases b - a
  {
    if a < b {
      hide SeqOf, Heads, Linked, SeqAt;
      var s := SeqAt(hist, b);
      Ordered(hist, a, b);
      var k := s - log[j].first;
      assert Sized(log[j].recs[k], log[j].tagLen);
      RecordSeq(log[j], k);
      HeadsAreSeqs(hist, s);
      assert !Opens(hist, b);
      if a < b - 1 {
        Ordered(hist, a, b - 1);
      }
      Ordered(hist, b - 1, b);
      SameEra(hist, log, j, a, b - 1);
    }
  }

  lemma {:induction false} RecordSeq(g: LogSeg, k: nat)
    requires g.Wf() && k < |g.recs|
    ensures SeqOf(g.recs[k]) == g.first + k
  {
  }

  // ---- coverage ----

  /** `s` is the seq of a durable record, or one a BOOT declared to be missing. */
  ghost predicate Covered(hist: seq<Rec>, s: nat) {
    exists i :: 0 <= i < |hist| && Covers(hist, i, s)
  }

  predicate Covers(hist: seq<Rec>, i: nat, s: nat)
    requires i < |hist|
  {
    || SeqAt(hist, i) == s
    || (Opens(hist, i) && var m := ParseMarker(hist[i].block.data); m.Boot? && m.from <= s <= m.to)
  }

  /** The records and the gaps their BOOTs declare cover one range: from the first record to the last. */
  lemma {:induction false} CoveredIsRange(hist: seq<Rec>, s: nat)
    requires Shaped(hist) && hist != []
    ensures Covered(hist, s) <==> SeqAt(hist, 0) <= s <= SeqAt(hist, |hist| - 1)
  {
    if SeqAt(hist, 0) <= s <= SeqAt(hist, |hist| - 1) {
      var i := FindCover(hist, s);
      assert Covers(hist, i, s);
    }
    if Covered(hist, s) {
      hide ParseMarker, SeqAt;
      var i :| 0 <= i < |hist| && Covers(hist, i, s);
      CoversWithin(hist, i, s);
      if i > 0 {
        Ordered(hist, 0, i);
      }
      if i > 1 {
        Ordered(hist, 0, i - 1);
      }
      if i < |hist| - 1 {
        Ordered(hist, i, |hist| - 1);
      }
    }
  }

  lemma {:induction false} CoversWithin(hist: seq<Rec>, i: nat, s: nat)
    requires Shaped(hist) && i < |hist| && Covers(hist, i, s)
    ensures (if i == 0 then SeqAt(hist, 0) - 1 else SeqAt(hist, i - 1)) < s <= SeqAt(hist, i)
  {
    hide ParseMarker, SeqAt;
    assert Linked(hist, i);
    if i > 0 {
      Ordered(hist, i - 1, i);
    }
  }

  lemma {:induction false} FindCover(hist: seq<Rec>, s: nat) returns (i: nat)
    requires Shaped(hist) && hist != [] && SeqAt(hist, 0) <= s <= SeqAt(hist, |hist| - 1)
    ensures i < |hist| && Covers(hist, i, s)
  {
    hide ParseMarker, SeqAt;
    i := |hist| - 1;
    while i > 0 && s <= SeqAt(hist, i - 1)
      invariant i < |hist| && s <= SeqAt(hist, i)
    {
      i := i - 1;
    }
    assert Linked(hist, i);
  }

  /** They cover everything from seq 1 on exactly when the first record has seq 1. */
  lemma {:induction false} CoverageNeedsSeqOne(hist: seq<Rec>)
    requires Shaped(hist) && hist != []
    ensures (forall s :: 1 <= s <= SeqAt(hist, |hist| - 1) ==> Covered(hist, s)) <==> SeqAt(hist, 0) == 1
  {
    hide Covered, Linked, SeqAt;
    FirstIsPositive(hist);
    forall s: nat
      ensures Covered(hist, s) <==> SeqAt(hist, 0) <= s <= SeqAt(hist, |hist| - 1)
    {
      CoveredIsRange(hist, s);
    }
    if |hist| > 1 {
      Ordered(hist, 0, |hist| - 1);
    }
    if forall s :: 1 <= s <= SeqAt(hist, |hist| - 1) ==> Covered(hist, s) {
      assert Covered(hist, 1);
    }
  }

  lemma {:induction false} FirstIsPositive(hist: seq<Rec>)
    requires Shaped(hist) && hist != []
    ensures SeqAt(hist, 0) >= 1
  {
    hide SeqAt, ParseMarker;
    assert Linked(hist, 0);
  }

  // ---- the restart that decides ----

  /** A restart while nothing was ever made durable. */
  predicate StartsBare(c: Config, legacy: nat, es: seq<Event>, k: int) {
    0 <= k < |es| && var r := RunAll(c, Factory(legacy), es[..k]);
      es[k].PowerOn? && Enabled(c, r.x, es[k]) && r.hist == []
  }

  /** The last such restart: the one that writes the first durable record, if there is any. */
  ghost predicate Founds(c: Config, legacy: nat, es: seq<Event>, i: nat) {
    i < |es| && StartsBare(c, legacy, es, i) && forall k :: i < k < |es| ==> !StartsBare(c, legacy, es, k)
  }

  lemma {:induction false} RunMore(c: Config, r: Run, es: seq<Event>, e: Event)
    ensures RunAll(c, r, es + [e]) == Advance(c, RunAll(c, r, es), e)
    decreases |es|
  {
    hide Advance;
    if es == [] {
      assert es + [e] == [e] && [e][1..] == [];
      assert RunAll(c, r, [e]) == RunAll(c, Advance(c, r, e), []);
    } else {
      assert (es + [e])[1..] == es[1..] + [e];
      RunMore(c, Advance(c, r, es[0]), es[1..], e);
    }
  }

  lemma {:induction false} RunTo(c: Config, r: Run, es: seq<Event>, k: nat)
    requires k < |es|
    ensures RunAll(c, r, es[..k + 1]) == Advance(c, RunAll(c, r, es[..k]), es[k])
  {
    hide Advance, RunAll;
    assert es[..k + 1] == es[..k] + [es[k]];
    RunMore(c, r, es[..k], es[k]);
  }

  /** Without a restart nothing becomes durable. */
  lemma {:induction false} NeverStarted(c: Config, legacy: nat, es: seq<Event>, k: nat)
    requires k <= |es| && forall j :: 0 <= j < k ==> !StartsBare(c, legacy, es, j)
    ensures var r := RunAll(c, Factory(legacy), es[..k]); !r.x.on && r.hist == []
  {
    if k > 0 {
      hide Step, Durable, Tallied, RunAll;
      NeverStarted(c, legacy, es, k - 1);
      RunTo(c, Factory(legacy), es, k - 1);
      assert !StartsBare(c, legacy, es, k - 1);
    } else {
      assert es[..0] == [];
    }
  }

  /** In every run with a durable record one restart founded the history. */
  lemma {:induction false} EveryRunIsFounded(c: Config, legacy: nat, es: seq<Event>) returns (i: nat)
    requires RunAll(c, Factory(legacy), es).hist != []
    ensures Founds(c, legacy, es, i)
  {
    hide StartsBare, RunAll;
    SomeStarted(c, legacy, es);
    var k := |es|;
    while k > 0 && !StartsBare(c, legacy, es, k - 1)
      invariant k <= |es| && forall j :: k <= j < |es| ==> !StartsBare(c, legacy, es, j)
    {
      k := k - 1;
    }
    i := k - 1;
  }

  lemma {:induction false} SomeStarted(c: Config, legacy: nat, es: seq<Event>)
    requires RunAll(c, Factory(legacy), es).hist != []
    ensures exists j :: 0 <= j < |es| && StartsBare(c, legacy, es, j)
  {
    hide StartsBare, RunAll;
    assert es[..|es|] == es;
    if forall j :: 0 <= j < |es| ==> !StartsBare(c, legacy, es, j) {
      NeverStarted(c, legacy, es, |es|);
    }
  }

  /**
   * The seq a restart gives its BOOT when nothing was ever made durable: the reserve in NVS, or the old
   * counter and one.
   */
  function FirstSeq(x: World): nat { if x.d.nvs > 0 then x.d.nvs else x.legacy + 1 }

  lemma {:induction false} BareRestart(c: Config, legacy: nat, r: Run, log: seq<LogSeg>, bootId: nat, maxBlocks: nat)
    requires c.Ok() && Inv(c, legacy, r, log) && !r.x.on && r.hist == [] && maxBlocks >= 2 * BLOCKS_PER_SEGMENT
    ensures var x := Advance(c, r, PowerOn(bootId, maxBlocks)).x;
      && x.on && x.d.w.pending && x.d.w.reserve == 0 && x.d.nvs == r.x.d.nvs && x.legacy == r.x.legacy
      && x.d.w.next == FirstSeq(r.x) && x.d.w.step == c.step
    ensures Advance(c, r, PowerOn(bootId, maxBlocks)).hist == []
  {
    hide Begin, Flat, OpenSegments, SeqOf, FlashOf, LogWf, Heads, Slid, TooMuch, Accounted;
    var st := Begin(r.x.d.st.flash, maxBlocks);
    var k := BeginRebuilds(log, maxBlocks);
    assert Blocks(r.hist) == [];
    LeftEmpty(r.x.d.st.flash, log);
  }

  /** Until the first durable record its seq is settled, and then it stays. */
  ghost predicate Settled(r: Run, s: nat) {
    if r.hist == [] then r.x.on ==> r.x.d.w.next == s else SeqAt(r.hist, 0) == s
  }

  lemma {:induction false} FirstStays(hist: seq<Rec>, more: seq<Rec>)
    ensures hist != [] ==> SeqAt(hist + more, 0) == SeqAt(hist, 0)
    ensures [] + more == more
  {
    hide SeqOf;
  }

  lemma {:induction false} StepSettles(c: Config, legacy: nat, r: Run, log: seq<LogSeg>, e: Event, s: nat)
    requires c.Ok() && Inv(c, legacy, r, log) && Settled(r, s)
    requires !(e.PowerOn? && Enabled(c, r.x, e) && r.hist == [])
    ensures Settled(Advance(c, r, e), s)
  {
    hide W.Committed, Left, LeftWhole, Set, BlockData, CommitCutPoint, Begin, History, Logged, Consistent, Persists,
        BootData, W.WriteBoot, SeqAt, Accounted, Tallied, DeleteUpTo, BlockOf;
    if Enabled(c, r.x, e) {
      FirstStays(r.hist, Durable(c, r.x, e));
      if r.hist == [] && (e.BootRecord? || e.BootCut?) {
        BootSettles(c, legacy, r, log, e);
      }
    }
  }

  /** The first record is the BOOT, with the seq its restart gave it. */
  lemma {:induction false} BootSettles(c: Config, legacy: nat, r: Run, log: seq<LogSeg>, e: Event)
    requires c.Ok() && Inv(c, legacy, r, log) && Enabled(c, r.x, e) && r.hist == [] && (e.BootRecord? || e.BootCut?)
    ensures Durable(c, r.x, e) != [] ==> SeqAt(Durable(c, r.x, e), 0) == r.x.d.w.next
    ensures Durable(c, r.x, e) == [] && Advance(c, r, e).x.on ==> Advance(c, r, e).x.d.w.next == r.x.d.w.next
  {
    hide W.Committed, Left, LeftWhole, Set, CommitCutPoint, History, Logged, Consistent, Persists, BootData,
        W.WriteBoot,
        Accounted, Tallied, BlockOf, Kept, SeqOf, CommitLog;
    var (d, bs) := Subject(r.x, e);
    BootIsSet(c, legacy, r, log, e.tMs, e.f);
    var heads := SetHeads(c, legacy, r, log, d, bs, e.f, false);
    if e.BootRecord? {
      CommitSet(c, legacy, r, log, d, bs, e.f);
      WriteBootIs(r.x, e.tMs, c.free, e.f);
    }
  }

  lemma {:induction false} FoundedAt(c: Config, legacy: nat, es: seq<Event>, i: nat, k: nat)
    requires c.Ok() && Founds(c, legacy, es, i) && i < k <= |es|
    ensures Settled(RunAll(c, Factory(legacy), es[..k]), FirstSeq(RunAll(c, Factory(legacy), es[..i]).x))
    decreases k
  {
    hide RunAll, Inv, Settled, Step, Durable, Tallied;
    var r := RunAll(c, Factory(legacy), es[..k - 1]);
    var log := Reached(c, legacy, es[..k - 1]);
    RunTo(c, Factory(legacy), es, k - 1);
    if k == i + 1 {
      BareRestart(c, legacy, r, log, es[i].bootId, es[i].maxBlocks);
      SettledAtStart(Advance(c, r, es[i]), FirstSeq(r.x));
    } else {
      FoundedAt(c, legacy, es, i, k - 1);
      assert !StartsBare(c, legacy, es, k - 1);
      StepSettles(c, legacy, r, log, es[k - 1], FirstSeq(RunAll(c, Factory(legacy), es[..i]).x));
    }
  }

  lemma {:induction false} SettledAtStart(r: Run, s: nat)
    requires r.hist == [] && r.x.d.w.next == s
    ensures Settled(r, s)
  {
  }

  /**
   * The requirement that records and declared gaps cover everything from seq 1 on. The code meets it
   * if and only if the restart that writes the first durable record finds no reserve in NVS and no
   * old counter.
   */
  lemma {:induction false} CoverageFromOne(c: Config, legacy: nat, es: seq<Event>, i: nat)
    requires c.Ok() && Founds(c, legacy, es, i) && RunAll(c, Factory(legacy), es).hist != []
    ensures var hist, x := RunAll(c, Factory(legacy), es).hist, RunAll(c, Factory(legacy), es[..i]).x;
      (forall s :: 1 <= s <= SeqAt(hist, |hist| - 1) ==> Covered(hist, s)) <==> x.d.nvs == 0 && x.legacy == 0
  {
    hide RunAll, Covered, Shaped, SeqAt, Logged, Counting, Persists, Consistent, Accounted, StartsBare;
    EveryRunIsShaped(c, legacy, es);
    var log := Reached(c, legacy, es[..i]);
    FoundedAt(c, legacy, es, i, |es|);
    assert es[..|es|] == es;
    CoverageNeedsSeqOne(RunAll(c, Factory(legacy), es).hist);
  }

  // ---- a run that does not cover seq 1 ----

  const LIMIT: nat := 2 * BLOCKS_PER_SEGMENT

  function NoFaults(): W.Faults { W.Faults(W.Save(true, true), Some([]), None, Written(2048), OpenFails) }

  /** The power fails in the very first boot, after the reserve is saved and before the BOOT is written. */
  function LateFirstBoot(): seq<Event> {
    [PowerOn(1, LIMIT), BootCut(0, NoFaults(), AfterSave), PowerOn(2, LIMIT), BootRecord(0, NoFaults())]
  }

  lemma {:induction false} FourEvents(c: Config, r: Run, a: Event, b: Event, d: Event, e: Event)
    ensures RunAll(c, r, [a, b, d, e]) == Advance(c, Advance(c, Advance(c, Advance(c, r, a), b), d), e)
  {
    hide Advance;
    var es := [a, b, d, e];
    assert es[1..] == [b, d, e] && [b, d, e][1..] == [d, e] && [d, e][1..] == [e] && [e][1..] == [];
    assert RunAll(c, r, es) == RunAll(c, Advance(c, r, a), [b, d, e]);
    assert RunAll(c, Advance(c, r, a), [b, d, e]) == RunAll(c, Advance(c, Advance(c, r, a), b), [d, e]);
    var r2 := Advance(c, Advance(c, r, a), b);
    assert RunAll(c, r2, [d, e]) == RunAll(c, Advance(c, r2, d), [e]);
  }

  /** When nothing fails the BOOT becomes durable, intact, with the seq and the range of its restart. */
  lemma {:induction false} BootGoesThrough(c: Config, r: Run, log: seq<LogSeg>) returns (b: Block)
    requires c.Ok() && c.tagLen == 0 && Inv(c, 0, r, log) && r.x.on && r.x.d.w.pending
    requires r.x.d.w.next + c.step < U32_END
    ensures var r' := Advance(c, r, BootRecord(0, NoFaults()));
      && r'.hist == r.hist + [Rec(b, r.x.era)] && r'.x.on && Enabled(c, r.x, BootRecord(0, NoFaults()))
      && SeqOf(b) == r.x.d.w.next && CrcMatches(b) && ParseMarker(b.data) == Boot(r.x.d.w.bootFrom, r.x.d.w.bootTo)
  {
    hide Inv, BootData, W.Committed, SeqOf, Ready, W.Signed, Tallied, CrcMatches, ParseMarker, W.WriteBoot, LengthField,
        Shapely;
    var d, bs, f := BootDevice(r.x), BootData(r.x, 0), NoFaults();
    b := BlockOf(d, bs, f);
    BootIsSet(c, 0, r, log, 0, f);
    SetIsReady(c, r, log, d, bs, f);
    GoesThrough(d, log, bs, c.free);
    WriteBootIs(r.x, 0, c.free, f);
    BlockFits(d, log, bs, c.tagLen, f);
    InRange(c, r, log);
    BootDataIsBlock(r.x, 0);
    IsIntact(d, log, bs, f);
  }

  lemma {:induction false} InRange(c: Config, r: Run, log: seq<LogSeg>)
    requires Inv(c, 0, r, log) && r.x.on && r.x.d.w.pending && r.x.d.w.next < U32_END
    ensures r.x.d.w.bootFrom < U32_END && r.x.d.w.bootTo < U32_END
  {
    hide SeqAt, Logged, Accounted, Consistent, Shaped;
  }

  lemma {:induction false} IsIntact(d: W.Device, log: seq<LogSeg>, bs: bytes, f: W.Faults)
    requires Ready(d, log, bs, 0, f)
    ensures CrcMatches(BlockOf(d, bs, f))
  {
    hide W.Signed, Consistent, LengthField, CrcMatches, ParseMarker, Sized, SeqOf;
    SignedFits(d.w, bs, if f.Tag().Some? then f.Tag().value else []);
  }

  lemma {:induction false} SetIsReady(c: Config, r: Run, log: seq<LogSeg>, d: W.Device, bs: bytes, f: W.Faults)
    requires Set(c, 0, r, log, d, bs, f)
    ensures Ready(d, log, bs, c.tagLen, f)
  {
    hide Ready, History, Logged, Linked, Opens, BlockOf, SeqAt;
  }

  lemma {:induction false} GoesThrough(d: W.Device, log: seq<LogSeg>, bs: bytes, free: Flash -> nat)
    requires Ready(d, log, bs, 0, NoFaults())
    ensures W.Committed(d, bs, free, NoFaults()).1
  {
    hide Ready, Append, AppendBytes, W.Signed, Appendable, Consistent;
    var b := BlockOf(d, bs, NoFaults());
    BlockFits(d, log, bs, 0, NoFaults());
    ReadyIsConsistent(d, log, bs, NoFaults());
    AppendOutcome(d.st, log, b, free, Written(2048));
    ShortBlock(d.st, b);
  }

  lemma {:induction false} ReadyIsConsistent(d: W.Device, log: seq<LogSeg>, bs: bytes, f: W.Faults)
    requires Ready(d, log, bs, 0, f)
    ensures Consistent(d.st, log)
  {
  }

  lemma {:induction false} ShortBlock(st: Store, b: Block)
    requires Appendable(st, b)
    ensures |AppendBytes(st, b)| <= 2048
  {
  }

  /** The device then starts at seq 65 and no BOOT says what became of the seqs before: seq 1 is not covered. */
  lemma {:induction false} CoverageCanMissOne(c: Config)
    requires c.Ok() && c.tagLen == 0 && c.step == SeqReserve.DEFAULT_STEP
    ensures var r := RunAll(c, Factory(0), LateFirstBoot());
      r.x.on && |r.hist| == 1 && SeqAt(r.hist, 0) == 65 && !Covered(r.hist, 1)
  {
    var r0 := Factory(0);
    FactoryInv(c, 0);
    FourEvents(c, r0, PowerOn(1, LIMIT), BootCut(0, NoFaults(), AfterSave), PowerOn(2, LIMIT),
               BootRecord(0, NoFaults()));
    EveryRunIsShaped(c, 0, LateFirstBoot());
    hide RunAll, Covered, Linked, SeqAt, Inv;
    BareRestart(c, 0, r0, [], 1, LIMIT);
    var r1 := Advance(c, r0, PowerOn(1, LIMIT));
    var log1 := StepKeeps(c, 0, r0, [], PowerOn(1, LIMIT));
    CutAfterSave(c, r1);
    var r2 := Advance(c, r1, BootCut(0, NoFaults(), AfterSave));
    var log2 := StepKeeps(c, 0, r1, log1, BootCut(0, NoFaults(), AfterSave));
    BareRestart(c, 0, r2, log2, 2, LIMIT);
    var r3 := Advance(c, r2, PowerOn(2, LIMIT));
    var log3 := StepKeeps(c, 0, r2, log2, PowerOn(2, LIMIT));
    var b := BootGoesThrough(c, r3, log3);
    OneRecord(Rec(b, r3.x.era), SeqOf(b));
    CoveredIsRange(Advance(c, r3, BootRecord(0, NoFaults())).hist, 1);
  }

  lemma {:induction false} OneRecord(b: Rec, s: nat)
    requires SeqOf(b.block) == s
    ensures |[] + [b]| == 1 && SeqAt([] + [b], 0) == s
  {
    hide SeqOf;
  }

  lemma {:induction false} CutAfterSave(c: Config, r: Run)
    requires c.Ok() && c.tagLen == 0 && r.x.on && r.x.d.w.pending && r.hist == [] && r.x.d.w.reserve == 0
    requires r.x.d.w.next + c.step < U32_END && r.x.d.w.step == c.step
    ensures var r' := Advance(c, r, BootCut(0, NoFaults(), AfterSave));
      r'.hist == [] && !r'.x.on && r'.x.d.nvs == r.x.d.w.next + c.step && r'.x.legacy == r.x.legacy
  {
    hide BootMarker, BlockOf;
  }

  // ---- the calls of the writer, as events ----

  /**
   * `write` with a pending BOOT is the two events BootRecord and DataRecord; if the BOOT does not go
   * through it is the first alone, and counts a second failure for the data it did not write.
   */
  lemma {:induction false} WriteIsEvents(c: Config, r: Run, bs: bytes, tMs: nat, fBoot: W.Faults, f: W.Faults)
    requires c.Ok() && Enabled(c, r.x, BootRecord(tMs, fBoot))
    ensures var r1, d := Advance(c, r, BootRecord(tMs, fBoot)), W.WriteData(r.x.d, bs, tMs, c.free, fBoot, f).0;
      if r1.x.d.w.pending then d == r1.x.d.(w := r1.x.d.w.(failed := r1.x.d.w.failed + 1))
      else Enabled(c, r1.x, DataRecord(bs, f)) ==> Advance(c, r1, DataRecord(bs, f)).x.d == d
  {
    PendingStays(BootDevice(r.x), BootData(r.x, tMs), c.free, fBoot);
    hide W.Committed, BootMarker;
  }

  lemma {:induction false} PendingStays(d: W.Device, bs: bytes, free: Flash -> nat, f: W.Faults)
    ensures W.Committed(d, bs, free, f).0.w.pending == d.w.pending
  {
    hide W.AppendTwice, W.Signed;
  }
}
