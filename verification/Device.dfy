/**
 * The device over its whole life: restarts (app/CollectorApp.cpp, steps 1-6), BOOT and data
 * records, deletions after confirmation, and power failures at any moment of any of them.
 */
module Device {
  import opened Bytes
  import opened BlockFormat
  import opened SegmentFormat
  import opened StoreSpec
  import opened LogSpec
  import opened Recovery
  import opened PowerCut
  import W = BlockWriter
  import opened CommitKeeps
  import opened Boots
  import SeqReserve

  datatype Config = Config(free: Flash -> nat, step: nat, tagLen: nat)
  {
    predicate Ok() { step >= 1 && ValidTagLen(tagLen) }
  }

  /** While the power is off only `d.st.flash`, `d.nvs` and `legacy` mean anything. `era` counts restarts. */
  datatype World = World(d: W.Device, on: bool, legacy: nat, era: nat)

  datatype Event =
    | PowerOn(bootId: nat, maxBlocks: nat)
    | BootRecord(tMs: nat, f: W.Faults)
    | BootCut(tMs: nat, f: W.Faults, c: CommitCut)
    | DataRecord(data: bytes, f: W.Faults)
    | DataCut(data: bytes, f: W.Faults, c: CommitCut)
    | Confirm(upTo: nat)
    | ForgetLegacy
    | PowerOff

  /** A block on flash, and the restart that wrote it. */
  datatype Rec = Rec(block: Block, era: nat)

  /**
   * The records that left the log, by what removed them: confirmations, appends, appends cut short
   * by a power failure, and boots. All lie at or below a confirmed seq or the overflow mark of a discard.
   */
  datatype Tally = Tally(freed: nat, dropped: nat, cutShort: nat, atBoot: nat, confirmed: nat, mark: nat)
  {
    function Gone(): nat { freed + dropped + cutShort + atBoot }

    function UpTo(): nat { Max(confirmed, mark) }
  }

  /** The device, every record it ever made durable, in order, and what became of those no longer there. */
  datatype Run = Run(x: World, hist: seq<Rec>, tally: Tally)

  // ---- steps ----

  function BootDevice(x: World): W.Device { W.Pending(x.d, x.d.w.bootFrom, x.d.w.bootTo) }

  function BootData(x: World, tMs: nat): bytes {
    BootMarker(x.d.w.next, x.d.w.bootId, tMs, x.d.w.bootFrom, x.d.w.bootTo)
  }

  /** The device about to commit, and the data area. */
  function Subject(x: World, e: Event): (W.Device, bytes) {
    match e
    case BootRecord(tMs, _) => (BootDevice(x), BootData(x, tMs))
    case BootCut(tMs, _, _) => (BootDevice(x), BootData(x, tMs))
    case DataRecord(data, _) => (x.d, data)
    case DataCut(data, _, _) => (x.d, data)
    case _ => (x.d, [])
  }

  /** Seqs are 32 bits wide and are assumed not to run out. */
  predicate MayCommit(c: Config, x: World, f: W.Faults) {
    x.on && f.Ok(c.tagLen) && x.d.w.next + c.step < U32_END
  }

  predicate Shapely(data: bytes) { HEADER <= |data| <= MAX_DATA && LengthField(data) == |data| }

  /** What the block builder hands over: a whole data area that is no marker. */
  predicate BlockData(data: bytes) { Shapely(data) && ParseMarker(data) == NoMarker }

  predicate Enabled(c: Config, x: World, e: Event) {
    var (d, bs) := Subject(x, e);
    match e
    case PowerOn(_, maxBlocks) => !x.on && maxBlocks >= 2 * BLOCKS_PER_SEGMENT
    case BootRecord(_, f) => MayCommit(c, x, f) && x.d.w.pending
    case BootCut(_, f, k) => MayCommit(c, x, f) && x.d.w.pending && CommitCutPoint(d, bs, c.free, f, k)
    case DataRecord(_, f) => MayCommit(c, x, f) && !x.d.w.pending && BlockData(bs)
    case DataCut(_, f, k) => MayCommit(c, x, f) && !x.d.w.pending && BlockData(bs)
      && CommitCutPoint(d, bs, c.free, f, k)
    case Confirm(_) => x.on
    case ForgetLegacy => x.on && !x.d.w.pending
    case PowerOff => x.on
  }

  /** Boot steps 1 to 4: index the log with the limit of this firmware, recover the seq, and leave a BOOT pending. */
  function Restart(c: Config, x: World, bootId: nat, maxBlocks: nat): World {
    var st := Begin(x.d.st.flash, maxBlocks);
    var r := SeqReserve.Recover(x.d.nvs, x.legacy, st.NewestSeq());
    var w := W.Writer(r.bootSeq, 0, c.step, bootId, false, 0, 0, 0);
    World(W.Pending(W.Device(st, w, x.d.nvs), r.from, r.to), true, x.legacy, x.era + 1)
  }

  /** Power off in the middle of a commit. */
  function Cut(c: Config, x: World, d: W.Device, data: bytes, f: W.Faults, k: CommitCut): World {
    var left := Left(d, data, c.free, f, k);
    x.(on := false, d := d.(st := d.st.(flash := left.flash), nvs := left.nvs))
  }

  function Step(c: Config, x: World, e: Event): World {
    var (d, bs) := Subject(x, e);
    match e
    case PowerOn(bootId, maxBlocks) => Restart(c, x, bootId, maxBlocks)
    case BootRecord(tMs, f) => x.(d := W.WriteBoot(x.d, tMs, c.free, f).0)
    case BootCut(_, f, k) => Cut(c, x, d, bs, f, k)
    case DataRecord(_, f) => x.(d := W.Committed(x.d, bs, c.free, f).0)
    case DataCut(_, f, k) => Cut(c, x, d, bs, f, k)
    case Confirm(upTo) => x.(d := x.d.(st := DeleteUpTo(x.d.st, upTo)))
    case ForgetLegacy => x.(legacy := 0)
    case PowerOff => x.(on := false)
  }

  /** What the step makes durable. */
  function Durable(c: Config, x: World, e: Event): seq<Rec> {
    var (d, bs) := Subject(x, e);
    match e
    case BootRecord(_, f) => Entry(x, d, bs, f, W.Committed(d, bs, c.free, f).1)
    case BootCut(_, f, k) => Entry(x, d, bs, f, LeftWhole(d, bs, c.free, f, k))
    case DataRecord(_, f) => Entry(x, d, bs, f, W.Committed(d, bs, c.free, f).1)
    case DataCut(_, f, k) => Entry(x, d, bs, f, LeftWhole(d, bs, c.free, f, k))
    case _ => []
  }

  function Entry(x: World, d: W.Device, bs: bytes, f: W.Faults, whole: bool): seq<Rec> {
    if whole then [Rec(BlockOf(d, bs, f), x.era)] else []
  }

  /** By how much the loss counter moved. */
  function Lost(st: Store, st': Store): nat { if st'.lost > st.lost then st'.lost - st.lost else 0 }

  /** What the counters of the log say has gone. */
  function Tallied(c: Config, x: World, t: Tally, e: Event): Tally {
    var (d, bs) := Subject(x, e);
    match e
    case PowerOn(_, maxBlocks) =>
      var st := Begin(x.d.st.flash, maxBlocks);
      t.(atBoot := t.atBoot + st.lost, mark := Max(t.mark, st.overflow))
    case BootRecord(_, f) =>
      var st := W.Committed(d, bs, c.free, f).0.st;
      t.(dropped := t.dropped + Lost(d.st, st), mark := Max(t.mark, st.overflow))
    case DataRecord(_, f) =>
      var st := W.Committed(d, bs, c.free, f).0.st;
      t.(dropped := t.dropped + Lost(d.st, st), mark := Max(t.mark, st.overflow))
    case BootCut(_, f, k) =>
      var st := AtCut(d, bs, c.free, f, k);
      t.(cutShort := t.cutShort + Lost(d.st, st), mark := Max(t.mark, st.overflow))
    case DataCut(_, f, k) =>
      var st := AtCut(d, bs, c.free, f, k);
      t.(cutShort := t.cutShort + Lost(d.st, st), mark := Max(t.mark, st.overflow))
    case Confirm(upTo) =>
      var before, after := x.d.st.Total(), DeleteUpTo(x.d.st, upTo).Total();
      t.(freed := t.freed + (if before > after then before - after else 0), confirmed := Max(t.confirmed, upTo))
    case _ => t
  }

  function Advance(c: Config, r: Run, e: Event): Run {
    if Enabled(c, r.x, e) then Run(Step(c, r.x, e), r.hist + Durable(c, r.x, e), Tallied(c, r.x, r.tally, e)) else r
  }

  function RunAll(c: Config, r: Run, es: seq<Event>): Run
    decreases |es|
  {
    if es == [] then r else RunAll(c, Advance(c, r, es[0]), es[1..])
  }

  /** A device out of the factory, or one that migrates from the old log with last seq `legacy`. */
  function Factory(legacy: nat): Run {
    var st := Store([], map[], 0, false, 0, 0);
    Run(World(W.Device(st, W.Writer(0, 0, 0, 0, false, 0, 0, 0), 0), false, legacy, 0), [],
        Tally(0, 0, 0, 0, 0, 0))
  }

  // ---- the shape of the history ----

  function Blocks(hist: seq<Rec>): seq<Block> { seq(|hist|, i requires 0 <= i < |hist| => hist[i].block) }

  function SeqAt(hist: seq<Rec>, i: int): nat { if 0 <= i < |hist| then SeqOf(hist[i].block) else 0 }

  /** The first durable record of a restart. */
  predicate Opens(hist: seq<Rec>, i: int) {
    0 <= i < |hist| && (i == 0 || hist[i - 1].era != hist[i].era)
  }

  /**
   * A record opens its restart as a BOOT that declares every seq between the record before it and
   * itself (nothing, when there is none before), or it is data and follows its predecessor without a gap.
   */
  predicate Linked(hist: seq<Rec>, i: nat) {
    i < |hist| ==>
      var s := SeqAt(hist, i);
      && s >= 1
      && (i > 0 ==> SeqAt(hist, i - 1) < s && hist[i - 1].era <= hist[i].era)
      && (if Opens(hist, i)
          then ParseMarker(hist[i].block.data) == Boot(if i == 0 then s else SeqAt(hist, i - 1) + 1, s - 1)
          else s == SeqAt(hist, i - 1) + 1 && ParseMarker(hist[i].block.data) == NoMarker)
  }

  ghost predicate Shaped(hist: seq<Rec>) {
    forall i :: 0 <= i < |hist| ==> Linked(hist, i)
  }

  /** The seqs of the records that open a restart. */
  function Heads(hist: seq<Rec>): set<nat> {
    if hist == [] then {}
    else
      var n := |hist| - 1;
      Heads(hist[..n]) + (if Opens(hist, n) then {SeqAt(hist, n)} else {})
  }

  // ---- the invariant ----

  ghost predicate History(hist: seq<Rec>, legacy: nat, nvs: nat, era: nat) {
    && Shaped(hist)
    && forall i :: 0 <= i < |hist| ==> legacy < SeqAt(hist, i) < nvs && hist[i].era <= era
  }

  ghost predicate Logged(hist: seq<Rec>, log: seq<LogSeg>) {
    && IsSuffix(Flat(log), Blocks(hist))
    && (Flat(log) == [] ==> hist == [])
    && OpenSegments(log, Heads(hist))
  }

  /** The counters of a running device. */
  ghost predicate Counting(c: Config, d: W.Device, era: nat, hist: seq<Rec>, legacy: nat) {
    var n := |hist| - 1;
    && d.w.step == c.step
    && d.w.reserve <= d.nvs <= d.w.next + c.step
    && legacy < d.w.next && SeqAt(hist, n) < d.w.next
    && (d.w.pending ==>
          && (hist != [] ==> hist[n].era < era)
          && d.w.bootFrom == (if hist == [] then d.w.next else SeqAt(hist, n) + 1) && d.w.bootTo == d.w.next - 1)
    && (!d.w.pending ==> hist != [] && hist[n].era == era && d.w.next == SeqAt(hist, n) + 1)
  }

  /** The log lacks as many of the oldest records as the tally says, and they lie where it says. */
  ghost predicate Accounted(hist: seq<Rec>, log: seq<LogSeg>, t: Tally) {
    && |hist| == |Flat(log)| + t.Gone()
    && forall i :: 0 <= i < t.Gone() ==> SeqAt(hist, i) <= t.UpTo()
  }

  ghost predicate Inv(c: Config, legacy: nat, r: Run, log: seq<LogSeg>) {
    var x := r.x;
    && History(r.hist, legacy, x.d.nvs, x.era)
    && Logged(r.hist, log) && Accounted(r.hist, log, r.tally)
    && (x.d.nvs > 0 ==> x.d.nvs > legacy + 1) && (x.legacy == legacy || x.d.nvs > 0)
    && (if x.on then Consistent(x.d.st, log) && Counting(c, x.d, x.era, r.hist, legacy)
        else Persists(x.d.st.flash, log))
  }

  // ---- history lemmas ----

  lemma {:induction false} LinkedPrefix(hist: seq<Rec>, n: nat, i: nat)
    requires i < n <= |hist|
    ensures Linked(hist[..n], i) == Linked(hist, i) && Opens(hist[..n], i) == Opens(hist, i)
    ensures SeqAt(hist[..n], i) == SeqAt(hist, i)
  {
    hide SeqOf, ParseMarker;
  }

  lemma {:induction false} ShapedGrows(hist: seq<Rec>, b: Rec)
    requires Shaped(hist) && Linked(hist + [b], |hist|)
    ensures Shaped(hist + [b])
  {
    hide Linked;
    forall i | 0 <= i < |hist + [b]|
      ensures Linked(hist + [b], i)
    {
      if i < |hist| {
        LinkedPrefix(hist + [b], |hist|, i);
        assert (hist + [b])[..|hist|] == hist;
      }
    }
  }

  lemma {:induction false} HeadsGrow(hist: seq<Rec>, b: Rec)
    ensures Heads(hist + [b]) == if Opens(hist + [b], |hist|) then Heads(hist) + {SeqOf(b.block)} else Heads(hist)
  {
    hide SeqOf;
    assert (hist + [b])[..|hist|] == hist;
  }

  lemma {:induction false} Ordered(hist: seq<Rec>, i: nat, j: nat)
    requires Shaped(hist) && i < j < |hist|
    ensures SeqAt(hist, i) < SeqAt(hist, j) && hist[i].era <= hist[j].era
    decreases j
  {
    hide SeqAt, ParseMarker;
    assert Linked(hist, j);
    if i < j - 1 {
      Ordered(hist, i, j - 1);
    }
  }

  lemma {:induction false} HeadsAreSeqs(hist: seq<Rec>, s: nat)
    ensures s in Heads(hist) <==> exists i :: Opens(hist, i) && SeqAt(hist, i) == s
  {
    hide SeqOf;
    if hist != [] {
      var n := |hist| - 1;
      HeadsAreSeqs(hist[..n], s);
      forall i | 0 <= i < n
        ensures Opens(hist[..n], i) == Opens(hist, i) && SeqAt(hist[..n], i) == SeqAt(hist, i)
      {
      }
      if s in Heads(hist) {
        if s in Heads(hist[..n]) {
          var i :| Opens(hist[..n], i) && SeqAt(hist[..n], i) == s;
          assert Opens(hist, i) && SeqAt(hist, i) == s;
        } else {
          assert Opens(hist, n) && SeqAt(hist, n) == s;
        }
      }
      forall i | Opens(hist, i) && SeqAt(hist, i) == s
        ensures s in Heads(hist)
      {
        if i < n {
          assert Opens(hist[..n], i) && SeqAt(hist[..n], i) == s;
        }
      }
    }
  }

  /** The next seq is not the seq of any head. */
  lemma {:induction false} HeadsBelow(hist: seq<Rec>, s: nat)
    requires Shaped(hist) && SeqAt(hist, |hist| - 1) < s
    ensures s !in Heads(hist)
  {
    hide SeqAt, Linked, Opens;
    HeadsAreSeqs(hist, s);
    forall i | Opens(hist, i)
      ensures SeqAt(hist, i) < s
    {
      OpensInside(hist, i);
      if i < |hist| - 1 {
        Ordered(hist, i, |hist| - 1);
      }
    }
  }

  lemma {:induction false} OpensInside(hist: seq<Rec>, i: int)
    requires Opens(hist, i)
    ensures 0 <= i < |hist|
  {
  }

  lemma {:induction false} BlocksGrow(hist: seq<Rec>, b: Rec)
    ensures Blocks(hist + [b]) == Blocks(hist) + [b.block]
    ensures Blocks(hist + []) == Blocks(hist)
  {
    assert hist + [] == hist;
  }

  /** The newest record of the log is the newest of the history. */
  lemma {:induction false} LastLogged(hist: seq<Rec>, log: seq<LogSeg>)
    requires Logged(hist, log)
    ensures LastSeq(Flat(log)) == SeqAt(hist, |hist| - 1)
  {
    hide Flat, SeqOf, OpenSegments;
    if hist == [] {
      assert Blocks(hist) == [];
    }
  }

  // ---- one commit ----

  /** The history and the log after a commit, cut or whole. */
  lemma {:induction false} HistoryGrows(hist: seq<Rec>, legacy: nat, nvs: nat, era: nat, b: Block, whole: bool,
      nvs': nat)
    requires History(hist, legacy, nvs, era) && nvs <= nvs'
    requires whole ==> legacy < SeqOf(b) < nvs' && Linked(hist + [Rec(b, era)], |hist|)
    ensures History(hist + (if whole then [Rec(b, era)] else []), legacy, nvs', era)
  {
    hide Linked;
    if whole {
      ShapedGrows(hist, Rec(b, era));
    } else {
      assert hist + [] == hist;
    }
  }

  lemma {:induction false} LogGrows(hist: seq<Rec>, st: Store, log: seq<LogSeg>, b: Block, era: nat, whole: bool,
      s: Store, log': seq<LogSeg>)
    requires Logged(hist, log) && Kept(st, log, b, whole, s, log')
    requires OpenSegments(log', if whole then Heads(hist + [Rec(b, era)]) else Heads(hist))
    ensures Logged(hist + (if whole then [Rec(b, era)] else []), log')
  {
    hide Flat, OpenSegments, SeqOf, Heads, Slid;
    BlocksGrow(hist, Rec(b, era));
    SlidIsSuffix(st, Flat(log) + Added(b, whole), s, Flat(log'));
    SuffixGrows(Flat(log), Blocks(hist), Added(b, whole), Flat(log'));
    assert hist + [] == hist;
  }

  lemma {:induction false} SuffixGrows(a: seq<Block>, r: seq<Block>, tail: seq<Block>, a': seq<Block>)
    requires IsSuffix(a, r) && IsSuffix(a', a + tail)
    ensures IsSuffix(a', r + tail)
  {
    assert a + tail == (r + tail)[|r| - |a|..];
  }

  /** What slides out of the log is counted and lies below the mark. */
  lemma {:induction false} TallyGrows(hist: seq<Rec>, log: seq<LogSeg>, t: Tally, more: seq<Rec>, st: Store, s: Store,
      log': seq<LogSeg>, t': Tally)
    requires Accounted(hist, log, t) && IsSuffix(Flat(log), Blocks(hist)) && Shaped(hist + more)
    requires Slid(st, Flat(log) + Blocks(more), s, Flat(log'))
    requires t'.Gone() == t.Gone() + s.lost - st.lost && t.UpTo() <= t'.UpTo() && s.overflow <= t'.UpTo()
    ensures Accounted(hist + more, log', t')
  {
    hide Flat, SeqOf, Shaped, Tally.Gone, Tally.UpTo;
    var n, m := t.Gone(), s.lost - st.lost;
    forall i | 0 <= i < n + m
      ensures SeqAt(hist + more, i) <= t'.UpTo()
    {
      if i < n {
        assert SeqAt(hist + more, i) == SeqAt(hist, i);
      } else {
        SlidRecord(hist, more, Flat(log), i);
        SlidRecord(hist, more, Flat(log), n + m - 1);
        if i < n + m - 1 {
          Ordered(hist + more, i, n + m - 1);
        }
      }
    }
  }

  /** One commit, cut or whole: the tally follows the loss counter. */
  lemma {:induction false} CommitTally(hist: seq<Rec>, legacy: nat, nvs: nat, era: nat, log: seq<LogSeg>, t: Tally,
      st: Store, b: Block, whole: bool, s: Store, log': seq<LogSeg>, t': Tally)
    requires Accounted(hist, log, t) && Logged(hist, log) && Kept(st, log, b, whole, s, log')
    requires History(hist + (if whole then [Rec(b, era)] else []), legacy, nvs, era)
    requires t' == t.(dropped := t.dropped + Lost(st, s), mark := Max(t.mark, s.overflow))
      || t' == t.(cutShort := t.cutShort + Lost(st, s), mark := Max(t.mark, s.overflow))
    ensures Accounted(hist + (if whole then [Rec(b, era)] else []), log', t')
  {
    hide Flat, OpenSegments, SeqOf, Heads, Slid, Shaped, IsSuffix, Accounted;
    var more := if whole then [Rec(b, era)] else [];
    assert Blocks(more) == Added(b, whole);
    SlidUp(st, Flat(log) + Added(b, whole), s, Flat(log'));
    TallyGrows(hist, log, t, more, st, s, log', t');
  }

  lemma {:induction false} SlidUp(st: Store, r: seq<Block>, s: Store, r': seq<Block>)
    requires Slid(st, r, s, r')
    ensures s.lost >= st.lost
  {
    hide SeqOf;
  }

  lemma {:induction false} SlidRecord(hist: seq<Rec>, more: seq<Rec>, a: seq<Block>, i: nat)
    requires IsSuffix(a, Blocks(hist)) && |hist| - |a| <= i < |hist| + |more|
    ensures SeqAt(hist + more, i) == SeqOf((a + Blocks(more))[i - (|hist| - |a|)])
  {
    hide SeqOf;
    var j := i - (|hist| - |a|);
    if j < |a| {
      assert a[j] == Blocks(hist)[i];
    }
  }

  lemma {:induction false} MovedIsKept(st: Store, log: seq<LogSeg>, b: Block, ok: bool, s: Store, log': seq<LogSeg>)
    requires Moved(st, log, b, ok, s, log')
    ensures Kept(st, log, b, ok, s, log')
  {
    hide Flat, SeqOf, Consistent, Slid;
  }

  /** A device that is about to commit the record of an event. */
  ghost predicate Set(c: Config, legacy: nat, r: Run, log: seq<LogSeg>, d: W.Device, bs: bytes, f: W.Faults) {
    && Ready(d, log, bs, c.tagLen, f)
    && History(r.hist, legacy, d.nvs, r.x.era) && Logged(r.hist, log)
    && d.w.next > legacy && d.w.next > SeqAt(r.hist, |r.hist| - 1)
    && Linked(r.hist + [Rec(BlockOf(d, bs, f), r.x.era)], |r.hist|)
    && (d.st.forceNew || !Opens(r.hist + [Rec(BlockOf(d, bs, f), r.x.era)], |r.hist|))
  }

  /** The heads after the commit, and that the log respects them before it. */
  lemma {:induction false} SetHeads(c: Config, legacy: nat, r: Run, log: seq<LogSeg>, d: W.Device, bs: bytes,
      f: W.Faults, whole: bool)
    returns (heads: set<nat>)
    requires Set(c, legacy, r, log, d, bs, f)
    ensures heads == if whole then Heads(r.hist + [Rec(BlockOf(d, bs, f), r.x.era)]) else Heads(r.hist)
    ensures OpenSegments(log, heads) && (d.st.forceNew || SeqOf(BlockOf(d, bs, f)) !in heads)
    ensures SeqOf(BlockOf(d, bs, f)) == d.w.next
  {
    hide Flat, OpenSegments, SeqOf, Heads, Linked, BlockOf, Opens, MayGrow, Shaped, FlashOf, SeqAt, IsSuffix, Blocks,
        ParseMarker, LengthField;
    var b := BlockOf(d, bs, f);
    BlockFits(d, log, bs, c.tagLen, f);
    HeadsGrow(r.hist, Rec(b, r.x.era));
    HeadsBelow(r.hist, d.w.next);
    LastLogged(r.hist, log);
    NewerOpens(log, Heads(r.hist), d.w.next);
    heads := if whole then Heads(r.hist + [Rec(b, r.x.era)]) else Heads(r.hist);
  }

  lemma {:induction false} CommitSet(c: Config, legacy: nat, r: Run, log: seq<LogSeg>, d: W.Device, bs: bytes,
      f: W.Faults)
    requires Set(c, legacy, r, log, d, bs, f)
    ensures var (d', ok) := W.Committed(d, bs, c.free, f);
      var hist' := r.hist + Entry(r.x, d, bs, f, ok);
      var log' := CommitLog(d, log, bs, c.free, f);
      && History(hist', legacy, d'.nvs, r.x.era) && Logged(hist', log') && Consistent(d'.st, log')
      && Kept(d.st, log, BlockOf(d, bs, f), ok, d'.st, log')
      && d.nvs <= d'.nvs && d'.w.reserve <= d'.nvs <= d'.w.next + d'.w.step
      && (d'.nvs == d.nvs || d'.nvs >= d.w.next + d.w.step)
      && d'.w == d.w.(next := d.w.next + (if ok then 1 else 0), reserve := d'.w.reserve,
                       failed := d.w.failed + (if ok then 0 else 1))
      && (ok ==> SeqOf(BlockOf(d, bs, f)) == d.w.next)
  {
    var b := BlockOf(d, bs, f);
    var (d', ok) := W.Committed(d, bs, c.free, f);
    var log' := CommitLog(d, log, bs, c.free, f);
    var heads := SetHeads(c, legacy, r, log, d, bs, f, ok);
    CommitMoves(d, log, bs, c.tagLen, c.free, f);
    hide Flat, OpenSegments, SeqOf, Heads, Linked, BlockOf, Opens, Ready, Consistent, History, Logged, Kept,
        CommitLog, Slid, W.Committed;
    MovedIsKept(d.st, log, b, ok, d'.st, log');
    CommitOpens(d, log, bs, c.free, f, heads);
    HistoryGrows(r.hist, legacy, d.nvs, r.x.era, b, ok, d'.nvs);
    LogGrows(r.hist, d.st, log, b, r.x.era, ok, d'.st, log');
  }

  lemma {:induction false} CutSet(c: Config, legacy: nat, r: Run, log: seq<LogSeg>, d: W.Device, bs: bytes,
      f: W.Faults, k: CommitCut)
    requires Set(c, legacy, r, log, d, bs, f) && CommitCutPoint(d, bs, c.free, f, k)
    ensures var left := Left(d, bs, c.free, f, k);
      var hist' := r.hist + Entry(r.x, d, bs, f, LeftWhole(d, bs, c.free, f, k));
      var log' := LeftLog(d, log, bs, c.free, f, k);
      && History(hist', legacy, left.nvs, r.x.era) && Logged(hist', log') && Persists(left.flash, log')
      && Kept(d.st, log, BlockOf(d, bs, f), LeftWhole(d, bs, c.free, f, k), AtCut(d, bs, c.free, f, k), log')
      && d.nvs <= left.nvs && (left.nvs == d.nvs || left.nvs >= d.w.next + d.w.step)
  {
    var b := BlockOf(d, bs, f);
    var whole := LeftWhole(d, bs, c.free, f, k);
    var log' := LeftLog(d, log, bs, c.free, f, k);
    var heads := SetHeads(c, legacy, r, log, d, bs, f, whole);
    CutCommitKeeps(d, log, bs, c.tagLen, c.free, f, k);
    hide Flat, OpenSegments, SeqOf, Heads, Linked, BlockOf, Opens, Ready, Consistent, History, Logged, Kept, LeftLog,
        LeftWhole, Left, Persists, AtCut;
    LeftOpens(d, log, bs, c.free, f, k, heads);
    HistoryGrows(r.hist, legacy, d.nvs, r.x.era, b, whole, Left(d, bs, c.free, f, k).nvs);
    LogGrows(r.hist, d.st, log, b, r.x.era, whole, AtCut(d, bs, c.free, f, k), log');
  }

  // ---- every step keeps the invariant ----

  /** The data area of a BOOT is a block like any other, and says what it should. */
  lemma {:induction false} BootDataIsBlock(x: World, tMs: nat)
    requires x.d.w.next < U32_END && x.d.w.bootFrom < U32_END && x.d.w.bootTo < U32_END
    ensures Shapely(BootData(x, tMs)) && ParseMarker(BootData(x, tMs)) == Boot(x.d.w.bootFrom, x.d.w.bootTo)
  {
    hide ParseMarker, LengthField, U32, U16, BuildMarker;
    MarkerRoundTrip(x.d.w.next, x.d.w.bootId, tMs, BOOT_TYPE, x.d.w.bootFrom, x.d.w.bootTo);
  }

  lemma {:induction false} IsReady(c: Config, legacy: nat, r: Run, log: seq<LogSeg>, d: W.Device, bs: bytes,
      f: W.Faults)
    requires c.Ok() && Logged(r.hist, log) && Consistent(r.x.d.st, log) && Shapely(bs) && MayCommit(c, r.x, f)
    requires Counting(c, r.x.d, r.x.era, r.hist, legacy)
    requires d == r.x.d || d == BootDevice(r.x)
    ensures Ready(d, log, bs, c.tagLen, f)
  {
    hide SeqOf, SeqAt, LengthField, Flat, OpenSegments, Heads, FlashOf, LogWf, LogSeg.Wf;
    NewestIsLast(r.x.d.st, log);
    LastLogged(r.hist, log);
  }

  /** The BOOT of a restart opens it and declares the gap. */
  lemma {:induction false} BootIsLinked(c: Config, legacy: nat, x: World, hist: seq<Rec>, b: Block)
    requires Counting(c, x.d, x.era, hist, legacy) && x.d.w.pending
    requires SeqOf(b) == x.d.w.next && ParseMarker(b.data) == Boot(x.d.w.bootFrom, x.d.w.bootTo)
    ensures Linked(hist + [Rec(b, x.era)], |hist|)
  {
    hide ParseMarker, SeqOf;
    assert (hist + [Rec(b, x.era)])[..|hist|] == hist;
  }

  lemma {:induction false} BootIsSet(c: Config, legacy: nat, r: Run, log: seq<LogSeg>, tMs: nat, f: W.Faults)
    requires c.Ok() && Inv(c, legacy, r, log) && r.x.on && r.x.d.w.pending && MayCommit(c, r.x, f)
    ensures Set(c, legacy, r, log, BootDevice(r.x), BootData(r.x, tMs), f)
  {
    hide ParseMarker, SeqOf, SeqAt, LengthField, OpenSegments, Flat, Heads, Consistent, Persists, Ready, BlockOf,
        Linked, Opens, Shaped, BootData, Logged;
    var d, bs := BootDevice(r.x), BootData(r.x, tMs);
    BootDataIsBlock(r.x, tMs);
    IsReady(c, legacy, r, log, d, bs, f);
    BlockFits(d, log, bs, c.tagLen, f);
    BootIsLinked(c, legacy, r.x, r.hist, BlockOf(d, bs, f));
  }

  lemma {:induction false} DataIsLinked(c: Config, legacy: nat, x: World, hist: seq<Rec>, b: Block)
    requires Counting(c, x.d, x.era, hist, legacy) && !x.d.w.pending && SeqOf(b) == x.d.w.next
    requires ParseMarker(b.data) == NoMarker
    ensures Linked(hist + [Rec(b, x.era)], |hist|) && !Opens(hist + [Rec(b, x.era)], |hist|)
  {
    hide ParseMarker, SeqOf;
    assert (hist + [Rec(b, x.era)])[..|hist|] == hist;
  }

  /** Data goes on where the restart left off. */
  lemma {:induction false} DataIsSet(c: Config, legacy: nat, r: Run, log: seq<LogSeg>, bs: bytes, f: W.Faults)
    requires c.Ok() && Inv(c, legacy, r, log) && r.x.on && !r.x.d.w.pending && MayCommit(c, r.x, f) && BlockData(bs)
    ensures Set(c, legacy, r, log, r.x.d, bs, f)
  {
    hide ParseMarker, SeqOf, SeqAt, LengthField, OpenSegments, Flat, Heads, Consistent, Persists, Ready, BlockOf,
        Linked, Opens, Shaped, Logged;
    var d := r.x.d;
    IsReady(c, legacy, r, log, d, bs, f);
    BlockFits(d, log, bs, c.tagLen, f);
    DataIsLinked(c, legacy, r.x, r.hist, BlockOf(d, bs, f));
  }

  lemma {:induction false} BootRecordKeeps(c: Config, legacy: nat, r: Run, log: seq<LogSeg>, tMs: nat, f: W.Faults)
    returns (log': seq<LogSeg>)
    requires c.Ok() && Inv(c, legacy, r, log) && Enabled(c, r.x, BootRecord(tMs, f))
    ensures Inv(c, legacy, Advance(c, r, BootRecord(tMs, f)), log')
  {
    hide Set, History, Logged, Consistent, CommitLog, W.Committed, W.WriteBoot, BlockOf, BootData, SeqOf, Persists,
        Kept,
        Accounted, Lost;
    var d, bs := BootDevice(r.x), BootData(r.x, tMs);
    BootIsSet(c, legacy, r, log, tMs, f);
    CommitSet(c, legacy, r, log, d, bs, f);
    WriteBootIs(r.x, tMs, c.free, f);
    log' := CommitLog(d, log, bs, c.free, f);
    var (d', ok) := W.Committed(d, bs, c.free, f);
    CountsOn(c, legacy, r, d, Rec(BlockOf(d, bs, f), r.x.era), ok, d');
    CommitTally(r.hist, legacy, d'.nvs, r.x.era, log, r.tally, d.st, BlockOf(d, bs, f), ok, d'.st, log',
                Tallied(c, r.x, r.tally, BootRecord(tMs, f)));
    hide Counting;
  }

  /** The counters after a commit; the BOOT stops being pending once it is on flash. */
  lemma {:induction false} CountsOn(c: Config, legacy: nat, r: Run, d: W.Device, b: Rec, ok: bool, d': W.Device)
    requires Counting(c, d, r.x.era, r.hist, legacy) && b.era == r.x.era
    requires d'.w.reserve <= d'.nvs <= d'.w.next + d'.w.step
    requires d'.w == d.w.(next := d.w.next + (if ok then 1 else 0), reserve := d'.w.reserve,
                       failed := d.w.failed + (if ok then 0 else 1))
    requires ok ==> SeqOf(b.block) == d.w.next
    ensures Counting(c, if ok then d'.(w := d'.w.(pending := false)) else d', r.x.era,
                     r.hist + (if ok then [b] else []), legacy)
  {
    hide SeqOf;
    if !ok {
      assert r.hist + [] == r.hist;
    }
  }

  lemma {:induction false} WriteBootIs(x: World, tMs: nat, free: Flash -> nat, f: W.Faults)
    ensures var (d', ok) := W.Committed(BootDevice(x), BootData(x, tMs), free, f);
      W.WriteBoot(x.d, tMs, free, f).0 == if ok then d'.(w := d'.w.(pending := false)) else d'
  {
    hide W.Committed, BootMarker;
  }

  lemma {:induction false} DataRecordKeeps(c: Config, legacy: nat, r: Run, log: seq<LogSeg>, bs: bytes, f: W.Faults)
    returns (log': seq<LogSeg>)
    requires c.Ok() && Inv(c, legacy, r, log) && Enabled(c, r.x, DataRecord(bs, f))
    ensures Inv(c, legacy, Advance(c, r, DataRecord(bs, f)), log')
  {
    hide Set, History, Logged, Consistent, CommitLog, W.Committed, BlockOf, SeqOf, BlockData, Persists, Kept, Accounted,
        Lost;
    var d := r.x.d;
    DataIsSet(c, legacy, r, log, bs, f);
    CommitSet(c, legacy, r, log, d, bs, f);
    log' := CommitLog(d, log, bs, c.free, f);
    var (d', ok) := W.Committed(d, bs, c.free, f);
    SamePending(d', false);
    CountsOn(c, legacy, r, d, Rec(BlockOf(d, bs, f), r.x.era), ok, d');
    CommitTally(r.hist, legacy, d'.nvs, r.x.era, log, r.tally, d.st, BlockOf(d, bs, f), ok, d'.st, log',
                Tallied(c, r.x, r.tally, DataRecord(bs, f)));
    hide Counting;
  }

  lemma {:induction false} SamePending(d: W.Device, pending: bool)
    requires d.w.pending == pending
    ensures d.(w := d.w.(pending := pending)) == d
  {
  }

  lemma {:induction false} CutEventKeeps(c: Config, legacy: nat, r: Run, log: seq<LogSeg>, e: Event)
    returns (log': seq<LogSeg>)
    requires c.Ok() && Inv(c, legacy, r, log) && Enabled(c, r.x, e) && (e.BootCut? || e.DataCut?)
    ensures Inv(c, legacy, Advance(c, r, e), log')
  {
    hide Set, History, Logged, Consistent, BlockOf, BootData, SeqOf, Persists, LeftLog, Left, LeftWhole, BlockData,
        CommitCutPoint, AtCut, Kept, Accounted, Lost;
    var (d, bs) := Subject(r.x, e);
    if e.BootCut? {
      BootIsSet(c, legacy, r, log, e.tMs, e.f);
    } else {
      DataIsSet(c, legacy, r, log, bs, e.f);
    }
    CutSet(c, legacy, r, log, d, bs, e.f, e.c);
    log' := LeftLog(d, log, bs, c.free, e.f, e.c);
    CommitTally(r.hist, legacy, Left(d, bs, c.free, e.f, e.c).nvs, r.x.era, log, r.tally, d.st, BlockOf(d, bs, e.f),
                LeftWhole(d, bs, c.free, e.f, e.c), AtCut(d, bs, c.free, e.f, e.c), log',
                Tallied(c, r.x, r.tally, e));
  }

  /** A restart finds the log, minus what is too much for it, and starts above everything written before. */
  lemma {:induction false} PowerOnKeeps(c: Config, legacy: nat, r: Run, log: seq<LogSeg>, bootId: nat, maxBlocks: nat)
    returns (k: nat)
    requires c.Ok() && Inv(c, legacy, r, log) && !r.x.on && maxBlocks >= 2 * BLOCKS_PER_SEGMENT
    ensures k <= |log| && Rebuilt(Advance(c, r, PowerOn(bootId, maxBlocks)).x.d.st.(forceNew := false), log, k)
    ensures Inv(c, legacy, Advance(c, r, PowerOn(bootId, maxBlocks)), log[k..])
  {
    var st := Begin(r.x.d.st.flash, maxBlocks);
    hide Flat, SeqOf, OpenSegments, Heads, Linked, FlashOf, LogWf, Begin, Slid, Accounted, IsSuffix, TooMuch, LogSeg.Wf;
    k := BeginRebuilds(log, maxBlocks);
    RebuiltLogged(r.hist, log, st, k);
    RebuiltTally(r.hist, log, r.tally, st, k);
    NewestIsLast(st, log[k..]);
    LastLogged(r.hist, log[k..]);
    assert r.hist + [] == r.hist;
  }

  lemma {:induction false} RebuiltLogged(hist: seq<Rec>, log: seq<LogSeg>, st: Store, k: nat)
    requires Logged(hist, log) && LogWf(log) && Rebuilt(st, log, k)
    ensures Logged(hist, log[k..])
  {
    hide Flat, SeqOf, Heads, LogWf, Bounded, TooMuch, OpenSegments, Slid, Blocks, IsSuffix;
    EmptyRecords(log, log, k);
    Dropped(log, Heads(hist), k);
    SlidIsSuffix(Fresh(st.flash, st.maxBlocks), Flat(log), st, Flat(log[k..]));
    assert Flat(log) + [] == Flat(log) && Blocks(hist) + [] == Blocks(hist);
    SuffixGrows(Flat(log), Blocks(hist), [], Flat(log[k..]));
  }

  lemma {:induction false} RebuiltTally(hist: seq<Rec>, log: seq<LogSeg>, t: Tally, st: Store, k: nat)
    requires Accounted(hist, log, t) && IsSuffix(Flat(log), Blocks(hist)) && Shaped(hist) && Rebuilt(st, log, k)
    ensures Accounted(hist, log[k..], t.(atBoot := t.atBoot + st.lost, mark := Max(t.mark, st.overflow)))
  {
    hide Flat, SeqOf, Bounded, TooMuch, Slid, Accounted, Shaped, IsSuffix;
    assert Flat(log) + Blocks([]) == Flat(log) && hist + [] == hist;
    TallyGrows(hist, log, t, [], Fresh(st.flash, st.maxBlocks), st, log[k..],
               t.(atBoot := t.atBoot + st.lost, mark := Max(t.mark, st.overflow)));
  }

  lemma {:induction false} ConfirmKeeps(c: Config, legacy: nat, r: Run, log: seq<LogSeg>, upTo: nat)
    returns (log': seq<LogSeg>)
    requires c.Ok() && Inv(c, legacy, r, log) && r.x.on
    ensures Inv(c, legacy, Advance(c, r, Confirm(upTo)), log')
  {
    hide Flat, OpenSegments, SeqOf, Heads, History, Logged, Accounted, Describes, Freed, Store.Total, MayGrow,
        DeleteUpTo;
    log' := DeleteKeeps(r.x.d.st, log, upTo);
    FreedLogged(r.hist, r.x.d.st, log, upTo, log');
    HistoryShape(r.hist, legacy, r.x.d.nvs, r.x.era);
    FreedTally(r.hist, r.x.d.st, log, r.tally, upTo, log');
    assert r.hist + [] == r.hist;
    DeleteKeepsLimit(r.x.d.st, log, upTo, log');
  }

  lemma {:induction false} DeleteKeepsLimit(st: Store, log: seq<LogSeg>, upTo: nat, log': seq<LogSeg>)
    requires Freed(st, log, upTo, DeleteUpTo(st, upTo), log')
    ensures DeleteUpTo(st, upTo).lost == st.lost
  {
  }

  lemma {:induction false} HistoryShape(hist: seq<Rec>, legacy: nat, nvs: nat, era: nat)
    requires History(hist, legacy, nvs, era)
    ensures Shaped(hist)
  {
  }

  lemma {:induction false} FreedLogged(hist: seq<Rec>, st: Store, log: seq<LogSeg>, upTo: nat, log': seq<LogSeg>)
    requires Logged(hist, log) && Consistent(DeleteUpTo(st, upTo), log')
    requires Freed(st, log, upTo, DeleteUpTo(st, upTo), log')
    ensures Logged(hist, log')
  {
    hide Flat, OpenSegments, SeqOf, Heads, Consistent, DeleteUpTo;
    FreedOpens(st, log, upTo, log', Heads(hist));
    if Flat(log') == [] {
      NoRecords(DeleteUpTo(st, upTo), log');
      NoFlat();
    }
    var a, a', b := Flat(log), Flat(log'), Blocks(hist);
    assert a' == b[|b| - |a'|..];
  }

  /** A deletion frees what it counts, and only confirmed records. */
  lemma {:induction false} FreedTally(hist: seq<Rec>, st: Store, log: seq<LogSeg>, t: Tally, upTo: nat,
      log': seq<LogSeg>)
    requires Accounted(hist, log, t) && Logged(hist, log) && Shaped(hist) && Describes(st, log)
    requires Freed(st, log, upTo, DeleteUpTo(st, upTo), log')
    ensures var before, after := st.Total(), DeleteUpTo(st, upTo).Total();
      Accounted(hist, log', t.(freed := t.freed + (if before > after then before - after else 0),
                              confirmed := Max(t.confirmed, upTo)))
  {
    hide Flat, SeqOf, Heads, OpenSegments, Describes, DeleteUpTo, Shaped, Store.Total, SeqAt, IsSuffix;
    TotalOfDescribed(st, log);
    TotalOfDescribed(DeleteUpTo(st, upTo), log');
    var n, m := |hist| - |Flat(log)|, |Flat(log)| - |Flat(log')|;
    forall i | n <= i < n + m
      ensures SeqAt(hist, i) <= upTo
    {
      SlidRecord(hist, [], Flat(log), i);
      assert hist + [] == hist && Flat(log) + Blocks([]) == Flat(log);
      assert SeqOf(Flat(log)[i - n]) <= upTo;
    }
  }

  /** Deleting takes whole segments. */
  lemma {:induction false} FreedOpens(st: Store, log: seq<LogSeg>, upTo: nat, log': seq<LogSeg>, heads: set<nat>)
    requires OpenSegments(log, heads) && Freed(st, log, upTo, DeleteUpTo(st, upTo), log')
    ensures OpenSegments(log', heads)
  {
  }

  lemma {:induction false} StepKeeps(c: Config, legacy: nat, r: Run, log: seq<LogSeg>, e: Event)
    returns (log': seq<LogSeg>)
    requires c.Ok() && Inv(c, legacy, r, log)
    ensures Inv(c, legacy, Advance(c, r, e), log')
  {
    hide Inv;
    log' := log;
    if Enabled(c, r.x, e) {
      match e
      case PowerOn(bootId, maxBlocks) =>
        var k := PowerOnKeeps(c, legacy, r, log, bootId, maxBlocks);
        log' := log[k..];
      case BootRecord(tMs, f) => log' := BootRecordKeeps(c, legacy, r, log, tMs, f);
      case DataRecord(bs, f) => log' := DataRecordKeeps(c, legacy, r, log, bs, f);
      case BootCut(_, _, _) => log' := CutEventKeeps(c, legacy, r, log, e);
      case DataCut(_, _, _) => log' := CutEventKeeps(c, legacy, r, log, e);
      case Confirm(upTo) => log' := ConfirmKeeps(c, legacy, r, log, upTo);
      case ForgetLegacy => ForgetKeeps(c, legacy, r, log);
      case PowerOff => OffKeeps(c, legacy, r, log);
    }
  }

  lemma {:induction false} ForgetKeeps(c: Config, legacy: nat, r: Run, log: seq<LogSeg>)
    requires Inv(c, legacy, r, log) && r.x.on && !r.x.d.w.pending
    ensures Inv(c, legacy, Advance(c, r, ForgetLegacy), log)
  {
    hide Flat, OpenSegments, SeqOf, Heads, Consistent, Shaped, Logged;
    assert r.hist + [] == r.hist;
  }

  lemma {:induction false} OffKeeps(c: Config, legacy: nat, r: Run, log: seq<LogSeg>)
    requires Inv(c, legacy, r, log) && r.x.on
    ensures Inv(c, legacy, Advance(c, r, PowerOff), log)
  {
    hide Flat, OpenSegments, SeqOf, Heads, Consistent, Shaped, Logged, Persists;
    PowerOffKeeps(r.x.d.st, log, Block([], [], 0));
    assert r.hist + [] == r.hist;
  }
}
