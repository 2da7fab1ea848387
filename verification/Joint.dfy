/**
 * The device and its sync engine in one run, on one log: restarts, records and power failures of the
 * device, the start of the sync task at any moment after a boot, and the calls of the engine, whose
 * confirmations delete from the log.
 */
module Joint {
  import opened Bytes
  import opened BlockFormat
  import opened SegmentFormat
  import opened StoreSpec
  import opened LogSpec
  import opened Recovery
  import opened CommitKeeps
  import opened Boots
  import D = Device
  import L = Lifetime
  import W = BlockWriter
  import opened SyncSpec
  import opened SyncForms
  import opened SyncSafety
  import R = SyncRun
  import T = SyncTheorems
  import S = SyncStart
  import X = SyncDevice
  import opened SyncTold

  /** The device, the engine as an observer sees it, whether it runs, and whether it started on an empty log. */
  datatype World = World(r: D.Run, w: R.World, up: bool, bare: bool)

  datatype Event =
    | OfDevice(e: D.Event)
    | Begins(io: set<nat>)
    | OfEngine(call: R.Event)

  ghost predicate Enabled(c: D.Config, j: World, e: Event) {
    match e
    case OfDevice(e) => D.Enabled(c, j.r.x, e) && !e.Confirm?
    case Begins(_) => j.r.x.on && !j.up
    case OfEngine(call) => j.up && !call.Append? && !call.Restart? && R.Enabled(j.w, call)
  }

  /** The engine sees the log of the device, and the records that come in. */
  function Shared(w: R.World, st: Store, more: seq<Block>): R.World {
    w.(n := w.n.(st := st), known := w.known + more)
  }

  /** The records the tally leaves. */
  function Remaining(r: D.Run): seq<Block> {
    if r.tally.Gone() <= |r.hist| then D.Blocks(r.hist)[r.tally.Gone()..] else []
  }

  /** The sync task starts: the c_S in NVS and the answers given are those of all boots. */
  function FirstWorld(j: World, io: set<nat>): R.World {
    var n := Start(j.r.x.d.st, j.w.n.nvsCs, io);
    R.World(n, n.e.ack, 0, 0, 0, Remaining(j.r), 0, j.r.x.d.st.lost, j.w.answered, [], None)
  }

  ghost function Step(c: D.Config, j: World, e: Event): World {
    match e
    case OfDevice(e) =>
      var r := D.Advance(c, j.r, e);
      World(r, if j.up then Shared(j.w, r.x.d.st, D.Blocks(D.Durable(c, j.r.x, e))) else j.w, j.up && r.x.on, j.bare)
    case Begins(io) => World(j.r, FirstWorld(j, io), true, j.r.x.d.st.segs == [])
    case OfEngine(call) =>
      var a := R.ConfirmedBy(j.w.n, call);
      World(if a.Some? then D.Advance(c, j.r, D.Confirm(a.value)) else j.r, R.Observe(j.w, call), true, j.bare)
  }

  ghost predicate Inv(c: D.Config, legacy: nat, j: World, log: seq<LogSeg>) {
    && D.Inv(c, legacy, j.r, log)
    && R.Rising(j.w.answered) && (forall i :: 0 <= i < |j.w.answered| ==> j.w.answered[i] <= j.w.n.nvsCs)
    && (j.up ==> Running(j, log))
  }

  /** While the engine runs, its log is the device's, and all that is sent stands for seqs of the history. */
  ghost predicate Running(j: World, log: seq<LogSeg>) {
    && j.r.x.on && R.Inv(j.w, log) && j.w.n.st == j.r.x.d.st
    && (!j.bare ==> j.r.hist != [] && S.StandsAbove(j.w.n, log, D.SeqAt(j.r.hist, 0)))
    && Traced(j.w, j.r.hist)
  }

  /** What the engine sent, and what it knows, are records of the history. */
  ghost predicate Traced(w: R.World, hist: seq<D.Rec>) { Genuine(w) && IsSuffix(w.known, D.Blocks(hist)) }

  // ---- the device's steps ----

  lemma {:induction false} HandshakeOf(w: R.World, log: seq<LogSeg>)
    requires R.Inv(w, log)
    ensures R.Rising(w.answered) && forall i :: 0 <= i < |w.answered| ==> w.answered[i] <= w.n.nvsCs
  {
    hide Sound, InBounds, R.Ordered, WithinCredit, R.Accounted, R.Rising;
  }

  /** Forcing a new segment changes nothing the engine looks at. */
  lemma {:induction false} ForcedKeeps(w: R.World, log: seq<LogSeg>, st: Store, f: nat)
    requires R.Inv(w, log) && (st == w.n.st || st == w.n.st.(forceNew := true))
    ensures R.Inv(Shared(w, st, []), log)
    ensures S.StandsAbove(w.n, log, f) ==> S.StandsAbove(Shared(w, st, []).n, log, f)
  {
    hide InOrder, Tail, R.Rising, Carried, StandsFor, CoversMsg, Flat, SeqOf, Declaring;
    assert w.known + [] == w.known;
  }

  /** The store and what became durable after a commit of the device. */
  lemma {:induction false} CommitStep(c: D.Config, x: D.World, e: D.Event)
    requires e.BootRecord? || e.DataRecord?
    ensures var (d, bs) := D.Subject(x, e);
      var (d', ok) := W.Committed(d, bs, c.free, e.f);
      && D.Step(c, x, e).d.st == d'.st && D.Step(c, x, e).on == x.on
      && D.Blocks(D.Durable(c, x, e)) == Added(BlockOf(d, bs, e.f), ok)
      && (!Writes(d, e.f) ==> !ok && (d'.st == x.d.st || d'.st == x.d.st.(forceNew := true)))
  {
    hide W.AppendTwice, W.Signed, D.BootData;
    if e.BootRecord? {
      D.WriteBootIs(x, e.tMs, c.free, e.f);
    }
  }

  /** The append the engine sees when the device commits a record. */
  function Flushed(x: D.World, e: D.Event): R.Event
    requires e.BootRecord? || e.DataRecord?
  {
    var (d, bs) := D.Subject(x, e);
    R.Append(BlockOf(d, bs, e.f), e.BootRecord?, e.f.write1, e.f.write2)
  }

  /** A commit that reaches the log is an append of the engine's run. */
  lemma {:induction false} CommitIsAppend(c: D.Config, legacy: nat, j: World, log: seq<LogSeg>, e: D.Event)
    requires c.Ok() && Inv(c, legacy, j, log) && j.up && D.Enabled(c, j.r.x, e) && (e.BootRecord? || e.DataRecord?)
    requires Writes(D.Subject(j.r.x, e).0, e.f)
    ensures R.Enabled(j.w, Flushed(j.r.x, e))
    ensures Step(c, j, OfDevice(e)).w == R.Step(j.w, c.free, Flushed(j.r.x, e))
  {
    hide D.Inv, R.Inv, W.Committed, BlockOf, D.BootData, R.Flush, Writes, W.WriteBoot, S.StandsAbove,
        R.Rising, D.Tallied, R.DeclaresNew, Appendable;
    X.CommitFeedsSync(c, legacy, j.r, log, e);
    X.CommitIsFlush(c, j.r.x, e);
    CommitStep(c, j.r.x, e);
  }

  /** While the engine runs, a record of the device keeps all that holds of both. */
  lemma {:induction false} RecordKeeps(c: D.Config, legacy: nat, j: World, log: seq<LogSeg>, e: D.Event)
    returns (log': seq<LogSeg>)
    requires c.Ok() && Inv(c, legacy, j, log) && j.up && D.Enabled(c, j.r.x, e) && (e.BootRecord? || e.DataRecord?)
    ensures R.Inv(Step(c, j, OfDevice(e)).w, log')
    ensures !j.bare ==> S.StandsAbove(Step(c, j, OfDevice(e)).w.n, log', D.SeqAt(j.r.hist, 0))
  {
    hide D.Inv, R.Inv, S.StandsAbove, R.Rising, R.Step, D.Advance, Writes, R.Enabled, Flushed, D.SeqAt;
    if Writes(D.Subject(j.r.x, e).0, e.f) {
      CommitIsAppend(c, legacy, j, log, e);
      var call := Flushed(j.r.x, e);
      IsAppend(j.r.x, e);
      if j.bare {
        log' := R.StepKeeps(j.w, log, c.free, call);
      } else {
        log' := S.StepStandsAbove(j.w, log, c.free, call, D.SeqAt(j.r.hist, 0));
      }
    } else {
      log' := log;
      NothingWritten(c, j, e);
      ForcedKeeps(j.w, log, D.Step(c, j.r.x, e).d.st, D.SeqAt(j.r.hist, 0));
    }
  }

  lemma {:induction false} IsAppend(x: D.World, e: D.Event)
    requires e.BootRecord? || e.DataRecord?
    ensures Flushed(x, e).Append?
  {
  }

  lemma {:induction false} NothingWritten(c: D.Config, j: World, e: D.Event)
    requires (e.BootRecord? || e.DataRecord?) && !Writes(D.Subject(j.r.x, e).0, e.f) && j.up && D.Enabled(c, j.r.x, e)
    ensures Step(c, j, OfDevice(e)).w == Shared(j.w, D.Step(c, j.r.x, e).d.st, [])
    ensures var st := D.Step(c, j.r.x, e).d.st; st == j.r.x.d.st || st == j.r.x.d.st.(forceNew := true)
  {
    hide W.Committed, BlockOf, D.BootData, Writes, W.WriteBoot, D.Tallied, D.Enabled;
    CommitStep(c, j.r.x, e);
  }

  lemma {:induction false} TracedGrows(w: R.World, st: Store, hist: seq<D.Rec>, more: seq<D.Rec>)
    requires Traced(w, hist)
    ensures Traced(Shared(w, st, D.Blocks(more)), hist + more)
  {
    hide Carried;
    assert D.Blocks(hist + more) == D.Blocks(hist) + D.Blocks(more);
    var k, all := w.known + D.Blocks(more), D.Blocks(hist + more);
    assert k == all[|all| - |k|..];
  }

  lemma {:induction false} DeviceKeeps(c: D.Config, legacy: nat, j: World, log: seq<LogSeg>, e: D.Event)
    returns (log': seq<LogSeg>)
    requires c.Ok() && Inv(c, legacy, j, log) && Enabled(c, j, OfDevice(e))
    ensures Inv(c, legacy, Step(c, j, OfDevice(e)), log')
  {
    hide D.Inv, R.Inv, S.StandsAbove, R.Rising, D.SeqAt, D.Step, D.Durable, D.Tallied, Traced;
    log' := D.StepKeeps(c, legacy, j.r, log, e);
    L.FirstStays(j.r.hist, D.Durable(c, j.r.x, e));
    var j' := Step(c, j, OfDevice(e));
    SameAnswers(c, j, e);
    if j'.up {
      TracedGrows(j.w, j'.r.x.d.st, j.r.hist, D.Durable(c, j.r.x, e));
      if e.BootRecord? || e.DataRecord? {
        var log1 := RecordKeeps(c, legacy, j, log, e);
        DescribedByBoth(c, legacy, j'.r, log', j'.w, log1);
      } else {
        IdleStep(c, j, e);
        ForcedKeeps(j.w, log, j.r.x.d.st, D.SeqAt(j.r.hist, 0));
        DescribedByBoth(c, legacy, j'.r, log', j'.w, log);
      }
    }
  }

  lemma {:induction false} SameAnswers(c: D.Config, j: World, e: D.Event)
    ensures var w := Step(c, j, OfDevice(e)).w; w.answered == j.w.answered && w.n.nvsCs == j.w.n.nvsCs
    ensures j.up ==> Step(c, j, OfDevice(e)).w.n.st == D.Advance(c, j.r, e).x.d.st
  {
    hide D.Advance, D.Durable;
  }

  /** What neither writes nor turns the power off leaves the log alone. */
  lemma {:induction false} IdleStep(c: D.Config, j: World, e: D.Event)
    requires Enabled(c, j, OfDevice(e)) && j.up && j.r.x.on && Step(c, j, OfDevice(e)).up && j.w.n.st == j.r.x.d.st
    requires !e.BootRecord? && !e.DataRecord?
    ensures Step(c, j, OfDevice(e)).w == Shared(j.w, j.r.x.d.st, []) && D.Advance(c, j.r, e).x.d.st == j.r.x.d.st
  {
    hide D.Tallied, Left, LeftWhole, CommitCutPoint;
  }

  lemma {:induction false} DescribedByBoth(c: D.Config, legacy: nat, r: D.Run, log: seq<LogSeg>, w: R.World,
      log1: seq<LogSeg>)
    requires D.Inv(c, legacy, r, log) && r.x.on && R.Inv(w, log1) && w.n.st == r.x.d.st
    ensures log == log1
  {
    hide D.Counting, D.History, D.Logged, D.Accounted, MayGrow, Describes;
    T.InvParts(w, log1);
    OneLog(r.x.d.st, log, log1);
  }

  // ---- the engine's steps ----

  lemma {:induction false} RemainingIs(hist: seq<D.Rec>, log: seq<LogSeg>, r: D.Run)
    requires IsSuffix(Flat(log), D.Blocks(hist)) && D.Accounted(hist, log, r.tally) && r.hist == hist
    ensures Remaining(r) == Flat(log)
  {
    hide Flat, D.SeqAt, D.Tally.Gone;
  }

  /** The sync task starts on the log of the device. */
  lemma {:induction false} BeginsKeeps(c: D.Config, legacy: nat, j: World, log: seq<LogSeg>, io: set<nat>)
    requires c.Ok() && Inv(c, legacy, j, log) && Enabled(c, j, Begins(io))
    ensures Inv(c, legacy, Step(c, j, Begins(io)), log)
  {
    hide R.Inv, S.StandsAbove, R.Rising, D.SeqAt, Flat, D.Counting, D.History, OpenSegments, Describes, EffectiveTail,
        Sound, D.Accounted, StandsFor, IsSuffix, MayGrow, Genuine;
    var st := j.r.x.d.st;
    X.DeviceLogIsSound(c, legacy, j.r, log);
    RemainingIs(j.r.hist, log, j.r);
    R.FirstInv(st, log, j.w.n.nvsCs, io, j.w.answered);
    FirstGenuine(st, log, j.w.n.nvsCs, io, j.w.answered);
    if st.segs != [] {
      RecordsInLog(j.r, st, log);
      X.FirstRecordStands(c, legacy, j.r, log);
      S.StartStandsAbove(st, log, j.w.n.nvsCs, io, D.SeqAt(j.r.hist, 0));
    }
  }

  lemma {:induction false} RecordsInLog(r: D.Run, st: Store, log: seq<LogSeg>)
    requires D.Logged(r.hist, log) && Describes(st, log) && st.segs != []
    ensures r.hist != []
  {
    FlatIncreasing(log);
  }

  /** A call deletes what it confirms, in the engine's log and in the device's. */
  lemma {:induction false} ConfirmStep(j: World, call: R.Event, form: Form, io: set<nat>)
    requires Took(j.w.n, R.Call(j.w.n, call), io, form)
    requires R.ConfirmedBy(j.w.n, call) == if form.Acked? then Some(form.upTo) else None
    ensures var a := R.ConfirmedBy(j.w.n, call);
      R.Call(j.w.n, call).st == if a.Some? then DeleteUpTo(j.w.n.st, a.value) else j.w.n.st
  {
    hide Read, Stored, IsBootFrom, Intact, Carried, DeleteUpTo;
  }

  lemma {:induction false} EngineKeeps(c: D.Config, legacy: nat, j: World, log: seq<LogSeg>, call: R.Event)
    returns (log': seq<LogSeg>)
    requires c.Ok() && Inv(c, legacy, j, log) && Enabled(c, j, OfEngine(call))
    ensures Inv(c, legacy, Step(c, j, OfEngine(call)), log')
  {
    hide D.Inv, R.Inv, S.StandsAbove, R.Rising, D.SeqAt, R.Call, R.ConfirmedBy, Took, R.NewResponses, R.Confirms,
        Requested, R.Rewinds, Store.Total, Describes, InBounds, D.Tallied, R.Enabled, Genuine, IsSuffix;
    T.InvParts(j.w, log);
    StepGenuine(j.w, log, c.free, call);
    var form, io := R.CallIs(j.w.n, log, call);
    ConfirmStep(j, call, form, io);
    var j' := Step(c, j, OfEngine(call));
    log' := log;
    var a := R.ConfirmedBy(j.w.n, call);
    if a.Some? {
      log' := ConfirmKeepsDevice(c, legacy, j.r, log, a.value);
    }
    var log1 := log;
    if j.bare {
      log1 := R.StepKeeps(j.w, log, c.free, call);
    } else {
      log1 := S.StepStandsAbove(j.w, log, c.free, call, D.SeqAt(j.r.hist, 0));
    }
    DescribedByBoth(c, legacy, j'.r, log', j'.w, log1);
    HandshakeOf(j'.w, log1);
  }

  lemma {:induction false} ConfirmKeepsDevice(c: D.Config, legacy: nat, r: D.Run, log: seq<LogSeg>, a: nat)
    returns (log': seq<LogSeg>)
    requires c.Ok() && D.Inv(c, legacy, r, log) && r.x.on
    ensures var r' := D.Advance(c, r, D.Confirm(a));
      D.Inv(c, legacy, r', log') && r'.x.on && r'.x.d.st == DeleteUpTo(r.x.d.st, a) && r'.hist == r.hist
  {
    hide D.Inv, D.Advance;
    log' := D.ConfirmKeeps(c, legacy, r, log, a);
    AdvanceConfirms(c, r, a);
  }

  lemma {:induction false} AdvanceConfirms(c: D.Config, r: D.Run, a: nat)
    requires r.x.on
    ensures var r' := D.Advance(c, r, D.Confirm(a));
      r'.x.on && r'.x.d.st == DeleteUpTo(r.x.d.st, a) && r'.hist == r.hist
  {
    hide D.Tallied, DeleteUpTo;
    assert r.hist + [] == r.hist;
  }

  // ---- runs ----

  lemma {:induction false} StepKeeps(c: D.Config, legacy: nat, j: World, log: seq<LogSeg>, e: Event)
    returns (log': seq<LogSeg>)
    requires c.Ok() && Inv(c, legacy, j, log) && Enabled(c, j, e)
    ensures Inv(c, legacy, Step(c, j, e), log')
  {
    hide Inv, Enabled, Step;
    match e
    case OfDevice(e) => log' := DeviceKeeps(c, legacy, j, log, e);
    case Begins(io) =>
      log' := log;
      BeginsKeeps(c, legacy, j, log, io);
    case OfEngine(call) => log' := EngineKeeps(c, legacy, j, log, call);
  }

  /** An event that is not enabled does not happen. */
  ghost function NextWorld(c: D.Config, j: World, e: Event): World { if Enabled(c, j, e) then Step(c, j, e) else j }

  ghost function RunAll(c: D.Config, j: World, es: seq<Event>): World
    decreases |es|
  {
    if es == [] then j else RunAll(c, NextWorld(c, j, es[0]), es[1..])
  }

  /** A device out of the factory, or one that migrates from the old log. */
  function Factory(legacy: nat): World {
    var r := D.Factory(legacy);
    var n := Start(r.x.d.st, 0, {});
    World(r, R.World(n, 0, 0, 0, 0, [], 0, 0, [], [], None), false, true)
  }

  lemma {:induction false} RunKeeps(c: D.Config, legacy: nat, j: World, log: seq<LogSeg>, es: seq<Event>)
    returns (log': seq<LogSeg>)
    requires c.Ok() && Inv(c, legacy, j, log)
    ensures Inv(c, legacy, RunAll(c, j, es), log')
    decreases |es|
  {
    hide Inv, Enabled, Step;
    log' := log;
    if es != [] {
      var log1 := log;
      if Enabled(c, j, es[0]) {
        log1 := StepKeeps(c, legacy, j, log, es[0]);
      }
      log' := RunKeeps(c, legacy, NextWorld(c, j, es[0]), log1, es[1..]);
    }
  }

  lemma {:induction false} Reached(c: D.Config, legacy: nat, es: seq<Event>) returns (log: seq<LogSeg>)
    requires c.Ok()
    ensures Inv(c, legacy, RunAll(c, Factory(legacy), es), log)
  {
    hide D.Inv, RunAll, Start;
    L.FactoryInv(c, legacy);
    log := RunKeeps(c, legacy, Factory(legacy), [], es);
  }

  /**
   * What the server has not confirmed is not lost unnoticed, over the whole life of a device and its
   * engine: every durable record newer than all confirmed seqs and all overflow marks is read back
   * byte for byte, the others that are gone are counted, and the counts are exact. They are the counts
   * of an observer who adds up how the counters of the log move: the device forgets its loss counter
   * and its overflow mark when the power goes, and an engine that starts takes the mark as told.
   */
  lemma {:induction false} NothingIsLostUnnoticed(c: D.Config, legacy: nat, es: seq<Event>)
    requires c.Ok() && RunAll(c, Factory(legacy), es).r.x.on
    ensures var r := RunAll(c, Factory(legacy), es).r;
      var gone := r.tally.freed + r.tally.dropped + r.tally.cutShort + r.tally.atBoot;
      && gone <= |r.hist|
      && (forall i :: 0 <= i < |r.hist| ==>
            var s := D.SeqAt(r.hist, i);
            Read(r.x.d.st, s, {}) == if i < gone then Missing else Found(r.hist[i].block))
      && (forall i :: 0 <= i < gone ==> D.SeqAt(r.hist, i) <= Max(r.tally.confirmed, r.tally.mark))
  {
    hide RunAll, D.Inv, Running, Read, D.SeqAt, R.Rising;
    var log := Reached(c, legacy, es);
    L.HeldTail(c, legacy, RunAll(c, Factory(legacy), es).r, log);
  }

  /**
   * The engine's results hold of every device: the cursor, the credit, nothing sent twice between two
   * rewinds, and the answers over all boots.
   */
  lemma {:induction false} EngineIsSafe(c: D.Config, legacy: nat, es: seq<Event>)
    requires c.Ok()
    ensures var j := RunAll(c, Factory(legacy), es);
      && (forall a, b :: 0 <= a < b < |j.w.answered| ==> j.w.answered[a] < j.w.answered[b])
      && (forall a :: 0 <= a < |j.w.answered| ==> j.w.answered[a] <= j.w.n.nvsCs)
      && (j.up ==>
            && j.w.n.st == j.r.x.d.st && j.w.n.e.ack < j.w.n.e.cursor <= j.w.n.Head() + 1
            && j.w.spent <= j.w.credit
            && (j.w.n.e.sessionOpen ==> j.w.confirmed.Some? && j.w.confirmed.value in j.w.here))
    ensures var j := RunAll(c, Factory(legacy), es);
      var since := Tail(j.w.n.tx, j.w.base);
      j.up ==>
        && (forall i :: 0 <= i < |since| ==> Lo(since[i]) <= Hi(since[i]) < j.w.n.e.cursor)
        && (forall i, k :: 0 <= i < k < |since| ==> Hi(since[i]) < Lo(since[k]))
  {
    hide RunAll, D.Inv, S.StandsAbove, Sound, R.Accounted, Traced, Lo, Hi, Tail, Carried;
    var log := Reached(c, legacy, es);
  }

  /**
   * A device never tells what became of the seqs before its first durable record, unless its engine
   * started before that record was written: no message of the boot, block, BOOT range or LOSS,
   * stands for one of them.
   */
  lemma {:induction false} StartIsNeverTold(c: D.Config, legacy: nat, es: seq<Event>)
    requires c.Ok()
    ensures var j := RunAll(c, Factory(legacy), es);
      var tx := Carried(j.w.n.tx);
      j.up && !j.bare ==>
        j.r.hist != [] && forall i, q: nat :: 0 <= i < |tx| && CoversMsg(tx[i], q) ==> D.SeqAt(j.r.hist, 0) <= q
  {
    hide RunAll, D.Inv, R.Inv, D.SeqAt, Carried, CoversMsg, StandsFor, R.Rising, Flat;
    var log := Reached(c, legacy, es);
  }
}
