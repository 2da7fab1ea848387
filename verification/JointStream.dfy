/**
 * The stream of messages in the runs of a device with its engine: when it has no gap, and what it tells of the
 * start.
 */
module JointStream {
  import opened SegmentFormat
  import opened StoreSpec
  import opened LogSpec
  import opened CommitKeeps
  import D = Device
  import W = BlockWriter
  import opened SyncSpec
  import opened SyncForms
  import opened SyncSafety
  import R = SyncRun
  import T = SyncTheorems
  import S = SyncStart
  import X = SyncDevice
  import opened SyncTold
  import opened Joint

  /** The stream has no gap, if there is one. */
  ghost predicate NoGap(j: World) { j.up ==> R.NoGap(j.w) }

  /**
   * An event of the device or of its engine that cannot open a gap. Two can, while a gap hangs on the
   * BOOT at the cursor: a commit that discards the segment of that BOOT, and a LOSS sent in the place
   * of that BOOT because its file did not open.
   */
  ghost predicate Harmless(c: D.Config, j: World, e: Event) {
    match e
    case OfDevice(e) =>
      j.up && (e.BootRecord? || e.DataRecord?) && Writes(D.Subject(j.r.x, e).0, e.f) ==>
        T.Harmless(j.w, c.free, Flushed(j.r.x, e))
    case Begins(_) => true
    case OfEngine(call) => T.Harmless(j.w, c.free, call)
  }

  // ---- one event ----

  /** A store that differs only in where the next record goes leaves the stream alone. */
  lemma {:induction false} ForcedNoGap(w: R.World, st: Store)
    requires st == w.n.st || st == w.n.st.(forceNew := true)
    ensures R.NoGap(Shared(w, st, [])) == R.NoGap(w)
  {
    hide Tail, Covers, IsBootFrom;
    var w' := Shared(w, st, []);
    forall q: nat
      ensures Owed(w'.n, q) == Owed(w.n, q) && Uncovered(w'.n, w.mark, q) == Uncovered(w.n, w.mark, q)
    {
      ForcedReads(w.n.st, st, w.n.e.cursor);
    }
  }

  lemma {:induction false} ForcedReads(st: Store, st': Store, s: nat)
    requires st' == st || st' == st.(forceNew := true)
    ensures Read(st', s, {}) == Read(st, s, {})
  {
    hide RecordAt, HeaderOk;
  }

  lemma {:induction false} DeviceGapFree(c: D.Config, legacy: nat, j: World, log: seq<LogSeg>, e: D.Event)
    requires c.Ok() && Inv(c, legacy, j, log) && Enabled(c, j, OfDevice(e)) && NoGap(j)
    ensures NoGap(Step(c, j, OfDevice(e))) <==> Harmless(c, j, OfDevice(e))
  {
    hide D.Inv, R.Inv, S.StandsAbove, R.Rising, D.SeqAt, D.Step, D.Durable, D.Tallied, Traced, R.NoGap, T.Harmless,
        Writes, Flushed, R.Enabled;
    if Step(c, j, OfDevice(e)).up {
      if e.BootRecord? || e.DataRecord? {
        if Writes(D.Subject(j.r.x, e).0, e.f) {
          CommitIsAppend(c, legacy, j, log, e);
          T.StepGapFree(j.w, log, c.free, Flushed(j.r.x, e));
        } else {
          NothingWritten(c, j, e);
          ForcedNoGap(j.w, D.Step(c, j.r.x, e).d.st);
        }
      } else {
        IdleStep(c, j, e);
        ForcedNoGap(j.w, j.r.x.d.st);
      }
    } else if j.up {
      StaysOn(c, j, e);
    }
  }

  lemma {:induction false} StaysOn(c: D.Config, j: World, e: D.Event)
    requires Enabled(c, j, OfDevice(e)) && j.up && !Step(c, j, OfDevice(e)).up
    ensures !e.BootRecord? && !e.DataRecord?
  {
    hide D.Tallied, D.Durable, W.Committed, W.WriteBoot;
  }

  lemma {:induction false} BeginsGapFree(c: D.Config, legacy: nat, j: World, log: seq<LogSeg>, io: set<nat>)
    requires c.Ok() && Inv(c, legacy, j, log) && Enabled(c, j, Begins(io))
    ensures NoGap(Step(c, j, Begins(io)))
  {
    hide D.Inv, R.Rising, D.SeqAt, Flat, EffectiveTail, Sound;
    X.DeviceLogIsSound(c, legacy, j.r, log);
    StartInBounds(j.r.x.d.st, log, j.w.n.nvsCs, io);
    hide Covers, Owed;
  }

  lemma {:induction false} CallStep(c: D.Config, j: World, call: R.Event)
    requires Enabled(c, j, OfEngine(call))
    ensures Step(c, j, OfEngine(call)).w == R.Step(j.w, c.free, call) && Step(c, j, OfEngine(call)).up
  {
    hide R.Observe, R.ConfirmedBy, D.Advance;
  }

  /** One event of a run of both keeps the stream gap-free if and only if it is harmless. */
  lemma {:induction false} StepGapFree(c: D.Config, legacy: nat, j: World, log: seq<LogSeg>, e: Event)
    requires c.Ok() && Inv(c, legacy, j, log) && Enabled(c, j, e) && NoGap(j)
    ensures NoGap(Step(c, j, e)) <==> Harmless(c, j, e)
  {
    match e
    case OfDevice(e) => DeviceGapFree(c, legacy, j, log, e);
    case Begins(io) => BeginsGapFree(c, legacy, j, log, io);
    case OfEngine(call) =>
      hide D.Inv, R.Inv, Traced, R.NoGap, T.Harmless, Step, S.StandsAbove, R.Enabled, R.Rising;
      CallStep(c, j, call);
      T.StepGapFree(j.w, log, c.free, call);
  }

  // ---- whole runs ----

  ghost predicate NoGapAlong(c: D.Config, j: World, es: seq<Event>)
    decreases |es|
  {
    NoGap(j) && (es != [] ==> NoGapAlong(c, NextWorld(c, j, es[0]), es[1..]))
  }

  ghost predicate HarmlessAlong(c: D.Config, j: World, es: seq<Event>)
    decreases |es|
  {
    es != [] ==> (Enabled(c, j, es[0]) ==> Harmless(c, j, es[0])) && HarmlessAlong(c, NextWorld(c, j, es[0]), es[1..])
  }

  lemma {:induction false} RunGapFree(c: D.Config, legacy: nat, j: World, log: seq<LogSeg>, es: seq<Event>)
    requires c.Ok() && Inv(c, legacy, j, log) && NoGap(j)
    ensures NoGapAlong(c, j, es) <==> HarmlessAlong(c, j, es)
    decreases |es|
  {
    hide Inv, Enabled, Step, NoGap, Harmless;
    if es != [] {
      var log1 := log;
      if Enabled(c, j, es[0]) {
        StepGapFree(c, legacy, j, log, es[0]);
        log1 := Joint.StepKeeps(c, legacy, j, log, es[0]);
      }
      if NoGap(NextWorld(c, j, es[0])) {
        RunGapFree(c, legacy, NextWorld(c, j, es[0]), log1, es[1..]);
      }
    }
  }

  /**
   * The gap-free stream over the whole life of a device and its engine: in every boot, at every
   * moment, each seq between the ACK at the last rewind and the cursor is confirmed, sent, declared by
   * a BOOT or LOSS that was sent, or declared by the intact BOOT about to be sent, if and only if
   * every event is harmless.
   */
  lemma {:induction false} StreamIsGapFree(c: D.Config, legacy: nat, es: seq<Event>)
    requires c.Ok()
    ensures NoGapAlong(c, Factory(legacy), es) <==> HarmlessAlong(c, Factory(legacy), es)
  {
    hide Inv, NoGapAlong, HarmlessAlong, RunAll;
    var log := Joint.Reached(c, legacy, []);
    AtFactory(c, legacy);
    RunGapFree(c, legacy, Factory(legacy), log, es);
  }

  lemma {:induction false} AtFactory(c: D.Config, legacy: nat)
    ensures RunAll(c, Factory(legacy), []) == Factory(legacy) && NoGap(Factory(legacy))
  {
    hide Start;
  }

  lemma {:induction false} NoGapAtEnd(c: D.Config, j: World, es: seq<Event>)
    requires NoGapAlong(c, j, es)
    ensures NoGap(RunAll(c, j, es))
    decreases |es|
  {
    hide NextWorld, NoGap;
    if es != [] {
      NoGapAtEnd(c, NextWorld(c, j, es[0]), es[1..]);
    }
  }

  // ---- the start of the device's life ----

  /**
   * In every run without an event that opens a gap: each seq above the ACK that the cursor has passed,
   * and that no durable record ever stood for, has been named by a LOSS since the last rewind.
   */
  lemma {:induction false} MissingIsTold(c: D.Config, legacy: nat, es: seq<Event>)
    requires c.Ok() && HarmlessAlong(c, Factory(legacy), es)
    ensures var j := RunAll(c, Factory(legacy), es);
      j.up ==>
        forall q: nat :: j.w.n.e.ack < q < j.w.n.e.cursor && !StandsFor(D.Blocks(j.r.hist), q) ==>
          ToldLost(Tail(j.w.n.tx, j.w.base), q)
  {
    hide Inv, NoGapAlong, HarmlessAlong, RunAll, R.NoGap, ToldLost, Tail, StandsFor, R.Inv, Genuine, IsSuffix;
    StreamIsGapFree(c, legacy, es);
    NoGapAtEnd(c, Factory(legacy), es);
    var log := Joint.Reached(c, legacy, es);
    var j := RunAll(c, Factory(legacy), es);
    if j.up {
      RunningParts(c, legacy, j, log);
      S.FewerStand(j.w.known, D.Blocks(j.r.hist));
      forall q: nat | j.w.n.e.ack < q < j.w.n.e.cursor && !StandsFor(D.Blocks(j.r.hist), q)
        ensures ToldLost(Tail(j.w.n.tx, j.w.base), q)
      {
        MissingTold(j.w, log, q);
      }
    }
  }

  /** No record of the history stands for a seq before the first. */
  lemma {:induction false} NoneBeforeFirst(hist: seq<D.Rec>, q: nat)
    requires D.Shaped(hist) && q < D.SeqAt(hist, 0)
    ensures !StandsFor(D.Blocks(hist), q)
  {
    hide D.SeqAt, StandsAt, D.Shaped;
    var r := D.Blocks(hist);
    assert IsSuffix(r, r);
    hide D.Blocks;
    forall i | 0 <= i < |r|
      ensures !StandsAt(r[i], q)
    {
      if StandsAt(r[i], q) {
        X.StandsAboveFirst(hist, r, i, q);
        assert false;
      }
    }
  }

  /**
   * What becomes of the seqs before the first durable record, in every run without an event that opens
   * a gap: once the cursor has passed such a seq, and the server has not confirmed it, a LOSS for it
   * has gone out if and only if the log was empty when the sync task of this boot began.
   */
  lemma {:induction false} StartIsToldExactly(c: D.Config, legacy: nat, es: seq<Event>, q: nat)
    requires c.Ok() && HarmlessAlong(c, Factory(legacy), es)
    ensures var j := RunAll(c, Factory(legacy), es);
      j.up && 1 <= q < D.SeqAt(j.r.hist, 0) && q < j.w.n.e.cursor && (j.bare ==> j.w.n.e.ack < q) ==>
        (ToldLost(Tail(j.w.n.tx, j.w.base), q) <==> j.bare)
  {
    hide Inv, HarmlessAlong, RunAll, ToldLost, Tail, D.SeqAt, StandsFor, D.Shaped, D.Blocks;
    var log := Joint.Reached(c, legacy, es);
    var j := RunAll(c, Factory(legacy), es);
    if j.up && q < D.SeqAt(j.r.hist, 0) {
      if j.bare {
        ShapedHist(c, legacy, j, log);
        NoneBeforeFirst(j.r.hist, q);
        MissingIsTold(c, legacy, es);
      } else {
        StartIsNeverTold(c, legacy, es);
        NotTold(j.w.n.tx, j.w.base, D.SeqAt(j.r.hist, 0), q);
      }
    }
  }

  lemma {:induction false} ShapedHist(c: D.Config, legacy: nat, j: World, log: seq<LogSeg>)
    requires Inv(c, legacy, j, log)
    ensures D.Shaped(j.r.hist)
  {
    hide D.Shaped, D.Logged, D.Accounted, D.Counting, Running, R.Rising;
  }

  lemma {:induction false} RunningParts(c: D.Config, legacy: nat, j: World, log: seq<LogSeg>)
    requires Inv(c, legacy, j, log) && j.up
    ensures R.Inv(j.w, log) && Genuine(j.w) && IsSuffix(j.w.known, D.Blocks(j.r.hist))
  {
    hide D.Inv, R.Inv, S.StandsAbove, Genuine, R.Rising;
  }

  lemma {:induction false} NotTold(tx: seq<Msg>, base: nat, f: nat, q: nat)
    requires q < f
    requires forall i, p: nat :: 0 <= i < |Carried(tx)| && CoversMsg(Carried(tx)[i], p) ==> f <= p
    ensures !ToldLost(Tail(tx, base), q)
  {
    hide Carried;
    var since := Tail(tx, base);
    forall i | 0 <= i < |since|
      ensures since[i].LossMsg? ==> !(since[i].from <= q <= since[i].to)
    {
      assert since[i] == Carried(tx)[base + i];
      assert CoversMsg(Carried(tx)[base + i], q) ==> f <= q;
    }
  }
}
