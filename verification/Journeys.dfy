/**
 * How a run of a device with its engine comes about: events of the device alone, then the start of
 * the sync task, then a session of the app and calls that send.
 */
module Journeys {
  import opened Bytes
  import opened BlockFormat
  import opened SegmentFormat
  import opened StoreSpec
  import opened LogSpec
  import opened Recovery
  import D = Device
  import opened SyncSpec
  import opened SyncForms
  import opened SyncSafety
  import opened SyncSession
  import R = SyncRun
  import T = SyncTheorems
  import S = SyncStart
  import opened Joint

  // ---- runs of the device, then of both ----

  function ByDevice(ds: seq<D.Event>): seq<Event> { seq(|ds|, i requires 0 <= i < |ds| => OfDevice(ds[i])) }

  function ByEngine(calls: seq<R.Event>): seq<Event> { seq(|calls|, i requires 0 <= i < |calls| => OfEngine(calls[i])) }

  predicate Plain(call: R.Event) { !call.Append? && !call.Restart? && (call.Message? ==> call.save.persists) }

  lemma {:induction false} RunsOn(c: D.Config, j: World, a: seq<Event>, b: seq<Event>)
    ensures RunAll(c, j, a + b) == RunAll(c, RunAll(c, j, a), b)
    decreases |a|
  {
    hide NextWorld;
    if a == [] {
      assert a + b == b;
    } else {
      assert (a + b)[1..] == a[1..] + b;
      RunsOn(c, NextWorld(c, j, a[0]), a[1..], b);
    }
  }

  /** Until the engine starts the device runs on its own. */
  lemma {:induction false} DeviceRuns(c: D.Config, j: World, ds: seq<D.Event>)
    requires !j.up && forall i :: 0 <= i < |ds| ==> !ds[i].Confirm?
    ensures RunAll(c, j, ByDevice(ds)) == World(D.RunAll(c, j.r, ds), j.w, false, j.bare)
    decreases |ds|
  {
    hide D.Enabled, D.Step, D.Tallied, D.Durable;
    if ds != [] {
      assert ByDevice(ds)[1..] == ByDevice(ds[1..]);
      DeviceRuns(c, NextWorld(c, j, OfDevice(ds[0])), ds[1..]);
    }
  }

  lemma {:induction false} EngineRuns(c: D.Config, j: World, calls: seq<R.Event>)
    requires j.up && forall i :: 0 <= i < |calls| ==> Plain(calls[i])
    ensures var j' := RunAll(c, j, ByEngine(calls));
      j'.up && j'.bare == j.bare && j'.w == R.RunAll(j.w, c.free, calls) && j'.r.hist == j.r.hist
    decreases |calls|
  {
    hide R.Observe, D.Advance, R.ConfirmedBy;
    if calls != [] {
      var a := R.ConfirmedBy(j.w.n, calls[0]);
      if a.Some? {
        ConfirmAddsNothing(c, j.r, a.value);
      }
      assert ByEngine(calls)[1..] == ByEngine(calls[1..]);
      EngineRuns(c, NextWorld(c, j, OfEngine(calls[0])), calls[1..]);
    }
  }

  lemma {:induction false} ConfirmAddsNothing(c: D.Config, r: D.Run, a: nat)
    ensures D.Advance(c, r, D.Confirm(a)).hist == r.hist
  {
    hide D.Tallied, DeleteUpTo;
    assert r.hist + [] == r.hist;
  }

  /** The app opens a session and asks for `k` blocks, and the engine sends, call by call. */
  function Sending(n: Node, k: nat, lucks: seq<Luck>): seq<R.Event> {
    Opening(n, k) + SendCalls(lucks)
  }

  function SendCalls(lucks: seq<Luck>): seq<R.Event> {
    seq(|lucks|, i requires 0 <= i < |lucks| => R.SendBlock(lucks[i]))
  }

  function Beginning(ds: seq<D.Event>): seq<Event> { ByDevice(ds) + [Begins({})] }

  /** The device runs, then its sync task begins, and then the app asks for blocks. */
  ghost function Journey(c: D.Config, ds: seq<D.Event>, k: nat, lucks: seq<Luck>): seq<Event> {
    Beginning(ds) + ByEngine(Sending(RunAll(c, Factory(0), Beginning(ds)).w.n, k, lucks))
  }

  lemma {:induction false} BeginsAt(c: D.Config, ds: seq<D.Event>, log: seq<LogSeg>) returns (j: World)
    requires c.Ok() && (forall i :: 0 <= i < |ds| ==> !ds[i].Confirm?)
    requires var r := D.RunAll(c, D.Factory(0), ds); D.Inv(c, 0, r, log) && r.x.on
    ensures j == RunAll(c, Factory(0), Beginning(ds)) && Inv(c, 0, j, log) && j.up
    ensures j.r == D.RunAll(c, D.Factory(0), ds) && j.bare == (j.r.x.d.st.segs == [])
    ensures j.w.n == Start(j.r.x.d.st, 0, {}) && j.w.n.st == j.r.x.d.st && R.Inv(j.w, log) && Sound(j.w.n.st, log)
  {
    hide D.Inv, D.RunAll, Running, Start, R.Rising, Sound;
    var j0 := Factory(0);
    DeviceRuns(c, j0, ds);
    var j1 := RunAll(c, j0, ByDevice(ds));
    AnsweredNothing(c);
    assert Inv(c, 0, j1, log);
    BeginsKeeps(c, 0, j1, log, {});
    j := Step(c, j1, Begins({}));
    RunsOn(c, j0, ByDevice(ds), [Begins({})]);
    assert [Begins({})][1..] == [];
    IsRunning(c, j, log);
  }

  lemma {:induction false} AnsweredNothing(c: D.Config)
    ensures Factory(0).w.answered == [] && R.Rising([]) && Factory(0).w.n.nvsCs == 0 && Factory(0).r == D.Factory(0)
    ensures !Factory(0).up
  {
    hide EffectiveTail;
  }

  lemma {:induction false} IsRunning(c: D.Config, j: World, log: seq<LogSeg>)
    requires Inv(c, 0, j, log) && j.up
    ensures R.Inv(j.w, log) && Sound(j.w.n.st, log) && j.w.n.st == j.r.x.d.st
  {
    hide D.Inv, S.StandsAbove, R.Rising, Sound, InBounds, R.Accounted, R.Ordered, WithinCredit, R.Handshaken, Traced;
  }

  // ---- the session ----

  lemma {:induction false} StartOpens(st: Store, log: seq<LogSeg>, k: nat)
    requires Sound(st, log) && st.segs != [] && 1 <= k < U16_END
    ensures Openable(Start(st, 0, {}), k)
  {
    hide Sound, Describes, Read, ParseMarker, CrcMatches;
    SoundDescribes(st, log);
    StartInBounds(st, log, 0, {});
    S.StartNamesNothing(st, log, 0, {});
    StoredBounds(st, log, st.OldestSeq());
    SmallHead(st, log);
  }

  lemma {:induction false} EngineRunsOn(w: R.World, free: Flash -> nat, a: seq<R.Event>, b: seq<R.Event>)
    ensures R.RunAll(w, free, a + b) == R.RunAll(R.RunAll(w, free, a), free, b)
    decreases |a|
  {
    hide R.Step;
    if a == [] {
      assert a + b == b;
    } else {
      assert (a + b)[1..] == a[1..] + b;
      EngineRunsOn(R.Step(w, free, a[0]), free, a[1..], b);
    }
  }

  /** The world once the session is open and the batch is about to start. */
  lemma {:induction false} SessionOpens(c: D.Config, w: R.World, log: seq<LogSeg>, k: nat) returns (v: R.World)
    requires R.Inv(w, log) && Sound(w.n.st, log) && w.n == Start(w.n.st, 0, {}) && w.n.st.segs != [] && 1 <= k < U16_END
    ensures v == R.RunAll(w, c.free, Opening(w.n, k)) && R.Inv(v, log) && Opened(w.n, k, v.n)
    ensures v.mark == w.n.e.ack && v.base == 0 && Carried(v.n.tx) == [] && MaySend(v.n)
  {
    hide R.Inv, Sound, R.RunAll, R.AllEnabled, Opening, Carried, Describes, EffectiveTail;
    StartOpens(w.n.st, log, k);
    OpeningOpens(w.n, k);
    OpeningMarks(w, c.free, k);
    S.OpeningIsCalls(w.n, k);
    CallsRun(w, c.free, Opening(w.n, k));
    v := R.RunAll(w, c.free, Opening(w.n, k));
    var log' := R.RunKeeps(w, log, c.free, Opening(w.n, k));
    T.InvParts(v, log');
    SoundDescribes(w.n.st, log);
    OneLog(w.n.st, log', log);
    S.NothingCarried();
  }

  /** The whole journey: the session, and then the calls of `sendNextBlock`. */
  lemma {:induction false} JourneyRuns(c: D.Config, ds: seq<D.Event>, log: seq<LogSeg>, k: nat, lucks: seq<Luck>)
    returns (w: R.World, v: R.World)
    requires c.Ok() && (forall i :: 0 <= i < |ds| ==> !ds[i].Confirm?) && 1 <= k < U16_END
    requires var r := D.RunAll(c, D.Factory(0), ds); D.Inv(c, 0, r, log) && r.x.on && r.x.d.st.segs != []
    ensures var st := D.RunAll(c, D.Factory(0), ds).x.d.st; w.n == Start(st, 0, {}) && w.n.st == st && Sound(st, log)
    ensures R.Inv(v, log) && Opened(w.n, k, v.n)
    ensures v.mark == w.n.e.ack && v.base == 0 && Carried(v.n.tx) == [] && MaySend(v.n)
    ensures var j := RunAll(c, Factory(0), Journey(c, ds, k, lucks));
      j.up && !j.bare && j.w == R.RunAll(v, c.free, SendCalls(lucks)) && j.r.hist == D.RunAll(c, D.Factory(0), ds).hist
  {
    hide D.Inv, D.RunAll, R.Inv, Sound, RunAll, R.RunAll, Opening, Start, Carried, Opened, MaySend, Beginning, Inv;
    var j := BeginsAt(c, ds, log);
    w := j.w;
    v := SessionOpens(c, w, log, k);
    S.OpeningIsCalls(w.n, k);
    EngineRuns(c, j, Sending(w.n, k, lucks));
    EngineRunsOn(w, c.free, Opening(w.n, k), SendCalls(lucks));
    RunsOn(c, Factory(0), Beginning(ds), ByEngine(Sending(w.n, k, lucks)));
  }
}
