/**
 * Two runs of a device out of the factory in which the server is not told what became of some seqs:
 * those before a first record that is written late, and those a BOOT declares whose file does not open.
 */
module Shortfalls {
  import opened Bytes
  import opened BlockFormat
  import opened SegmentFormat
  import opened StoreSpec
  import opened LogSpec
  import opened Recovery
  import opened CommitKeeps
  import opened Boots
  import D = Device
  import L = Lifetime
  import W = BlockWriter
  import SeqReserve
  import opened SyncSpec
  import opened SyncForms
  import opened SyncSafety
  import opened SyncSession
  import R = SyncRun
  import T = SyncTheorems
  import X = SyncDevice
  import opened Joint
  import opened Journeys

  // ---- a BOOT that nothing hinders ----

  function Booting(): D.Event { D.BootRecord(0, L.NoFaults()) }

  /** The first commit of a restart saves a new reserve. */
  lemma {:induction false} BootSaves(c: D.Config, r: D.Run)
    requires D.Enabled(c, r.x, Booting()) && r.x.d.w.reserve == 0
    ensures D.Advance(c, r, Booting()).x.d.nvs == r.x.d.w.next + r.x.d.w.step
  {
    hide D.BootData, W.Signed, W.AppendTwice, D.Tallied, D.Durable, BootMarker;
    D.WriteBootIs(r.x, 0, c.free, L.NoFaults());
  }

  // ---- a log of one segment ----

  lemma {:induction false} SegmentsHold(log: seq<LogSeg>)
    requires forall i :: 0 <= i < |log| ==> log[i].recs != []
    ensures |log| <= |Flat(log)|
    decreases |log|
  {
    if log != [] {
      SegmentsHold(log[..|log| - 1]);
    }
  }

  lemma {:induction false} FewSegments(st: Store, log: seq<LogSeg>)
    requires Describes(st, log)
    ensures |st.segs| <= |Flat(log)|
  {
    hide FlashOf;
    SegmentsHold(log);
  }

  /** The newest segment is never discarded to make room. */
  lemma {:induction false} LoneStays(st: Store, b: Block, free: Flash -> nat, w: Outcome)
    requires |st.segs| <= 1
    ensures var (s, ok) := Append(st, b, free, w); s.lost == st.lost && (!ok ==> |s.segs| <= 1)
  {
    hide AppendBytes, BlockSeq;
  }

  lemma {:induction false} BootDropsNothing(c: D.Config, r: D.Run, log: seq<LogSeg>)
    requires c.Ok() && c.tagLen == 0 && D.Inv(c, 0, r, log) && r.x.on && r.x.d.w.pending
    requires r.x.d.w.next + c.step < U32_END && |r.x.d.st.segs| <= 1
    ensures D.Advance(c, r, Booting()).tally.Gone() == r.tally.Gone()
  {
    hide D.Inv, D.BootData, SeqOf, Ready, W.Signed, W.WriteBoot, Append, D.Durable, D.Step;
    var d, bs, f := D.BootDevice(r.x), D.BootData(r.x, 0), L.NoFaults();
    D.BootIsSet(c, 0, r, log, 0, f);
    L.SetIsReady(c, r, log, d, bs, f);
    L.GoesThrough(d, log, bs, c.free);
    var b := BlockOf(d, bs, f);
    LoneStays(d.st, b, c.free, f.write1);
    var (s, ok) := Append(d.st, b, c.free, f.write1);
    if !ok {
      LoneStays(W.Retry(s), b, c.free, f.write2);
    }
  }

  /** A log that lacks nothing is the whole history. */
  lemma {:induction false} WholeLog(r: D.Run, log: seq<LogSeg>)
    requires IsSuffix(Flat(log), D.Blocks(r.hist)) && |Flat(log)| == |r.hist|
    ensures Flat(log) == D.Blocks(r.hist)
  {
    hide Flat;
  }

  // ---- two boots ----

  /** Two boots, and in each the BOOT becomes durable. */
  function TwoBoots(): seq<D.Event> {
    [D.PowerOn(1, L.LIMIT), Booting(), D.PowerOff, D.PowerOn(2, L.LIMIT), Booting()]
  }

  /** Two intact BOOTs: the first with seq 1, the second with seq 65, which declares what lies between. */
  predicate IsPair(r: seq<Block>) {
    && |r| == 2
    && SeqOf(r[0]) == 1 && ParseMarker(r[0].data) == Boot(1, 0) && CrcMatches(r[0])
    && SeqOf(r[1]) == 65 && ParseMarker(r[1].data) == Boot(2, 64) && CrcMatches(r[1])
  }

  lemma {:induction false} PendingRange(c: D.Config, r: D.Run, log: seq<LogSeg>)
    requires D.Inv(c, 0, r, log) && r.x.on && r.x.d.w.pending
    ensures r.x.d.w.bootFrom == (if r.hist == [] then r.x.d.w.next else D.SeqAt(r.hist, |r.hist| - 1) + 1)
    ensures r.x.d.w.bootTo == r.x.d.w.next - 1 && r.x.d.w.step == c.step
  {
    hide D.SeqAt, D.Logged, D.Accounted, Consistent, D.Shaped;
  }

  lemma {:induction false} FirstBoot(c: D.Config) returns (r: D.Run, log: seq<LogSeg>, b: Block)
    requires c.Ok() && c.tagLen == 0 && c.step == SeqReserve.DEFAULT_STEP
    ensures r == D.Advance(c, D.Advance(c, D.Factory(0), D.PowerOn(1, L.LIMIT)), Booting())
    ensures D.Inv(c, 0, r, log) && r.x.on && r.x.d.nvs == 65 && |r.hist| == 1 && r.hist[0].block == b
    ensures SeqOf(b) == 1 && ParseMarker(b.data) == Boot(1, 0) && CrcMatches(b)
  {
    hide D.Inv, D.Advance, D.Enabled, SeqOf, CrcMatches, ParseMarker, D.SeqAt;
    L.FactoryInv(c, 0);
    L.BareRestart(c, 0, D.Factory(0), [], 1, L.LIMIT);
    var r1 := D.Advance(c, D.Factory(0), D.PowerOn(1, L.LIMIT));
    var log1 := D.StepKeeps(c, 0, D.Factory(0), [], D.PowerOn(1, L.LIMIT));
    PendingRange(c, r1, log1);
    b := L.BootGoesThrough(c, r1, log1);
    BootSaves(c, r1);
    r := D.Advance(c, r1, Booting());
    log := D.StepKeeps(c, 0, r1, log1, Booting());
  }

  /** The second boot finds the first record, and starts at the reserve. */
  lemma {:induction false} RestartFinds(c: D.Config, r: D.Run, log: seq<LogSeg>) returns (log': seq<LogSeg>)
    requires c.Ok() && D.Inv(c, 0, r, log) && r.x.on && |r.hist| == 1 && D.SeqAt(r.hist, 0) < r.x.d.nvs
    ensures var r' := D.Advance(c, D.Advance(c, r, D.PowerOff), D.PowerOn(2, L.LIMIT));
      && D.Inv(c, 0, r', log') && r'.x.on && r'.hist == r.hist && r'.x.d.w.pending && r'.x.d.w.next == r.x.d.nvs
      && |r'.x.d.st.segs| <= 1 && r'.tally.Gone() == 0
  {
    hide D.Inv, D.SeqAt, Begin, D.Tallied;
    var r3 := D.Advance(c, r, D.PowerOff);
    assert r.hist + [] == r.hist;
    var log3 := D.StepKeeps(c, 0, r, log, D.PowerOff);
    var r' := D.Advance(c, r3, D.PowerOn(2, L.LIMIT));
    log' := D.StepKeeps(c, 0, r3, log3, D.PowerOn(2, L.LIMIT));
    X.NewestLogged(c, 0, r', log');
    LoneRecordLog(c, r', log');
  }

  lemma {:induction false} LoneRecordLog(c: D.Config, r: D.Run, log: seq<LogSeg>)
    requires D.Inv(c, 0, r, log) && r.x.on && |r.hist| == 1
    ensures |r.x.d.st.segs| <= 1 && r.tally.Gone() == 0
  {
    hide Flat, D.SeqAt, D.History, D.Counting, OpenSegments, D.Heads, Describes, MayGrow, D.Tally.Gone;
    FewSegments(r.x.d.st, log);
  }

  /** After the two boots the log holds the two BOOTs. */
  lemma {:induction false} TwoBootsLeave(c: D.Config) returns (log: seq<LogSeg>)
    requires c.Ok() && c.tagLen == 0 && c.step == SeqReserve.DEFAULT_STEP
    ensures var r := D.RunAll(c, D.Factory(0), TwoBoots());
      D.Inv(c, 0, r, log) && r.x.on && Flat(log) == D.Blocks(r.hist) && IsPair(Flat(log))
  {
    hide D.Inv, D.Advance, D.Enabled, SeqOf, CrcMatches, ParseMarker, D.RunAll, D.Tally.Gone, Flat;
    var r2, log2, b1 := FirstBoot(c);
    var log4 := RestartFinds(c, r2, log2);
    var r4 := D.Advance(c, D.Advance(c, r2, D.PowerOff), D.PowerOn(2, L.LIMIT));
    PendingRange(c, r4, log4);
    var b2 := L.BootGoesThrough(c, r4, log4);
    BootDropsNothing(c, r4, log4);
    var r := D.Advance(c, r4, Booting());
    log := D.StepKeeps(c, 0, r4, log4, Booting());
    AllLogged(c, r, log);
    FiveEvents(c, D.Factory(0), D.PowerOn(1, L.LIMIT), Booting(), D.PowerOff, D.PowerOn(2, L.LIMIT), Booting());
  }

  lemma {:induction false} AllLogged(c: D.Config, r: D.Run, log: seq<LogSeg>)
    requires D.Inv(c, 0, r, log) && r.tally.Gone() == 0
    ensures Flat(log) == D.Blocks(r.hist)
  {
    hide Flat, D.SeqAt, D.History, D.Counting, OpenSegments, D.Heads, Consistent, D.Tally.Gone;
    WholeLog(r, log);
  }

  lemma {:induction false} FiveEvents(c: D.Config, r: D.Run, a: D.Event, b: D.Event, d: D.Event, e: D.Event, f: D.Event)
    ensures D.RunAll(c, r, [a, b, d, e, f])
      == D.Advance(c, D.Advance(c, D.Advance(c, D.Advance(c, D.Advance(c, r, a), b), d), e), f)
  {
    hide D.Advance;
    assert [a, b, d, e] + [f] == [a, b, d, e, f];
    L.FourEvents(c, r, a, b, d, e);
    L.RunMore(c, r, [a, b, d, e], f);
  }

  // ---- a start that is not told ----

  lemma {:induction false} SendMoves(n: Node, n': Node, luck: Luck, form: Form)
    requires Took(n, n', luck.io, form) && Chosen(n, luck, form) && MaySend(n) && luck.link && luck.sign.Some?
    ensures n'.e.cursor > n.e.cursor && n'.e.ack == n.e.ack
  {
    hide Read, Stored, IsBootFrom, Intact, Carried, GapAhead, LongestRun, DeleteUpTo;
  }

  lemma {:induction false} RecordIsStored(c: D.Config, r: D.Run, log: seq<LogSeg>)
    requires D.Inv(c, 0, r, log) && r.x.on && r.hist != []
    ensures r.x.d.st.segs != []
  {
    hide D.SeqAt, D.Accounted, D.Counting, D.History, OpenSegments, D.Heads, MayGrow, LogWf, FlashOf;
  }

  /**
   * An engine that started on a log with records has its ACK at the first durable record, or above the seq
   * before it.
   */
  lemma {:induction false} AboveFirst(c: D.Config, es: seq<Event>)
    requires c.Ok()
    ensures var j := RunAll(c, Factory(0), es); j.up && !j.bare ==> D.SeqAt(j.r.hist, 0) <= j.w.n.e.ack + 1
  {
    hide RunAll, D.Inv, R.Inv, D.SeqAt, Carried, CoversMsg, StandsFor, R.Rising, Flat, Traced;
    var log := Joint.Reached(c, 0, es);
  }

  lemma {:induction false} SendStep(w: R.World, free: Flash -> nat, luck: Luck)
    ensures R.RunAll(w, free, SendCalls([luck])) == R.Step(w, free, R.SendBlock(luck))
    ensures var w' := R.Step(w, free, R.SendBlock(luck));
      w'.n == SendNext(w.n, luck).0 && w'.mark == w.mark && w'.base == w.base
  {
    hide SendNext, R.NewResponses, R.Confirms, Carried;
    assert SendCalls([luck]) == [R.SendBlock(luck)] && [R.SendBlock(luck)][1..] == [];
  }

  /** A call in which nothing fails. */
  const PERFECT := Luck({}, Some([]), true)

  /** A call in which the file of seq 65 does not open. */
  const CLOSED := Luck({65}, Some([]), true)

  /**
   * The first boot is cut short after the reserve is saved, so that the first record has seq 65; then
   * the sync task begins, and the app asks for a block and gets it. The cursor has passed the seqs
   * from 1 to 64, and nothing sent stands for any of them.
   */
  lemma {:induction false} StartCanGoUntold(c: D.Config)
    requires c.Ok() && c.tagLen == 0 && c.step == SeqReserve.DEFAULT_STEP
    ensures var j := RunAll(c, Factory(0), Journey(c, L.LateFirstBoot(), 1, [PERFECT]));
      && j.up && |j.r.hist| == 1 && D.SeqAt(j.r.hist, 0) == 65 && j.w.n.e.cursor > 65
      && forall q :: 1 <= q <= 64 ==> !Covers(Carried(j.w.n.tx), q)
  {
    hide D.Inv, D.RunAll, R.Inv, Sound, RunAll, R.RunAll, Opening, Start, Carried, Opened, MaySend, Journey, D.SeqAt,
        L.Covered, Took, Chosen, SendNext, CoversMsg, R.Step;
    var ds := L.LateFirstBoot();
    L.CoverageCanMissOne(c);
    var log := L.Reached(c, 0, ds);
    RecordIsStored(c, D.RunAll(c, D.Factory(0), ds), log);
    var w, v := JourneyRuns(c, ds, log, 1, [PERFECT]);
    T.InvParts(v, log);
    SendStep(v, c.free, PERFECT);
    var form := SendNextIs(v.n, log, PERFECT);
    SendMoves(v.n, SendNext(v.n, PERFECT).0, PERFECT, form);
    var es := Journey(c, ds, 1, [PERFECT]);
    StartIsNeverTold(c, 0, es);
    AboveFirst(c, es);
  }

  // ---- a stream with a gap ----

  /** The two BOOTs, as the engine reads them. */
  lemma {:induction false} PairReads(st: Store, log: seq<LogSeg>, io: set<nat>)
    requires Describes(st, log) && IsPair(Flat(log))
    ensures forall q: nat :: Stored(st, q) <==> q == 1 || q == 65
    ensures st.NewestSeq() == 65 && st.OldestSeq() == 1 && st.segs != []
    ensures Read(st, 1, {}) == Found(Flat(log)[0]) && Read(st, 65, {}) == Found(Flat(log)[1])
    ensures Read(st, 65, io) == if 65 in io then Broken else Found(Flat(log)[1])
  {
    hide Describes, Flat, SeqOf, Read, Stored, ParseMarker, CrcMatches, Holds;
    NewestIsLast(st, log);
    ReadIsLookup(st, log, 0);
    ReadIsLookup(st, log, 1);
    forall q: nat
      ensures Stored(st, q) <==> q == 1 || q == 65
    {
      StoredIsHeld(st, log, q);
      PairHolds(Flat(log), q);
    }
    ReadUnder(st, 65, io);
    StoredBounds(st, log, 1);
  }

  lemma {:induction false} PairHolds(r: seq<Block>, q: nat)
    requires IsPair(r)
    ensures Holds(r, q) <==> q == 1 || q == 65
  {
    hide SeqOf, ParseMarker, CrcMatches;
  }

  lemma {:induction false} PairStart(st: Store, log: seq<LogSeg>)
    requires Describes(st, log) && IsPair(Flat(log))
    ensures Start(st, 0, {}).e.ack == 0
  {
    hide Describes, Flat, SeqOf, Read, Stored, ParseMarker, CrcMatches;
    PairReads(st, log, {});
  }

  /** A call that sends an intact block leaves the batch running. */
  lemma {:induction false} SendsOn(n: Node, luck: Luck, b: Block)
    requires MaySend(n) && Read(n.st, n.e.cursor, luck.io) == Found(b) && CrcMatches(b) && luck.link
    ensures var n' := SendNext(n, luck).0;
      && n'.st == n.st && n'.e.ack == n.e.ack && n'.e.cursor == n.e.cursor + 1 && n'.e.batchEnd == n.e.batchEnd
      && Carried(n'.tx) == Carried(n.tx) + [BlockMsg(b)]
      && (n'.e.cursor <= n'.e.batchEnd ==> MaySend(n'))
  {
    hide Read, CrcMatches, Carried, Node.Notice;
    OverflowIsQuiet(n);
    CarriedMore(n.tx, BlockMsg(b));
  }

  lemma {:induction false} SendsFirst(n: Node, log: seq<LogSeg>)
    requires Describes(n.st, log) && IsPair(Flat(log)) && MaySend(n) && n.e.cursor == 1 && n.e.batchEnd == 2
    requires Carried(n.tx) == []
    ensures var n' := SendNext(n, PERFECT).0;
      && n'.st == n.st && n'.e.ack == n.e.ack && n'.e.cursor == 2 && n'.e.batchEnd == 2 && MaySend(n')
      && Carried(n'.tx) == [BlockMsg(Flat(log)[0])]
  {
    hide Describes, Flat, SeqOf, Read, Stored, ParseMarker, CrcMatches, Carried, MaySend, SendNext;
    PairReads(n.st, log, {});
    SendsOn(n, PERFECT, Flat(log)[0]);
  }

  /** The cursor jumps to the second BOOT, which declares what lies between. */
  lemma {:induction false} JumpsToSecond(n: Node, log: seq<LogSeg>)
    requires Describes(n.st, log) && IsPair(Flat(log)) && MaySend(n) && n.e.cursor == 2 && n.e.batchEnd == 2
    ensures var n' := SendNext(n, PERFECT).0;
      && n'.st == n.st && n'.e.ack == n.e.ack && n'.e.cursor == 65 && n'.e.batchEnd == 65 && MaySend(n')
      && Carried(n'.tx) == Carried(n.tx)
  {
    hide Describes, Flat, SeqOf, Read, Stored, ParseMarker, CrcMatches, Carried, SendNext, Took, Chosen;
    PairReads(n.st, log, {});
    var form := SendNextIs(n, log, PERFECT);
    assert DeclaresGap(n, 65, {});
    GapMeansJump(n, form, 65);
    AfterJump(n, SendNext(n, PERFECT).0, form);
    SeenAfter(n, PERFECT);
  }

  lemma {:induction false} SeenAfter(n: Node, luck: Luck)
    requires MaySend(n)
    ensures n.st.overflow <= SendNext(n, luck).0.e.overflowSeen
  {
    hide Read, CrcMatches, CheckOverflow, LossEnd, SkipMissing, SendLoss, SendStored, Stored;
    OverflowIsQuiet(n);
    var n1, s := CheckOverflow(n), n.e.cursor;
    var r := Read(n1.st, s, luck.io);
    OverflowIsSeen(n);
    SeenKept(n1, s, LossEnd(n1.st, s, s, luck.io), luck, if r.Found? then r.block else Block([], [], 0));
  }

  lemma {:induction false} OverflowIsSeen(n: Node)
    ensures CheckOverflow(n).e.overflowSeen >= n.st.overflow && CheckOverflow(n).st == n.st
  {
    hide Node.Notice;
    NoticeCarries(n.(e := n.e.(overflowSeen := n.st.overflow, batchActive := false, noHsConn := true,
                               sessionOpen := false)));
  }

  lemma {:induction false} SeenKept(n: Node, s: nat, to: nat, luck: Luck, b: Block)
    ensures SkipMissing(n, s, luck).0.e.overflowSeen == n.e.overflowSeen
    ensures SendLoss(n, s, to, luck).e.overflowSeen == n.e.overflowSeen
    ensures SendStored(n, b, s, luck).e.overflowSeen == n.e.overflowSeen
  {
    hide Read, IsBootFrom, SendLoss, SendStored, NextStored;
    LossKeepsSeen(n, s, to, luck);
    StoredKeepsSeen(n, b, s, luck);
    var t := NextStored(n.st.segs, s);
    LossKeepsSeen(n, s, if t > s + MAX_LOSS_RUN then s + MAX_LOSS_RUN - 1 else if t == 0 then 0 else t - 1, luck);
  }

  lemma {:induction false} LossKeepsSeen(n: Node, s: nat, to: nat, luck: Luck)
    ensures SendLoss(n, s, to, luck).e.overflowSeen == n.e.overflowSeen
  {
  }

  lemma {:induction false} StoredKeepsSeen(n: Node, b: Block, s: nat, luck: Luck)
    ensures SendStored(n, b, s, luck).e.overflowSeen == n.e.overflowSeen
  {
  }

  lemma {:induction false} GapMeansJump(n: Node, form: Form, t: nat)
    requires Chosen(n, PERFECT, form) && MaySend(n) && Stored(n.st, t) && DeclaresGap(n, t, {})
    ensures form.Jumped?
  {
    hide Stored, DeclaresGap, MaySend, Intact, Read;
  }

  lemma {:induction false} AfterJump(n: Node, n': Node, form: Form)
    requires Took(n, n', {}, form) && form.Jumped? && n.e.cursor == 2 && n.e.batchEnd == 2
    requires (forall q: nat :: Stored(n.st, q) <==> q == 1 || q == 65)
    ensures n'.st == n.st && n'.e.ack == n.e.ack && n'.e.cursor == 65 && n'.e.batchEnd == 65
      && Carried(n'.tx) == Carried(n.tx)
    ensures n.st.overflow <= n'.e.overflowSeen ==> MaySend(n')
  {
    hide Read, Stored, ParseMarker, CrcMatches, Carried;
    ReadUnder(n.st, form.t, {});
  }

  /** The file of the second BOOT does not open: a LOSS for its own seq goes out. */
  lemma {:induction false} LosesSecond(n: Node, log: seq<LogSeg>)
    requires Describes(n.st, log) && IsPair(Flat(log)) && MaySend(n) && n.e.cursor == 65 && n.e.batchEnd == 65
    ensures var n' := SendNext(n, CLOSED).0;
      && n'.st == n.st && n'.e.ack == n.e.ack && n'.e.cursor == 66
      && Carried(n'.tx) == Carried(n.tx) + [LossMsg(65, 65, [])]
  {
    hide Describes, Flat, SeqOf, Read, Stored, ParseMarker, CrcMatches, Carried, SendNext, Took, Chosen;
    PairReads(n.st, log, {65});
    var form := SendNextIs(n, log, CLOSED);
    BrokenMeansLoss(n, form);
    AfterLoss(n, SendNext(n, CLOSED).0, form);
  }

  lemma {:induction false} BrokenMeansLoss(n: Node, form: Form)
    requires Chosen(n, CLOSED, form) && MaySend(n) && Read(n.st, n.e.cursor, {65}) == Broken && n.e.cursor == n.Head()
    ensures form.SentLoss? && form.tag == []
  {
    hide Stored, MaySend, Read, LongestRun;
  }

  lemma {:induction false} AfterLoss(n: Node, n': Node, form: Form)
    requires Took(n, n', {65}, form) && form.SentLoss? && form.tag == [] && n.e.cursor == 65 == n.Head()
    ensures n'.st == n.st && n'.e.ack == n.e.ack && n'.e.cursor == 66
    ensures Carried(n'.tx) == Carried(n.tx) + [LossMsg(65, 65, [])]
  {
    hide Read, Stored, Intact, Carried;
  }

  lemma {:induction false} ThreeSends(w: R.World, free: Flash -> nat, a: Luck, b: Luck, d: Luck)
    ensures var u := R.RunAll(w, free, SendCalls([a, b, d]));
      && u.n == SendNext(SendNext(SendNext(w.n, a).0, b).0, d).0
      && u.mark == w.mark && u.base == w.base
  {
    hide SendNext, R.Step, R.RunAll;
    var w1 := R.Step(w, free, R.SendBlock(a));
    var w2 := R.Step(w1, free, R.SendBlock(b));
    SendStep(w, free, a);
    SendStep(w1, free, b);
    SendStep(w2, free, d);
    assert SendCalls([a, b, d]) == SendCalls([a]) + (SendCalls([b]) + SendCalls([d]));
    EngineRunsOn(w, free, SendCalls([a]), SendCalls([b]) + SendCalls([d]));
    EngineRunsOn(w1, free, SendCalls([b]), SendCalls([d]));
  }

  /** Seqs 2 to 64 lie below the cursor, and neither what was sent nor what is next to be sent stands for them. */
  lemma {:induction false} LeavesOut(w: R.World, b: Block, q: nat)
    requires w.mark == 0 && w.base == 0 && w.n.e.ack == 0 && w.n.e.cursor == 66 && !Stored(w.n.st, 66) && 2 <= q <= 64
    requires Carried(w.n.tx) == [BlockMsg(b), LossMsg(65, 65, [])] && SeqOf(b) == 1
    ensures !Covers(Carried(w.n.tx), q) && !R.NoGap(w)
  {
    hide Carried, Stored, Owed, SeqOf;
    T.NotOwed(w.n, q);
    var tx := Carried(w.n.tx);
    assert Tail(w.n.tx, w.base) == tx;
    assert Uncovered(w.n, w.mark, q);
  }

  /**
   * Two boots, and then the app asks for blocks: the first BOOT is sent, the cursor jumps to the
   * second, which declares seqs 2 to 64, and then its file does not open: a LOSS for seq 65 alone
   * goes out in its place. Seqs 2 to 64 are then below the cursor and nothing sent stands for them.
   */
  lemma {:induction false} StreamCanLeaveAGap(c: D.Config)
    requires c.Ok() && c.tagLen == 0 && c.step == SeqReserve.DEFAULT_STEP
    ensures var j := RunAll(c, Factory(0), Journey(c, TwoBoots(), 2, [PERFECT, PERFECT, CLOSED]));
      && j.up && |j.r.hist| == 2 && j.w.n.e.ack == j.w.mark == 0 && j.w.n.e.cursor == 66
      && Carried(j.w.n.tx) == [BlockMsg(j.r.hist[0].block), LossMsg(65, 65, [])]
      && (forall q :: 2 <= q <= 64 ==> !Covers(Carried(j.w.n.tx), q)) && !R.NoGap(j.w)
  {
    hide D.Inv, D.RunAll, R.Inv, Sound, RunAll, R.RunAll, Opening, Start, Carried, MaySend, Journey, SeqOf, Flat,
        Covers, SendNext, R.NoGap, Describes, Stored, ParseMarker, CrcMatches;
    var ds, lucks := TwoBoots(), [PERFECT, PERFECT, CLOSED];
    var log := TwoBootsLeave(c);
    PairStored(c, D.RunAll(c, D.Factory(0), ds), log);
    var w, v := JourneyRuns(c, ds, log, 2, lucks);
    SoundDescribes(w.n.st, log);
    PairStart(w.n.st, log);
    PairReads(w.n.st, log, {});
    SendsFirst(v.n, log);
    var n1 := SendNext(v.n, PERFECT).0;
    JumpsToSecond(n1, log);
    var n2 := SendNext(n1, PERFECT).0;
    LosesSecond(n2, log);
    ThreeSends(v, c.free, PERFECT, PERFECT, CLOSED);
    var u := R.RunAll(v, c.free, SendCalls(lucks));
    assert Carried(u.n.tx) == [BlockMsg(Flat(log)[0]), LossMsg(65, 65, [])];
    forall q | 2 <= q <= 64
      ensures !Covers(Carried(u.n.tx), q) && !R.NoGap(u)
    {
      LeavesOut(u, Flat(log)[0], q);
    }
    LeavesOut(u, Flat(log)[0], 2);
  }

  lemma {:induction false} PairStored(c: D.Config, r: D.Run, log: seq<LogSeg>)
    requires D.Inv(c, 0, r, log) && r.x.on && Flat(log) == D.Blocks(r.hist) && IsPair(Flat(log))
    ensures r.x.d.st.segs != [] && |r.hist| == 2
  {
    hide D.Inv, SeqOf, Flat, CrcMatches, ParseMarker;
    RecordIsStored(c, r, log);
  }
}
