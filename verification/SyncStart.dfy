/**
 * What a boot can tell of the seqs before its log: nothing below the tail the engine started at. A
 * gap at the start of the device's life is reported only if the log was empty at that moment.
 */
module SyncStart {
  import opened Bytes
  import opened BlockFormat
  import opened SegmentFormat
  import opened StoreSpec
  import opened LogSpec
  import opened AppendKeeps
  import opened Recovery
  import opened CommitKeeps
  import opened SyncProtocol
  import opened SyncSpec
  import opened SyncForms
  import opened SyncSafety
  import opened SyncRun
  import opened SyncTheorems
  import opened SyncSession
  import W = BlockWriter

  // ---- nothing below the tail ----

  /** Nothing sent in this boot names a seq up to `a`. */
  ghost predicate NamesAbove(n: Node, a: nat) {
    a <= n.e.ack && forall i :: 0 <= i < |Carried(n.tx)| ==> a < Lo(Carried(n.tx)[i])
  }

  lemma {:induction false} TookNamesAbove(n: Node, n': Node, io: set<nat>, form: Form, a: nat)
    requires InBounds(n) && Took(n, n', io, form) && NamesAbove(n, a)
    ensures NamesAbove(n', a)
  {
    hide Read, Stored, IsBootFrom, Intact, Carried, DeleteUpTo, SeqOf, CrcMatches;
  }

  lemma {:induction false} StepNamesAbove(w: World, log: seq<LogSeg>, free: Flash -> nat, e: Event, a: nat)
    requires SyncRun.Inv(w, log) && SyncRun.Enabled(w, e) && !e.Restart? && NamesAbove(w.n, a)
    ensures NamesAbove(SyncRun.Step(w, free, e).n, a)
  {
    if !e.Append? {
      hide SyncRun.Inv, Took, Call, NamesAbove, Describes, InBounds, Store.Total, NewResponses, Confirms, Requested,
          Rewinds;
      InvParts(w, log);
      var form, io := CallIs(w.n, log, e);
      TookNamesAbove(w.n, Call(w.n, e), io, form, a);
    }
  }

  lemma {:induction false} RunNamesAbove(w: World, log: seq<LogSeg>, free: Flash -> nat, es: seq<Event>, a: nat)
    requires SyncRun.Inv(w, log) && AllEnabled(w, free, es) && NamesAbove(w.n, a)
    requires forall i :: 0 <= i < |es| ==> !es[i].Restart?
    ensures NamesAbove(SyncRun.RunAll(w, free, es).n, a)
    decreases |es|
  {
    hide SyncRun.Inv, SyncRun.Enabled, SyncRun.Step, NamesAbove;
    if es != [] {
      StepNamesAbove(w, log, free, es[0], a);
      var log1 := SyncRun.StepKeeps(w, log, free, es[0]);
      assert forall i :: 0 <= i < |es| - 1 ==> es[1..][i] == es[i + 1];
      RunNamesAbove(SyncRun.Step(w, free, es[0]), log1, free, es[1..], a);
    }
  }

  /** The tail, in the words of the start: the engine begins with it, less one, as its ACK. */
  lemma {:induction false} StartNamesNothing(st: Store, log: seq<LogSeg>, nvsCs: nat, io: set<nat>)
    requires Sound(st, log)
    ensures NamesAbove(Start(st, nvsCs, io), Start(st, nvsCs, io).e.ack)
    ensures EffectiveTail(st, io) == Start(st, nvsCs, io).e.ack + 1
  {
    hide Sound, EffectiveTail;
    StartInBounds(st, log, nvsCs, io);
  }

  /**
   * In every boot, whatever its log, no message names a seq below the tail the engine started at,
   * which is the seq after its first ACK.
   */
  lemma {:induction false} NothingBelowTheTail(st: Store, log: seq<LogSeg>, nvsCs: nat, io: set<nat>,
      free: Flash -> nat, es: seq<Event>)
    requires Sound(st, log) && AllEnabled(FirstWorld(st, log, nvsCs, io), free, es)
    requires forall i :: 0 <= i < |es| ==> !es[i].Restart?
    ensures var a := Start(st, nvsCs, io).e.ack;
      NamesAbove(SyncRun.RunAll(FirstWorld(st, log, nvsCs, io), free, es).n, a) && EffectiveTail(st, io) == a + 1
  {
    hide SyncRun.Inv, Sound, NamesAbove, AllEnabled, SyncRun.RunAll, EffectiveTail, Flat;
    FirstInv(st, log, nvsCs, io, []);
    NoAnswers(st, log, nvsCs, io);
    StartNamesNothing(st, log, nvsCs, io);
    RunNamesAbove(FirstWorld(st, log, nvsCs, io), log, free, es, Start(st, nvsCs, io).e.ack);
  }

  // ---- nothing below the log ----

  /** Nothing sent stands for a seq below `f`, and nothing in the log does. */
  ghost predicate StandsAbove(n: Node, log: seq<LogSeg>, f: nat) {
    && (forall q: nat :: StandsFor(Flat(log), q) ==> f <= q)
    && f <= n.e.ack + 1 && f <= n.Head()
    && (forall i, q: nat :: 0 <= i < |Carried(n.tx)| && CoversMsg(Carried(n.tx)[i], q) ==> f <= q)
  }

  lemma {:induction false} BlockStands(b: Block, q: nat)
    ensures CoversMsg(BlockMsg(b), q) == StandsAt(b, q)
  {
  }

  lemma {:induction false} SentStandsAbove(n: Node, log: seq<LogSeg>, n': Node, io: set<nat>, b: Block, f: nat)
    requires Sound(n.st, log) && Took(n, n', io, SentBlock(b)) && StandsAbove(n, log, f)
    ensures StandsAbove(n', log, f)
  {
    hide Describes, Read, Stored, Carried, CoversMsg, StandsAt, CrcMatches, Flat, SeqOf, Consistent, Declaring;
    SoundDescribes(n.st, log);
    ReadUnder(n.st, n.e.cursor, io);
    var j := ReadHeld(n.st, log, n.e.cursor);
    forall i, q: nat | 0 <= i < |Carried(n'.tx)| && CoversMsg(Carried(n'.tx)[i], q)
      ensures f <= q
    {
      if i == |Carried(n.tx)| {
        BlockStands(b, q);
        StandsSome(Flat(log), j, q);
      }
    }
  }

  lemma {:induction false} TookStandsAbove(n: Node, log: seq<LogSeg>, n': Node, log': seq<LogSeg>, io: set<nat>,
      form: Form, f: nat)
    requires Sound(n.st, log) && InBounds(n) && Took(n, n', io, form) && StandsAbove(n, log, f)
    requires if form.Acked? then Freed(n.st, log, form.upTo, n'.st, log') else n'.st == n.st && log' == log
    ensures StandsAbove(n', log', f)
  {
    hide Describes, Read, Stored, IsBootFrom, Intact, Carried, DeleteUpTo, StandsFor, Flat, SeqOf, Declaring,
        Consistent;
    match form
    case SentBlock(b) => SentStandsAbove(n, log, n', io, b, f);
    case Acked(a) =>
      SoundDescribes(n.st, log);
      HeadStays(n.st, log, a);
      FewerStand(Flat(log'), Flat(log));
    case _ =>
  }

  lemma {:induction false} FewerStand(r': seq<Block>, r: seq<Block>)
    requires IsSuffix(r', r)
    ensures forall q: nat :: StandsFor(r', q) ==> StandsFor(r, q)
  {
    hide StandsAt;
    forall q: nat | StandsFor(r', q)
      ensures StandsFor(r, q)
    {
      var i :| 0 <= i < |r'| && StandsAt(r'[i], q);
      assert r[|r| - |r'| + i] == r'[i];
    }
  }

  /** An appended record is newer than the log, and so is what it declares. */
  lemma {:induction false} AppendStandsAbove(w: World, log: seq<LogSeg>, b: Block, ok: bool, s: Store,
      log': seq<LogSeg>, f: nat)
    requires Sound(w.n.st, log) && Appendable(w.n.st, b) && DeclaresNew(w.n.st, b)
    requires Moved(w.n.st, log, b, ok, s, log') && StandsAbove(w.n, log, f)
    ensures StandsAbove(w.n.(st := s), log', f)
  {
    hide Flat, SeqOf, Consistent, Declaring, BlockSeq, Sized, Slid, CoversMsg, StandsFor, Carried, DeclaresNew;
    AppendSound(w.n.st, log, b, ok, s, log');
    FewerStand(Flat(log'), Flat(log) + Added(b, ok));
    forall q: nat | StandsFor(Flat(log) + Added(b, ok), q)
      ensures f <= q
    {
      NewStands(w.n.st, Flat(log), b, ok, q);
    }
  }

  lemma {:induction false} NewStands(st: Store, r: seq<Block>, b: Block, ok: bool, q: nat)
    requires StandsFor(r + Added(b, ok), q) && Appendable(st, b) && DeclaresNew(st, b)
    ensures StandsFor(r, q) || q > st.NewestSeq()
  {
    hide BlockSeq, Sized, ParseMarker;
    SeqIsBlockSeq(b);
    var all := r + Added(b, ok);
    var i :| 0 <= i < |all| && StandsAt(all[i], q);
    if i < |r| {
      assert all[i] == r[i];
    } else {
      assert all[i] == b;
    }
  }

  lemma {:induction false} StepStandsAbove(w: World, log: seq<LogSeg>, free: Flash -> nat, e: Event, f: nat)
    returns (log': seq<LogSeg>)
    requires SyncRun.Inv(w, log) && SyncRun.Enabled(w, e) && !e.Restart? && StandsAbove(w.n, log, f)
    ensures SyncRun.Inv(SyncRun.Step(w, free, e), log') && StandsAbove(SyncRun.Step(w, free, e).n, log', f)
  {
    hide StandsAbove, Took, Call, Store.Total, NewResponses, Confirms, Requested, Rewinds, Sound, InBounds, Accounted,
        Ordered, WithinCredit, Handshaken, Flush, Moved, Appendable, DeclaresNew, Freed, Describes;
    if e.Append? {
      log' := AppendKept(w, log, free, e);
      AppendStandsAbove(w, log, e.b, Flush(w.n.st, free, e.b, e.newSeg, e.w1, e.w2).1,
                        SyncRun.Step(w, free, e).n.st, log', f);
    } else {
      SoundDescribes(w.n.st, log);
      var form, io;
      log', form, io := CallKeeps(w, log, e);
      var log1 := StoreKept(w.n, log, Call(w.n, e), io, form);
      SoundDescribes(Call(w.n, e).st, log');
      SoundDescribes(Call(w.n, e).st, log1);
      OneLog(Call(w.n, e).st, log', log1);
      TookStandsAbove(w.n, log, Call(w.n, e), log', io, form, f);
    }
  }

  /** A boot on a log that is not empty starts above everything the log does not stand for. */
  lemma {:induction false} StartStandsAbove(st: Store, log: seq<LogSeg>, nvsCs: nat, io: set<nat>, f: nat)
    requires Sound(st, log) && st.segs != [] && forall q: nat :: StandsFor(Flat(log), q) ==> f <= q
    ensures StandsAbove(Start(st, nvsCs, io), log, f)
  {
    hide Sound, EffectiveTail, Flat, StandsFor, Describes, Read, Stored, CrcMatches;
    SoundDescribes(st, log);
    StartInBounds(st, log, nvsCs, io);
    TailIsLeast(st, log, io);
    StoredBounds(st, log, st.NewestSeq());
    StoredStands(st, log, st.NewestSeq());
    var tail := EffectiveTail(st, io);
    if Stored(st, tail) {
      StoredStands(st, log, tail);
    }
  }

  lemma {:induction false} StoredStands(st: Store, log: seq<LogSeg>, q: nat)
    requires Describes(st, log) && Stored(st, q)
    ensures StandsFor(Flat(log), q)
  {
    hide Describes, Stored, Flat, Read, SeqOf, ParseMarker;
    var i := ReadHeld(st, log, q);
    StandsSome(Flat(log), i, q);
  }

  lemma {:induction false} RunStandsAbove(w: World, log: seq<LogSeg>, free: Flash -> nat, es: seq<Event>, f: nat)
    returns (log': seq<LogSeg>)
    requires SyncRun.Inv(w, log) && AllEnabled(w, free, es) && StandsAbove(w.n, log, f)
    requires forall i :: 0 <= i < |es| ==> !es[i].Restart?
    ensures StandsAbove(SyncRun.RunAll(w, free, es).n, log', f)
    decreases |es|
  {
    hide SyncRun.Inv, SyncRun.Enabled, SyncRun.Step, StandsAbove;
    log' := log;
    if es != [] {
      var log1 := StepStandsAbove(w, log, free, es[0], f);
      assert forall i :: 0 <= i < |es| - 1 ==> es[1..][i] == es[i + 1];
      log' := RunStandsAbove(SyncRun.Step(w, free, es[0]), log1, free, es[1..], f);
    }
  }

  /**
   * A boot whose engine starts on a log with records: no message of that boot, block, BOOT range or
   * LOSS, stands for a seq below all that the log stands for.
   */
  lemma {:induction false} NothingBelowTheLog(st: Store, log: seq<LogSeg>, nvsCs: nat, io: set<nat>,
      free: Flash -> nat, es: seq<Event>, f: nat)
    requires Sound(st, log) && st.segs != [] && forall q: nat :: StandsFor(Flat(log), q) ==> f <= q
    requires AllEnabled(FirstWorld(st, log, nvsCs, io), free, es) && forall i :: 0 <= i < |es| ==> !es[i].Restart?
    ensures var tx := Carried(SyncRun.RunAll(FirstWorld(st, log, nvsCs, io), free, es).n.tx);
      forall i, q: nat :: 0 <= i < |tx| && CoversMsg(tx[i], q) ==> f <= q
  {
    hide SyncRun.Inv, Sound, CoversMsg, Carried, AllEnabled, SyncRun.RunAll, StandsFor, EffectiveTail, Flat;
    var w := FirstWorld(st, log, nvsCs, io);
    FirstInv(st, log, nvsCs, io, []);
    NoAnswers(st, log, nvsCs, io);
    StartStandsAbove(st, log, nvsCs, io, f);
    var log' := RunStandsAbove(w, log, free, es, f);
  }

  lemma {:induction false} NoAnswers(st: Store, log: seq<LogSeg>, nvsCs: nat, io: set<nat>)
    ensures FirstWorld(st, log, nvsCs, io).(answered := []) == FirstWorld(st, log, nvsCs, io)
    ensures FirstWorld(st, log, nvsCs, io).n == Start(st, nvsCs, io)
  {
    hide EffectiveTail, Flat;
  }

  // ---- a start that is reported ----

  /** The engine starts on an empty log: before the first BOOT is written, everything from seq 1 on is open. */
  lemma {:induction false} EmptyStart(st: Store, nvsCs: nat, io: set<nat>)
    requires st.segs == []
    ensures var n := Start(st, nvsCs, io);
      n.e.ack == 0 && n.e.cursor == 1 && n.st == st && n.tx == [] && n.e.lastCs == nvsCs
        && n.e.overflowSeen == st.overflow
  {
  }

  /** The log after the first append holds that record alone. */
  lemma {:induction false} LoneRecord(st: Store, log': seq<LogSeg>, b: Block, s: Store)
    requires Sound(st, []) && Appendable(st, b) && Moved(st, [], b, true, s, log') && Describes(s, log')
    ensures s.NewestSeq() == SeqOf(b) && s.lost == st.lost && s.overflow == st.overflow
    ensures forall q: nat :: Stored(s, q) <==> q == SeqOf(b)
    ensures Read(s, SeqOf(b), {}) == Found(b)
  {
    hide SeqOf, Consistent, Declaring, BlockSeq, Sized, Describes, Stored, Read;
    assert Flat([]) + Added(b, true) == [b];
    assert Flat(log') == [b];
    NewestIsLast(s, log');
    assert s.lost == st.lost;
    hide Slid, Flat;
    ReadIsLookup(s, log', 0);
    forall q: nat
      ensures Stored(s, q) <==> q == SeqOf(b)
    {
      StoredIsHeld(s, log', q);
      ReadUnder(s, q, {});
    }
  }

  /** Nothing declares the start: a LOSS for it goes out, 64 seqs at a time. */
  lemma {:induction false} LossForTheStart(n: Node, log: seq<LogSeg>, b: Block, luck: Luck)
    requires Sound(n.st, log) && InBounds(n) && MaySend(n) && n.e.cursor == 1 < SeqOf(b)
    requires (forall q: nat :: Stored(n.st, q) <==> q == SeqOf(b)) && n.Head() == SeqOf(b)
      && Read(n.st, SeqOf(b), {}) == Found(b)
    requires var m := ParseMarker(b.data); m.Boot? ==> m.from > 1
    requires luck.io == {} && luck.sign.Some? && luck.link
    ensures Carried(SendNext(n, luck).0.tx)
      == Carried(n.tx) + [LossMsg(1, if SeqOf(b) > 64 then 64 else SeqOf(b) - 1, luck.sign.value)]
  {
    hide Sound, Stored, Read, ParseMarker, CrcMatches, SeqOf, SendNext, Carried;
    SoundDescribes(n.st, log);
    var form := SendNextIs(n, log, luck);
    ReadUnder(n.st, 1, {});
    assert !Stored(n.st, 1);
    forall t: nat | Stored(n.st, t)
      ensures !DeclaresGap(n, t, {})
    {
    }
    assert form.SentLoss?;
    LongestToBoot(n.st, form.to, SeqOf(b));
  }

  lemma {:induction false} LongestToBoot(st: Store, to: nat, s: nat)
    requires (forall q: nat :: Stored(st, q) <==> q == s) && st.NewestSeq() == s > 1 && 1 <= to
    requires LongestRun(st, 1, to, {}) && to < 1 + 64
    ensures to == if s > 64 then 64 else s - 1
  {
    hide Stored, Read;
    assert s <= to ==> LostAs(st, 1, s, {});
  }

  /**
   * The first BOOT, written after the engine started on an empty log; then a session, and one call of
   * `sendNextBlock`.
   */
  function Reporting(w: World, free: Flash -> nat, b: Block, w1: Outcome, w2: Outcome, luck: Luck): seq<Event> {
    var st := Flush(w.n.st, free, b, true, w1, w2).0;
    [Append(b, true, w1, w2)] + Opening(w.n.(st := st), 1) + [SendBlock(luck)]
  }

  /**
   * If the log is empty when the engine starts, a BOOT that does not declare the seqs before it is no
   * loss of information: a LOSS for them goes out.
   */
  lemma {:induction false} StartIsReported(st: Store, nvsCs: nat, io: set<nat>, free: Flash -> nat, b: Block,
      w1: Outcome, w2: Outcome, luck: Luck)
    requires Sound(st, []) && Appendable(st, b) && DeclaresNew(st, b) && Flush(st, free, b, true, w1, w2).1
    requires var m := ParseMarker(b.data); m.Boot? ==> m.from > 1
    requires 1 < SeqOf(b) && nvsCs + 1 < U32_END && luck.io == {} && luck.sign.Some? && luck.link
    ensures var w := FirstWorld(st, [], nvsCs, io);
      var es := Reporting(w, free, b, w1, w2, luck);
      && AllEnabled(w, free, es)
      && Carried(SyncRun.RunAll(w, free, es).n.tx)
         == [LossMsg(1, if SeqOf(b) > 64 then 64 else SeqOf(b) - 1, luck.sign.value)]
  {
    hide Sound, Flush, Appendable, DeclaresNew, ParseMarker, SeqOf, AllEnabled, SyncRun.RunAll, Opening, EffectiveTail,
        SyncRun.Inv, Carried, Describes, Stored, Read, Consistent, SendNext;
    var w := FirstWorld(st, [], nvsCs, io);
    assert Flat([]) == [];
    FirstInv(st, [], nvsCs, io, []);
    NoAnswers(st, [], nvsCs, io);
    NoSegments(st);
    EmptyStart(st, nvsCs, io);
    var e := Append(b, true, w1, w2);
    var log1 := AppendKept(w, [], free, e);
    var v := SyncRun.Step(w, free, e);
    InvParts(v, log1);
    LoneRecord(st, log1, b, v.n.st);
    SeqFits(st, b);
    OpeningOpens(v.n, 1);
    OpeningIsCalls(v.n, 1);
    CallsRun(v, free, Opening(v.n, 1));
    var u := SyncRun.RunAll(v, free, Opening(v.n, 1));
    NothingCarried();
    InOpened(v.n, u.n);
    LossForTheStart(u.n, log1, b, luck);
    ThreeParts(w, free, e, Opening(v.n, 1), SendBlock(luck));
  }

  lemma {:induction false} NothingCarried()
    ensures Carried([]) == []
  {
  }

  lemma {:induction false} NoSegments(st: Store)
    requires Sound(st, [])
    ensures st.segs == [] && Describes(st, [])
  {
  }

  lemma {:induction false} SeqFits(st: Store, b: Block)
    requires Appendable(st, b)
    ensures SeqOf(b) < U32_END
  {
  }

  /** The opening is made of calls that NVS has no trouble with. */
  lemma {:induction false} OpeningIsCalls(n: Node, k: nat)
    ensures var es := Opening(n, k);
      |es| == 5 && forall i :: 0 <= i < |es| ==>
        !es[i].Append? && !es[i].Restart? && (es[i].Message? ==> es[i].save.persists)
  {
  }

  lemma {:induction false} InOpened(n: Node, n': Node)
    requires Opened(n, 1, n') && InBounds(n) && n.e.ack < n.Head() && n.st.overflow <= n.e.overflowSeen
    ensures InBounds(n') && MaySend(n')
  {
  }

  lemma {:induction false} ThreeParts(w: World, free: Flash -> nat, e: Event, es: seq<Event>, e': Event)
    requires SyncRun.Enabled(w, e) && AllEnabled(SyncRun.Step(w, free, e), free, es) && e'.SendBlock?
    ensures AllEnabled(w, free, [e] + es + [e'])
    ensures SyncRun.RunAll(w, free, [e] + es + [e'])
      == SyncRun.Step(SyncRun.RunAll(SyncRun.Step(w, free, e), free, es), free, e')
  {
    hide SyncRun.Step;
    var all := [e] + es + [e'];
    assert all[0] == e && all[1..] == es + [e'];
    OneMore(SyncRun.Step(w, free, e), free, es, e');
  }

  lemma {:induction false} OneMore(w: World, free: Flash -> nat, es: seq<Event>, e: Event)
    requires AllEnabled(w, free, es) && e.SendBlock?
    ensures AllEnabled(w, free, es + [e])
    ensures SyncRun.RunAll(w, free, es + [e]) == SyncRun.Step(SyncRun.RunAll(w, free, es), free, e)
    decreases |es|
  {
    hide SyncRun.Step;
    if es == [] {
      assert es + [e] == [e] && [e][1..] == [];
    } else {
      assert (es + [e])[1..] == es[1..] + [e];
      OneMore(SyncRun.Step(w, free, es[0]), free, es[1..], e);
    }
  }
}
