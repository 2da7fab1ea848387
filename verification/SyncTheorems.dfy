/** What holds of every run of the sync engine. */
module SyncTheorems {
  import opened Bytes
  import opened BlockFormat
  import opened SegmentFormat
  import opened StoreSpec
  import opened LogSpec
  import opened AppendKeeps
  import opened Recovery
  import opened CommitKeeps
  import Discards
  import opened SyncProtocol
  import opened SyncSpec
  import opened SyncForms
  import opened SyncSafety
  import opened SyncRun
  import W = BlockWriter

  /** Always: ACK < cursor <= HEAD + 1. */
  lemma {:induction false} CursorStaysInBounds(st: Store, log: seq<LogSeg>, io: set<nat>, free: Flash -> nat,
      es: seq<Event>)
    requires Sound(st, log) && AllEnabled(FirstWorld(st, log, 0, io), free, es)
    ensures var n := RunAll(FirstWorld(st, log, 0, io), free, es).n; n.e.ack < n.e.cursor <= n.Head() + 1
  {
    hide RunAll, AllEnabled, FirstWorld, Sound, Ordered, Accounted, Handshaken, WithinCredit;
    var log' := Reached(st, log, io, free, es);
  }

  /** Between two rewinds no seq is sent twice: the messages go out in increasing, disjoint ranges of seqs. */
  lemma {:induction false} NothingSentTwice(st: Store, log: seq<LogSeg>, io: set<nat>, free: Flash -> nat,
      es: seq<Event>)
    requires Sound(st, log) && AllEnabled(FirstWorld(st, log, 0, io), free, es)
    ensures var w := RunAll(FirstWorld(st, log, 0, io), free, es);
      var since := Tail(w.n.tx, w.base);
      && (forall i :: 0 <= i < |since| ==> Lo(since[i]) <= Hi(since[i]) < w.n.e.cursor)
      && (forall i, j :: 0 <= i < j < |since| ==> Hi(since[i]) < Lo(since[j]))
  {
    hide RunAll, AllEnabled, FirstWorld, Sound, InBounds, Accounted, Handshaken, WithinCredit, Lo, Hi, Tail, Carried;
    var log' := Reached(st, log, io, free, es);
  }

  /** A request for k blocks is answered with at most k messages before the next one. */
  lemma {:induction false} CreditIsRespected(st: Store, log: seq<LogSeg>, io: set<nat>, free: Flash -> nat,
      es: seq<Event>)
    requires Sound(st, log) && AllEnabled(FirstWorld(st, log, 0, io), free, es)
    ensures var w := RunAll(FirstWorld(st, log, 0, io), free, es); w.spent <= w.credit
  {
    hide RunAll, AllEnabled, FirstWorld, Sound, InBounds, Accounted, Handshaken, Ordered;
    var log' := Reached(st, log, io, free, es);
  }

  /**
   * No record vanishes silently: one that the server has not confirmed and that is newer than every
   * discard is read back byte for byte; and every record that came in is stored, freed by a
   * confirmation, or counted as lost.
   */
  lemma {:induction false} NothingVanishes(st: Store, log: seq<LogSeg>, io: set<nat>, free: Flash -> nat,
      es: seq<Event>)
    requires Sound(st, log) && AllEnabled(FirstWorld(st, log, 0, io), free, es)
    ensures var w := RunAll(FirstWorld(st, log, 0, io), free, es);
      && (forall i :: 0 <= i < |w.known| && SeqOf(w.known[i]) > w.n.e.ack && SeqOf(w.known[i]) > w.n.st.overflow ==>
            Read(w.n.st, SeqOf(w.known[i]), {}) == Found(w.known[i]))
      && |w.known| == w.n.st.Total() + w.freed + w.n.st.lost - w.lostBefore
  {
    hide RunAll, AllEnabled, FirstWorld, InBounds, Handshaken, Ordered, WithinCredit, Read, SeqOf, Flat, Store.Total,
        Describes;
    var log' := Reached(st, log, io, free, es);
    var w := RunAll(FirstWorld(st, log, 0, io), free, es);
    SoundDescribes(w.n.st, log');
    TotalOfDescribed(w.n.st, log');
    forall i | 0 <= i < |w.known| && SeqOf(w.known[i]) > w.n.e.ack && SeqOf(w.known[i]) > w.n.st.overflow
      ensures Read(w.n.st, SeqOf(w.known[i]), {}) == Found(w.known[i])
    {
      var gone := |w.known| - |Flat(log')|;
      assert i >= gone;
      assert Flat(log')[i - gone] == w.known[i];
      ReadIsLookup(w.n.st, log', i - gone);
    }
  }

  /**
   * The handshake, over all restarts: the c_S answered only ever rise, none is above the one
   * persisted, and an open session rests on an answer given in this connection and confirmed by an
   * ACK with a good tag.
   */
  lemma {:induction false} HandshakeIsSafe(st: Store, log: seq<LogSeg>, io: set<nat>, free: Flash -> nat,
      es: seq<Event>)
    requires Sound(st, log) && AllEnabled(FirstWorld(st, log, 0, io), free, es)
    ensures var w := RunAll(FirstWorld(st, log, 0, io), free, es);
      && (forall i, j :: 0 <= i < j < |w.answered| ==> w.answered[i] < w.answered[j])
      && (forall i :: 0 <= i < |w.answered| ==> w.answered[i] <= w.n.nvsCs)
      && (w.n.e.sessionOpen ==> w.confirmed.Some? && w.confirmed.value in w.here)
  {
    hide RunAll, AllEnabled, FirstWorld, InBounds, Accounted, Ordered, WithinCredit, Sound;
    var log' := Reached(st, log, io, free, es);
  }

  /**
   * A session opens at exactly one kind of event: an ACK with a good tag that repeats the last answer of this
   * connection.
   */
  lemma {:induction false} SessionOpensExactly(w: World, log: seq<LogSeg>, free: Flash -> nat, e: Event)
    requires Inv(w, log) && Enabled(w, e)
    ensures e.Message? ==> (Step(w, free, e).n.e.sessionOpen <==> (w.n.e.sessionOpen || Confirms(w, e).Some?))
    ensures !e.Message? && Step(w, free, e).n.e.sessionOpen ==> w.n.e.sessionOpen && !e.Connect? && !e.Disconnect?
  {
    hide Handshaken, Sound, Accounted, InBounds, Ordered, WithinCredit, SendNext, CheckOverflow, Confirms,
        EffectiveTail,
        Node.Notice, OnMessage, NewResponses, Store.Total;
    match e
    case Message(msg, tagOk, save, io) => MessageHandshake(w, e);
    case SendBlock(luck) => SendHandshake(w.n, luck);
    case Subscribe(on) => NoticeHandshake(w.n.(e := w.n.e.(subscribed := on)));
    case Flushed =>
      OverflowHandshake(w.n, CheckOverflow(w.n));
      NoticeHandshake(CheckOverflow(w.n));
    case Ticked(due) =>
      OverflowHandshake(w.n, CheckOverflow(w.n));
      NoticeHandshake(CheckOverflow(w.n));
    case _ =>
  }

  /** Within a boot the ACK moves exactly when a message confirms a newer block of the log, and to that block. */
  lemma {:induction false} AckMovesExactly(w: World, log: seq<LogSeg>, free: Flash -> nat, e: Event)
    requires Inv(w, log) && Enabled(w, e) && !e.Restart?
    ensures var c := ConfirmedBy(w.n, e); Step(w, free, e).n.e.ack == if c.Some? then c.value else w.n.e.ack
  {
    if !e.Append? {
      hide Inv, Took, Call, Confirmed, Describes, InBounds, Store.Total, NewResponses, Confirms, Requested, Rewinds;
      InvParts(w, log);
      var form, io := CallIs(w.n, log, e);
      TookAck(w.n, Call(w.n, e), io, form);
    }
  }

  lemma {:induction false} TookAck(n: Node, n': Node, io: set<nat>, form: Form)
    requires Took(n, n', io, form)
    ensures n'.e.ack == if form.Acked? then form.upTo else n.e.ack
  {
  }

  /** Within a boot the ACK never falls. */
  lemma {:induction false} AckNeverFalls(w: World, log: seq<LogSeg>, free: Flash -> nat, es: seq<Event>)
    requires Inv(w, log) && AllEnabled(w, free, es) && forall i :: 0 <= i < |es| ==> !es[i].Restart?
    ensures w.n.e.ack <= RunAll(w, free, es).n.e.ack
    decreases |es|
  {
    hide Inv, Enabled, Step;
    if es != [] {
      StepAck(w, log, free, es[0]);
      var log1 := StepKeeps(w, log, free, es[0]);
      assert forall i :: 0 <= i < |es[1..]| ==> es[1..][i] == es[i + 1];
      AckNeverFalls(Step(w, free, es[0]), log1, free, es[1..]);
    }
  }

  lemma {:induction false} StepAck(w: World, log: seq<LogSeg>, free: Flash -> nat, e: Event)
    requires Inv(w, log) && Enabled(w, e) && !e.Restart?
    ensures w.n.e.ack <= Step(w, free, e).n.e.ack
  {
    if !e.Append? {
      hide Inv, Observe, Enabled, Took;
      var log', form, io := CallKeeps(w, log, e);
    }
  }

  // ---- the stream without gaps, over runs ----

  /** An append of the flush task, which opens a new segment for a BOOT, discards the segment of a seq. */
  ghost predicate FlushTakes(st: Store, free: Flash -> nat, b: Block, newSeg: bool, w1: Outcome, w2: Outcome, q: nat) {
    Discards.TwiceTakes(if newSeg then W.Retry(st) else st, b, free, w1, w2, q)
  }

  /**
   * An event that cannot open a gap. Two can: a LOSS sent in the place of a BOOT on which a gap
   * hangs, because its file did not open; and an append that takes the segment of that BOOT to make
   * room or a place in the ring.
   */
  ghost predicate Harmless(w: World, free: Flash -> nat, e: Event) {
    match e
    case SendBlock(luck) =>
      !(Hanging(w) && MaySend(w.n) && w.n.e.cursor in luck.io && luck.sign.Some? && luck.link)
    case Append(b, newSeg, w1, w2) =>
      !(Hanging(w) && FlushTakes(w.n.st, free, b, newSeg, w1, w2, w.n.e.cursor))
    case _ => true
  }

  /** A record of the log that is still held after an append is the same. */
  lemma {:induction false} SameAfterAppend(st: Store, log: seq<LogSeg>, b: Block, ok: bool, s: Store,
      log': seq<LogSeg>, q: nat)
    requires Sound(st, log) && Appendable(st, b) && Moved(st, log, b, ok, s, log') && Describes(s, log')
    requires Stored(st, q) && Stored(s, q)
    ensures Read(s, q, {}) == Read(st, q, {})
  {
    hide Read, Flat, SeqOf, Describes, Stored, Consistent, Declaring, BlockSeq, Sized;
    SoundDescribes(st, log);
    var i := ReadHeld(st, log, q);
    var j := ReadHeld(s, log', q);
    StoredBounds(st, log, q);
    SlidIsSuffix(st, Flat(log) + Added(b, ok), s, Flat(log'));
    SeqIsBlockSeq(b);
    SameInSuffix(Flat(log), b, ok, Flat(log'), i, j);
    var r := Flat(log);
    OneRecord(st, log, SuffixAt(Flat(log), b, ok, Flat(log'), j), i);
  }

  function SuffixAt(r: seq<Block>, b: Block, ok: bool, r': seq<Block>, j: nat): int { j + |r + Added(b, ok)| - |r'| }

  lemma {:induction false} SameInSuffix(r: seq<Block>, b: Block, ok: bool, r': seq<Block>, i: nat, j: nat)
    requires IsSuffix(r', r + Added(b, ok)) && i < |r| && j < |r'| && SeqOf(r[i]) == SeqOf(r'[j])
      && SeqOf(r[i]) < SeqOf(b)
    ensures var k := SuffixAt(r, b, ok, r', j); 0 <= k < |r| && r[k] == r'[j]
  {
    hide SeqOf;
    var k := SuffixAt(r, b, ok, r', j);
    assert (r + Added(b, ok))[k] == r'[j];
  }

  lemma {:induction false} OneRecord(st: Store, log: seq<LogSeg>, k: int, i: nat)
    requires Describes(st, log) && i < |Flat(log)| && 0 <= k < |Flat(log)| && SeqOf(Flat(log)[k]) == SeqOf(Flat(log)[i])
    ensures k == i
  {
    FlatIncreasing(log);
    hide Flat, SeqOf, Describes;
  }

  lemma {:induction false} AppendGapFree(w: World, log: seq<LogSeg>, b: Block, ok: bool, s: Store, log': seq<LogSeg>)
    requires Sound(w.n.st, log) && Appendable(w.n.st, b) && Moved(w.n.st, log, b, ok, s, log') && Describes(s, log')
    requires NoGap(w)
    ensures var w' := w.(n := w.n.(st := s), known := w.known + Added(b, ok));
      NoGap(w') <==> !(Hanging(w) && !Stored(s, w.n.e.cursor))
  {
    hide Sound, Moved, Describes, Appendable, Read, Stored, IsBootFrom, Covers, Tail;
    var n' := w.n.(st := s);
    var since := Tail(w.n.tx, w.base);
    var c := w.n.e.cursor;
    ReadUnder(s, c, {});
    if Hanging(w) {
      var q :| Uncovered(w.n, w.mark, q) && !Covers(since, q);
      OwedIsStored(w.n, q);
      if Stored(s, c) {
        SameAfterAppend(w.n.st, log, b, ok, s, log', c);
      } else {
        NotOwed(n', q);
        assert Uncovered(n', w.mark, q);
      }
    }
    forall p: nat | Uncovered(n', w.mark, p) && !(Hanging(w) && !Stored(s, c))
      ensures Covers(since, p) || Owed(n', p)
    {
      assert Uncovered(w.n, w.mark, p);
    }
  }

  lemma {:induction false} NotOwed(n: Node, q: nat)
    requires !Stored(n.st, n.e.cursor)
    ensures !Owed(n, q)
  {
    hide Read, Stored, CrcMatches, ParseMarker;
    ReadUnder(n.st, n.e.cursor, {});
  }

  /** One event keeps the stream gap-free if and only if it is harmless. */
  lemma {:induction false} StepGapFree(w: World, log: seq<LogSeg>, free: Flash -> nat, e: Event)
    requires Inv(w, log) && Enabled(w, e) && NoGap(w)
    ensures NoGap(Step(w, free, e)) <==> Harmless(w, free, e)
  {
    hide Inv, NoGap, Hanging, Enabled, Observe, FlushTakes, Flush, FirstWorld;
    if e.Append? {
      AppendStepGapFree(w, log, free, e);
    } else if e.Restart? {
      RestartGapFree(w, log, e);
    } else if e.SendBlock? {
      SendGapFree(w, log, e.luck);
    } else {
      CallGapFree(w, log, e);
    }
  }

  lemma {:induction false} AppendStepGapFree(w: World, log: seq<LogSeg>, free: Flash -> nat, e: Event)
    requires Inv(w, log) && Enabled(w, e) && NoGap(w) && e.Append?
    ensures NoGap(Step(w, free, e)) <==>
      !(Hanging(w) && FlushTakes(w.n.st, free, e.b, e.newSeg, e.w1, e.w2, w.n.e.cursor))
  {
    hide Inv, Sound, Describes, Stored, NoGap, Hanging, Moved, Flush, Enabled, FlushTakes;
    var log' := AppendKept(w, log, free, e);
    var (s, ok) := Flush(w.n.st, free, e.b, e.newSeg, e.w1, e.w2);
    InvParts(w, log);
    InvParts(Step(w, free, e), log');
    EnabledAppend(w, e);
    AppendGapFree(w, log, e.b, ok, s, log');
    if Hanging(w) {
      HangingIsStored(w);
      FlushTakesIs(w.n.st, log, free, e.b, e.newSeg, e.w1, e.w2, w.n.e.cursor);
    }
  }

  lemma {:induction false} RestartGapFree(w: World, log: seq<LogSeg>, e: Event)
    requires Inv(w, log) && Enabled(w, e) && e.Restart?
    ensures NoGap(FirstWorld(e.st, e.log, w.n.nvsCs, e.io).(answered := w.answered))
  {
    hide Sound, Accounted, InBounds, Ordered, WithinCredit, Rising, FirstWorld, NoGap;
    FirstInv(e.st, e.log, w.n.nvsCs, e.io, w.answered);
  }

  /** A gap hangs only on a stored BOOT. */
  lemma {:induction false} HangingIsStored(w: World)
    requires Hanging(w) && NoGap(w)
    ensures Stored(w.n.st, w.n.e.cursor)
  {
    hide Stored, Covers, Tail, Owed;
    var since := Tail(w.n.tx, w.base);
    var q :| Uncovered(w.n, w.mark, q) && !Covers(since, q);
    OwedIsStored(w.n, q);
  }

  lemma {:induction false} FlushTakesIs(st: Store, log: seq<LogSeg>, free: Flash -> nat, b: Block, newSeg: bool,
      w1: Outcome, w2: Outcome, q: nat)
    requires Sound(st, log) && Appendable(st, b) && Stored(st, q)
    ensures Stored(Flush(st, free, b, newSeg, w1, w2).0, q) <==> !FlushTakes(st, free, b, newSeg, w1, w2, q)
  {
    hide Describes, Stored, Discards.TwiceTakes, Declaring, Appendable, Consistent, W.AppendTwice;
    FreshReady(st, log, b);
    Discards.SameStored(st, q);
    Discards.TwiceTakesIs(if newSeg then W.Retry(st) else st, log, b, free, w1, w2, q);
  }

  lemma {:induction false} InvParts(w: World, log: seq<LogSeg>)
    requires Inv(w, log)
    ensures Sound(w.n.st, log) && Describes(w.n.st, log) && InBounds(w.n) && w.base <= |Carried(w.n.tx)|
  {
  }

  lemma {:induction false} EnabledAppend(w: World, e: Event)
    requires Enabled(w, e) && e.Append?
    ensures Appendable(w.n.st, e.b)
  {
  }

  lemma {:induction false} SendGapFree(w: World, log: seq<LogSeg>, luck: Luck)
    requires Inv(w, log) && NoGap(w)
    ensures NoGap(Observe(w, SendBlock(luck))) <==>
      !(Hanging(w) && MaySend(w.n) && w.n.e.cursor in luck.io && luck.sign.Some? && luck.link)
  {
    hide Inv, GapFree, InDebt, SendNext, Carried, Tail, MaySend, Sound, InBounds, Store.Total;
    InvParts(w, log);
    SendNextGapFree(w.n, log, luck, w.mark, w.base);
  }

  lemma {:induction false} CallGapFree(w: World, log: seq<LogSeg>, e: Event)
    requires Inv(w, log) && Enabled(w, e) && NoGap(w) && !e.Append? && !e.Restart? && !e.SendBlock?
    ensures NoGap(Observe(w, e))
  {
    hide Inv, GapFree, InDebt, Call, Carried, Tail, Sound, InBounds, Rewinds, Took, Describes, Store.Total, Answers,
        Confirms, Requested, NextSince;
    InvParts(w, log);
    var form, io := CallIs(w.n, log, e);
    var n' := Call(w.n, e);
    GapFreeKept(w.n, log, n', io, form, w.mark, Tail(w.n.tx, w.base));
    TailIs(w.n, n', io, form, w.base);
    RewindAck(w.n, n', io, form);
  }

  lemma {:induction false} RewindAck(n: Node, n': Node, io: set<nat>, form: Form)
    requires Took(n, n', io, form)
    ensures form.Rewind? ==> n'.e.ack == n.e.ack
  {
  }

  ghost predicate NoGapAlong(w: World, free: Flash -> nat, es: seq<Event>)
    decreases |es|
  {
    NoGap(w) && (es != [] ==> NoGapAlong(Step(w, free, es[0]), free, es[1..]))
  }

  ghost predicate HarmlessAlong(w: World, free: Flash -> nat, es: seq<Event>)
    decreases |es|
  {
    es != [] ==> Harmless(w, free, es[0]) && HarmlessAlong(Step(w, free, es[0]), free, es[1..])
  }

  /**
   * The gap-free stream over a whole run: at every moment each seq between the ACK at the last
   * rewind and the cursor is confirmed, sent, declared by a BOOT or LOSS that was sent, or declared
   * by the intact BOOT about to be sent, if and only if every event of the run is harmless.
   */
  lemma {:induction false} StreamIsGapFree(w: World, log: seq<LogSeg>, free: Flash -> nat, es: seq<Event>)
    requires Inv(w, log) && AllEnabled(w, free, es) && NoGap(w)
    ensures NoGapAlong(w, free, es) <==> HarmlessAlong(w, free, es)
    decreases |es|
  {
    hide Inv, Enabled, Step, NoGap, Harmless;
    if es != [] {
      StepGapFree(w, log, free, es[0]);
      var log1 := StepKeeps(w, log, free, es[0]);
      if Harmless(w, free, es[0]) {
        StreamIsGapFree(Step(w, free, es[0]), log1, free, es[1..]);
      }
    }
  }

  /** An append that discards no segment with an unconfirmed seq is harmless. */
  lemma {:induction false} ConfirmedDiscardIsHarmless(w: World, log: seq<LogSeg>, free: Flash -> nat, e: Event)
    requires Inv(w, log) && NoGap(w) && e.Append?
    requires forall q: nat :: Stored(w.n.st, q) && FlushTakes(w.n.st, free, e.b, e.newSeg, e.w1, e.w2, q) ==>
      q <= w.n.e.ack
    ensures Harmless(w, free, e)
  {
    hide FlushTakes, Stored, NoGap, Hanging, Sound;
    InvParts(w, log);
    if Hanging(w) {
      HangingIsStored(w);
    }
  }

  /** The file at the cursor opens, and no append discards an unconfirmed seq. */
  ghost predicate Steady(w: World, free: Flash -> nat, e: Event) {
    match e
    case SendBlock(luck) => w.n.e.cursor !in luck.io
    case Append(b, newSeg, w1, w2) =>
      forall q: nat :: Stored(w.n.st, q) && FlushTakes(w.n.st, free, b, newSeg, w1, w2, q) ==> q <= w.n.e.ack
    case _ => true
  }

  ghost predicate SteadyAlong(w: World, free: Flash -> nat, es: seq<Event>)
    decreases |es|
  {
    es != [] ==> Steady(w, free, es[0]) && SteadyAlong(Step(w, free, es[0]), free, es[1..])
  }

  /** In a run in which files open and no unconfirmed segment is discarded, the stream never has a gap. */
  lemma {:induction false} SteadyStreamIsGapFree(w: World, log: seq<LogSeg>, free: Flash -> nat, es: seq<Event>)
    requires Inv(w, log) && AllEnabled(w, free, es) && NoGap(w) && SteadyAlong(w, free, es)
    ensures NoGapAlong(w, free, es)
    decreases |es|
  {
    hide Inv, Enabled, Step, NoGap, Harmless, Steady;
    if es != [] {
      SteadyIsHarmless(w, log, free, es[0]);
      StepGapFree(w, log, free, es[0]);
      var log1 := StepKeeps(w, log, free, es[0]);
      SteadyStreamIsGapFree(Step(w, free, es[0]), log1, free, es[1..]);
    }
  }

  lemma {:induction false} SteadyIsHarmless(w: World, log: seq<LogSeg>, free: Flash -> nat, e: Event)
    requires Inv(w, log) && NoGap(w) && Steady(w, free, e)
    ensures Harmless(w, free, e)
  {
    hide Inv, NoGap, FlushTakes, Hanging, MaySend, Stored;
    if e.Append? {
      ConfirmedDiscardIsHarmless(w, log, free, e);
    }
  }

  /** It holds at the start of every boot. */
  lemma {:induction false} StartsGapFree(st: Store, log: seq<LogSeg>, io: set<nat>)
    requires Sound(st, log)
    ensures NoGap(FirstWorld(st, log, 0, io)) && Inv(FirstWorld(st, log, 0, io), log)
  {
    hide Sound, NoGap, Inv, FirstWorld;
    FirstInv(st, log, 0, io, []);
    SameAnswered(st, log, io);
  }
}
