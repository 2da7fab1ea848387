/**
 * What a boot tells of the seqs no record stands for: every block sent came in as a record, so in a
 * stream without gaps a LOSS has gone out for each of those seqs below the cursor.
 */
module SyncTold {
  import opened BlockFormat
  import opened SegmentFormat
  import opened StoreSpec
  import opened LogSpec
  import opened CommitKeeps
  import opened SyncSpec
  import opened SyncForms
  import opened SyncSafety
  import opened SyncRun
  import opened SyncTheorems
  import Starts = SyncStart

  /** Every block sent in this boot is a record that came in, byte for byte; and the ACK has not fallen. */
  ghost predicate Genuine(w: World) {
    && (forall i :: 0 <= i < |Carried(w.n.tx)| && Carried(w.n.tx)[i].BlockMsg? ==> Carried(w.n.tx)[i].block in w.known)
    && w.mark <= w.n.e.ack
  }

  /** A LOSS among these messages names the seq. */
  ghost predicate ToldLost(since: seq<Msg>, q: nat) {
    exists i :: 0 <= i < |since| && since[i].LossMsg? && since[i].from <= q <= since[i].to
  }

  // ---- blocks sent are records ----

  lemma {:induction false} TookGenuine(n: Node, log: seq<LogSeg>, n': Node, io: set<nat>, form: Form, known: seq<Block>)
    requires Describes(n.st, log) && IsSuffix(Flat(log), known) && Took(n, n', io, form)
    requires forall i :: 0 <= i < |Carried(n.tx)| && Carried(n.tx)[i].BlockMsg? ==> Carried(n.tx)[i].block in known
    ensures forall i :: 0 <= i < |Carried(n'.tx)| && Carried(n'.tx)[i].BlockMsg? ==> Carried(n'.tx)[i].block in known
  {
    hide Describes, Read, Stored, IsBootFrom, Intact, Carried, DeleteUpTo, Flat, SeqOf, CrcMatches;
    if form.SentBlock? {
      ReadUnder(n.st, n.e.cursor, io);
      var j := ReadHeld(n.st, log, n.e.cursor);
      assert known[|known| - |Flat(log)| + j] == Flat(log)[j];
    }
  }

  lemma {:induction false} StepGenuine(w: World, log: seq<LogSeg>, free: Flash -> nat, e: Event)
    requires SyncRun.Inv(w, log) && SyncRun.Enabled(w, e) && Genuine(w)
    ensures Genuine(SyncRun.Step(w, free, e))
  {
    hide SyncRun.Inv, Took, Call, Describes, InBounds, Store.Total, NewResponses, Confirms, Requested, Rewinds, Carried,
        Flush, FirstWorld;
    if e.Restart? {
      FirstGenuine(e.st, e.log, w.n.nvsCs, e.io, w.answered);
    } else if !e.Append? {
      InvParts(w, log);
      KnownHolds(w, log);
      var form, io := CallIs(w.n, log, e);
      TookGenuine(w.n, log, Call(w.n, e), io, form, w.known);
      StepAck(w, log, free, e);
    }
  }

  lemma {:induction false} FirstGenuine(st: Store, log: seq<LogSeg>, nvsCs: nat, io: set<nat>, answered: seq<nat>)
    ensures Genuine(FirstWorld(st, log, nvsCs, io).(answered := answered))
  {
    hide EffectiveTail, Flat;
  }

  lemma {:induction false} KnownHolds(w: World, log: seq<LogSeg>)
    requires SyncRun.Inv(w, log)
    ensures IsSuffix(Flat(log), w.known)
  {
    hide Sound, InBounds, Ordered, WithinCredit, Handshaken, Flat, SeqOf;
  }

  lemma {:induction false} RunGenuine(w: World, log: seq<LogSeg>, free: Flash -> nat, es: seq<Event>)
    returns (log': seq<LogSeg>)
    requires SyncRun.Inv(w, log) && AllEnabled(w, free, es) && Genuine(w)
    ensures SyncRun.Inv(SyncRun.RunAll(w, free, es), log') && Genuine(SyncRun.RunAll(w, free, es))
    decreases |es|
  {
    hide SyncRun.Inv, SyncRun.Enabled, SyncRun.Step, Genuine;
    log' := log;
    if es != [] {
      StepGenuine(w, log, free, es[0]);
      var log1 := SyncRun.StepKeeps(w, log, free, es[0]);
      log' := RunGenuine(SyncRun.Step(w, free, es[0]), log1, free, es[1..]);
    }
  }

  // ---- seqs without a record ----

  lemma {:induction false} OwedStands(n: Node, log: seq<LogSeg>, q: nat)
    requires Describes(n.st, log) && Owed(n, q)
    ensures StandsFor(Flat(log), q)
  {
    hide Describes, Read, Stored, Flat, CrcMatches, ParseMarker, SeqOf;
    OwedIsStored(n, q);
    var j := ReadHeld(n.st, log, n.e.cursor);
    assert StandsAt(Flat(log)[j], q);
    StandsSome(Flat(log), j, q);
  }

  lemma {:induction false} InKnown(known: seq<Block>, b: Block, q: nat)
    requires b in known && StandsAt(b, q)
    ensures StandsFor(known, q)
  {
    hide StandsAt;
    var i :| 0 <= i < |known| && known[i] == b;
    StandsSome(known, i, q);
  }

  /** Where the stream has no gap, a LOSS has gone out for each seq above the ACK that no record stands for. */
  lemma {:induction false} MissingTold(w: World, log: seq<LogSeg>, q: nat)
    requires SyncRun.Inv(w, log) && NoGap(w) && Genuine(w)
    requires w.n.e.ack < q < w.n.e.cursor && !StandsFor(w.known, q)
    ensures ToldLost(Tail(w.n.tx, w.base), q)
  {
    hide SyncRun.Inv, Carried, CoversMsg, StandsAt, StandsFor, Owed, Describes, Sound, InBounds, Flat;
    InvParts(w, log);
    KnownHolds(w, log);
    var since := Tail(w.n.tx, w.base);
    assert Uncovered(w.n, w.mark, q);
    if Owed(w.n, q) {
      OwedStands(w.n, log, q);
      Starts.FewerStand(Flat(log), w.known);
      assert false;
    }
    var i :| 0 <= i < |since| && CoversMsg(since[i], q);
    assert since[i] == Carried(w.n.tx)[w.base + i];
    OnlyLoss(since[i], w.known, q);
  }

  lemma {:induction false} OnlyLoss(m: Msg, known: seq<Block>, q: nat)
    requires CoversMsg(m, q) && !StandsFor(known, q) && (m.BlockMsg? ==> m.block in known)
    ensures m.LossMsg? && m.from <= q <= m.to
  {
    if m.BlockMsg? {
      Starts.BlockStands(m.block, q);
      InKnown(known, m.block, q);
    }
    hide StandsFor;
  }

  lemma {:induction false} NoGapAtEnd(w: World, free: Flash -> nat, es: seq<Event>)
    requires NoGapAlong(w, free, es)
    ensures NoGap(SyncRun.RunAll(w, free, es))
    decreases |es|
  {
    hide SyncRun.Step, NoGap;
    if es != [] {
      NoGapAtEnd(SyncRun.Step(w, free, es[0]), free, es[1..]);
    }
  }

  /**
   * Whatever the log a boot starts on, in every run without an event that opens a gap: every seq
   * above the ACK that the cursor has passed, and that no record stands for, has been named by a LOSS
   * since the last rewind.
   */
  lemma {:induction false} MissingIsTold(st: Store, log: seq<LogSeg>, nvsCs: nat, io: set<nat>, free: Flash -> nat,
      es: seq<Event>)
    requires Sound(st, log) && AllEnabled(FirstWorld(st, log, nvsCs, io), free, es)
    requires HarmlessAlong(FirstWorld(st, log, nvsCs, io), free, es)
    ensures var w := SyncRun.RunAll(FirstWorld(st, log, nvsCs, io), free, es);
      forall q: nat :: w.n.e.ack < q < w.n.e.cursor && !StandsFor(w.known, q) ==> ToldLost(Tail(w.n.tx, w.base), q)
  {
    hide SyncRun.Inv, Sound, Genuine, AllEnabled, SyncRun.RunAll, FirstWorld, NoGap, HarmlessAlong, NoGapAlong,
        StandsFor, ToldLost, Tail;
    var w := FirstWorld(st, log, nvsCs, io);
    FirstInv(st, log, nvsCs, io, []);
    FirstGenuine(st, log, nvsCs, io, []);
    Starts.NoAnswers(st, log, nvsCs, io);
    StreamIsGapFree(w, log, free, es);
    NoGapAtEnd(w, free, es);
    var log' := RunGenuine(w, log, free, es);
    var v := SyncRun.RunAll(w, free, es);
    forall q: nat | v.n.e.ack < q < v.n.e.cursor && !StandsFor(v.known, q)
      ensures ToldLost(Tail(v.n.tx, v.base), q)
    {
      MissingTold(v, log', q);
    }
  }

  /**
   * A boot on an empty log: until the server confirms something, every seq from 1 on that the cursor
   * has passed and no record stands for has been named by a LOSS, however long the gap at the start.
   */
  lemma {:induction false} StartIsTold(st: Store, nvsCs: nat, io: set<nat>, free: Flash -> nat, es: seq<Event>)
    requires Sound(st, []) && AllEnabled(FirstWorld(st, [], nvsCs, io), free, es)
    requires HarmlessAlong(FirstWorld(st, [], nvsCs, io), free, es)
    ensures FirstWorld(st, [], nvsCs, io).n.e.ack == 0
    ensures var w := SyncRun.RunAll(FirstWorld(st, [], nvsCs, io), free, es);
      w.n.e.ack == 0 ==>
        forall q :: 1 <= q < w.n.e.cursor && !StandsFor(w.known, q) ==> ToldLost(Tail(w.n.tx, w.base), q)
  {
    hide Sound, AllEnabled, SyncRun.RunAll, HarmlessAlong, StandsFor, ToldLost, Tail, EffectiveTail, FirstWorld;
    Starts.NoSegments(st);
    Starts.EmptyStart(st, nvsCs, io);
    Starts.NoAnswers(st, [], nvsCs, io);
    MissingIsTold(st, [], nvsCs, io, free, es);
  }
}
