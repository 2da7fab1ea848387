/**
 * The sync engine, call by call: every call changes the log, the cursor and the messages in one of
 * a few forms. The safety results are about these forms.
 */
module SyncForms {
  import opened Bytes
  import opened BlockFormat
  import opened SegmentFormat
  import opened StoreSpec
  import opened LogSpec
  import opened Recovery
  import opened CommitKeeps
  import opened SyncProtocol
  import opened SyncSpec
  import W = BlockWriter

  // ---- what the log promises the engine ----

  /** A BOOT declares seqs from 1 on, all newer than the record before it. */
  predicate DeclaresAt(r: seq<Block>, i: nat) {
    i < |r| ==>
      var m := ParseMarker(r[i].data);
      m.Boot? ==> 1 <= m.from && (i > 0 ==> SeqOf(r[i - 1]) < m.from)
  }

  ghost predicate Declaring(r: seq<Block>) {
    forall i :: 0 <= i < |r| ==> DeclaresAt(r, i)
  }

  ghost predicate Sound(st: Store, log: seq<LogSeg>) {
    Consistent(st, log) && Declaring(Flat(log))
  }

  lemma {:induction false} DeclaringSuffix(a: seq<Block>, b: seq<Block>)
    requires IsSuffix(a, b) && Declaring(b)
    ensures Declaring(a)
  {
    hide SeqOf, ParseMarker;
    var n := |b| - |a|;
    forall i | 0 <= i < |a|
      ensures DeclaresAt(a, i)
    {
      assert DeclaresAt(b, n + i);
    }
  }

  // ---- reads ----

  /** A file that does not open makes a stored block unreadable, and nothing else. */
  lemma {:induction false} ReadUnder(st: Store, s: nat, io: set<nat>)
    ensures Read(st, s, io) == Missing <==> Read(st, s, {}) == Missing
    ensures Read(st, s, io) == Missing <==> !Stored(st, s)
    ensures s !in io ==> Read(st, s, io) == Read(st, s, {})
    ensures s in io && Stored(st, s) ==> Read(st, s, io) == Broken
  {
    hide RecordAt, HeaderOk, BlockSeq;
  }

  lemma {:induction false} ReadHeld(st: Store, log: seq<LogSeg>, s: nat) returns (i: nat)
    requires Describes(st, log) && Stored(st, s)
    ensures i < |Flat(log)| && SeqOf(Flat(log)[i]) == s && Read(st, s, {}) == Found(Flat(log)[i])
  {
    hide Describes, Read, Flat, SeqOf, Stored;
    StoredIsHeld(st, log, s);
    i :| 0 <= i < |Flat(log)| && SeqOf(Flat(log)[i]) == s;
    ReadIsLookup(st, log, i);
  }

  lemma {:induction false} SegsOrdered(st: Store, log: seq<LogSeg>)
    requires Describes(st, log)
    ensures forall i :: 0 <= i < |st.segs| ==> 1 <= st.segs[i].first <= st.segs[i].last
    ensures forall i, j :: 0 <= i < j < |st.segs| ==> st.segs[i].last < st.segs[j].first
  {
    forall i | 0 <= i < |log|
      ensures st.segs[i].first == log[i].first && st.segs[i].last == log[i].Last() && 1 <= log[i].first <= log[i].Last()
    {
      SegOfDescribed(st, log, i);
    }
  }

  lemma {:induction false} StoredBounds(st: Store, log: seq<LogSeg>, s: nat)
    requires Describes(st, log)
    ensures Stored(st, s) ==> 1 <= s <= st.NewestSeq() && st.OldestSeq() <= s
    ensures st.segs != [] ==> Stored(st, st.NewestSeq()) && Stored(st, st.OldestSeq())
    ensures st.segs == [] ==> !Stored(st, s)
  {
    hide Describes, Stored;
    SegsOrdered(st, log);
    SegsBound(st, s);
    if st.segs != [] {
      EndsAreStored(st);
    }
  }

  lemma {:induction false} SegsBound(st: Store, s: nat)
    requires forall i :: 0 <= i < |st.segs| ==> 1 <= st.segs[i].first <= st.segs[i].last
    requires forall i, j :: 0 <= i < j < |st.segs| ==> st.segs[i].last < st.segs[j].first
    ensures Stored(st, s) ==> 1 <= s <= st.NewestSeq() && st.OldestSeq() <= s
    ensures st.segs == [] ==> !Stored(st, s)
  {
    var n := |st.segs| - 1;
    if Stored(st, s) {
      var i := Locate(st.segs, s);
      assert i < n ==> st.segs[i].last < st.segs[n].first;
      assert i > 0 ==> st.segs[0].last < st.segs[i].first;
    }
  }

  lemma {:induction false} EndsAreStored(st: Store)
    requires st.segs != [] && forall i :: 0 <= i < |st.segs| ==> st.segs[i].first <= st.segs[i].last
    ensures Stored(st, st.NewestSeq()) && Stored(st, st.OldestSeq())
  {
    var n := |st.segs| - 1;
    assert st.segs[n].first <= st.NewestSeq() <= st.segs[n].last;
    assert st.segs[0].first <= st.OldestSeq() <= st.segs[0].last;
  }

  /** The least stored seq at or above `s`. */
  lemma {:induction false} NextStoredIs(st: Store, log: seq<LogSeg>, s: nat)
    requires Describes(st, log) && s >= 1
    ensures var t := NextStored(st.segs, s);
      && (t == 0 <==> s > st.NewestSeq())
      && (t != 0 ==> s <= t <= st.NewestSeq() && Stored(st, t) && forall q :: s <= q < t ==> !Stored(st, q))
  {
    hide Describes;
    SegsOrdered(st, log);
    NextIsLeast(st.segs, s);
    var t := NextStored(st.segs, s);
    StoredBounds(st, log, t);
    StoredBounds(st, log, s);
    assert t == 0 && s <= st.NewestSeq() ==> Locate(st.segs, st.NewestSeq()) == |st.segs|;
  }

  // ---- runs of bad blocks ----

  lemma {:induction false} LossEndIs(st: Store, s: nat, to: nat, io: set<nat>)
    requires s <= to <= st.NewestSeq() && to - s < MAX_LOSS_RUN
    requires forall q :: s <= q <= to ==> Bad(Read(st, q, io))
    ensures var r := LossEnd(st, s, to, io);
      && to <= r <= st.NewestSeq() && r - s < MAX_LOSS_RUN && (forall q :: s <= q <= r ==> Bad(Read(st, q, io)))
      && (r - s + 1 == MAX_LOSS_RUN || r == st.NewestSeq() || !Bad(Read(st, r + 1, io)))
    decreases st.NewestSeq() - to
  {
    hide Read, Bad;
    if to + 1 <= st.NewestSeq() && to + 1 - s < MAX_LOSS_RUN && Bad(Read(st, to + 1, io)) {
      LossEndIs(st, s, to + 1, io);
    }
  }

  lemma {:induction false} BadIsNotIntact(r: Fetched)
    ensures Bad(r) ==> !Intact(r)
    ensures Intact(r) ==> !Bad(r)
    ensures r == Missing ==> !Intact(r)
  {
  }

  // ---- the messages that carry blocks ----

  predicate CarriesBlock(m: Msg) { m.BlockMsg? || m.LossMsg? }

  function Carried(tx: seq<Msg>): seq<Msg> {
    if tx == [] then []
    else
      var n := |tx| - 1;
      Carried(tx[..n]) + (if CarriesBlock(tx[n]) then [tx[n]] else [])
  }

  lemma {:induction false} CarriedMore(tx: seq<Msg>, m: Msg)
    ensures Carried(tx + [m]) == Carried(tx) + (if CarriesBlock(m) then [m] else [])
  {
    assert (tx + [m])[..|tx|] == tx;
  }

  lemma {:induction false} NoticeCarries(n: Node)
    ensures Carried(n.Notice().tx) == Carried(n.tx)
    ensures n.Notice().e == n.e && n.Notice().st == n.st && n.Notice().nvsCs == n.nvsCs
  {
    CarriedMore(n.tx, NoticeMsg(n.Head(), n.e.noHsConn, n.e.noHsBoot));
    assert Carried(n.tx) + [] == Carried(n.tx);
  }

  lemma {:induction false} ErrorCarries(n: Node, code: byte)
    ensures Carried(n.Send(ErrorMsg(code)).tx) == Carried(n.tx)
  {
    CarriedMore(n.tx, ErrorMsg(code));
    assert Carried(n.tx) + [] == Carried(n.tx);
  }

  // ---- the forms ----

  datatype Form =
    | Quiet
    | Rewind
    | Acked(upTo: nat)
    | Began(k: nat)
    | Jumped(t: nat)
    | SentBlock(b: Block)
    | SentLoss(to: nat, tag: bytes)

  predicate SameBatch(e: Engine, e': Engine) {
    e'.batchActive ==> e.batchActive && e'.batchEnd == e.batchEnd && e'.batchSent == e.batchSent
  }

  /** The batch is running, the app is there, and no discard of unconfirmed blocks is still to be told. */
  predicate MaySend(n: Node) {
    && n.e.batchActive && n.e.connected && n.e.subscribed && n.e.sessionOpen && n.e.cursor <= n.e.batchEnd
    && (n.st.overflow <= n.e.overflowSeen || n.st.overflow <= n.e.ack)
  }

  ghost predicate Sends(n: Node, n': Node, m: Msg, cursor: nat) {
    && MaySend(n)
    && n'.st == n.st && n'.e.ack == n.e.ack && n'.e.cursor == cursor
    && n'.e.batchActive && n'.e.batchEnd == n.e.batchEnd && n'.e.batchSent == n.e.batchSent + 1
    && Carried(n'.tx) == Carried(n.tx) + [m]
  }

  ghost predicate Took(n: Node, n': Node, io: set<nat>, form: Form) {
    var s := n.e.cursor;
    match form
    case Quiet =>
      && n'.st == n.st && n'.e.ack == n.e.ack && n'.e.cursor == s && SameBatch(n.e, n'.e)
      && Carried(n'.tx) == Carried(n.tx)
    case Rewind =>
      && n'.st == n.st && n'.e.ack == n.e.ack && n'.e.cursor == n.e.ack + 1 && !n'.e.batchActive
      && Carried(n'.tx) == Carried(n.tx)
    case Acked(a) =>
      && n.e.ack < a <= n.Head() && n'.st == DeleteUpTo(n.st, a) && n'.e.ack == a && n'.e.cursor == Max(s, a + 1)
      && SameBatch(n.e, n'.e) && Carried(n'.tx) == Carried(n.tx)
    case Began(k) =>
      && n'.st == n.st && n'.e.ack == n.e.ack && n'.e.cursor == s && Carried(n'.tx) == Carried(n.tx)
      && n.e.sessionOpen && 1 <= k && s <= n.Head() && n'.e.batchActive && n'.e.batchSent == 0
      && n'.e.batchEnd == (if s + k - 1 < n.Head() then s + k - 1 else n.Head())
    case Jumped(t) =>
      && MaySend(n) && n'.st == n.st && n'.e.ack == n.e.ack && n'.e.cursor == t && Carried(n'.tx) == Carried(n.tx)
      && n'.e == n.e.(cursor := t, batchEnd := Max(n.e.batchEnd, t), overflowSeen := n'.e.overflowSeen)
      && s < t <= n.Head() && (forall q :: s <= q < t ==> !Stored(n.st, q)) && IsBootFrom(Read(n.st, t, {}), s)
    case SentBlock(b) =>
      && Sends(n, n', BlockMsg(b), s + 1) && s <= n.Head()
      && Read(n.st, s, io) == Found(b) && CrcMatches(b) && s !in io && SeqOf(b) == s
    case SentLoss(to, tag) =>
      && Sends(n, n', LossMsg(s, to, tag), to + 1)
      && s <= to <= n.Head() && to - s < MAX_LOSS_RUN
      && (forall q :: s <= q <= to ==> !Intact(Read(n.st, q, io)))
  }

  // ---- which call takes which form ----

  /** Nothing is stored from the cursor up to an intact BOOT that declares the gap. */
  ghost predicate GapAhead(n: Node, io: set<nat>) {
    exists t: nat :: Stored(n.st, t) && DeclaresGap(n, t, io)
  }

  ghost predicate DeclaresGap(n: Node, t: nat, io: set<nat>) {
    && n.e.cursor < t <= n.Head()
    && (forall q :: n.e.cursor <= q < t ==> !Stored(n.st, q)) && IsBootFrom(Read(n.st, t, io), n.e.cursor)
  }

  /** Lost in the way `s` is: not stored, or stored and bad. */
  predicate LostAs(st: Store, s: nat, q: nat, io: set<nat>) {
    if Stored(st, s) then Bad(Read(st, q, io)) else !Stored(st, q)
  }

  /** The run of lost seqs from `s` to `to`, and no longer one. */
  ghost predicate LongestRun(st: Store, s: nat, to: nat, io: set<nat>) {
    && (forall q :: s <= q <= to ==> LostAs(st, s, q, io))
    && (to + 1 == s + MAX_LOSS_RUN || to == st.NewestSeq() || !LostAs(st, s, to + 1, io))
  }

  /** What a call of `sendNextBlock` does, by what it finds at the cursor. */
  ghost predicate Chosen(n: Node, luck: Luck, form: Form) {
    var ok, gap := Intact(Read(n.st, n.e.cursor, luck.io)), GapAhead(n, luck.io);
    && (form.SentBlock? <==> MaySend(n) && ok && luck.link)
    && (form.Jumped? <==> MaySend(n) && gap)
    && (form.SentLoss? <==> MaySend(n) && !ok && !gap && luck.sign.Some? && luck.link)
    && (form.SentLoss? ==> luck.sign == Some(form.tag) && LongestRun(n.st, n.e.cursor, form.to, luck.io))
  }

  lemma {:induction false} OverflowIsQuiet(n: Node)
    ensures Took(n, CheckOverflow(n), {}, Quiet)
    ensures var e := CheckOverflow(n).e;
      && e.connected == n.e.connected && e.subscribed == n.e.subscribed
      && e.lastCs == n.e.lastCs && e.hasResponded == n.e.hasResponded && e.respondedCs == n.e.respondedCs
      && (e.sessionOpen ==> n.e.sessionOpen) && CheckOverflow(n).nvsCs == n.nvsCs
      && (e.batchActive ==> n.e.batchActive && e.sessionOpen == n.e.sessionOpen)
    ensures CheckOverflow(n).e.sessionOpen && CheckOverflow(n).e.batchActive ==>
      && CheckOverflow(n).tx == n.tx && CheckOverflow(n).e == n.e.(overflowSeen := CheckOverflow(n).e.overflowSeen)
      && (n.st.overflow <= n.e.overflowSeen || n.st.overflow <= n.e.ack)
    ensures MaySend(n) ==> CheckOverflow(n).e.sessionOpen && CheckOverflow(n).e.batchActive
  {
    hide Carried, Node.Notice;
    var n1 := n.(e := n.e.(overflowSeen := n.st.overflow, batchActive := false, noHsConn := true,
                           sessionOpen := false));
    NoticeCarries(n1);
  }

  lemma {:induction false} SendLossIs(n: Node, n1: Node, to: nat, luck: Luck, io: set<nat>) returns (form: Form)
    requires n1 == n.(e := n.e.(overflowSeen := n1.e.overflowSeen)) && MaySend(n)
    requires n.e.cursor <= to <= n.Head() && to - n.e.cursor < MAX_LOSS_RUN
    requires forall q :: n.e.cursor <= q <= to ==> !Intact(Read(n.st, q, io))
    ensures Took(n, SendLoss(n1, n.e.cursor, to, luck), io, form)
    ensures form == if luck.sign.Some? && luck.link then SentLoss(to, luck.sign.value) else Quiet
    ensures form.Quiet? ==> !SendLoss(n1, n.e.cursor, to, luck).e.batchActive
  {
    hide Read, Intact, Stored, Carried;
    form := if luck.sign.Some? && luck.link then SentLoss(to, luck.sign.value) else Quiet;
    if luck.sign.Some? {
      CarriedMore(n.tx, LossMsg(n.e.cursor, to, luck.sign.value));
    }
  }

  lemma {:induction false} SkipIs(n: Node, log: seq<LogSeg>, n1: Node, luck: Luck) returns (form: Form)
    requires Describes(n.st, log) && MaySend(n) && n.e.batchEnd <= n.Head()
    requires n1 == n.(e := n.e.(overflowSeen := n1.e.overflowSeen)) && !Stored(n.st, n.e.cursor) && n.e.cursor >= 1
    ensures Took(n, SkipMissing(n1, n.e.cursor, luck).0, luck.io, form)
    ensures form.Quiet? || form.Jumped? || form.SentLoss?
    ensures form.Quiet? ==> !SkipMissing(n1, n.e.cursor, luck).0.e.batchActive
    ensures Chosen(n, luck, form)
  {
    hide Describes, Read, Intact, Stored, ParseMarker, Chosen;
    var s := n.e.cursor;
    NextStoredIs(n.st, log, s);
    var t := NextStored(n.st.segs, s);
    ReadUnder(n.st, t, luck.io);
    SkipChosen(n, log, luck, t);
    if IsBootFrom(Read(n.st, t, luck.io), s) {
      form := Jumped(t);
      BadIsNotIntact(Read(n.st, t, luck.io));
      IntactOpened(n.st, t, luck.io);
    } else {
      var to := if t > s + MAX_LOSS_RUN then s + MAX_LOSS_RUN - 1 else t - 1;
      forall q | s <= q <= to
        ensures !Intact(Read(n.st, q, luck.io))
      {
        ReadUnder(n.st, q, luck.io);
        BadIsNotIntact(Read(n.st, q, luck.io));
      }
      form := SendLossIs(n, n1, to, luck, luck.io);
    }
  }

  lemma {:induction false} SkipChosen(n: Node, log: seq<LogSeg>, luck: Luck, t: nat)
    requires Describes(n.st, log) && MaySend(n) && !Stored(n.st, n.e.cursor)
    requires n.e.cursor < t <= n.Head() && Stored(n.st, t) && forall q :: n.e.cursor <= q < t ==> !Stored(n.st, q)
    ensures GapAhead(n, luck.io) <==> IsBootFrom(Read(n.st, t, luck.io), n.e.cursor)
    ensures IsBootFrom(Read(n.st, t, luck.io), n.e.cursor) ==> Chosen(n, luck, Jumped(t))
    ensures !IsBootFrom(Read(n.st, t, luck.io), n.e.cursor) ==>
      var to := if t > n.e.cursor + MAX_LOSS_RUN then n.e.cursor + MAX_LOSS_RUN - 1 else t - 1;
      Chosen(n, luck, if luck.sign.Some? && luck.link then SentLoss(to, luck.sign.value) else Quiet)
  {
    hide Describes, Read, Stored, ParseMarker, MaySend, IsBootFrom, CrcMatches;
    ReadUnder(n.st, n.e.cursor, luck.io);
    if IsBootFrom(Read(n.st, t, luck.io), n.e.cursor) {
      assert DeclaresGap(n, t, luck.io);
    } else {
      forall t': nat | Stored(n.st, t')
        ensures !DeclaresGap(n, t', luck.io)
      {
        assert t' != t ==> t' < t || t < t';
      }
    }
  }

  /** What was read intact is what a read without failures gives. */
  lemma {:induction false} IntactOpened(st: Store, s: nat, io: set<nat>)
    requires Intact(Read(st, s, io))
    ensures Read(st, s, {}) == Read(st, s, io) && s !in io && Stored(st, s)
  {
    hide Read, Stored, CrcMatches;
    ReadUnder(st, s, io);
  }

  lemma {:induction false} SendNextIs(n: Node, log: seq<LogSeg>, luck: Luck) returns (form: Form)
    requires Describes(n.st, log) && n.e.cursor >= 1 && (n.e.batchActive ==> n.e.batchEnd <= n.Head())
    ensures Took(n, SendNext(n, luck).0, luck.io, form)
    ensures form.Quiet? || form.Jumped? || form.SentBlock? || form.SentLoss?
    ensures form.Quiet? ==> !SendNext(n, luck).0.e.batchActive
    ensures Chosen(n, luck, form)
  {
    hide Describes, Read, Intact, Bad, Stored, ParseMarker, CrcMatches, CheckOverflow, LossEnd, Carried, GapAhead;
    OverflowIsQuiet(n);
    form := Quiet;
    var n1 := CheckOverflow(n);
    if n.e.batchActive && n.e.connected && n.e.subscribed && n.e.sessionOpen && n.e.cursor <= n.e.batchEnd
      && n1.e.sessionOpen && n1.e.batchActive {
      form := SendActiveIs(n, log, n1, luck);
    }
  }

  lemma {:induction false} SendActiveIs(n: Node, log: seq<LogSeg>, n1: Node, luck: Luck) returns (form: Form)
    requires Describes(n.st, log) && MaySend(n) && n.e.cursor >= 1 && n.e.batchEnd <= n.Head()
    requires n1 == CheckOverflow(n) && n1 == n.(e := n.e.(overflowSeen := n1.e.overflowSeen))
    ensures Took(n, SendNext(n, luck).0, luck.io, form)
    ensures form.Quiet? || form.Jumped? || form.SentBlock? || form.SentLoss?
    ensures form.Quiet? ==> !SendNext(n, luck).0.e.batchActive
    ensures Chosen(n, luck, form)
  {
    hide Describes, Read, Stored, ParseMarker, CrcMatches, CheckOverflow, LossEnd, Carried, SkipMissing, Chosen;
    if Stored(n.st, n.e.cursor) {
      ReadChosen(n, luck);
    }
    var s := n.e.cursor;
    ReadUnder(n.st, s, luck.io);
    BadIsNotIntact(Read(n.st, s, luck.io));
    var r := Read(n.st, s, luck.io);
    if r == Missing {
      form := SkipIs(n, log, n1, luck);
    } else if Intact(r) {
      form := if luck.link then SentBlock(r.block) else Quiet;
      CarriedMore(n.tx, BlockMsg(r.block));
      IntactOpened(n.st, s, luck.io);
      ReadSeq(n.st, s, luck.io);
    } else {
      LossEndIs(n.st, s, s, luck.io);
      var to := LossEnd(n.st, s, s, luck.io);
      forall q | s <= q <= to
        ensures !Intact(Read(n.st, q, luck.io))
      {
        BadIsNotIntact(Read(n.st, q, luck.io));
      }
      form := SendLossIs(n, n1, to, luck, luck.io);
    }
  }

  /** A bad block at the cursor leads to a LOSS, if it is signed and taken by the link. */
  lemma {:induction false} BadLeadsToLoss(n: Node, luck: Luck, form: Form)
    requires Chosen(n, luck, form)
    ensures form.SentLoss? ==> luck.sign.Some? && luck.link
    ensures Bad(Read(n.st, n.e.cursor, luck.io)) ==>
      (form.SentLoss? <==> MaySend(n) && luck.sign.Some? && luck.link)
  {
    hide Read, Stored, LongestRun, IsBootFrom, CrcMatches;
    ReadUnder(n.st, n.e.cursor, luck.io);
    BadIsNotIntact(Read(n.st, n.e.cursor, luck.io));
    if GapAhead(n, luck.io) {
      var t: nat :| DeclaresGap(n, t, luck.io);
      assert !Stored(n.st, n.e.cursor);
    }
  }

  /** What a stored block at the cursor leads to. */
  lemma {:induction false} ReadChosen(n: Node, luck: Luck)
    requires MaySend(n) && Stored(n.st, n.e.cursor)
    ensures !GapAhead(n, luck.io)
    ensures var r := Read(n.st, n.e.cursor, luck.io);
      && (Intact(r) ==> Chosen(n, luck, if luck.link then SentBlock(r.block) else Quiet))
      && (Bad(r) && n.e.cursor <= n.Head() ==>
            Chosen(n, luck, if luck.sign.Some? && luck.link
                            then SentLoss(LossEnd(n.st, n.e.cursor, n.e.cursor, luck.io), luck.sign.value) else Quiet))
  {
    hide Read, Stored, ParseMarker, CrcMatches, LossEnd;
    var s := n.e.cursor;
    var r := Read(n.st, s, luck.io);
    BadIsNotIntact(r);
    if Bad(r) && s <= n.Head() {
      LossEndIs(n.st, s, s, luck.io);
    }
  }

  lemma {:induction false} ReadSeq(st: Store, s: nat, io: set<nat>)
    ensures Read(st, s, io).Found? ==> SeqOf(Read(st, s, io).block) == s
  {
  }

  // ---- the other calls ----

  lemma {:induction false} NoticeIs(n: Node, n1: Node, io: set<nat>, form: Form)
    requires Took(n, n1, io, form)
    ensures Took(n, n1.Notice(), io, form)
  {
    NoticeCarries(n1);
    hide Read, Stored, Node.Notice, Carried, IsBootFrom, Intact;
  }

  lemma {:induction false} ConnectIs(n: Node, generation: nat)
    ensures Took(n, OnConnected(n, generation), {}, Rewind)
  {
  }

  lemma {:induction false} DisconnectIs(n: Node)
    ensures Took(n, OnDisconnected(n), {}, Quiet)
  {
  }

  lemma {:induction false} SubscribeIs(n: Node, on: bool)
    ensures Took(n, OnSubscribed(n, on), {}, Quiet)
  {
    hide Node.Notice;
    NoticeIs(n, n.(e := n.e.(subscribed := on)), {}, Quiet);
  }

  lemma {:induction false} FlushedIs(n: Node)
    ensures Took(n, OnFlushed(n), {}, Quiet)
  {
    hide Took, CheckOverflow;
    OverflowIsQuiet(n);
    NoticeIs(n, CheckOverflow(n), {}, Quiet);
  }

  lemma {:induction false} TickIs(n: Node, due: bool)
    ensures Took(n, Tick(n, due), {}, Quiet)
  {
    hide Took, CheckOverflow;
    OverflowIsQuiet(n);
    NoticeIs(n, CheckOverflow(n), {}, Quiet);
  }

  lemma {:induction false} ErrorIs(n: Node, code: byte)
    ensures Took(n, n.Send(ErrorMsg(code)), {}, Quiet)
  {
    ErrorCarries(n, code);
    hide Carried;
  }

  lemma {:induction false} ChallengeIs(n: Node, v: bytes, tagOk: bool, save: W.Save, io: set<nat>) returns (form: Form)
    ensures Took(n, HandleChallenge(n, v, tagOk, save, io), {}, form) && (form.Quiet? || form.Acked?)
    ensures ConfirmedByChallenge(n, v, tagOk, save) == if form.Acked? then Some(form.upTo) else None
  {
    hide DecodeChallenge, Respond, Took, AdvanceAck;
    form := Quiet;
    ErrorIs(n, INVALID_TAG);
    ErrorIs(n, STALE_CHALLENGE);
    var c := DecodeChallenge(v);
    if c.Some? && tagOk && c.value.cs > n.e.lastCs {
      var n1 := if save.persists then n.(nvsCs := c.value.cs) else n;
      AcceptedIs(n, n1, 0);
      if save.answers {
        var n2 := n1.(e := n1.e.(lastCs := c.value.cs));
        var n3 := if n.e.ack < c.value.ackSeq <= n.Head() then AdvanceAck(n2, c.value.ackSeq) else n2;
        form := if n.e.ack < c.value.ackSeq <= n.Head() then Acked(c.value.ackSeq) else Quiet;
        AcceptedIs(n, n2, c.value.ackSeq);
        RespondIs(n, n3, c.value, io, form);
      }
    }
  }

  lemma {:induction false} AcceptedIs(n: Node, n2: Node, ackSeq: nat)
    requires n2 == n.(e := n.e.(lastCs := n2.e.lastCs), nvsCs := n2.nvsCs)
    ensures
      if n.e.ack < ackSeq <= n.Head() then Took(n, AdvanceAck(n2, ackSeq), {}, Acked(ackSeq))
      else Took(n, n2, {}, Quiet)
  {
    hide DeleteUpTo, Carried;
  }

  lemma {:induction false} RespondIs(n: Node, n1: Node, c: Challenge, io: set<nat>, form: Form)
    requires Took(n, n1, {}, form) && (form.Quiet? || form.Acked?)
    ensures Took(n, Respond(n1, c, io), {}, form)
  {
    hide EffectiveTail, DeleteUpTo, Carried;
    CarriedMore(n1.tx, ResponseMsg(c.cs, c.nonce, n1.Head(), EffectiveTail(n1.st, io)));
    assert Carried(n1.tx) + [] == Carried(n1.tx);
  }

  lemma {:induction false} AckIs(n: Node, v: bytes, tagOk: bool) returns (form: Form)
    ensures Took(n, HandleAck(n, v, tagOk), {}, form) && (form.Quiet? || form.Acked?)
    ensures ConfirmedByAck(n, v, tagOk) == if form.Acked? then Some(form.upTo) else None
  {
    hide DecodeAck, DeleteUpTo, Carried, Node.Notice;
    form := Quiet;
    ErrorCarries(n, INVALID_TAG);
    ErrorCarries(n, INVALID_ACK_SEQ);
    var a := DecodeAck(v);
    if a.Some? && tagOk && n.e.ack <= a.value.ackSeq <= n.Head() {
      var n1 := if a.value.ackSeq > n.e.ack then AdvanceAck(n, a.value.ackSeq) else n;
      form := if a.value.ackSeq > n.e.ack then Acked(a.value.ackSeq) else Quiet;
      var n2 := n1.(e := n1.e.(noHsConn := false, noHsBoot := n1.e.noHsBoot && a.value.anchorFailed,
                               sessionOpen := true));
      assert Took(n, n1, {}, form) && Took(n, n2, {}, form);
      NoticeIs(n, n2, {}, form);
    }
  }

  lemma {:induction false} RequestIs(n: Node, v: bytes) returns (form: Form)
    ensures Took(n, HandleBatchRequest(n, v), {}, form) && (form.Quiet? || form.Began?)
    ensures var k := DecodeBatchRequest(v);
      if form.Began? then n.e.sessionOpen && n.e.cursor <= n.Head() && k == Some(form.k) && form.k >= 1
      else k.None? || k.value == 0 || !n.e.sessionOpen || n.e.cursor > n.Head()
  {
    hide DecodeBatchRequest, Carried;
    ErrorCarries(n, NO_SESSION);
    var k := DecodeBatchRequest(v);
    form := if k.Some? && n.e.sessionOpen && k.value != 0 && n.e.cursor <= n.Head() then Began(k.value) else Quiet;
  }

  lemma {:induction false} AppErrorIs(n: Node, v: bytes) returns (form: Form)
    ensures Took(n, HandleAppError(n, v), {}, form) && (form.Quiet? || form.Rewind?)
    ensures form.Rewind? <==> |v| == 1 && (v[0] == INCOMPLETE || v[0] == RESEND_FROM_BOUNDARY)
  {
    hide Node.Notice, Carried;
    form := if |v| != 1 || (v[0] != INCOMPLETE && v[0] != RESEND_FROM_BOUNDARY) then Quiet else Rewind;
    NoticeIs(n, n.(e := n.e.(batchActive := false, cursor := n.e.ack + 1)), {}, Rewind);
  }

  /** The app asks for a resend. */
  predicate AsksAgain(msg: bytes) {
    var m := ParseTlv(msg);
    && m.Some? && m.value.kind == ERROR && |m.value.value| == 1
    && (m.value.value[0] == INCOMPLETE || m.value.value[0] == RESEND_FROM_BOUNDARY)
  }

  /** The batch a message starts, by its number of blocks; 0 when it starts none. */
  function Requested(n: Node, msg: bytes): nat {
    var m := ParseTlv(msg);
    if m.Some? && m.value.kind == BATCH_REQUEST && n.e.sessionOpen && n.e.cursor <= n.Head() then
      var k := DecodeBatchRequest(m.value.value);
      if k.Some? then k.value else 0
    else 0
  }

  /**
   * The seq a message confirms: newer than the ACK, in the log, under a good tag; in a challenge, one that is
   * answered.
   */
  function Confirmed(n: Node, msg: bytes, tagOk: bool, save: W.Save): Option<nat> {
    var m := ParseTlv(msg);
    if m.None? then None
    else if m.value.kind == CHALLENGE then ConfirmedByChallenge(n, m.value.value, tagOk, save)
    else if m.value.kind == ACK then ConfirmedByAck(n, m.value.value, tagOk)
    else None
  }

  function ConfirmedByChallenge(n: Node, v: bytes, tagOk: bool, save: W.Save): Option<nat> {
    var c := DecodeChallenge(v);
    if c.Some? && tagOk && c.value.cs > n.e.lastCs && save.answers && n.e.ack < c.value.ackSeq <= n.Head()
    then Some(c.value.ackSeq) else None
  }

  function ConfirmedByAck(n: Node, v: bytes, tagOk: bool): Option<nat> {
    var a := DecodeAck(v);
    if a.Some? && tagOk && n.e.ack < a.value.ackSeq <= n.Head() then Some(a.value.ackSeq) else None
  }

  lemma {:induction false} MessageIs(n: Node, msg: bytes, tagOk: bool, save: W.Save, io: set<nat>) returns (form: Form)
    ensures Took(n, OnMessage(n, msg, tagOk, save, io), {}, form)
    ensures form.Quiet? || form.Rewind? || form.Acked? || form.Began?
    ensures form.Rewind? <==> AsksAgain(msg)
    ensures if form.Began? then Requested(n, msg) == form.k else Requested(n, msg) == 0
    ensures Confirmed(n, msg, tagOk, save) == if form.Acked? then Some(form.upTo) else None
  {
    hide Took, ParseTlv, HandleChallenge, HandleAck, HandleBatchRequest, HandleAppError, ConfirmedByAck,
        ConfirmedByChallenge;
    form := Quiet;
    QuietIs(n);
    var m := ParseTlv(msg);
    if m.Some? {
      var v := m.value.value;
      if m.value.kind == CHALLENGE {
        form := ChallengeIs(n, v, tagOk, save, io);
      } else if m.value.kind == ACK {
        form := AckIs(n, v, tagOk);
      } else if m.value.kind == BATCH_REQUEST {
        form := RequestIs(n, v);
      } else if m.value.kind == ERROR {
        form := AppErrorIs(n, v);
      }
    }
  }

  lemma {:induction false} QuietIs(n: Node)
    ensures Took(n, n, {}, Quiet)
  {
  }
}
