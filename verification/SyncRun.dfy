/**
 * Whole runs of the sync engine: calls of the engine in any order, interleaved with appends of the
 * flush task (which may discard old segments) and with restarts.
 */
module SyncRun {
  import opened Bytes
  import opened BlockFormat
  import opened SegmentFormat
  import opened StoreSpec
  import opened LogSpec
  import opened AppendKeeps
  import opened Recovery
  import opened CommitKeeps
  import opened SyncProtocol
  import opened SyncSpec
  import opened SyncForms
  import opened SyncSafety
  import W = BlockWriter

  // ---- events ----

  datatype Event =
    | Connect(generation: nat)
    | Disconnect
    | Subscribe(on: bool)
    | Flushed
    | Ticked(due: bool)
    | Message(msg: bytes, tagOk: bool, save: W.Save, io: set<nat>)
    | SendBlock(luck: Luck)
    | Append(b: Block, newSeg: bool, w1: Outcome, w2: Outcome)
    | Restart(st: Store, log: seq<LogSeg>, io: set<nat>)

  /**
   * The engine and what an observer remembers. Since the last rewind: the ACK then (`mark`) and how
   * many block messages had gone out (`base`). Of the last accepted batch request: the blocks asked
   * for (`credit`) and the messages sent (`spent`). Of this boot: every record indexed or appended
   * (`known`), how many a confirmation freed, and the loss counter at the start. Of all boots: every
   * c_S answered; of this connection: those answered, and the one an accepted ACK confirmed.
   */
  datatype World = World(
    n: Node, mark: nat, base: nat, credit: nat, spent: nat,
    known: seq<Block>, freed: nat, lostBefore: nat,
    answered: seq<nat>, here: seq<nat>, confirmed: Option<nat>)

  /** A BOOT the writer hands over declares seqs from 1 on that are newer than the whole log. */
  predicate DeclaresNew(st: Store, b: Block) {
    var m := ParseMarker(b.data);
    m.Boot? ==> 1 <= m.from && st.NewestSeq() < m.from
  }

  ghost predicate Enabled(w: World, e: Event) {
    match e
    case Append(b, _, _, _) => Appendable(w.n.st, b) && DeclaresNew(w.n.st, b)
    case Restart(st, log, _) => Sound(st, log)
    case Message(_, _, save, _) => save.answers ==> save.persists
    case _ => true
  }

  /** The engine's own part of an event. */
  function Call(n: Node, e: Event): Node {
    match e
    case Connect(generation) => OnConnected(n, generation)
    case Disconnect => OnDisconnected(n)
    case Subscribe(on) => OnSubscribed(n, on)
    case Flushed => OnFlushed(n)
    case Ticked(due) => Tick(n, due)
    case Message(msg, tagOk, save, io) => OnMessage(n, msg, tagOk, save, io)
    case SendBlock(luck) => SendNext(n, luck).0
    case _ => n
  }

  predicate Rewinds(e: Event) { e.Connect? || (e.Message? && AsksAgain(e.msg)) }

  function ConfirmedBy(n: Node, e: Event): Option<nat> {
    if e.Message? then Confirmed(n, e.msg, e.tagOk, e.save) else None
  }

  /** A challenge with a good tag and a c_S not seen before, which NVS keeps. */
  predicate Accepts(n: Node, c: Option<Challenge>, tagOk: bool, save: W.Save) {
    c.Some? && tagOk && c.value.cs > n.e.lastCs && save.answers
  }

  /** The c_S a message makes the engine answer. */
  function Answers(n: Node, e: Event): seq<nat> {
    if !e.Message? then []
    else
      var m := ParseTlv(e.msg);
      if m.None? || m.value.kind != CHALLENGE then []
      else
        var c := DecodeChallenge(m.value.value);
        if Accepts(n, c, e.tagOk, e.save) then [c.value.cs] else []
  }

  /** The c_S of the answers among the messages sent. */
  function Responses(tx: seq<Msg>): seq<nat> {
    if tx == [] then []
    else
      var i := |tx| - 1;
      Responses(tx[..i]) + (if tx[i].ResponseMsg? then [tx[i].cs] else [])
  }

  /** The answers that went out between two moments. */
  function NewResponses(tx: seq<Msg>, tx': seq<Msg>): seq<nat> {
    if |Responses(tx)| <= |Responses(tx')| then Responses(tx')[|Responses(tx)|..] else []
  }

  /** The c_conf of an ACK with a good tag, for a block the log has, that repeats the last answer of this connection. */
  function Confirms(w: World, e: Event): Option<nat> {
    if !e.Message? then None
    else
      var m := ParseTlv(e.msg);
      if m.None? || m.value.kind != ACK then None
      else
        var a := DecodeAck(m.value.value);
        if a.Some? && e.tagOk && w.n.e.ack <= a.value.ackSeq <= w.n.Head() && w.here != []
          && a.value.cConf == w.here[|w.here| - 1]
        then Some(a.value.cConf) else None
  }

  function Observe(w: World, e: Event): World {
    var n' := Call(w.n, e);
    var sent := |Carried(n'.tx)| - |Carried(w.n.tx)|;
    var k := if e.Message? then Requested(w.n, e.msg) else 0;
    var fewer := w.n.st.Total() - n'.st.Total();
    World(
      n',
      if Rewinds(e) then n'.e.ack else w.mark,
      if Rewinds(e) then |Carried(n'.tx)| else w.base,
      if k > 0 then k else w.credit,
      if k > 0 then 0 else if sent > 0 then w.spent + sent else w.spent,
      w.known, if fewer > 0 then w.freed + fewer else w.freed, w.lostBefore,
      w.answered + NewResponses(w.n.tx, n'.tx),
      if e.Connect? then [] else w.here + NewResponses(w.n.tx, n'.tx),
      if e.Connect? then None else if Confirms(w, e).Some? then Confirms(w, e) else w.confirmed)
  }

  /** The flush task appends a block, the BOOT of a restart in a new segment. */
  function Flush(st: Store, free: Flash -> nat, b: Block, newSeg: bool, w1: Outcome, w2: Outcome): (Store, bool) {
    W.AppendTwice(if newSeg then W.Retry(st) else st, b, free, w1, w2)
  }

  ghost function Step(w: World, free: Flash -> nat, e: Event): World {
    match e
    case Append(b, newSeg, w1, w2) =>
      var (s, ok) := Flush(w.n.st, free, b, newSeg, w1, w2);
      w.(n := w.n.(st := s), known := w.known + Added(b, ok))
    case Restart(st, log, io) => FirstWorld(st, log, w.n.nvsCs, io).(answered := w.answered)
    case _ => Observe(w, e)
  }

  function FirstWorld(st: Store, log: seq<LogSeg>, nvsCs: nat, io: set<nat>): World {
    var n := Start(st, nvsCs, io);
    World(n, n.e.ack, 0, 0, 0, Flat(log), 0, st.lost, [], [], None)
  }

  // ---- invariants ----

  /**
   * What has left the log was confirmed by the server or is covered by the overflow mark, and every
   * record that came in is stored, freed or counted as lost.
   */
  ghost predicate Accounted(w: World, log: seq<LogSeg>) {
    var gone := |w.known| - |Flat(log)|;
    && IsSuffix(Flat(log), w.known)
    && (forall i :: 0 <= i < gone ==> SeqOf(w.known[i]) <= Max(w.n.e.ack, w.n.st.overflow))
    && gone == w.freed + w.n.st.lost - w.lostBefore
  }

  ghost predicate Rising(s: seq<nat>) {
    forall i, j :: 0 <= i < j < |s| ==> s[i] < s[j]
  }

  /** Answered challenges rise and are persisted; a session rests on an answer of this connection and its ACK. */
  ghost predicate Handshaken(w: World) {
    && Rising(w.answered)
    && (forall i :: 0 <= i < |w.answered| ==> w.answered[i] <= w.n.e.lastCs)
    && w.n.e.lastCs <= w.n.nvsCs
    && (w.n.e.hasResponded <==> w.here != [])
    && (w.n.e.hasResponded ==> w.n.e.respondedCs == w.here[|w.here| - 1])
    && (w.n.e.sessionOpen ==> w.confirmed.Some? && w.confirmed.value in w.here)
  }

  ghost predicate Ordered(w: World) {
    w.base <= |Carried(w.n.tx)| && InOrder(Tail(w.n.tx, w.base), w.n.e.cursor)
  }

  ghost predicate Inv(w: World, log: seq<LogSeg>) {
    && Sound(w.n.st, log)
    && InBounds(w.n)
    && Ordered(w)
    && WithinCredit(w.n, w.credit, w.spent)
    && Accounted(w, log)
    && Handshaken(w)
  }

  /** The stream since the last rewind has no gap. */
  ghost predicate NoGap(w: World) { GapFree(w.n, w.mark, Tail(w.n.tx, w.base)) }

  ghost predicate Hanging(w: World) { InDebt(w.n, w.mark, Tail(w.n.tx, w.base)) }

  // ---- the form of an engine call ----

  lemma {:induction false} CallIs(n: Node, log: seq<LogSeg>, e: Event) returns (form: Form, io: set<nat>)
    requires Describes(n.st, log) && InBounds(n) && !e.Append? && !e.Restart?
    ensures Took(n, Call(n, e), io, form)
    ensures form.Rewind? <==> Rewinds(e)
    ensures var k := if e.Message? then Requested(n, e.msg) else 0; if form.Began? then k == form.k else k == 0
    ensures form.SentBlock? || form.SentLoss? || form.Jumped? ==> e.SendBlock? && io == e.luck.io
    ensures ConfirmedBy(n, e) == if form.Acked? then Some(form.upTo) else None
  {
    hide Took, Describes, SendNext, OnMessage, OnConnected, OnDisconnected, OnSubscribed, OnFlushed, Tick, AsksAgain,
        Requested, Confirmed;
    form, io := Quiet, {};
    match e
    case Connect(generation) =>
      ConnectIs(n, generation);
      form := Rewind;
    case Disconnect => DisconnectIs(n);
    case Subscribe(on) => SubscribeIs(n, on);
    case Flushed => FlushedIs(n);
    case Ticked(due) => TickIs(n, due);
    case Message(msg, tagOk, save, mio) => form := MessageIs(n, msg, tagOk, save, mio);
    case SendBlock(luck) =>
      form := SendNextIs(n, log, luck);
      io := luck.io;
  }

  /** The observer's counters follow the form. */
  lemma {:induction false} CountersFollow(w: World, e: Event, n': Node, io: set<nat>, form: Form)
    requires n' == Call(w.n, e) && Took(w.n, n', io, form) && (form.Began? ==> form.k >= 1)
    requires var k := if e.Message? then Requested(w.n, e.msg) else 0; if form.Began? then k == form.k else k == 0
    ensures Observe(w, e).credit == NextCredit(form, w.credit) && Observe(w, e).spent == NextSpent(form, w.spent)
  {
    hide Carried, DeleteUpTo, Read, Stored, IsBootFrom, Intact, Requested, NewResponses, Confirms, Call, Store.Total;
  }

  // ---- one event keeps each invariant ----

  lemma {:induction false} StoreKept(n: Node, log: seq<LogSeg>, n': Node, io: set<nat>, form: Form)
    returns (log': seq<LogSeg>)
    requires Sound(n.st, log) && Took(n, n', io, form)
    ensures Sound(n'.st, log')
    ensures if form.Acked? then Freed(n.st, log, form.upTo, n'.st, log') else n'.st == n.st && log' == log
  {
    hide Consistent, Declaring, Carried, Read, Stored, IsBootFrom, Intact, DeleteUpTo, Flat, SeqOf;
    log' := log;
    if form.Acked? {
      log' := DeleteKeeps(n.st, log, form.upTo);
      DeclaringSuffix(Flat(log'), Flat(log));
    }
  }

  lemma {:induction false} AccountedKept(w: World, log: seq<LogSeg>, w': World, log': seq<LogSeg>, io: set<nat>,
      form: Form)
    requires Accounted(w, log) && Took(w.n, w'.n, io, form) && Describes(w.n.st, log) && Describes(w'.n.st, log')
    requires if form.Acked? then Freed(w.n.st, log, form.upTo, w'.n.st, log') else w'.n.st == w.n.st && log' == log
    requires w'.known == w.known && w'.lostBefore == w.lostBefore
    requires w'.freed
      == if w.n.st.Total() > w'.n.st.Total() then w.freed + w.n.st.Total() - w'.n.st.Total() else w.freed
    ensures Accounted(w', log')
  {
    TotalOfDescribed(w.n.st, log);
    TotalOfDescribed(w'.n.st, log');
    hide Describes, Carried, Read, Stored, IsBootFrom, Intact, DeleteUpTo, Flat, SeqOf, Store.Total;
    if form.Acked? {
      FreedAccounted(w, log, w', log', form.upTo);
    }
  }

  lemma {:induction false} FreedAccounted(w: World, log: seq<LogSeg>, w': World, log': seq<LogSeg>, upTo: nat)
    requires Accounted(w, log) && Freed(w.n.st, log, upTo, w'.n.st, log') && w'.n.e.ack == upTo && upTo >= w.n.e.ack
    requires w'.known == w.known && w'.lostBefore == w.lostBefore
    requires w'.freed == w.freed + |Flat(log)| - |Flat(log')|
    ensures Accounted(w', log')
  {
    hide Describes, Flat, SeqOf, Max;
    MaxGrows(w.n.e.ack, upTo, w.n.st.overflow);
    GoneAfterFree(w.known, Flat(log), Flat(log'), upTo, Max(w.n.e.ack, w.n.st.overflow), Max(upTo, w.n.st.overflow));
  }

  lemma {:induction false} MaxGrows(a: nat, b: nat, c: nat)
    requires a <= b
    ensures b <= Max(b, c) && Max(a, c) <= Max(b, c)
  {
  }

  lemma {:induction false} GoneAfterFree(k: seq<Block>, a: seq<Block>, a': seq<Block>, upTo: nat, m: nat, m': nat)
    requires IsSuffix(a, k) && IsSuffix(a', a) && m <= m' && upTo <= m'
    requires forall i :: 0 <= i < |k| - |a| ==> SeqOf(k[i]) <= m
    requires forall n :: 0 <= n < |a| - |a'| ==> SeqOf(a[n]) <= upTo
    ensures IsSuffix(a', k) && forall i :: 0 <= i < |k| - |a'| ==> SeqOf(k[i]) <= m'
  {
    hide SeqOf;
    assert a' == k[|k| - |a'|..];
    forall i | 0 <= i < |k| - |a'|
      ensures SeqOf(k[i]) <= m'
    {
      if i >= |k| - |a| {
        assert k[i] == a[i - (|k| - |a|)];
      }
    }
  }

  /** Challenges answered, sessions opened: what one message does to the handshake. */
  lemma {:induction false} HandshakeKept(w: World, e: Event)
    requires Handshaken(w) && Enabled(w, e) && !e.Append? && !e.Restart?
    ensures Handshaken(Observe(w, e))
  {
    hide Carried, Read, IsBootFrom, DeleteUpTo, EffectiveTail, ParseTlv, DecodeChallenge, DecodeAck, Rising,
        Store.Total, Requested, AsksAgain, NewResponses, SendNext, CheckOverflow, Node.Notice;
    assert w.answered + [] == w.answered && w.here + [] == w.here;
    NewAreAnswers(w.n, e);
    match e
    case Message(msg, tagOk, save, io) => MessageHandshake(w, e);
    case SendBlock(luck) => SendHandshake(w.n, luck);
    case Connect(generation) =>
    case Disconnect =>
    case Subscribe(on) => NoticeHandshake(w.n.(e := w.n.e.(subscribed := on)));
    case Flushed =>
      OverflowHandshake(w.n, CheckOverflow(w.n));
      NoticeHandshake(CheckOverflow(w.n));
    case Ticked(due) =>
      OverflowHandshake(w.n, CheckOverflow(w.n));
      NoticeHandshake(CheckOverflow(w.n));
  }

  // ---- answers among the messages sent ----

  lemma {:induction false} ResponsesMore(tx: seq<Msg>, m: Msg)
    ensures Responses(tx + [m]) == Responses(tx) + (if m.ResponseMsg? then [m.cs] else [])
    ensures !m.ResponseMsg? ==> Responses(tx + [m]) == Responses(tx)
  {
    assert (tx + [m])[..|tx|] == tx;
    assert Responses(tx) + [] == Responses(tx);
  }

  lemma {:induction false} NewAre(tx: seq<Msg>, tx': seq<Msg>, cs: seq<nat>)
    requires Responses(tx') == Responses(tx) + cs
    ensures NewResponses(tx, tx') == cs
  {
    hide Responses;
  }

  /** Nothing is answered but an accepted challenge, with its own c_S and once. */
  lemma {:induction false} NewAreAnswers(n: Node, e: Event)
    requires !e.Append? && !e.Restart?
    ensures NewResponses(n.tx, Call(n, e).tx) == Answers(n, e)
  {
    hide Responses, NewResponses, SendNext, CheckOverflow, Node.Notice, HandleChallenge, HandleAck, HandleBatchRequest,
        HandleAppError, ParseTlv, DecodeChallenge;
    assert Responses(n.tx) + [] == Responses(n.tx);
    match e
    case Connect(generation) => NewAre(n.tx, n.tx, []);
    case Disconnect => NewAre(n.tx, n.tx, []);
    case Subscribe(on) =>
      NoticeHandshake(n.(e := n.e.(subscribed := on)));
      NewAre(n.tx, Call(n, e).tx, []);
    case Flushed =>
      OverflowHandshake(n, CheckOverflow(n));
      NoticeHandshake(CheckOverflow(n));
      NewAre(n.tx, Call(n, e).tx, []);
    case Ticked(due) =>
      OverflowHandshake(n, CheckOverflow(n));
      NoticeHandshake(CheckOverflow(n));
      NewAre(n.tx, Call(n, e).tx, []);
    case Message(msg, tagOk, save, io) =>
      var m := ParseTlv(msg);
      if m.Some? {
        ChallengeResponses(n, m.value.value, tagOk, save, io);
        AckResponses(n, m.value.value, tagOk);
        OtherHandshake(n, m.value.value);
      }
      NewAre(n.tx, Call(n, e).tx, Answers(n, e));
    case SendBlock(luck) =>
      SendHandshake(n, luck);
      NewAre(n.tx, Call(n, e).tx, []);
  }

  /**
   * A challenge is answered exactly when it is accepted; the answer tells HEAD and tail as the challenge
   * leaves them.
   */
  lemma {:induction false} ChallengeResponses(n: Node, v: bytes, tagOk: bool, save: W.Save, io: set<nat>)
    ensures var n', c := HandleChallenge(n, v, tagOk, save, io), DecodeChallenge(v);
      if Accepts(n, c, tagOk, save)
      then n'.tx == n.tx + [ResponseMsg(c.value.cs, c.value.nonce, n'.Head(), EffectiveTail(n'.st, io))]
        && Responses(n'.tx) == Responses(n.tx) + [c.value.cs]
      else Responses(n'.tx) == Responses(n.tx)
  {
    hide DecodeChallenge, EffectiveTail, DeleteUpTo, Responses;
    ResponsesMore(n.tx, ErrorMsg(INVALID_TAG));
    ResponsesMore(n.tx, ErrorMsg(STALE_CHALLENGE));
    var n', c := HandleChallenge(n, v, tagOk, save, io), DecodeChallenge(v);
    if Accepts(n, c, tagOk, save) {
      ResponsesMore(n.tx, ResponseMsg(c.value.cs, c.value.nonce, n'.Head(), EffectiveTail(n'.st, io)));
    }
  }

  lemma {:induction false} AckResponses(n: Node, v: bytes, tagOk: bool)
    ensures Responses(HandleAck(n, v, tagOk).tx) == Responses(n.tx)
  {
    hide DecodeAck, DeleteUpTo, Responses, Node.Notice;
    ResponsesMore(n.tx, ErrorMsg(INVALID_TAG));
    ResponsesMore(n.tx, ErrorMsg(INVALID_ACK_SEQ));
    var a := DecodeAck(v);
    if a.Some? && tagOk && n.e.ack <= a.value.ackSeq <= n.Head() {
      var n1 := if a.value.ackSeq > n.e.ack then AdvanceAck(n, a.value.ackSeq) else n;
      NoticeHandshake(n1.(e := n1.e.(noHsConn := false, noHsBoot := n1.e.noHsBoot && a.value.anchorFailed,
                                     sessionOpen := true)));
    }
  }

  /** Sending leaves the handshake alone, except that it may close the session. */
  ghost predicate NotOpened(n: Node, n': Node) {
    && n'.nvsCs == n.nvsCs && n'.e.lastCs == n.e.lastCs
    && n'.e.hasResponded == n.e.hasResponded && n'.e.respondedCs == n.e.respondedCs
    && (n'.e.sessionOpen ==> n.e.sessionOpen)
    && Responses(n'.tx) == Responses(n.tx)
  }

  lemma {:induction false} NoticeHandshake(n: Node)
    ensures NotOpened(n, n.Notice()) && n.Notice().e == n.e && n.Notice().nvsCs == n.nvsCs
  {
    hide Responses;
    ResponsesMore(n.tx, NoticeMsg(n.Head(), n.e.noHsConn, n.e.noHsBoot));
  }

  lemma {:induction false} LossHandshake(n: Node, s: nat, to: nat, luck: Luck)
    ensures NotOpened(n, SendLoss(n, s, to, luck))
  {
    hide Responses;
    if luck.sign.Some? {
      ResponsesMore(n.tx, LossMsg(s, to, luck.sign.value));
    }
  }

  lemma {:induction false} SkipHandshake(n: Node, s: nat, luck: Luck)
    ensures NotOpened(n, SkipMissing(n, s, luck).0)
  {
    hide Read, IsBootFrom, NextStored, SendLoss, NotOpened, Responses;
    var t := NextStored(n.st.segs, s);
    LossHandshake(n, s, if t > s + MAX_LOSS_RUN then s + MAX_LOSS_RUN - 1 else if t > 0 then t - 1 else 0, luck);
    JumpHandshake(n, t, Max(n.e.batchEnd, t));
  }

  lemma {:induction false} JumpHandshake(n: Node, t: nat, end: nat)
    ensures NotOpened(n, EndBatch(n)) && NotOpened(n, n.(e := n.e.(cursor := t, batchEnd := end)))
  {
    hide Responses;
  }

  lemma {:induction false} StoredHandshake(n: Node, b: Block, s: nat, luck: Luck)
    ensures NotOpened(n, SendStored(n, b, s, luck)) && NotOpened(n, EndBatch(n)) && NotOpened(n, n)
  {
    hide Responses;
    ResponsesMore(n.tx, BlockMsg(b));
  }

  lemma {:induction false} OverflowHandshake(n: Node, n': Node)
    requires n' == CheckOverflow(n) || NotOpened(CheckOverflow(n), n')
    ensures NotOpened(n, n') && NotOpened(n, CheckOverflow(n))
  {
    hide Responses, Node.Notice;
    NoticeHandshake(n.(e := n.e.(overflowSeen := n.st.overflow, batchActive := false, noHsConn := true,
                                 sessionOpen := false)));
  }

  lemma {:induction false} SendHandshake(n: Node, luck: Luck)
    ensures NotOpened(n, SendNext(n, luck).0)
  {
    hide CheckOverflow, Read, CrcMatches, SendLoss, SendStored, SkipMissing, LossEnd, NotOpened, EndBatch, Responses;
    var n1 := CheckOverflow(n);
    var s := n1.e.cursor;
    var r := Read(n1.st, s, luck.io);
    StoredHandshake(n, Block([], [], 0), s, luck);
    StoredHandshake(n1, if r.Found? then r.block else Block([], [], 0), s, luck);
    LossHandshake(n1, s, LossEnd(n1.st, s, s, luck.io), luck);
    SkipHandshake(n1, s, luck);
    OverflowHandshake(n, n1);
    if n.e.batchActive && n.e.connected && n.e.subscribed && n.e.sessionOpen && n.e.cursor <= n.e.batchEnd {
      OverflowHandshake(n, SendNext(n, luck).0);
    }
  }

  lemma {:induction false} RisingMore(s: seq<nat>, c: nat)
    requires Rising(s) && forall i :: 0 <= i < |s| ==> s[i] < c
    ensures Rising(s + [c])
  {
  }

  /** A challenge is answered after its c_S is persisted, and opens nothing. */
  lemma {:induction false} ChallengeHandshake(n: Node, v: bytes, tagOk: bool, save: W.Save, io: set<nat>)
    requires n.e.lastCs <= n.nvsCs && (save.answers ==> save.persists)
    ensures var n', c := HandleChallenge(n, v, tagOk, save, io), DecodeChallenge(v);
      && n'.e.sessionOpen == n.e.sessionOpen && n'.e.lastCs <= n'.nvsCs
      && (if Accepts(n, c, tagOk, save)
          then n'.e.lastCs == n'.e.respondedCs == c.value.cs && n'.e.hasResponded
          else n'.e == n.e)
  {
    hide DecodeChallenge, EffectiveTail, AdvanceAck;
    var c := DecodeChallenge(v);
    if c.Some? {
      AdvanceHandshake(n.(nvsCs := c.value.cs, e := n.e.(lastCs := c.value.cs)), c.value.ackSeq);
    }
  }

  lemma {:induction false} AdvanceHandshake(n: Node, ack: nat)
    ensures var n' := AdvanceAck(n, ack);
      n'.nvsCs == n.nvsCs && n'.e.lastCs == n.e.lastCs && n'.e.sessionOpen == n.e.sessionOpen
  {
    hide DeleteUpTo;
  }

  /** An ACK for a block the log has that repeats the last c_S answered. */
  predicate Repeats(n: Node, a: Ack) {
    n.e.ack <= a.ackSeq <= n.Head() && n.e.hasResponded && a.cConf == n.e.respondedCs
  }

  lemma {:induction false} AckHandshake(n: Node, v: bytes, tagOk: bool)
    ensures var n', a := HandleAck(n, v, tagOk), DecodeAck(v);
      && n'.nvsCs == n.nvsCs && n'.e.lastCs == n.e.lastCs
      && n'.e.hasResponded == n.e.hasResponded && n'.e.respondedCs == n.e.respondedCs
      && (n'.e.sessionOpen <==> (n.e.sessionOpen || (a.Some? && tagOk && Repeats(n, a.value))))
  {
    hide DecodeAck, DeleteUpTo;
  }

  /** The other messages leave the handshake alone. */
  lemma {:induction false} OtherHandshake(n: Node, v: bytes)
    ensures Untouched(n, HandleBatchRequest(n, v)) && Untouched(n, HandleAppError(n, v))
  {
    hide DecodeBatchRequest, Responses, Node.Notice;
    ResponsesMore(n.tx, ErrorMsg(NO_SESSION));
    NoticeHandshake(n.(e := n.e.(batchActive := false, cursor := n.e.ack + 1)));
  }

  ghost predicate Untouched(n: Node, n': Node) {
    && n'.nvsCs == n.nvsCs && n'.e.lastCs == n.e.lastCs && n'.e.sessionOpen == n.e.sessionOpen
    && n'.e.hasResponded == n.e.hasResponded && n'.e.respondedCs == n.e.respondedCs
    && Responses(n'.tx) == Responses(n.tx)
  }

  lemma {:induction false} MessageHandshake(w: World, e: Event)
    requires Handshaken(w) && Enabled(w, e) && e.Message?
    ensures Handshaken(Observe(w, e))
    ensures Observe(w, e).n.e.sessionOpen <==> w.n.e.sessionOpen || Confirms(w, e).Some?
  {
    hide Carried, ParseTlv, DecodeChallenge, DecodeAck, Rising, Store.Total, Requested, AsksAgain, HandleChallenge,
        HandleAck, HandleBatchRequest, HandleAppError, NewResponses, Responses;
    NewAreAnswers(w.n, e);
    assert w.answered + [] == w.answered && w.here + [] == w.here;
    var m := ParseTlv(e.msg);
    if m.Some? {
      var v := m.value.value;
      ChallengeHandshake(w.n, v, e.tagOk, e.save, e.io);
      AckHandshake(w.n, v, e.tagOk);
      OtherHandshake(w.n, v);
      if Answers(w.n, e) != [] {
        RisingMore(w.answered, DecodeChallenge(v).value.cs);
      }
    }
  }

  lemma {:induction false} CallKeeps(w: World, log: seq<LogSeg>, e: Event)
    returns (log': seq<LogSeg>, form: Form, io: set<nat>)
    requires Inv(w, log) && Enabled(w, e) && !e.Append? && !e.Restart?
    ensures Inv(Observe(w, e), log')
    ensures Took(w.n, Call(w.n, e), io, form) && (form.Rewind? <==> Rewinds(e))
    ensures form.SentBlock? || form.SentLoss? || form.Jumped? ==> e.SendBlock? && io == e.luck.io
    ensures w.n.e.ack <= Observe(w, e).n.e.ack
  {
    hide Sound, InBounds, WithinCredit, Accounted, Handshaken, Took, Call, Enabled, Rewinds, InOrder, Tail, Carried,
        NextSince,
      NewResponses, Confirms, Requested, Store.Total;
    SoundDescribes(w.n.st, log);
    form, io := CallIs(w.n, log, e);
    var n' := Call(w.n, e);
    var w' := Observe(w, e);
    log' := StoreKept(w.n, log, n', io, form);
    SoundDescribes(n'.st, log');
    BoundsKept(w.n, log, n', io, form);
    BeganSome(w.n, n', io, form);
    CountersFollow(w, e, n', io, form);
    CreditKept(w.n, n', io, form, w.credit, w.spent);
    TailIs(w.n, n', io, form, w.base);
    OrderKept(w.n, n', io, form, Tail(w.n.tx, w.base));
    AccountedKept(w, log, w', log', io, form);
    HandshakeKept(w, e);
  }

  lemma {:induction false} BeganSome(n: Node, n': Node, io: set<nat>, form: Form)
    requires Took(n, n', io, form)
    ensures form.Began? ==> form.k >= 1
  {
    hide Read, Stored, IsBootFrom, Intact, Carried, DeleteUpTo;
  }

  // ---- appends and restarts ----

  lemma {:induction false} DeclaringMore(st: Store, log: seq<LogSeg>, b: Block)
    requires Sound(st, log) && DeclaresNew(st, b)
    ensures Declaring(Flat(log) + [b]) && Declaring(Flat(log) + [])
  {
    NewestIsLast(st, log);
    hide Flat, SeqOf, ParseMarker, Consistent;
    var r := Flat(log);
    assert r + [] == r;
    forall i | 0 <= i < |r + [b]|
      ensures DeclaresAt(r + [b], i)
    {
      if i < |r| {
        assert DeclaresAt(r, i);
      }
    }
  }

  /** After the two attempts of an append: the log is sound, and HEAD did not fall. */
  lemma {:induction false} AppendSound(st: Store, log: seq<LogSeg>, b: Block, ok: bool, s: Store, log': seq<LogSeg>)
    requires Sound(st, log) && Appendable(st, b) && DeclaresNew(st, b) && Moved(st, log, b, ok, s, log')
    ensures Sound(s, log') && st.NewestSeq() <= s.NewestSeq()
    ensures IsSuffix(Flat(log'), Flat(log) + Added(b, ok))
  {
    DeclaringMore(st, log, b);
    NewestIsLast(st, log);
    NewestIsLast(s, log');
    hide Flat, SeqOf, Consistent, Declaring, DeclaresNew, BlockSeq, Sized;
    SlidIsSuffix(st, Flat(log) + Added(b, ok), s, Flat(log'));
    DeclaringSuffix(Flat(log'), Flat(log) + Added(b, ok));
    AddedLast(Flat(log), b, ok);
    assert SeqOf(b) > st.NewestSeq() by {
      SeqIsBlockSeq(b);
    }
  }

  lemma {:induction false} SeqIsBlockSeq(b: Block)
    ensures SeqOf(b) == BlockSeq(b.data)
  {
  }

  lemma {:induction false} AddedLast(r: seq<Block>, b: Block, ok: bool)
    ensures LastSeq(r + Added(b, ok)) == if ok then SeqOf(b) else LastSeq(r)
  {
    hide SeqOf;
  }

  lemma {:induction false} AppendAccounted(w: World, log: seq<LogSeg>, b: Block, ok: bool, s: Store, log': seq<LogSeg>)
    requires Sound(w.n.st, log) && Accounted(w, log) && Appendable(w.n.st, b)
    requires Moved(w.n.st, log, b, ok, s, log')
    ensures Accounted(w.(n := w.n.(st := s), known := w.known + Added(b, ok)), log')
  {
    hide Flat, SeqOf, Consistent, Declaring, BlockSeq, Sized, Slid, Increasing, Max;
    SoundDescribes(w.n.st, log);
    NewestLast(w.n.st, log, b);
    var r, r', k' := Flat(log) + Added(b, ok), Flat(log'), w.known + Added(b, ok);
    assert Increasing(r) by {
      if ok {
        assert Added(b, ok) == [b];
      } else {
        assert Added(b, ok) == [];
      }
    }
    SlidIsSuffix(w.n.st, r, s, r');
    SlidCounts(w.n.st, r, s, r');
    SuffixLonger(Flat(log), w.known, Added(b, ok), r');
    forall i | 0 <= i < |k'| - |r'|
      ensures SeqOf(k'[i]) <= Max(w.n.e.ack, s.overflow)
    {
      GoneBelow(w, log, b, ok, s, r', i);
    }
  }

  lemma {:induction false} SuffixLonger(a: seq<Block>, k: seq<Block>, tail: seq<Block>, a': seq<Block>)
    requires IsSuffix(a, k) && IsSuffix(a', a + tail)
    ensures IsSuffix(a', k + tail) && IsSuffix(a + tail, k + tail)
  {
    assert a + tail == (k + tail)[|k| - |a|..];
  }

  lemma {:induction false} SlidCounts(st: Store, r: seq<Block>, s: Store, r': seq<Block>)
    requires Slid(st, r, s, r')
    ensures s.lost - st.lost == |r| - |r'| && st.overflow <= s.overflow
  {
    hide SeqOf;
  }

  /** A record no longer held was gone before, or has just been discarded. */
  lemma {:induction false} GoneBelow(w: World, log: seq<LogSeg>, b: Block, ok: bool, s: Store, r': seq<Block>, i: nat)
    requires Accounted(w, log) && Increasing(Flat(log) + Added(b, ok)) && Slid(w.n.st, Flat(log) + Added(b, ok), s, r')
    requires i < |w.known + Added(b, ok)| - |r'|
    ensures SeqOf((w.known + Added(b, ok))[i]) <= Max(w.n.e.ack, s.overflow)
  {
    hide Flat, SeqOf, Slid, Increasing;
    var r, k' := Flat(log) + Added(b, ok), w.known + Added(b, ok);
    SlidCounts(w.n.st, r, s, r');
    var d := |w.known| - |Flat(log)|;
    if i < d {
      assert k'[i] == w.known[i];
    } else {
      SuffixLonger(Flat(log), w.known, Added(b, ok), r);
      assert k'[i] == r[i - d];
      SlidBelow(w.n.st, r, s, r', i - d);
    }
  }

  lemma {:induction false} SlidBelow(st: Store, r: seq<Block>, s: Store, r': seq<Block>, i: nat)
    requires Slid(st, r, s, r') && Increasing(r) && i < |r| - |r'|
    ensures SeqOf(r[i]) <= s.overflow
  {
    hide SeqOf;
    var m := s.lost - st.lost;
    assert i < m - 1 ==> SeqOf(r[i]) < SeqOf(r[m - 1]);
  }

  lemma {:induction false} FlushMoves(st: Store, log: seq<LogSeg>, free: Flash -> nat, b: Block, newSeg: bool,
      w1: Outcome, w2: Outcome)
    returns (log': seq<LogSeg>)
    requires Consistent(st, log) && Appendable(st, b)
    ensures var (s, ok) := Flush(st, free, b, newSeg, w1, w2); Moved(st, log, b, ok, s, log')
  {
    hide Moved, TwiceLog, W.AppendTwice;
    var st0 := if newSeg then W.Retry(st) else st;
    FreshReady(st, log, b);
    TwiceMoves(st0, log, b, free, w1, w2);
    log' := TwiceLog(st0, log, b, free, w1, w2);
    var (s, ok) := Flush(st, free, b, newSeg, w1, w2);
    if newSeg {
      FreshMoved(st, log, b, ok, s, log');
    }
  }

  lemma {:induction false} FreshReady(st: Store, log: seq<LogSeg>, b: Block)
    requires Consistent(st, log) && Appendable(st, b)
    ensures Consistent(W.Retry(st), log) && Appendable(W.Retry(st), b)
  {
  }

  lemma {:induction false} FreshMoved(st: Store, log: seq<LogSeg>, b: Block, ok: bool, s: Store, log': seq<LogSeg>)
    requires Moved(W.Retry(st), log, b, ok, s, log')
    ensures Moved(st, log, b, ok, s, log')
  {
    hide Consistent, Flat, SeqOf, Max;
  }

  lemma {:induction false} AppendKept(w: World, log: seq<LogSeg>, free: Flash -> nat, e: Event)
    returns (log': seq<LogSeg>)
    requires Inv(w, log) && Enabled(w, e) && e.Append?
    ensures Inv(Step(w, free, e), log')
    ensures Moved(w.n.st, log, e.b, Flush(w.n.st, free, e.b, e.newSeg, e.w1, e.w2).1, Step(w, free, e).n.st, log')
  {
    hide Consistent, Declaring, Accounted, Moved, Flush, InBounds, Ordered, WithinCredit, Handshaken, DeclaresNew,
        Appendable;
    var b := e.b;
    log' := FlushMoves(w.n.st, log, free, b, e.newSeg, e.w1, e.w2);
    var (s, ok) := Flush(w.n.st, free, b, e.newSeg, e.w1, e.w2);
    AppendSound(w.n.st, log, b, ok, s, log');
    AppendAccounted(w, log, b, ok, s, log');
    OnlyStore(w, s, Added(b, ok));
    hide Sound, InBounds, Ordered, WithinCredit, Handshaken;
  }

  /** What does not look at the log, apart from HEAD, is kept by an append. */
  lemma {:induction false} OnlyStore(w: World, s: Store, more: seq<Block>)
    requires w.n.st.NewestSeq() <= s.NewestSeq()
    ensures var w' := w.(n := w.n.(st := s), known := w.known + more);
      && (InBounds(w.n) ==> InBounds(w'.n))
      && (Ordered(w) ==> Ordered(w'))
      && (WithinCredit(w.n, w.credit, w.spent) ==> WithinCredit(w'.n, w'.credit, w'.spent))
      && (Handshaken(w) ==> Handshaken(w'))
  {
    hide InOrder, Tail, Carried, Rising;
  }

  lemma {:induction false} FirstInv(st: Store, log: seq<LogSeg>, nvsCs: nat, io: set<nat>, answered: seq<nat>)
    requires Sound(st, log) && Rising(answered) && forall i :: 0 <= i < |answered| ==> answered[i] <= nvsCs
    ensures Inv(FirstWorld(st, log, nvsCs, io).(answered := answered), log)
    ensures NoGap(FirstWorld(st, log, nvsCs, io).(answered := answered))
  {
    StartInBounds(st, log, nvsCs, io);
    hide Sound, Flat, SeqOf, EffectiveTail;
    assert Flat(log)[0..] == Flat(log);
  }

  lemma {:induction false} StepKeeps(w: World, log: seq<LogSeg>, free: Flash -> nat, e: Event)
    returns (log': seq<LogSeg>)
    requires Inv(w, log) && Enabled(w, e)
    ensures Inv(Step(w, free, e), log')
  {
    if e.Append? {
      hide Inv;
      log' := AppendKept(w, log, free, e);
    } else if e.Restart? {
      hide Sound, Accounted, InBounds, Ordered, WithinCredit, Rising, FirstWorld;
      FirstInv(e.st, e.log, w.n.nvsCs, e.io, w.answered);
      log' := e.log;
    } else {
      hide Inv, Observe;
      var form, io;
      log', form, io := CallKeeps(w, log, e);
    }
  }

  // ---- runs ----

  ghost function RunAll(w: World, free: Flash -> nat, es: seq<Event>): World
    decreases |es|
  {
    if es == [] then w else RunAll(Step(w, free, es[0]), free, es[1..])
  }

  ghost predicate AllEnabled(w: World, free: Flash -> nat, es: seq<Event>)
    decreases |es|
  {
    es != [] ==> Enabled(w, es[0]) && AllEnabled(Step(w, free, es[0]), free, es[1..])
  }

  lemma {:induction false} RunKeeps(w: World, log: seq<LogSeg>, free: Flash -> nat, es: seq<Event>)
    returns (log': seq<LogSeg>)
    requires Inv(w, log) && AllEnabled(w, free, es)
    ensures Inv(RunAll(w, free, es), log')
    decreases |es|
  {
    hide Inv, Enabled, Step;
    log' := log;
    if es != [] {
      var log1 := StepKeeps(w, log, free, es[0]);
      log' := RunKeeps(Step(w, free, es[0]), log1, free, es[1..]);
    }
  }

  /** A run from the boot of a device that has answered nothing yet. */
  lemma {:induction false} Reached(st: Store, log: seq<LogSeg>, io: set<nat>, free: Flash -> nat, es: seq<Event>)
    returns (log': seq<LogSeg>)
    requires Sound(st, log) && AllEnabled(FirstWorld(st, log, 0, io), free, es)
    ensures Inv(RunAll(FirstWorld(st, log, 0, io), free, es), log')
  {
    hide Inv, AllEnabled, RunAll, Sound, FirstWorld;
    var w := FirstWorld(st, log, 0, io);
    FirstInv(st, log, 0, io, []);
    SameAnswered(st, log, io);
    log' := RunKeeps(w, log, free, es);
  }

  lemma {:induction false} SameAnswered(st: Store, log: seq<LogSeg>, io: set<nat>)
    ensures FirstWorld(st, log, 0, io).(answered := []) == FirstWorld(st, log, 0, io)
  {
    hide EffectiveTail, Flat;
  }
}
