/**
 * What the app is told besides blocks: which calls send a notice or an error, and what the flags of a
 * notice mean. Beside it, what each call does to the link, the session and the batch.
 */
module SyncNotices {
  import opened Bytes
  import opened BlockFormat
  import opened SegmentFormat
  import opened StoreSpec
  import opened LogSpec
  import opened SyncProtocol
  import opened SyncSpec
  import opened SyncForms
  import opened SyncSafety
  import opened SyncRun
  import W = BlockWriter

  /** The notices among the messages sent. */
  function Notices(tx: seq<Msg>): seq<Msg> {
    if tx == [] then []
    else
      var i := |tx| - 1;
      Notices(tx[..i]) + (if tx[i].NoticeMsg? then [tx[i]] else [])
  }

  /** The errors among them. */
  function Errors(tx: seq<Msg>): seq<Msg> {
    if tx == [] then []
    else
      var i := |tx| - 1;
      Errors(tx[..i]) + (if tx[i].ErrorMsg? then [tx[i]] else [])
  }

  lemma {:induction false} SentMore(tx: seq<Msg>, m: Msg)
    ensures Notices(tx + [m]) == if m.NoticeMsg? then Notices(tx) + [m] else Notices(tx)
    ensures Errors(tx + [m]) == if m.ErrorMsg? then Errors(tx) + [m] else Errors(tx)
  {
    assert (tx + [m])[..|tx|] == tx;
    assert Notices(tx) + [] == Notices(tx) && Errors(tx) + [] == Errors(tx);
  }

  // ---- which calls send a notice ----

  predicate Hears(n: Node) { n.e.connected && n.e.subscribed }

  /** Blocks the server has not confirmed were discarded, and the engine has not noticed yet. */
  predicate Untold(n: Node) { n.st.overflow > n.e.overflowSeen && n.st.overflow > n.e.ack }

  /** The calls that look for such a discard; `sendNextBlock` does so before it sends. */
  predicate Looks(n: Node, e: Event) {
    || e.Flushed? || e.Ticked?
    || (e.SendBlock? && n.e.batchActive && Hears(n) && n.e.sessionOpen && n.e.cursor <= n.e.batchEnd)
  }

  /** An ACK with a good tag, for a block of the log, that repeats the last answer of this connection. */
  predicate Opens(n: Node, e: Event) { OpeningAck(n, e).Some? }

  function OpeningAck(n: Node, e: Event): Option<Ack> {
    if !e.Message? then None
    else
      var m := ParseTlv(e.msg);
      if m.None? || m.value.kind != 0x04 then None
      else
        var a := DecodeAck(m.value.value);
        if a.Some? && e.tagOk && Repeats(n, a.value) then a else None
  }

  /** The calls that send a notice of their own. */
  predicate Announces(n: Node, e: Event) {
    match e
    case Flushed => Hears(n)
    case Subscribe(on) => on && n.e.connected
    case Ticked(due) => due && Hears(n) && n.e.noHsConn && !Untold(n)
    case Message(msg, _, _, _) => Hears(n) && (Opens(n, e) || Resends(msg))
    case _ => false
  }

  /** The app could not use what it got: an error of one byte, 4 or 7. */
  predicate Resends(msg: bytes) {
    var m := ParseTlv(msg);
    m.Some? && m.value.kind == 0x06 && |m.value.value| == 1 && (m.value.value[0] == 0x04 || m.value.value[0] == 0x07)
  }

  lemma {:induction false} NoticeSent(n: Node)
    ensures var n' := n.Notice();
      && Notices(n'.tx) == (if Hears(n) then Notices(n.tx) + [NoticeMsg(n.Head(), n.e.noHsConn, n.e.noHsBoot)]
        else Notices(n.tx))
      && Errors(n'.tx) == Errors(n.tx) && n'.e == n.e && n'.st == n.st
      && (|n'.tx| == |n.tx| <==> !Hears(n))
  {
    hide Notices, Errors;
    SentMore(n.tx, NoticeMsg(n.Head(), n.e.noHsConn, n.e.noHsBoot));
  }

  lemma {:induction false} OverflowSent(n: Node)
    ensures var n' := CheckOverflow(n);
      && n'.e.noHsConn == (n.e.noHsConn || Untold(n)) && n'.e.noHsBoot == n.e.noHsBoot && n'.st == n.st
      && n'.e.connected == n.e.connected && n'.e.subscribed == n.e.subscribed
      && Notices(n'.tx) == (if Untold(n) && Hears(n) then Notices(n.tx) + [NoticeMsg(n.Head(), true, n.e.noHsBoot)]
        else Notices(n.tx))
      && Errors(n'.tx) == Errors(n.tx)
      && (|n'.tx| == |n.tx| <==> !(Untold(n) && Hears(n)))
  {
    hide Notices, Errors, Node.Notice;
    NoticeSent(n.(e := n.e.(overflowSeen := n.st.overflow, batchActive := false, noHsConn := true,
        sessionOpen := false)));
  }

  /** What a call leaves of the flags, and which notices and errors it sends. */
  ghost predicate Told(n: Node, e: Event, n': Node) {
    var note := NoticeMsg(n'.Head(), n'.e.noHsConn, n'.e.noHsBoot);
    && Notices(n'.tx) == Notices(n.tx) + (if Looks(n, e) && Untold(n) && Hears(n) then [note] else [])
                         + (if Announces(n, e) then [note] else [])
    && n'.e.noHsConn == (if e.Connect? then true else if Opens(n, e) then false
                         else n.e.noHsConn || (Looks(n, e) && Untold(n)))
    && n'.e.noHsBoot == (n.e.noHsBoot && !(Opens(n, e) && !OpeningAck(n, e).value.anchorFailed))
  }

  lemma {:induction false} FlushTold(n: Node)
    ensures Told(n, Flushed, OnFlushed(n)) && Errors(OnFlushed(n).tx) == Errors(n.tx)
  {
    hide Notices, Errors, CheckOverflow, Node.Notice;
    OverflowSent(n);
    NoticeSent(CheckOverflow(n));
    assert Notices(n.tx) + [] == Notices(n.tx);
  }

  lemma {:induction false} TickTold(n: Node, due: bool)
    ensures Told(n, Ticked(due), Tick(n, due)) && Errors(Tick(n, due).tx) == Errors(n.tx)
  {
    hide Notices, Errors, CheckOverflow, Node.Notice;
    OverflowSent(n);
    NoticeSent(CheckOverflow(n));
    assert Notices(n.tx) + [] == Notices(n.tx);
  }

  lemma {:induction false} SubscribeTold(n: Node, on: bool)
    ensures Told(n, Subscribe(on), OnSubscribed(n, on)) && Errors(OnSubscribed(n, on).tx) == Errors(n.tx)
  {
    hide Notices, Errors, Node.Notice;
    NoticeSent(n.(e := n.e.(subscribed := on)));
    assert Notices(n.tx) + [] == Notices(n.tx);
  }

  // ---- sending ----

  /** Blocks and LOSS markers are no notices, and sending them leaves the flags alone. */
  ghost predicate SameTold(n: Node, n': Node) {
    && Notices(n'.tx) == Notices(n.tx) && Errors(n'.tx) == Errors(n.tx)
    && n'.e.noHsConn == n.e.noHsConn && n'.e.noHsBoot == n.e.noHsBoot && n'.st == n.st
  }

  lemma {:induction false} LossTold(n: Node, s: nat, to: nat, luck: Luck)
    ensures SameTold(n, SendLoss(n, s, to, luck))
  {
    hide Notices, Errors;
    if luck.sign.Some? {
      SentMore(n.tx, LossMsg(s, to, luck.sign.value));
    }
  }

  lemma {:induction false} BlockTold(n: Node, b: Block, s: nat, luck: Luck)
    ensures SameTold(n, SendStored(n, b, s, luck)) && SameTold(n, EndBatch(n)) && SameTold(n, n)
  {
    hide Notices, Errors;
    SentMore(n.tx, BlockMsg(b));
  }

  lemma {:induction false} SkipTold(n: Node, s: nat, luck: Luck)
    ensures SameTold(n, SkipMissing(n, s, luck).0)
  {
    hide Read, IsBootFrom, NextStored, SendLoss, Notices, Errors;
    var t := NextStored(n.st.segs, s);
    LossTold(n, s, if t > s + MAX_LOSS_RUN then s + MAX_LOSS_RUN - 1 else if t > 0 then t - 1 else 0, luck);
  }

  lemma {:induction false} SendTold(n: Node, luck: Luck)
    ensures Told(n, SendBlock(luck), SendNext(n, luck).0) && Errors(SendNext(n, luck).0.tx) == Errors(n.tx)
  {
    hide Notices, Errors, CheckOverflow, Read, CrcMatches, SendLoss, SendStored, SkipMissing, LossEnd;
    var n1 := CheckOverflow(n);
    var s := n1.e.cursor;
    var r := Read(n1.st, s, luck.io);
    OverflowSent(n);
    OverflowIsQuiet(n);
    BlockTold(n, Block([], [], 0), s, luck);
    BlockTold(n1, if r.Found? then r.block else Block([], [], 0), s, luck);
    LossTold(n1, s, LossEnd(n1.st, s, s, luck.io), luck);
    SkipTold(n1, s, luck);
    assert Notices(n.tx) + [] == Notices(n.tx);
  }

  // ---- messages ----

  /** The error a message is answered with: bad length or tag, an old c_S, an ACK outside the log, no session. */
  function Refusal(n: Node, e: Event): seq<Msg> {
    if !e.Message? || ParseTlv(e.msg).None? then []
    else
      var m := ParseTlv(e.msg).value;
      if m.kind == 0x01 then
        var c := DecodeChallenge(m.value);
        if c.None? || !e.tagOk then [ErrorMsg(0x01)] else if c.value.cs <= n.e.lastCs then [ErrorMsg(0x02)] else []
      else if m.kind == 0x04 then
        var a := DecodeAck(m.value);
        if a.None? || !e.tagOk then [ErrorMsg(0x01)]
        else if n.e.ack <= a.value.ackSeq <= n.Head() then [] else [ErrorMsg(0x03)]
      else if m.kind == 0x05 && |m.value| == 2 && !n.e.sessionOpen then [ErrorMsg(0x05)]
      else []
  }

  /** A challenge opens nothing and asks for nothing again. */
  lemma {:induction false} ChallengeIsQuiet(n: Node, e: Event, v: bytes)
    requires e.Message? && ParseTlv(e.msg) == Some(Tlv(CHALLENGE, v))
    ensures !Looks(n, e) && !Announces(n, e) && !Opens(n, e)
    ensures Refusal(n, e) == var c := DecodeChallenge(v);
      if c.None? || !e.tagOk then [ErrorMsg(INVALID_TAG)]
      else if c.value.cs <= n.e.lastCs then [ErrorMsg(STALE_CHALLENGE)] else []
  {
    hide ParseTlv, DecodeChallenge, DecodeAck;
  }

  lemma {:induction false} Unannounced(n: Node, e: Event, n': Node)
    requires e.Message? && !Looks(n, e) && !Announces(n, e) && !Opens(n, e)
    requires Notices(n'.tx) == Notices(n.tx) && n'.e.noHsConn == n.e.noHsConn && n'.e.noHsBoot == n.e.noHsBoot
    ensures Told(n, e, n')
  {
    hide Notices, Looks, Announces, Opens, OpeningAck;
    assert Notices(n.tx) + [] + [] == Notices(n.tx);
  }

  /** What an accepted challenge leaves, or one whose c_S is not kept. */
  lemma {:induction false} AcceptedTold(n: Node, log: seq<LogSeg>, v: bytes, save: W.Save, io: set<nat>)
    requires Describes(n.st, log) && DecodeChallenge(v).Some? && DecodeChallenge(v).value.cs > n.e.lastCs
    ensures var n' := HandleChallenge(n, v, true, save, io);
      && Notices(n'.tx) == Notices(n.tx) && Errors(n'.tx) == Errors(n.tx)
      && n'.e.noHsConn == n.e.noHsConn && n'.e.noHsBoot == n.e.noHsBoot
  {
    hide Notices, Errors, DecodeChallenge, Respond, AdvanceAck, Describes;
    var c := DecodeChallenge(v).value;
    var n2 := n.(nvsCs := if save.persists then c.cs else n.nvsCs, e := n.e.(lastCs := c.cs));
    AdvanceTold(n2, log, c.ackSeq);
    var n3 := if n.e.ack < c.ackSeq <= n.Head() then AdvanceAck(n2, c.ackSeq) else n2;
    ResponseTold(n3, c, io);
  }

  lemma {:induction false} ResponseTold(n: Node, c: Challenge, io: set<nat>)
    ensures var n' := Respond(n, c, io);
      && Notices(n'.tx) == Notices(n.tx) && Errors(n'.tx) == Errors(n.tx)
      && n'.e.noHsConn == n.e.noHsConn && n'.e.noHsBoot == n.e.noHsBoot
  {
    hide Notices, Errors, EffectiveTail;
    SentMore(n.tx, ResponseMsg(c.cs, c.nonce, n.Head(), EffectiveTail(n.st, io)));
  }

  lemma {:induction false} ChallengeTold(n: Node, log: seq<LogSeg>, e: Event, v: bytes)
    requires Describes(n.st, log) && e.Message? && ParseTlv(e.msg) == Some(Tlv(CHALLENGE, v))
    ensures var n' := HandleChallenge(n, v, e.tagOk, e.save, e.io);
      Told(n, e, n') && Errors(n'.tx) == Errors(n.tx) + Refusal(n, e)
  {
    hide Notices, Errors, DecodeChallenge, Describes, ParseTlv, Looks, Announces, Opens, OpeningAck, Refusal, Told;
    ChallengeIsQuiet(n, e, v);
    var c := DecodeChallenge(v);
    var n' := HandleChallenge(n, v, e.tagOk, e.save, e.io);
    assert Errors(n.tx) + [] == Errors(n.tx);
    if c.Some? && e.tagOk && c.value.cs > n.e.lastCs {
      hide HandleChallenge;
      AcceptedTold(n, log, v, e.save, e.io);
    } else {
      SentMore(n.tx, ErrorMsg(INVALID_TAG));
      SentMore(n.tx, ErrorMsg(STALE_CHALLENGE));
    }
    Unannounced(n, e, n');
  }

  lemma {:induction false} AdvanceTold(n: Node, log: seq<LogSeg>, ack: nat)
    requires Describes(n.st, log)
    ensures var n' := AdvanceAck(n, ack);
      && n'.tx == n.tx && n'.Head() == n.Head() && n'.e.noHsConn == n.e.noHsConn && n'.e.noHsBoot == n.e.noHsBoot
  {
    hide Describes, DeleteUpTo;
    HeadStays(n.st, log, ack);
  }

  lemma {:induction false} AckTold(n: Node, log: seq<LogSeg>, e: Event, v: bytes)
    requires Describes(n.st, log) && e.Message? && ParseTlv(e.msg) == Some(Tlv(ACK, v))
    ensures var n' := HandleAck(n, v, e.tagOk); Told(n, e, n') && Errors(n'.tx) == Errors(n.tx) + Refusal(n, e)
  {
    hide Notices, Errors, DecodeAck, DeleteUpTo, Describes, ParseTlv, Node.Notice;
    var a := DecodeAck(v);
    SentMore(n.tx, ErrorMsg(INVALID_TAG));
    SentMore(n.tx, ErrorMsg(INVALID_ACK_SEQ));
    assert Notices(n.tx) + [] == Notices(n.tx) && Errors(n.tx) + [] == Errors(n.tx);
    if a.Some? && e.tagOk && n.e.ack <= a.value.ackSeq <= n.Head() {
      HeadStays(n.st, log, a.value.ackSeq);
      var n1 := if a.value.ackSeq > n.e.ack then AdvanceAck(n, a.value.ackSeq) else n;
      NoticeSent(n1.(e := n1.e.(noHsConn := false, noHsBoot := n1.e.noHsBoot && a.value.anchorFailed,
                                sessionOpen := true)));
    }
  }

  lemma {:induction false} RequestTold(n: Node, e: Event, v: bytes)
    requires e.Message? && ParseTlv(e.msg) == Some(Tlv(BATCH_REQUEST, v))
    ensures var n' := HandleBatchRequest(n, v); Told(n, e, n') && Errors(n'.tx) == Errors(n.tx) + Refusal(n, e)
  {
    hide Notices, Errors, GetU16, ParseTlv;
    SentMore(n.tx, ErrorMsg(NO_SESSION));
    assert Notices(n.tx) + [] == Notices(n.tx) && Errors(n.tx) + [] == Errors(n.tx);
  }

  lemma {:induction false} AppErrorTold(n: Node, e: Event, v: bytes)
    requires e.Message? && ParseTlv(e.msg) == Some(Tlv(ERROR, v))
    ensures var n' := HandleAppError(n, v); Told(n, e, n') && Errors(n'.tx) == Errors(n.tx) + Refusal(n, e)
  {
    hide Notices, Errors, ParseTlv, Node.Notice;
    NoticeSent(n.(e := n.e.(batchActive := false, cursor := n.e.ack + 1)));
    assert Notices(n.tx) + [] == Notices(n.tx) && Errors(n.tx) + [] == Errors(n.tx);
  }

  lemma {:induction false} MessageTold(n: Node, log: seq<LogSeg>, e: Event)
    requires Describes(n.st, log) && e.Message?
    ensures Told(n, e, Call(n, e)) && Errors(Call(n, e).tx) == Errors(n.tx) + Refusal(n, e)
  {
    hide HandleChallenge, HandleAck, HandleBatchRequest, HandleAppError, ParseTlv, Told, Refusal, Describes, Errors;
    var m := ParseTlv(e.msg);
    if m.None? || (m.value.kind != CHALLENGE && m.value.kind != ACK && m.value.kind != BATCH_REQUEST
      && m.value.kind != ERROR) {
      OtherTold(n, e);
    } else {
      var v := m.value.value;
      assert m == Some(Tlv(m.value.kind, v));
      if m.value.kind == CHALLENGE {
        ChallengeTold(n, log, e, v);
      } else if m.value.kind == ACK {
        AckTold(n, log, e, v);
      } else if m.value.kind == BATCH_REQUEST {
        RequestTold(n, e, v);
      } else {
        AppErrorTold(n, e, v);
      }
    }
  }

  /** A message that is malformed or of another kind. */
  lemma {:induction false} OtherTold(n: Node, e: Event)
    requires e.Message? && var m := ParseTlv(e.msg);
      m.None? || (m.value.kind != CHALLENGE && m.value.kind != ACK && m.value.kind != BATCH_REQUEST
        && m.value.kind != ERROR)
    ensures Told(n, e, n) && Refusal(n, e) == [] && Errors(n.tx) + [] == Errors(n.tx)
  {
    hide ParseTlv, Notices, Errors;
    assert Notices(n.tx) + [] == Notices(n.tx);
  }

  // ---- the two results about one call ----

  /**
   * Exactly these calls send one notice, with HEAD and the flags as the call leaves them, to an app that
   * is connected and subscribed: a flush, a subscription, the ACK that opens a session, an error of the
   * app that rewinds, a due tick while there is no handshake, and beside these the call that finds a
   * discard above the ACK. No other call sends any. And the flags move exactly then.
   */
  lemma {:induction false} NoticesAre(n: Node, log: seq<LogSeg>, e: Event)
    requires Describes(n.st, log) && !e.Append? && !e.Restart?
    ensures Told(n, e, Call(n, e))
  {
    hide Told, Describes, OnMessage, SendNext, Tick, OnFlushed, OnSubscribed, Notices, Errors;
    match e
    case Connect(_) => LinkTold(n, e);
    case Disconnect => LinkTold(n, e);
    case Subscribe(on) => SubscribeTold(n, on);
    case Flushed => FlushTold(n);
    case Ticked(due) => TickTold(n, due);
    case Message(_, _, _, _) => MessageTold(n, log, e);
    case SendBlock(luck) => SendTold(n, luck);
  }

  lemma {:induction false} LinkTold(n: Node, e: Event)
    requires e.Connect? || e.Disconnect?
    ensures Told(n, e, Call(n, e)) && Errors(Call(n, e).tx) == Errors(n.tx)
  {
    hide Notices, Errors;
    assert Notices(n.tx) + [] == Notices(n.tx);
  }

  /** Errors go out in answer to messages alone, and which one is told by the message and the state. */
  lemma {:induction false} ErrorsAre(n: Node, log: seq<LogSeg>, e: Event)
    requires Describes(n.st, log) && !e.Append? && !e.Restart?
    ensures Errors(Call(n, e).tx) == Errors(n.tx) + Refusal(n, e)
  {
    hide Told, Describes, OnMessage, SendNext, Tick, OnFlushed, OnSubscribed, Notices, Errors, Refusal;
    if !e.Message? {
      NoRefusal(n, e);
    }
    match e
    case Connect(_) => LinkTold(n, e);
    case Disconnect => LinkTold(n, e);
    case Subscribe(on) => SubscribeTold(n, on);
    case Flushed => FlushTold(n);
    case Ticked(due) => TickTold(n, due);
    case Message(_, _, _, _) => MessageTold(n, log, e);
    case SendBlock(luck) => SendTold(n, luck);
  }

  lemma {:induction false} NoRefusal(n: Node, e: Event)
    requires !e.Message?
    ensures Errors(n.tx) + Refusal(n, e) == Errors(n.tx)
  {
    hide Errors;
  }

  // ---- the link, the session, and discards that were told ----

  /** Where a call leaves the link and the session, and up to which discard it has looked. */
  ghost predicate Linked(n: Node, e: Event, n': Node) {
    && n'.e.connected == (e.Connect? || (n.e.connected && !e.Disconnect?))
    && n'.e.subscribed == (if e.Subscribe? then e.on else n.e.subscribed && !e.Connect? && !e.Disconnect?)
    && n'.e.sessionOpen == (Opens(n, e) || (n.e.sessionOpen && !e.Connect? && !e.Disconnect?
      && !(Looks(n, e) && Untold(n))))
    && n'.e.overflowSeen == (if Looks(n, e) && n.st.overflow > n.e.overflowSeen then n.st.overflow
      else n.e.overflowSeen)
  }

  /** The link and the session are left alone. */
  ghost predicate SameLink(n: Node, n': Node) {
    && n'.e.connected == n.e.connected && n'.e.subscribed == n.e.subscribed && n'.e.sessionOpen == n.e.sessionOpen
    && n'.e.overflowSeen == n.e.overflowSeen
  }

  lemma {:induction false} NoticeLinks(n: Node)
    ensures SameLink(n, n.Notice()) && n.Notice().e == n.e
  {
  }

  lemma {:induction false} OverflowLinks(n: Node)
    ensures var n' := CheckOverflow(n);
      && n'.e.connected == n.e.connected && n'.e.subscribed == n.e.subscribed
      && n'.e.sessionOpen == (n.e.sessionOpen && !Untold(n))
      && n'.e.overflowSeen == (if n.st.overflow > n.e.overflowSeen then n.st.overflow else n.e.overflowSeen)
  {
    hide Node.Notice;
    NoticeLinks(n.(e := n.e.(overflowSeen := n.st.overflow, batchActive := false, noHsConn := true,
                             sessionOpen := false)));
  }

  lemma {:induction false} SendingLinks(n: Node, b: Block, s: nat, to: nat, luck: Luck)
    ensures SameLink(n, SendStored(n, b, s, luck)) && SameLink(n, SendLoss(n, s, to, luck)) && SameLink(n, EndBatch(n))
  {
  }

  lemma {:induction false} SkipLinks(n: Node, s: nat, luck: Luck)
    ensures SameLink(n, SkipMissing(n, s, luck).0)
  {
    hide Read, IsBootFrom, NextStored, SendLoss, SendStored;
    var t := NextStored(n.st.segs, s);
    SendingLinks(n, Block([], [], 0), s, if t > s + MAX_LOSS_RUN then s + MAX_LOSS_RUN - 1 else if t > 0 then t - 1
      else 0, luck);
  }

  lemma {:induction false} SendLinks(n: Node, luck: Luck)
    ensures Linked(n, SendBlock(luck), SendNext(n, luck).0)
  {
    hide CheckOverflow, Read, CrcMatches, SendLoss, SendStored, SkipMissing, LossEnd;
    var n1 := CheckOverflow(n);
    var s := n1.e.cursor;
    var r := Read(n1.st, s, luck.io);
    OverflowLinks(n);
    OverflowIsQuiet(n);
    SendingLinks(n, Block([], [], 0), s, s, luck);
    SendingLinks(n1, if r.Found? then r.block else Block([], [], 0), s, LossEnd(n1.st, s, s, luck.io), luck);
    SkipLinks(n1, s, luck);
  }

  lemma {:induction false} MessageLinks(n: Node, e: Event)
    requires e.Message?
    ensures Linked(n, e, Call(n, e))
  {
    hide ParseTlv, HandleChallenge, HandleAck, HandleBatchRequest, HandleAppError, Opens;
    var m := ParseTlv(e.msg);
    if m.Some? {
      var v := m.value.value;
      ChallengeLinks(n, v, e.tagOk, e.save, e.io);
      AckLinks(n, v, e.tagOk);
      OtherLinks(n, v);
    }
    OpensIs(n, e);
  }

  lemma {:induction false} OpensIs(n: Node, e: Event)
    requires e.Message?
    ensures var m := ParseTlv(e.msg);
      Opens(n, e) <==> m.Some? && m.value.kind == ACK
                       && var a := DecodeAck(m.value.value); a.Some? && e.tagOk && Repeats(n, a.value)
  {
    hide ParseTlv, DecodeAck;
  }

  lemma {:induction false} AdvanceLinks(n: Node, ack: nat)
    ensures SameLink(n, AdvanceAck(n, ack))
  {
    hide DeleteUpTo;
  }

  lemma {:induction false} ResponseLinks(n: Node, c: Challenge, io: set<nat>)
    ensures SameLink(n, Respond(n, c, io))
  {
    hide EffectiveTail;
  }

  lemma {:induction false} ChallengeLinks(n: Node, v: bytes, tagOk: bool, save: W.Save, io: set<nat>)
    ensures SameLink(n, HandleChallenge(n, v, tagOk, save, io))
  {
    hide DecodeChallenge, AdvanceAck, Respond;
    var d := DecodeChallenge(v);
    if d.Some? {
      var c := d.value;
      var n2 := n.(nvsCs := if save.persists then c.cs else n.nvsCs, e := n.e.(lastCs := c.cs));
      AdvanceLinks(n2, c.ackSeq);
      ResponseLinks(if n.e.ack < c.ackSeq <= n.Head() then AdvanceAck(n2, c.ackSeq) else n2, c, io);
    }
  }

  lemma {:induction false} AckLinks(n: Node, v: bytes, tagOk: bool)
    ensures var n', a := HandleAck(n, v, tagOk), DecodeAck(v);
      && n'.e.connected == n.e.connected && n'.e.subscribed == n.e.subscribed && n'.e.overflowSeen == n.e.overflowSeen
      && n'.e.sessionOpen == (n.e.sessionOpen || (a.Some? && tagOk && Repeats(n, a.value)))
  {
    hide DecodeAck, AdvanceAck, Node.Notice, Repeats;
    AckHandshake(n, v, tagOk);
    var a := DecodeAck(v);
    if a.Some? {
      AdvanceLinks(n, a.value.ackSeq);
      var n1 := if a.value.ackSeq > n.e.ack then AdvanceAck(n, a.value.ackSeq) else n;
      NoticeLinks(n1.(e := n1.e.(noHsConn := false, noHsBoot := n1.e.noHsBoot && a.value.anchorFailed,
                                 sessionOpen := true)));
    }
  }

  lemma {:induction false} OtherLinks(n: Node, v: bytes)
    ensures SameLink(n, HandleBatchRequest(n, v)) && SameLink(n, HandleAppError(n, v))
  {
    hide DecodeBatchRequest;
  }

  lemma {:induction false} FlushLinks(n: Node)
    ensures Linked(n, Flushed, OnFlushed(n))
  {
    hide CheckOverflow, Node.Notice, Untold;
    OverflowLinks(n);
    NoticeLinks(CheckOverflow(n));
  }

  lemma {:induction false} TickLinks(n: Node, due: bool)
    ensures Linked(n, Ticked(due), Tick(n, due))
  {
    hide CheckOverflow, Node.Notice, Untold;
    OverflowLinks(n);
    NoticeLinks(CheckOverflow(n));
  }

  lemma {:induction false} ConnectionLinks(n: Node, e: Event)
    requires e.Connect? || e.Disconnect? || e.Subscribe?
    ensures Linked(n, e, Call(n, e))
  {
    hide Node.Notice, Untold;
    NoticeLinks(n.(e := n.e.(subscribed := e.Subscribe? && e.on)));
  }

  /** What each call does to the link, the session and the mark of the discards looked at. */
  lemma {:induction false} LinksAre(n: Node, e: Event)
    requires !e.Append? && !e.Restart?
    ensures Linked(n, e, Call(n, e))
  {
    hide Linked, OnFlushed, Tick, SendNext, OnMessage;
    match e
    case Message(_, _, _, _) => MessageLinks(n, e);
    case SendBlock(luck) => SendLinks(n, luck);
    case Flushed => FlushLinks(n);
    case Ticked(due) => TickLinks(n, due);
    case _ => ConnectionLinks(n, e);
  }

  // ---- the batch ----

  /** A request for one block or more, in a session and with something to send. */
  predicate Begins(n: Node, e: Event) {
    && e.Message?
    && var m := ParseTlv(e.msg);
    && m.Some? && m.value.kind == 0x05 && |m.value.value| == 2 && m.value.value != [0, 0]
    && n.e.sessionOpen && n.e.cursor <= n.Head()
  }

  /**
   * A batch ends with the connection, with a discard to be told, when the app asks for a rewind, when
   * an ACK takes the cursor past its end, and when `sendNextBlock` gets no further.
   */
  predicate Ends(n: Node, e: Event, n': Node) {
    || e.Connect? || e.Disconnect? || (Looks(n, e) && Untold(n)) || (e.Message? && Resends(e.msg))
    || (n'.e.ack > n.e.ack && n'.e.cursor > n.e.batchEnd)
    || (e.SendBlock? && n'.e.cursor == n.e.cursor)
  }

  ghost predicate Batched(n: Node, e: Event, n': Node) {
    n'.e.batchActive == (Begins(n, e) || (n.e.batchActive && !Ends(n, e, n')))
  }

  lemma {:induction false} OverflowBatch(n: Node)
    ensures var n' := CheckOverflow(n);
      && n'.e.batchActive == (n.e.batchActive && !Untold(n)) && n'.e.ack == n.e.ack && n'.e.cursor == n.e.cursor
    ensures CheckOverflow(n).Notice().e == CheckOverflow(n).e
  {
    hide Node.Notice;
    NoticeLinks(CheckOverflow(n));
    NoticeLinks(n.(e := n.e.(overflowSeen := n.st.overflow, batchActive := false, noHsConn := true,
                             sessionOpen := false)));
  }

  lemma {:induction false} QuietBatch(n: Node, e: Event)
    requires !e.Message? && !e.SendBlock? && !e.Append? && !e.Restart?
    ensures Batched(n, e, Call(n, e))
  {
    hide Node.Notice, CheckOverflow, Untold;
    OverflowBatch(n);
    NoticeLinks(n.(e := n.e.(subscribed := e.Subscribe? && e.on)));
  }

  lemma {:induction false} SendBatch(n: Node, log: seq<LogSeg>, luck: Luck)
    requires Describes(n.st, log) && InBounds(n)
    ensures Batched(n, SendBlock(luck), SendNext(n, luck).0)
  {
    hide Describes, SendNext, Read, Stored, IsBootFrom, Intact, Carried, Chosen;
    var form := SendNextIs(n, log, luck);
  }

  lemma {:induction false} AdvanceBatch(n: Node, ack: nat)
    ensures var n' := AdvanceAck(n, ack);
      && n'.e.batchActive == (n.e.batchActive && n'.e.cursor <= n.e.batchEnd) && n'.e.ack == ack
  {
    hide DeleteUpTo;
  }

  /** A message leaves the batch running unless the ACK it brings takes the cursor past the end. */
  ghost predicate RunsOn(n: Node, n': Node) {
    n'.e.batchActive == (n.e.batchActive && !(n'.e.ack > n.e.ack && n'.e.cursor > n.e.batchEnd))
  }

  lemma {:induction false} ChallengeBatch(n: Node, v: bytes, tagOk: bool, save: W.Save, io: set<nat>)
    ensures RunsOn(n, HandleChallenge(n, v, tagOk, save, io))
  {
    hide DecodeChallenge, AdvanceAck, EffectiveTail;
    var d := DecodeChallenge(v);
    if d.Some? {
      AdvanceBatch(n.(nvsCs := if save.persists then d.value.cs else n.nvsCs, e := n.e.(lastCs := d.value.cs)),
        d.value.ackSeq);
    }
  }

  lemma {:induction false} AckBatch(n: Node, v: bytes, tagOk: bool)
    ensures RunsOn(n, HandleAck(n, v, tagOk))
  {
    hide DecodeAck, AdvanceAck, Node.Notice;
    var d := DecodeAck(v);
    if d.Some? {
      var a := d.value;
      AdvanceBatch(n, a.ackSeq);
      var n1 := if a.ackSeq > n.e.ack then AdvanceAck(n, a.ackSeq) else n;
      NoticeLinks(n1.(e := n1.e.(noHsConn := false, noHsBoot := n1.e.noHsBoot && a.anchorFailed,
                                 sessionOpen := true)));
    }
  }

  lemma {:induction false} MessageBatch(n: Node, e: Event)
    requires e.Message?
    ensures Batched(n, e, Call(n, e))
  {
    hide ParseTlv, HandleChallenge, HandleAck, Node.Notice, GetU16;
    var m := ParseTlv(e.msg);
    if m.Some? {
      var v := m.value.value;
      ChallengeBatch(n, v, e.tagOk, e.save, e.io);
      AckBatch(n, v, e.tagOk);
      NoticeLinks(n.(e := n.e.(batchActive := false, cursor := n.e.ack + 1)));
      SomeBlocks(v);
    }
  }

  lemma {:induction false} SomeBlocks(v: bytes)
    ensures DecodeBatchRequest(v).Some? <==> |v| == 2
    ensures |v| == 2 ==> (DecodeBatchRequest(v).value >= 1 <==> v != [0, 0])
  {
  }

  /** Whether a batch runs after a call. */
  lemma {:induction false} BatchesAre(n: Node, log: seq<LogSeg>, e: Event)
    requires Describes(n.st, log) && InBounds(n) && !e.Append? && !e.Restart?
    ensures Batched(n, e, Call(n, e))
  {
    hide Batched, OnFlushed, Tick, SendNext, OnMessage, Describes;
    match e
    case Message(_, _, _, _) => MessageBatch(n, e);
    case SendBlock(luck) => SendBatch(n, log, luck);
    case _ => QuietBatch(n, e);
  }

  // ---- what the flags mean ----

  /** After this event there is no handshake of this connection any more. */
  predicate Forgets(n: Node, e: Event) { e.Connect? || e.Restart? || (Looks(n, e) && Untold(n)) }

  /** An ACK opens a session, and says that its time anchor held. */
  predicate Anchors(n: Node, e: Event) { Opens(n, e) && !OpeningAck(n, e).value.anchorFailed }

  /** Event `i` of a run opened a session, and nothing has ended that handshake since. */
  ghost predicate OpenSince(w: World, free: Flash -> nat, es: seq<Event>, i: nat) {
    && i < |es| && Opens(RunAll(w, free, es[..i]).n, es[i])
    && forall k :: i < k < |es| ==> !Forgets(RunAll(w, free, es[..k]).n, es[k])
  }

  /** Event `i` opened one with its anchor good, in this boot. */
  ghost predicate AnchoredSince(w: World, free: Flash -> nat, es: seq<Event>, i: nat) {
    && i < |es| && Anchors(RunAll(w, free, es[..i]).n, es[i])
    && forall k :: i < k < |es| ==> !es[k].Restart?
  }

  lemma {:induction false} FlagsMove(w: World, log: seq<LogSeg>, free: Flash -> nat, e: Event)
    requires Inv(w, log) && Enabled(w, e)
    ensures var n, e' := w.n, Step(w, free, e).n.e;
      && e'.noHsConn == (if Opens(n, e) then false else n.e.noHsConn || Forgets(n, e))
      && e'.noHsBoot == (if Anchors(n, e) then false else n.e.noHsBoot || e.Restart?)
  {
    hide Inv, Sound, Opens, OpeningAck, Untold, Call, Observe, FirstWorld, Describes, Notices, Flush;
    NoOpening(w.n, e);
    if e.Restart? {
      FirstFlags(e.st, e.log, w.n.nvsCs, e.io);
    } else if !e.Append? {
      DescribedInv(w, log);
      NoticesAre(w.n, log, e);
      ObservedCall(w, e);
    }
  }

  lemma {:induction false} ObservedCall(w: World, e: Event)
    ensures Observe(w, e).n == Call(w.n, e)
  {
    hide Call, NewResponses, Confirms, Requested, Rewinds, Store.Total, Carried;
  }

  lemma {:induction false} DescribedInv(w: World, log: seq<LogSeg>)
    requires Inv(w, log)
    ensures Describes(w.n.st, log)
  {
  }

  lemma {:induction false} NoOpening(n: Node, e: Event)
    ensures !e.Message? ==> !Opens(n, e)
    ensures Opens(n, e) ==> OpeningAck(n, e).Some?
  {
    hide DecodeAck, ParseTlv;
  }

  /** A boot starts without link, session or handshake, and takes the discards of its start as told. */
  lemma {:induction false} FirstFlags(st: Store, log: seq<LogSeg>, nvsCs: nat, io: set<nat>)
    ensures var n := FirstWorld(st, log, nvsCs, io).n;
      && n.e.noHsConn && n.e.noHsBoot && !n.e.connected && !n.e.subscribed && !n.e.sessionOpen && !n.e.hasResponded
      && n.e.overflowSeen == st.overflow && n.e.lastCs == nvsCs && !n.e.batchActive
  {
    hide EffectiveTail, Flat;
  }

  lemma {:induction false} EnabledTo(w: World, free: Flash -> nat, es: seq<Event>, n: nat)
    requires AllEnabled(w, free, es) && n < |es|
    ensures AllEnabled(w, free, es[..n]) && Enabled(RunAll(w, free, es[..n]), es[n])
    ensures RunAll(w, free, es[..n + 1]) == Step(RunAll(w, free, es[..n]), free, es[n])
    decreases |es|
  {
    hide Step, Enabled;
    if n == 0 {
      assert es[..0] == [] && es[..1] == [es[0]] && [es[0]][1..] == [];
    } else {
      EnabledTo(Step(w, free, es[0]), free, es[1..], n - 1);
      assert es[..n][1..] == es[1..][..n - 1] && es[..n + 1][1..] == es[1..][..n];
    }
  }

  /**
   * The two flags of a notice, in every run and over all restarts: the first is off exactly if an ACK
   * opened a session on this connection and no discard has closed it since; the second exactly if an ACK
   * of this boot opened one with its anchor good.
   */
  lemma {:induction false} FlagsMean(st: Store, log: seq<LogSeg>, nvsCs: nat, io: set<nat>, free: Flash -> nat,
      es: seq<Event>)
    requires Sound(st, log) && AllEnabled(FirstWorld(st, log, nvsCs, io), free, es)
    ensures var w := FirstWorld(st, log, nvsCs, io);
      var e := RunAll(w, free, es).n.e;
      && (!e.noHsConn <==> exists i :: OpenSince(w, free, es, i))
      && (!e.noHsBoot <==> exists i :: AnchoredSince(w, free, es, i))
    decreases |es|
  {
    hide Sound, AllEnabled, RunAll, FirstWorld, Inv, Step, Opens, Anchors, Forgets, Enabled, OpenSince, AnchoredSince;
    var w := FirstWorld(st, log, nvsCs, io);
    if es == [] {
      FirstFlags(st, log, nvsCs, io);
      NothingHappened(w, free);
    } else {
      var n := |es| - 1;
      EnabledTo(w, free, es, n);
      assert es[..n + 1] == es;
      FlagsMean(st, log, nvsCs, io, free, es[..n]);
      FirstInv(st, log, nvsCs, io, []);
      SameFirst(st, log, nvsCs, io);
      var log' := RunKeeps(w, log, free, es[..n]);
      FlagsMove(RunAll(w, free, es[..n]), log', free, es[n]);
      OneMoreOpen(w, free, es);
      OneMoreAnchored(w, free, es);
      NoOpening(RunAll(w, free, es[..n]).n, es[n]);
    }
  }

  lemma {:induction false} SameFirst(st: Store, log: seq<LogSeg>, nvsCs: nat, io: set<nat>)
    ensures FirstWorld(st, log, nvsCs, io).(answered := []) == FirstWorld(st, log, nvsCs, io)
  {
    hide EffectiveTail, Flat;
  }

  lemma {:induction false} NothingHappened(w: World, free: Flash -> nat)
    ensures RunAll(w, free, []) == w
    ensures forall i :: !OpenSince(w, free, [], i) && !AnchoredSince(w, free, [], i)
  {
  }

  lemma {:induction false} OneMoreOpen(w: World, free: Flash -> nat, es: seq<Event>)
    requires es != []
    ensures var n := |es| - 1;
      var v := RunAll(w, free, es[..n]).n;
      (exists i :: OpenSince(w, free, es, i)) <==>
        Opens(v, es[n]) || (!Forgets(v, es[n]) && exists i :: OpenSince(w, free, es[..n], i))
  {
    hide RunAll, Opens, Forgets;
    var n := |es| - 1;
    var v := RunAll(w, free, es[..n]).n;
    assert forall k :: 0 <= k <= n ==> es[..n][..k] == es[..k];
    if Opens(v, es[n]) {
      assert OpenSince(w, free, es, n);
    }
    forall i: nat | i < n
      ensures OpenSince(w, free, es, i) <==> OpenSince(w, free, es[..n], i) && !Forgets(v, es[n])
    {
    }
    if i :| OpenSince(w, free, es[..n], i) && !Forgets(v, es[n]) {
      assert OpenSince(w, free, es, i);
    }
  }

  lemma {:induction false} OneMoreAnchored(w: World, free: Flash -> nat, es: seq<Event>)
    requires es != []
    ensures var n := |es| - 1;
      var v := RunAll(w, free, es[..n]).n;
      (exists i :: AnchoredSince(w, free, es, i)) <==>
        Anchors(v, es[n]) || (!es[n].Restart? && exists i :: AnchoredSince(w, free, es[..n], i))
  {
    hide RunAll, Anchors;
    var n := |es| - 1;
    var v := RunAll(w, free, es[..n]).n;
    assert forall k :: 0 <= k <= n ==> es[..n][..k] == es[..k];
    if Anchors(v, es[n]) {
      assert AnchoredSince(w, free, es, n);
    }
    forall i: nat | i < n
      ensures AnchoredSince(w, free, es, i) <==> AnchoredSince(w, free, es[..n], i) && !es[n].Restart?
    {
    }
    if i :| AnchoredSince(w, free, es[..n], i) && !es[n].Restart? {
      assert AnchoredSince(w, free, es, i);
    }
  }
}
