/**
 * How the app opens a session and asks for blocks: the messages of a connection, a challenge, an ACK
 * and a batch request, and the state of the engine after them.
 */
module SyncSession {
  import opened Bytes
  import opened BlockFormat
  import opened StoreSpec
  import opened SyncProtocol
  import opened SyncSpec
  import opened SyncForms
  import opened SyncSafety
  import opened SyncRun
  import W = BlockWriter

  function Zeros(): (r: bytes)
    ensures |r| == 16
  {
    seq(16, _ => 0)
  }

  /** A message with a good tag that NVS has no trouble with. */
  function Good(kind: byte, value: bytes): Event { Message(PutTlv(kind, value), true, W.Save(true, true), {}) }

  function Challenging(cs: nat): Event { Good(CHALLENGE, EncodeChallengePayload(cs, Zeros(), 0, 0) + Zeros()) }

  function Acking(ack: nat, cConf: nat): Event { Good(ACK, EncodeAckPayload(ack, cConf, 0) + Zeros()) }

  function Requesting(k: nat): Event { Good(BATCH_REQUEST, U16(k)) }

  /** The app connects, subscribes, challenges with the next c_S, confirms nothing new, and asks for `k` blocks. */
  function Opening(n: Node, k: nat): seq<Event> {
    [Connect(1), Subscribe(true), Challenging(n.e.lastCs + 1), Acking(n.e.ack, n.e.lastCs + 1), Requesting(k)]
  }

  /** A node on which the numbers of the messages fit their 32 and 16 bits. */
  predicate Openable(n: Node, k: nat) {
    && InBounds(n) && n.e.ack < n.Head() && n.Head() < U32_END && n.e.lastCs + 1 < U32_END && 1 <= k < U16_END
  }

  /** The session is open, and the batch is about to start after the ACK. */
  ghost predicate Opened(n: Node, k: nat, n': Node) {
    && n'.st == n.st && n'.e.ack == n.e.ack && n'.e.cursor == n.e.ack + 1
    && n'.e.connected && n'.e.subscribed && n'.e.sessionOpen && n'.e.batchActive
    && n'.e.batchEnd == (if n.e.ack + k < n.Head() then n.e.ack + k else n.Head())
    && n'.e.overflowSeen == n.e.overflowSeen && Carried(n'.tx) == Carried(n.tx)
  }

  function Calls(n: Node, es: seq<Event>): Node
    decreases |es|
  {
    if es == [] then n else Calls(Call(n, es[0]), es[1..])
  }

  lemma {:induction false} GoodCall(n: Node, kind: byte, value: bytes)
    requires |value| < U16_END
    ensures ParseTlv(PutTlv(kind, value)) == Some(Tlv(kind, value))
  {
    TlvRoundTrip(PutTlv(kind, value), Tlv(kind, value));
  }

  lemma {:induction false} ConnectsAndSubscribes(n: Node)
    ensures var n' := Call(Call(n, Connect(1)), Subscribe(true));
      && n'.st == n.st && Carried(n'.tx) == Carried(n.tx) && n'.nvsCs == n.nvsCs
      && n'.e == n.e.(connected := true, subscribed := true, generation := 1, sessionOpen := false,
                      hasResponded := false, noHsConn := true, batchActive := false, cursor := n.e.ack + 1)
  {
    hide Carried, Node.Notice;
    var n1 := Call(n, Connect(1));
    NoticeCarries(n1.(e := n1.e.(subscribed := true)));
  }

  /** The challenge is answered. */
  lemma {:induction false} ChallengeIsAnswered(n: Node, cs: nat)
    requires n.e.lastCs < cs < U32_END
    ensures var n' := Call(n, Challenging(cs));
      && n'.st == n.st && Carried(n'.tx) == Carried(n.tx)
      && n'.e == n.e.(lastCs := cs, respondedCs := cs, hasResponded := true)
  {
    hide Carried, ParseTlv, PutTlv, EncodeChallengePayload, DecodeChallenge, EffectiveTail, AdvanceAck;
    var v := EncodeChallengePayload(cs, Zeros(), 0, 0) + Zeros();
    ChallengeLength(cs);
    GoodCall(n, CHALLENGE, v);
    ChallengeRoundTrip(cs, Zeros(), 0, 0, Zeros());
    CarriedMore(n.tx, ResponseMsg(cs, Zeros(), n.Head(), EffectiveTail(n.st, {})));
    assert Carried(n.tx) + [] == Carried(n.tx);
  }

  lemma {:induction false} ChallengeLength(cs: nat)
    ensures |EncodeChallengePayload(cs, Zeros(), 0, 0) + Zeros()| < U16_END
  {
  }

  lemma {:induction false} AckLength(ack: nat, cConf: nat)
    ensures |EncodeAckPayload(ack, cConf, 0) + Zeros()| < U16_END
  {
  }

  /** The ACK that repeats it opens the session. */
  lemma {:induction false} AckOpens(n: Node)
    requires n.e.hasResponded && n.e.respondedCs < U32_END && n.e.ack <= n.Head() && n.e.ack < U32_END
    ensures var n' := Call(n, Acking(n.e.ack, n.e.respondedCs));
      && n'.st == n.st && Carried(n'.tx) == Carried(n.tx)
      && n'.e == n.e.(noHsConn := false, noHsBoot := false, sessionOpen := true)
  {
    hide Carried, ParseTlv, PutTlv, EncodeAckPayload, DecodeAck, AdvanceAck, Node.Notice;
    var v := EncodeAckPayload(n.e.ack, n.e.respondedCs, 0) + Zeros();
    AckLength(n.e.ack, n.e.respondedCs);
    GoodCall(n, ACK, v);
    AckRoundTrip(n.e.ack, n.e.respondedCs, 0, Zeros());
    NoticeCarries(n.(e := n.e.(noHsConn := false, noHsBoot := n.e.noHsBoot && LowBit(0), sessionOpen := true)));
  }

  lemma {:induction false} RequestBegins(n: Node, k: nat)
    requires n.e.sessionOpen && n.e.cursor <= n.Head() && 1 <= k < U16_END
    ensures var n' := Call(n, Requesting(k));
      && n'.st == n.st && n'.tx == n.tx
      && n'.e == n.e.(batchEnd := if n.e.cursor + k - 1 < n.Head() then n.e.cursor + k - 1 else n.Head(),
                      batchActive := true, batchSent := 0)
  {
    hide ParseTlv, PutTlv, U16, GetU16;
    GoodCall(n, BATCH_REQUEST, U16(k));
    GetPutU16(k, []);
    assert U16(k) + [] == U16(k);
  }

  /** From any state of the engine, these messages bring it to the start of a batch. */
  lemma {:induction false} OpeningOpens(n: Node, k: nat)
    requires Openable(n, k)
    ensures Opened(n, k, Calls(n, Opening(n, k)))
  {
    hide Call, Carried;
    var es := Opening(n, k);
    FiveCalls(n, es[0], es[1], es[2], es[3], es[4]);
    ConnectsAndSubscribes(n);
    var n2 := Call(Call(n, es[0]), es[1]);
    ChallengeIsAnswered(n2, n.e.lastCs + 1);
    var n3 := Call(n2, es[2]);
    AckOpens(n3);
    RequestBegins(Call(n3, es[3]), k);
  }

  lemma {:induction false} FiveCalls(n: Node, a: Event, b: Event, c: Event, d: Event, e: Event)
    ensures Calls(n, [a, b, c, d, e]) == Call(Call(Call(Call(Call(n, a), b), c), d), e)
  {
    hide Call;
    var es := [a, b, c, d, e];
    assert es[1..] == [b, c, d, e] && [b, c, d, e][1..] == [c, d, e] && [c, d, e][1..] == [d, e];
    assert [d, e][1..] == [e] && [e][1..] == [];
    assert Calls(n, es) == Calls(Call(n, a), [b, c, d, e]) == Calls(Call(Call(n, a), b), [c, d, e]);
    var n2 := Call(Call(n, a), b);
    assert Calls(n2, [c, d, e]) == Calls(Call(n2, c), [d, e]) == Calls(Call(Call(n2, c), d), [e]);
  }

  /** As events of a run, they are these calls. */
  lemma {:induction false} CallsRun(w: World, free: Flash -> nat, es: seq<Event>)
    requires forall i :: 0 <= i < |es| ==> !es[i].Append? && !es[i].Restart? && (es[i].Message? ==> es[i].save.persists)
    ensures AllEnabled(w, free, es) && RunAll(w, free, es).n == Calls(w.n, es)
    decreases |es|
  {
    hide Call, NewResponses, Confirms, Requested, Rewinds, Carried;
    if es != [] {
      assert forall i :: 0 <= i < |es| - 1 ==> es[1..][i] == es[i + 1];
      CallsRun(Step(w, free, es[0]), free, es[1..]);
    }
  }

  /** None of them but the connection is a rewind. */
  lemma {:induction false} OpeningRewinds(n: Node, k: nat)
    ensures var es := Opening(n, k);
      forall i :: 1 <= i < |es| ==> !Rewinds(es[i]) && !es[i].Append? && !es[i].Restart? && !es[i].Connect?
  {
    hide ParseTlv, PutTlv, EncodeChallengePayload, EncodeAckPayload, U16;
    var es := Opening(n, k);
    ChallengeLength(n.e.lastCs + 1);
    AckLength(n.e.ack, n.e.lastCs + 1);
    GoodCall(n, CHALLENGE, EncodeChallengePayload(n.e.lastCs + 1, Zeros(), 0, 0) + Zeros());
    GoodCall(n, ACK, EncodeAckPayload(n.e.ack, n.e.lastCs + 1, 0) + Zeros());
    ShortRequest(k);
    GoodCall(n, BATCH_REQUEST, U16(k));
  }

  lemma {:induction false} ShortRequest(k: nat)
    ensures |U16(k)| < U16_END
  {
  }

  lemma {:induction false} KeepsMark(w: World, free: Flash -> nat, es: seq<Event>)
    requires forall i :: 0 <= i < |es| ==> !Rewinds(es[i]) && !es[i].Append? && !es[i].Restart?
    ensures RunAll(w, free, es).mark == w.mark && RunAll(w, free, es).base == w.base
    decreases |es|
  {
    hide Call, NewResponses, Confirms, Requested, Rewinds, Carried, Store.Total;
    if es != [] {
      assert forall i :: 0 <= i < |es| - 1 ==> es[1..][i] == es[i + 1];
      KeepsMark(Step(w, free, es[0]), free, es[1..]);
    }
  }

  /** The connection is the last rewind. */
  lemma {:induction false} OpeningMarks(w: World, free: Flash -> nat, k: nat)
    ensures var v := RunAll(w, free, Opening(w.n, k)); v.mark == w.n.e.ack && v.base == |Carried(w.n.tx)|
  {
    var es := Opening(w.n, k);
    OpeningRewinds(w.n, k);
    assert forall i :: 0 <= i < |es| - 1 ==> es[1..][i] == es[i + 1];
    assert es[0] == Connect(1);
    hide Opening, NewResponses, Confirms, Requested, Carried, Store.Total;
    KeepsMark(Step(w, free, Connect(1)), free, es[1..]);
  }
}
