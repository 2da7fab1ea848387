/**
 * What each call of the sync engine (sync/SyncEngine.cpp) does to its state, to the log and to NVS,
 * and which messages it sends, as functions on values.
 *
 * Outside answers are parameters: whether a tag verifies, a signature succeeds, NVS keeps a value,
 * the link takes a message, and which files cannot be opened this time.
 */
module SyncSpec {
  import opened Bytes
  import opened BlockFormat
  import opened SegmentFormat
  import opened StoreSpec
  import opened SyncProtocol
  import W = BlockWriter

  const MAX_LOSS_RUN: nat := 64

  datatype Engine = Engine(
    ack: nat, cursor: nat, batchEnd: nat, lastCs: nat, respondedCs: nat, hasResponded: bool,
    sessionOpen: bool, noHsConn: bool, noHsBoot: bool, overflowSeen: nat, connected: bool,
    subscribed: bool, generation: nat, batchActive: bool, batchSent: nat)

  /**
   * Messages: blocks and LOSS markers the link took; answers, errors and notices as handed to it,
   * since the engine does not look at what becomes of them.
   */
  datatype Msg =
    | BlockMsg(block: Block)
    | LossMsg(from: nat, to: nat, tag: bytes)
    | ResponseMsg(cs: nat, nonce: bytes, head: nat, tail: nat)
    | ErrorMsg(code: byte)
    | NoticeMsg(head: nat, noHsConn: bool, noHsBoot: bool)

  /** The engine, the log, the persisted c_S and the messages so far. */
  datatype Node = Node(e: Engine, st: Store, nvsCs: nat, tx: seq<Msg>)
  {
    function Head(): nat { st.NewestSeq() }

    function Send(m: Msg): Node { this.(tx := tx + [m]) }

    function Notice(): Node {
      if e.connected && e.subscribed then Send(NoticeMsg(Head(), e.noHsConn, e.noHsBoot)) else this
    }
  }

  predicate Intact(r: Fetched) { r.Found? && CrcMatches(r.block) }

  /** Unreadable, or read with a bad CRC. */
  predicate Bad(r: Fetched) { r.Broken? || (r.Found? && !CrcMatches(r.block)) }

  /** A BOOT stands for the range from the seq it declares to its own. */
  predicate IsBootFrom(r: Fetched, s: nat) {
    Intact(r) && var m := ParseMarker(r.block.data); m.Boot? && m.from <= s
  }

  // ---- start and connection ----

  function EffectiveTail(st: Store, io: set<nat>): nat {
    var oldest := st.OldestSeq();
    if st.segs == [] then st.NewestSeq() + 1
    else if IsBootFrom(Read(st, oldest, io), oldest) then ParseMarker(Read(st, oldest, io).block.data).from
    else oldest
  }

  function Start(st: Store, nvsCs: nat, io: set<nat>): Node {
    var tail := EffectiveTail(st, io);
    var ack := if tail == 0 then U32_END - 1 else tail - 1;
    Node(Engine(ack, (ack + 1) % U32_END, 0, nvsCs, 0, false, false, true, true, st.overflow, false, false, 0,
                false, 0),
         st, nvsCs, [])
  }

  function OnConnected(n: Node, generation: nat): Node {
    n.(e := n.e.(connected := true, subscribed := false, generation := generation, sessionOpen := false,
                 hasResponded := false, noHsConn := true, batchActive := false, cursor := n.e.ack + 1))
  }

  function OnDisconnected(n: Node): Node {
    n.(e := n.e.(connected := false, subscribed := false, sessionOpen := false, batchActive := false))
  }

  function OnSubscribed(n: Node, on: bool): Node {
    var n1 := n.(e := n.e.(subscribed := on));
    if on then n1.Notice() else n1
  }

  // ---- acknowledged blocks and overflow ----

  function AdvanceAck(n: Node, ack: nat): Node {
    var e := n.e.(ack := ack, cursor := Max(n.e.cursor, ack + 1));
    n.(st := DeleteUpTo(n.st, ack), e := if e.batchActive && e.batchEnd < e.cursor then e.(batchActive := false) else e)
  }

  function CheckOverflow(n: Node): Node {
    var up := n.st.overflow;
    if up <= n.e.overflowSeen then n
    else
      var n1 := n.(e := n.e.(overflowSeen := up));
      if up <= n.e.ack then n1
      else n1.(e := n1.e.(batchActive := false, noHsConn := true, sessionOpen := false)).Notice()
  }

  function OnFlushed(n: Node): Node { CheckOverflow(n).Notice() }

  /** `tick`: `due` when the last notice is 15 s old; a notice of this very call starts that time anew. */
  function Tick(n: Node, due: bool): Node {
    var n1 := CheckOverflow(n);
    if due && |n1.tx| == |n.tx| && n1.e.noHsConn then n1.Notice() else n1
  }

  // ---- handshake ----

  function Respond(n: Node, c: Challenge, io: set<nat>): Node {
    n.Send(ResponseMsg(c.cs, c.nonce, n.Head(), EffectiveTail(n.st, io)))
      .(e := n.e.(respondedCs := c.cs, hasResponded := true))
  }

  function HandleChallenge(n: Node, v: bytes, tagOk: bool, save: W.Save, io: set<nat>): Node {
    match DecodeChallenge(v)
    case None => n.Send(ErrorMsg(INVALID_TAG))
    case Some(c) =>
      if !tagOk then n.Send(ErrorMsg(INVALID_TAG))
      else if c.cs <= n.e.lastCs then n.Send(ErrorMsg(STALE_CHALLENGE))
      else
        // Saved before answering: an answer exists only for a c_S that cannot be replayed.
        var n1 := if save.persists then n.(nvsCs := c.cs) else n;
        if !save.answers then n1
        else
          var n2 := n1.(e := n1.e.(lastCs := c.cs));
          var n3 := if n.e.ack < c.ackSeq <= n.Head() then AdvanceAck(n2, c.ackSeq) else n2;
          Respond(n3, c, io)
  }

  function HandleAck(n: Node, v: bytes, tagOk: bool): Node {
    match DecodeAck(v)
    case None => n.Send(ErrorMsg(INVALID_TAG))
    case Some(a) =>
      if !tagOk then n.Send(ErrorMsg(INVALID_TAG))
      else if a.ackSeq < n.e.ack || a.ackSeq > n.Head() then n.Send(ErrorMsg(INVALID_ACK_SEQ))
      else
        var n1 := if a.ackSeq > n.e.ack then AdvanceAck(n, a.ackSeq) else n;
        if n1.e.hasResponded && a.cConf == n1.e.respondedCs then
          n1.(e := n1.e.(noHsConn := false, noHsBoot := n1.e.noHsBoot && a.anchorFailed, sessionOpen := true)).Notice()
        else n1
  }

  // ---- batches ----

  function HandleBatchRequest(n: Node, v: bytes): Node {
    match DecodeBatchRequest(v)
    case None => n
    case Some(k) =>
      if !n.e.sessionOpen then n.Send(ErrorMsg(NO_SESSION))
      else if k == 0 || n.e.cursor > n.Head() then n
      else
        var end := n.e.cursor + k - 1;
        n.(e := n.e.(batchEnd := if end < n.Head() then end else n.Head(), batchActive := true, batchSent := 0))
  }

  function HandleAppError(n: Node, v: bytes): Node {
    if |v| != 1 || (v[0] != INCOMPLETE && v[0] != RESEND_FROM_BOUNDARY) then n
    else n.(e := n.e.(batchActive := false, cursor := n.e.ack + 1)).Notice()
  }

  /** `onMessage`. */
  function OnMessage(n: Node, msg: bytes, tagOk: bool, save: W.Save, io: set<nat>): Node {
    match ParseTlv(msg)
    case None => n
    case Some(m) =>
      if m.kind == CHALLENGE then HandleChallenge(n, m.value, tagOk, save, io)
      else if m.kind == ACK then HandleAck(n, m.value, tagOk)
      else if m.kind == BATCH_REQUEST then HandleBatchRequest(n, m.value)
      else if m.kind == ERROR then HandleAppError(n, m.value)
      else n
  }

  // ---- sending ----

  /** One call of `sendNextBlock`: files that do not open, the signature of a LOSS, and the link. */
  datatype Luck = Luck(io: set<nat>, sign: Option<bytes>, link: bool)

  /** Extends a run of bad blocks that starts at `s` and is known to reach `to`. */
  function LossEnd(st: Store, s: nat, to: nat, io: set<nat>): (r: nat)
    ensures r >= to
    decreases st.NewestSeq() - to
  {
    if to + 1 <= st.NewestSeq() && to + 1 - s < MAX_LOSS_RUN && Bad(Read(st, to + 1, io))
    then LossEnd(st, s, to + 1, io)
    else to
  }

  function EndBatch(n: Node): Node { n.(e := n.e.(batchActive := false)) }

  function Delivered(n: Node, m: Msg, cursor: nat): Node {
    n.Send(m).(e := n.e.(cursor := cursor, batchSent := n.e.batchSent + 1))
  }

  /** A LOSS goes out signed or not at all; either way a failure ends the batch. */
  function SendLoss(n: Node, s: nat, to: nat, luck: Luck): Node {
    if luck.sign.Some? && luck.link then Delivered(n, LossMsg(s, to, luck.sign.value), to + 1) else EndBatch(n)
  }

  function SendStored(n: Node, b: Block, s: nat, luck: Luck): Node {
    if luck.link then Delivered(n, BlockMsg(b), s + 1) else EndBatch(n)
  }

  /** Nothing is stored at the cursor: a gap the next BOOT declares, or a loss. */
  function SkipMissing(n: Node, s: nat, luck: Luck): (Node, bool) {
    var t := NextStored(n.st.segs, s);
    if t == 0 then (EndBatch(n), false)
    else if IsBootFrom(Read(n.st, t, luck.io), s) then
      (n.(e := n.e.(cursor := t, batchEnd := Max(n.e.batchEnd, t))), true)
    else
      var to := if t > s + MAX_LOSS_RUN then s + MAX_LOSS_RUN - 1 else t - 1;
      (SendLoss(n, s, to, luck), true)
  }

  /** `sendNextBlock`: the new state, and whether to call again. */
  function SendNext(n: Node, luck: Luck): (Node, bool) {
    if !n.e.batchActive then (n, false)
    else if !(n.e.connected && n.e.subscribed && n.e.sessionOpen) || n.e.cursor > n.e.batchEnd then (EndBatch(n), false)
    else
      var n1 := CheckOverflow(n);
      if !n1.e.sessionOpen || !n1.e.batchActive then (n1, false)
      else
        var s := n1.e.cursor;
        match Read(n1.st, s, luck.io)
        case Missing => SkipMissing(n1, s, luck)
        case Broken => (SendLoss(n1, s, LossEnd(n1.st, s, s, luck.io), luck), true)
        case Found(b) =>
          if CrcMatches(b) then (SendStored(n1, b, s, luck), true)
          else (SendLoss(n1, s, LossEnd(n1.st, s, s, luck.io), luck), true)
  }
}
