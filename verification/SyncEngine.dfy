/** The sync engine (sync/SyncEngine.cpp): each call does what SyncSpec says of the values behind it. */
module SyncEngine {
  import opened Bytes
  import opened BlockFormat
  import opened SegmentFormat
  import opened StoreSpec
  import opened SyncProtocol
  import S = SyncSpec
  import W = BlockWriter
  import BlockStore

  class SyncEngine {
    const store: BlockStore.SegmentLog
    /** Messages so far, and the c_S persisted in NVS. */
    var tx: seq<S.Msg>
    var nvsCs: nat

    var ackLocal: nat
    var cursor: nat
    var batchEnd: nat
    var lastAcceptedCs: nat
    var respondedCs: nat
    var hasResponded: bool
    var sessionOpen: bool
    var noHsConn: bool
    var noHsBoot: bool
    var overflowSeen: nat
    var connected: bool
    var subscribed: bool
    var generation: nat
    var batchActive: bool
    var batchSent: nat

    ghost predicate Valid() reads this, store, store.segments { store.Valid() }

    ghost function State(): S.Engine reads this {
      S.Engine(ackLocal, cursor, batchEnd, lastAcceptedCs, respondedCs, hasResponded, sessionOpen, noHsConn, noHsBoot,
               overflowSeen, connected, subscribed, generation, batchActive, batchSent)
    }

    ghost function Abs(): S.Node
      requires store.segments.Length == MAX_SEGMENTS
      reads this, store, store.segments
    {
      S.Node(State(), store.Abs(), nvsCs, tx)
    }

    constructor (store: BlockStore.SegmentLog, nvsCs: nat)
      requires store.Valid()
      ensures Valid() && this.store == store && this.nvsCs == nvsCs && tx == []
      ensures State() == S.Engine(0, 0, 0, 0, 0, false, false, true, true, 0, false, false, 0, false, 0)
    {
      this.store, this.nvsCs, tx := store, nvsCs, [];
      ackLocal, cursor, batchEnd, lastAcceptedCs, respondedCs := 0, 0, 0, 0, 0;
      hasResponded, sessionOpen, noHsConn, noHsBoot := false, false, true, true;
      overflowSeen, connected, subscribed, generation, batchActive, batchSent := 0, false, false, 0, false, 0;
    }

    method Begin(io: set<nat>)
      requires Valid() && tx == []
      requires State() == S.Engine(0, 0, 0, 0, 0, false, false, true, true, 0, false, false, 0, false, 0)
      modifies this
      ensures Valid() && Abs() == S.Start(old(store.Abs()), old(nvsCs), io)
    {
      hide S.EffectiveTail, BlockStore.SegmentLog.Valid, BlockStore.SegmentLog.Segs, BlockStore.SegmentLog.RingFrom;
      lastAcceptedCs := nvsCs;
      overflowSeen := store.overflow;
      var tail := EffectiveTail(io);
      StartAt(tail);
      noHsBoot := true;
    }

    /** On the 32 bits of the program: the seq before 0 is the largest. */
    method StartAt(tail: nat)
      requires Valid()
      modifies this`ackLocal, this`cursor
      ensures Valid() && ackLocal == (if tail == 0 then U32_END - 1 else tail - 1) && cursor == (ackLocal + 1) % U32_END
    {
      hide BlockStore.SegmentLog.Valid;
      ackLocal := if tail == 0 then U32_END - 1 else tail - 1;
      cursor := (ackLocal + 1) % U32_END;
    }

    method OnConnected(generation: nat)
      requires Valid()
      modifies this
      ensures Valid() && Abs() == S.OnConnected(old(Abs()), generation)
    {
      hide BlockStore.SegmentLog.Valid, BlockStore.SegmentLog.Abs, BlockStore.SegmentLog.Segs,
          BlockStore.SegmentLog.RingFrom;
      Join(generation);
      Forget();
      Rewind();
    }

    method Join(generation: nat)
      requires Valid()
      modifies this`connected, this`subscribed, this`generation
      ensures Valid() && connected && !subscribed && this.generation == generation
    {
      hide BlockStore.SegmentLog.Valid;
      connected, subscribed, this.generation := true, false, generation;
    }

    /** No session, and no answer an ACK could repeat. */
    method Forget()
      requires Valid()
      modifies this`sessionOpen, this`hasResponded, this`noHsConn
      ensures Valid() && !sessionOpen && !hasResponded && noHsConn
    {
      hide BlockStore.SegmentLog.Valid;
      sessionOpen, hasResponded, noHsConn := false, false, true;
    }

    /** Ends the batch and goes back to the first block that is not confirmed. */
    method Rewind()
      requires Valid()
      modifies this`batchActive, this`cursor
      ensures Valid() && !batchActive && cursor == ackLocal + 1
    {
      hide BlockStore.SegmentLog.Valid;
      batchActive := false;
      cursor := ackLocal + 1;
    }

    method OnDisconnected()
      requires Valid()
      modifies this
      ensures Valid() && Abs() == S.OnDisconnected(old(Abs()))
    {
      hide BlockStore.SegmentLog.Valid, BlockStore.SegmentLog.Abs, BlockStore.SegmentLog.Segs,
          BlockStore.SegmentLog.RingFrom;
      connected, subscribed, sessionOpen, batchActive := false, false, false, false;
    }

    method OnSubscribed(on: bool)
      requires Valid()
      modifies this
      ensures Valid() && Abs() == S.OnSubscribed(old(Abs()), on)
    {
      subscribed := on;
      if on {
        SendNotice();
      }
    }

    method SendNotice()
      requires Valid()
      modifies this`tx
      ensures Valid() && Abs() == old(Abs()).Notice()
    {
      if connected && subscribed {
        var head := store.NewestSeq();
        tx := tx + [S.NoticeMsg(head, noHsConn, noHsBoot)];
      }
    }

    method SendError(code: byte)
      requires Valid()
      modifies this`tx
      ensures Valid() && Abs() == old(Abs()).Send(S.ErrorMsg(code))
    {
      tx := tx + [S.ErrorMsg(code)];
    }

    // ---- cursor and flash ----

    method EffectiveTail(io: set<nat>) returns (tail: nat)
      requires Valid()
      ensures tail == S.EffectiveTail(store.Abs(), io)
    {
      hide CrcMatches, ParseMarker;
      tail := store.OldestSeq();
      if store.count == 0 {
        return 1;
      }
      var r := store.Read(tail, io);
      if r.Found? && CrcMatches(r.block) {
        var m := ParseMarker(r.block.data);
        if m.Boot? && m.from <= tail {
          tail := m.from;
        }
      }
    }

    method AdvanceAck(ack: nat)
      requires Valid()
      modifies this, store
      ensures Valid() && Abs() == S.AdvanceAck(old(Abs()), ack)
    {
      hide StoreSpec.DeleteUpTo, BlockStore.SegmentLog.Valid, BlockStore.SegmentLog.Abs, BlockStore.SegmentLog.Segs,
          BlockStore.SegmentLog.RingFrom;
      ackLocal := ack;
      var freed := store.DeleteUpTo(ack);
      if cursor < ack + 1 {
        cursor := ack + 1;
      }
      if batchActive && batchEnd < cursor {
        batchActive := false;
      }
    }

    method Suspend()
      requires Valid()
      modifies this`batchActive, this`noHsConn, this`sessionOpen
      ensures Valid() && !batchActive && noHsConn && !sessionOpen
    {
      hide BlockStore.SegmentLog.Valid;
      batchActive, noHsConn, sessionOpen := false, true, false;
    }

    method CheckOverflow()
      requires Valid()
      modifies this
      ensures Valid() && Abs() == S.CheckOverflow(old(Abs()))
    {
      assert store.Abs().overflow == store.overflow;
      hide BlockStore.SegmentLog.Valid, BlockStore.SegmentLog.Abs, BlockStore.SegmentLog.Segs,
          BlockStore.SegmentLog.RingFrom;
      var up := store.overflow;
      if up <= overflowSeen {
        return;
      }
      overflowSeen := up;
      if up <= ackLocal {
        return;
      }
      Suspend();
      SendNotice();
    }

    method OnFlushed()
      requires Valid()
      modifies this
      ensures Valid() && Abs() == S.OnFlushed(old(Abs()))
    {
      hide S.CheckOverflow, BlockStore.SegmentLog.Valid, BlockStore.SegmentLog.Abs;
      CheckOverflow();
      SendNotice();
    }

    method Tick(due: bool)
      requires Valid()
      modifies this
      ensures Valid() && Abs() == S.Tick(old(Abs()), due)
    {
      var before := |tx|;
      CheckOverflow();
      if due && |tx| == before && connected && subscribed && noHsConn {
        SendNotice();
      }
    }

    // ---- messages ----

    method OnMessage(msg: bytes, tagOk: bool, save: W.Save, io: set<nat>)
      requires Valid()
      modifies this, store
      ensures Valid() && Abs() == S.OnMessage(old(Abs()), msg, tagOk, save, io)
    {
      hide ParseTlv, S.HandleChallenge, S.HandleAck, S.HandleBatchRequest, S.HandleAppError;
      var parsed := ParseTlv(msg);
      if parsed.None? {
        return;
      }
      var kind, v := parsed.value.kind, parsed.value.value;
      if kind == CHALLENGE {
        HandleChallenge(v, tagOk, save, io);
      } else if kind == ACK {
        HandleAck(v, tagOk);
      } else if kind == BATCH_REQUEST {
        HandleBatchRequest(v);
      } else if kind == ERROR {
        HandleAppError(v);
      }
    }

    method HandleChallenge(v: bytes, tagOk: bool, save: W.Save, io: set<nat>)
      requires Valid()
      modifies this, store
      ensures Valid() && Abs() == S.HandleChallenge(old(Abs()), v, tagOk, save, io)
    {
      hide DecodeChallenge, S.Respond, S.AdvanceAck, BlockStore.SegmentLog.Valid, BlockStore.SegmentLog.Abs,
          BlockStore.SegmentLog.Segs, BlockStore.SegmentLog.RingFrom;
      var decoded := DecodeChallenge(v);
      if decoded.None? || !tagOk {
        SendError(INVALID_TAG);
        return;
      }
      var c := decoded.value;
      if c.cs <= lastAcceptedCs {
        SendError(STALE_CHALLENGE);
        return;
      }
      if save.persists {
        nvsCs := c.cs;
      }
      if !save.answers {
        return;
      }
      lastAcceptedCs := c.cs;
      var head := store.NewestSeq();
      if ackLocal < c.ackSeq <= head {
        AdvanceAck(c.ackSeq);
      }
      Respond(c, io);
    }

    method Respond(c: Challenge, io: set<nat>)
      requires Valid()
      modifies this`tx, this`respondedCs, this`hasResponded
      ensures Valid() && Abs() == S.Respond(old(Abs()), c, io)
    {
      hide S.EffectiveTail, BlockStore.SegmentLog.Valid, BlockStore.SegmentLog.Segs, BlockStore.SegmentLog.RingFrom;
      var head := store.NewestSeq();
      var tail := EffectiveTail(io);
      tx := tx + [S.ResponseMsg(c.cs, c.nonce, head, tail)];
      respondedCs, hasResponded := c.cs, true;
    }

    method OpenSession(anchorFailed: bool)
      requires Valid()
      modifies this`noHsConn, this`noHsBoot, this`sessionOpen
      ensures Valid() && !noHsConn && noHsBoot == (old(noHsBoot) && anchorFailed) && sessionOpen
    {
      hide BlockStore.SegmentLog.Valid;
      noHsConn := false;
      if !anchorFailed {
        noHsBoot := false;
      }
      sessionOpen := true;
    }

    method HandleAck(v: bytes, tagOk: bool)
      requires Valid()
      modifies this, store
      ensures Valid() && Abs() == S.HandleAck(old(Abs()), v, tagOk)
    {
      hide DecodeAck, S.AdvanceAck, BlockStore.SegmentLog.Valid, BlockStore.SegmentLog.Abs, BlockStore.SegmentLog.Segs,
          BlockStore.SegmentLog.RingFrom, S.Node.Notice;
      var decoded := DecodeAck(v);
      if decoded.None? || !tagOk {
        SendError(INVALID_TAG);
        return;
      }
      var a := decoded.value;
      var head := store.NewestSeq();
      if a.ackSeq < ackLocal || a.ackSeq > head {
        SendError(INVALID_ACK_SEQ);
        return;
      }
      if a.ackSeq > ackLocal {
        AdvanceAck(a.ackSeq);
      }
      if hasResponded && a.cConf == respondedCs {
        OpenSession(a.anchorFailed);
        SendNotice();
      }
    }

    method HandleBatchRequest(v: bytes)
      requires Valid()
      modifies this
      ensures Valid() && Abs() == S.HandleBatchRequest(old(Abs()), v)
    {
      hide DecodeBatchRequest, BlockStore.SegmentLog.Valid, BlockStore.SegmentLog.Segs, BlockStore.SegmentLog.RingFrom;
      var decoded := DecodeBatchRequest(v);
      if decoded.None? {
        return;
      }
      var k := decoded.value;
      var head := store.NewestSeq();
      if !sessionOpen {
        SendError(NO_SESSION);
        return;
      }
      if k == 0 || cursor > head {
        return;
      }
      var end := cursor + k - 1;
      batchEnd := if end < head then end else head;
      batchActive, batchSent := true, 0;
    }

    method HandleAppError(v: bytes)
      requires Valid()
      modifies this
      ensures Valid() && Abs() == S.HandleAppError(old(Abs()), v)
    {
      if |v| != 1 || (v[0] != INCOMPLETE && v[0] != RESEND_FROM_BOUNDARY) {
        return;
      }
      Rewind();
      SendNotice();
    }

    // ---- batches ----

    method FindLossEnd(s: nat, io: set<nat>) returns (to: nat)
      requires Valid()
      ensures to == S.LossEnd(store.Abs(), s, s, io)
    {
      hide CrcMatches, StoreSpec.Read, BlockStore.SegmentLog.Valid, BlockStore.SegmentLog.Segs,
          BlockStore.SegmentLog.RingFrom;
      to := s;
      var head := store.NewestSeq();
      while to + 1 <= head && to + 1 - s < S.MAX_LOSS_RUN
        invariant to >= s
        invariant S.LossEnd(store.Abs(), s, s, io) == S.LossEnd(store.Abs(), s, to, io)
        decreases head - to
      {
        var r := store.Read(to + 1, io);
        if !(r.Broken? || (r.Found? && !CrcMatches(r.block))) {
          return;
        }
        to := to + 1;
      }
    }

    method SendLoss(s: nat, to: nat, luck: S.Luck)
      requires Valid()
      modifies this
      ensures Valid() && Abs() == S.SendLoss(old(Abs()), s, to, luck)
    {
      var ok := false;
      if luck.sign.Some? {
        ok := luck.link;
        if ok {
          tx := tx + [S.LossMsg(s, to, luck.sign.value)];
          cursor := to + 1;
          batchSent := batchSent + 1;
        }
      }
      if !ok {
        batchActive := false;
      }
    }

    method SendStored(b: Block, luck: S.Luck)
      requires Valid()
      modifies this
      ensures Valid() && Abs() == S.SendStored(old(Abs()), b, old(cursor), luck)
    {
      if luck.link {
        tx := tx + [S.BlockMsg(b)];
        cursor := cursor + 1;
        batchSent := batchSent + 1;
      } else {
        batchActive := false;
      }
    }

    method SendNextBlock(luck: S.Luck) returns (again: bool)
      requires Valid()
      modifies this
      ensures Valid() && (Abs(), again) == S.SendNext(old(Abs()), luck)
    {
      hide CrcMatches, StoreSpec.Read, S.LossEnd, S.SkipMissing, S.CheckOverflow, BlockStore.SegmentLog.Valid,
          BlockStore.SegmentLog.Segs, BlockStore.SegmentLog.RingFrom;
      if !batchActive {
        return false;
      }
      if !(connected && subscribed && sessionOpen) || cursor > batchEnd {
        batchActive := false;
        return false;
      }
      CheckOverflow();
      if !sessionOpen || !batchActive {
        return false;
      }
      var s := cursor;
      var r := store.Read(s, luck.io);
      match r {
        case Missing =>
          again := SkipMissing(luck);
        case Broken =>
          var to := FindLossEnd(s, luck.io);
          SendLoss(s, to, luck);
          again := true;
        case Found(b) =>
          if CrcMatches(b) {
            SendStored(b, luck);
          } else {
            var to := FindLossEnd(s, luck.io);
            SendLoss(s, to, luck);
          }
          again := true;
      }
    }

    /** Over the gap a BOOT declares; the batch reaches at least to it. */
    method JumpTo(t: nat)
      requires Valid()
      modifies this`cursor, this`batchEnd
      ensures Valid() && cursor == t && batchEnd == Max(old(batchEnd), t)
    {
      hide BlockStore.SegmentLog.Valid;
      cursor := t;
      if batchEnd < t {
        batchEnd := t;
      }
    }

    /** The last part of `sendNextBlock`: nothing is stored at the cursor. */
    method SkipMissing(luck: S.Luck) returns (again: bool)
      requires Valid()
      modifies this
      ensures Valid() && (Abs(), again) == S.SkipMissing(old(Abs()), old(cursor), luck)
    {
      hide CrcMatches, StoreSpec.Read, ParseMarker, NextStored, BlockStore.SegmentLog.Valid,
          BlockStore.SegmentLog.Segs, BlockStore.SegmentLog.RingFrom, S.SendLoss;
      var s := cursor;
      var t := store.NextStoredSeq(s);
      if t == 0 {
        batchActive := false;
        return false;
      }
      var r := store.Read(t, luck.io);
      if r.Found? && CrcMatches(r.block) {
        var m := ParseMarker(r.block.data);
        if m.Boot? && m.from <= s {
          JumpTo(t);
          return true;
        }
      }
      NextAfter(store.Abs(), s);
      var to := t - 1;
      if to - s + 1 > S.MAX_LOSS_RUN {
        to := s + S.MAX_LOSS_RUN - 1;
      }
      SendLoss(s, to, luck);
      again := true;
    }
  }

  lemma {:induction false} NextAfter(st: Store, s: nat)
    ensures NextStored(st.segs, s) != 0 ==> NextStored(st.segs, s) >= s
  {
    NextAfterIn(st.segs, s);
  }

  lemma {:induction false} NextAfterIn(segs: seq<Segment>, s: nat)
    ensures NextStored(segs, s) != 0 ==> NextStored(segs, s) >= s
  {
    if segs != [] {
      NextAfterIn(segs[1..], s);
    }
  }
}
