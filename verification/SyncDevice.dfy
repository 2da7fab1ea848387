/**
 * The device and its sync engine together: the log a device builds is one the engine's results
 * apply to, and what the device commits is what the engine expects of an append.
 */
module SyncDevice {
  import opened Bytes
  import opened BlockFormat
  import opened SegmentFormat
  import opened StoreSpec
  import opened LogSpec
  import opened Recovery
  import opened CommitKeeps
  import opened Boots
  import D = Device
  import W = BlockWriter
  import opened SyncForms
  import opened SyncSafety
  import R = SyncRun
  import B = BlockBuilder

  /** The BOOTs in the log of a running device declare only seqs newer than the record before them. */
  lemma {:induction false} DeviceLogIsSound(c: D.Config, legacy: nat, r: D.Run, log: seq<LogSeg>)
    requires c.Ok() && D.Inv(c, legacy, r, log) && r.x.on
    ensures Sound(r.x.d.st, log)
  {
    hide Flat, SeqOf, ParseMarker, OpenSegments, D.Counting, Consistent, D.Heads;
    forall i | 0 <= i < |Flat(log)|
      ensures DeclaresAt(Flat(log), i)
    {
      BootsDeclare(r.hist, Flat(log), i);
    }
  }

  lemma {:induction false} BootsDeclare(hist: seq<D.Rec>, a: seq<Block>, i: nat)
    requires D.Shaped(hist) && IsSuffix(a, D.Blocks(hist)) && i < |a|
    ensures DeclaresAt(a, i)
  {
    hide SeqOf, ParseMarker;
    var j := i + |hist| - |a|;
    assert D.Linked(hist, j);
    assert D.Blocks(hist)[j] == a[i];
    if i > 0 {
      assert D.Blocks(hist)[j - 1] == a[i - 1];
    }
  }

  /** A record a device commits is newer than its log, and a BOOT declares only newer seqs. */
  lemma {:induction false} CommitFeedsSync(c: D.Config, legacy: nat, r: D.Run, log: seq<LogSeg>, e: D.Event)
    requires c.Ok() && D.Inv(c, legacy, r, log) && D.Enabled(c, r.x, e) && (e.BootRecord? || e.DataRecord?)
    ensures var (d, bs) := D.Subject(r.x, e);
      Writes(d, e.f) ==> Appendable(r.x.d.st, BlockOf(d, bs, e.f)) && R.DeclaresNew(r.x.d.st, BlockOf(d, bs, e.f))
  {
    hide ParseMarker, SeqOf, D.SeqAt, LengthField, OpenSegments, Flat, D.Heads, Consistent, Ready, BlockOf,
        D.BootData, Writes, D.Logged, D.History, Describes;
    var (d, bs) := D.Subject(r.x, e);
    if e.BootRecord? {
      D.BootDataIsBlock(r.x, e.tMs);
    }
    D.IsReady(c, legacy, r, log, d, bs, e.f);
    BlockFits(d, log, bs, c.tagLen, e.f);
    NewestLogged(c, legacy, r, log);
    SameAppendable(r.x, BlockOf(d, bs, e.f));
  }

  lemma {:induction false} SameAppendable(x: D.World, b: Block)
    ensures Appendable(D.BootDevice(x).st, b) == Appendable(x.d.st, b)
  {
  }

  lemma {:induction false} NewestLogged(c: D.Config, legacy: nat, r: D.Run, log: seq<LogSeg>)
    requires D.Inv(c, legacy, r, log) && r.x.on
    ensures r.x.d.st.NewestSeq() == D.SeqAt(r.hist, |r.hist| - 1)
    ensures r.hist != [] ==> D.SeqAt(r.hist, |r.hist| - 1) >= 1
  {
    hide SeqOf, Flat, OpenSegments, D.Heads, D.Linked, D.Counting, D.SeqAt;
    NewestIsLast(r.x.d.st, log);
    D.LastLogged(r.hist, log);
  }

  /** And the append the device makes is the append of the engine's runs. */
  lemma {:induction false} CommitIsFlush(c: D.Config, x: D.World, e: D.Event)
    requires e.BootRecord? || e.DataRecord?
    ensures var (d, bs) := D.Subject(x, e);
      var (s, ok) := R.Flush(x.d.st, c.free, BlockOf(d, bs, e.f), e.BootRecord?, e.f.write1, e.f.write2);
      Writes(d, e.f) ==> W.Committed(d, bs, c.free, e.f).0.st == s && W.Committed(d, bs, c.free, e.f).1 == ok
  {
    hide W.AppendTwice, W.Signed, BootMarker;
  }

  /** What the block builder closes is what the device takes as data. */
  lemma {:induction false} BuilderFeedsDevice(startMs: nat, rs: seq<B.Reading>)
    requires B.AllOk(rs) && startMs < U32_END && HEADER + |B.EncodeAll(rs)| <= MAX_DATA
    ensures D.BlockData(B.DataArea(startMs, rs))
  {
    hide LengthField, ParseMarker, B.DecodeBlock, B.AllOk;
    B.BlockRoundTrip(startMs, rs);
  }

  // ---- the start of the device's life ----

  /** The log of a device stands for nothing before its first durable record. */
  lemma {:induction false} FirstRecordStands(c: D.Config, legacy: nat, r: D.Run, log: seq<LogSeg>)
    requires D.Inv(c, legacy, r, log) && r.hist != []
    ensures forall q: nat :: StandsFor(Flat(log), q) ==> D.SeqAt(r.hist, 0) <= q
  {
    ShapeOf(c, legacy, r, log);
    hide D.Inv, Flat, SeqOf, ParseMarker, D.SeqAt, StandsAt, IsSuffix, D.Shaped;
    forall q: nat | StandsFor(Flat(log), q)
      ensures D.SeqAt(r.hist, 0) <= q
    {
      var i :| 0 <= i < |Flat(log)| && StandsAt(Flat(log)[i], q);
      StandsAboveFirst(r.hist, Flat(log), i, q);
    }
  }

  lemma {:induction false} ShapeOf(c: D.Config, legacy: nat, r: D.Run, log: seq<LogSeg>)
    requires D.Inv(c, legacy, r, log)
    ensures D.Shaped(r.hist) && IsSuffix(Flat(log), D.Blocks(r.hist))
  {
    hide Flat, OpenSegments, D.Counting, D.Heads, Consistent, D.Accounted, D.Linked;
  }

  lemma {:induction false} StandsAboveFirst(hist: seq<D.Rec>, a: seq<Block>, i: nat, q: nat)
    requires D.Shaped(hist) && IsSuffix(a, D.Blocks(hist)) && i < |a| && StandsAt(a[i], q)
    ensures D.SeqAt(hist, 0) <= q
  {
    hide SeqOf, ParseMarker;
    var j := i + |hist| - |a|;
    assert D.Linked(hist, j);
    assert D.Blocks(hist)[j] == a[i];
    if j > 0 {
      D.Ordered(hist, 0, j);
    }
    if j > 1 {
      D.Ordered(hist, 0, j - 1);
    }
  }
}
