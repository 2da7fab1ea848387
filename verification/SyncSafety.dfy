/** Safety of the sync engine, one call at a time. */
module SyncSafety {
  import opened Bytes
  import opened BlockFormat
  import opened SegmentFormat
  import opened StoreSpec
  import opened LogSpec
  import opened Recovery
  import opened CommitKeeps
  import opened SyncProtocol
  import opened SyncSpec
  import opened SyncForms
  import W = BlockWriter

  // ---- the cursor ----

  /** ACK < cursor <= HEAD + 1, and a batch never reaches past HEAD. */
  predicate InBounds(n: Node) {
    n.e.ack < n.e.cursor <= n.Head() + 1 && (n.e.batchActive ==> n.e.batchEnd <= n.Head())
  }

  lemma {:induction false} HeadStays(st: Store, log: seq<LogSeg>, upTo: nat)
    requires Describes(st, log)
    ensures DeleteUpTo(st, upTo).NewestSeq() == st.NewestSeq()
  {
    hide Describes, DeleteUpTo, Flat, SeqOf;
    var log' := DeleteFrees(st, log, upTo);
    FreedEmpty(st, log, upTo, log');
  }

  lemma {:induction false} FreedEmpty(st: Store, log: seq<LogSeg>, upTo: nat, log': seq<LogSeg>)
    requires Describes(st, log) && Freed(st, log, upTo, DeleteUpTo(st, upTo), log')
    ensures st.segs == [] ==> DeleteUpTo(st, upTo).segs == []
  {
    hide Flat, SeqOf, FlashOf, LogWf;
  }

  lemma {:induction false} BoundsKept(n: Node, log: seq<LogSeg>, n': Node, io: set<nat>, form: Form)
    requires Describes(n.st, log) && InBounds(n) && Took(n, n', io, form)
    ensures InBounds(n') && n'.e.ack >= n.e.ack && n'.Head() == n.Head()
  {
    if form.Acked? {
      HeadStays(n.st, log, form.upTo);
    }
    hide Describes, Read, Stored, IsBootFrom, Intact, Carried, DeleteUpTo;
  }

  /** Where the log is rebuilt, the engine starts at the effective tail. */
  lemma {:induction false} StartInBounds(st: Store, log: seq<LogSeg>, nvsCs: nat, io: set<nat>)
    requires Sound(st, log)
    ensures InBounds(Start(st, nvsCs, io)) && Start(st, nvsCs, io).e.cursor == Start(st, nvsCs, io).e.ack + 1
    ensures Start(st, nvsCs, io).tx == [] && Start(st, nvsCs, io).st == st && !Start(st, nvsCs, io).e.batchActive
  {
    hide Describes, Read, ParseMarker, CrcMatches, Flat, SeqOf;
    var oldest := st.OldestSeq();
    StoredBounds(st, log, oldest);
    if st.segs != [] && IsBootFrom(Read(st, oldest, io), oldest) {
      IntactOpened(st, oldest, io);
      var i := ReadHeld(st, log, oldest);
      assert DeclaresAt(Flat(log), i);
    }
    SmallHead(st, log);
  }

  lemma {:induction false} SmallHead(st: Store, log: seq<LogSeg>)
    requires Describes(st, log)
    ensures st.NewestSeq() < U32_END
  {
    NewestIsLast(st, log);
  }

  // ---- progress ----

  /** Calling `sendNextBlock` with the log at rest. */
  function Drain(n: Node, lucks: seq<Luck>): Node
    decreases |lucks|
  {
    if lucks == [] then n else Drain(SendNext(n, lucks[0]).0, lucks[1..])
  }

  /** Each call ends the batch or moves the cursor up, and it never passes HEAD + 1. */
  lemma {:induction false} SendNextProgresses(n: Node, log: seq<LogSeg>, luck: Luck)
    requires Describes(n.st, log) && InBounds(n)
    ensures var n' := SendNext(n, luck).0;
      && n'.st == n.st && InBounds(n')
      && (n'.e.batchActive ==> n.e.cursor < n'.e.cursor)
  {
    hide Describes, SendNext, Read, Stored, IsBootFrom, Intact, Carried;
    var form := SendNextIs(n, log, luck);
    BoundsKept(n, log, SendNext(n, luck).0, luck.io, form);
  }

  /** However files, signatures and the link behave, a batch ends after at most HEAD + 2 - cursor calls. */
  lemma {:induction false} BatchEnds(n: Node, log: seq<LogSeg>, lucks: seq<Luck>)
    requires Describes(n.st, log) && InBounds(n) && |lucks| > n.Head() + 1 - n.e.cursor
    ensures !Drain(n, lucks).e.batchActive
    decreases |lucks|
  {
    hide SendNext, Describes;
    SendNextProgresses(n, log, lucks[0]);
    var n' := SendNext(n, lucks[0]).0;
    if n'.e.batchActive {
      BatchEnds(n', log, lucks[1..]);
    } else {
      StaysEnded(n', lucks[1..]);
    }
  }

  lemma {:induction false} StaysEnded(n: Node, lucks: seq<Luck>)
    requires !n.e.batchActive
    ensures Drain(n, lucks) == n
    decreases |lucks|
  {
    if lucks != [] {
      StaysEnded(n, lucks[1..]);
    }
  }

  // ---- no block twice ----

  function Lo(m: Msg): nat {
    match m
    case BlockMsg(b) => SeqOf(b)
    case LossMsg(from, _, _) => from
    case _ => 0
  }

  function Hi(m: Msg): nat {
    match m
    case BlockMsg(b) => SeqOf(b)
    case LossMsg(_, to, _) => to
    case _ => 0
  }

  /** Messages since the last rewind: in increasing order of seq, all below the cursor. */
  ghost predicate InOrder(since: seq<Msg>, cursor: nat) {
    && (forall i :: 0 <= i < |since| ==> CarriesBlock(since[i]) && Lo(since[i]) <= Hi(since[i]) < cursor)
    && (forall i, j :: 0 <= i < j < |since| ==> Hi(since[i]) < Lo(since[j]))
  }

  /** The messages since the last rewind, after a call of this form. */
  function NextSince(n: Node, form: Form, since: seq<Msg>): seq<Msg> {
    match form
    case Rewind => []
    case SentBlock(b) => since + [BlockMsg(b)]
    case SentLoss(to, tag) => since + [LossMsg(n.e.cursor, to, tag)]
    case _ => since
  }

  lemma {:induction false} OrderKept(n: Node, n': Node, io: set<nat>, form: Form, since: seq<Msg>)
    requires Took(n, n', io, form) && InOrder(since, n.e.cursor)
    ensures InOrder(NextSince(n, form, since), n'.e.cursor)
  {
    hide Read, Stored, IsBootFrom, Intact, Carried, SeqOf, DeleteUpTo;
    if form.SentBlock? {
      OrderMore(since, n.e.cursor, BlockMsg(form.b));
    } else if form.SentLoss? {
      OrderMore(since, n.e.cursor, LossMsg(n.e.cursor, form.to, form.tag));
    }
  }

  lemma {:induction false} OrderMore(since: seq<Msg>, cursor: nat, m: Msg)
    requires InOrder(since, cursor) && CarriesBlock(m) && Lo(m) == cursor <= Hi(m)
    ensures InOrder(since + [m], Hi(m) + 1)
  {
    hide Lo, Hi;
  }

  // ---- the credit of a batch ----

  function Remaining(e: Engine): nat { if e.cursor <= e.batchEnd then e.batchEnd - e.cursor + 1 else 0 }

  /** `spent` messages since the last accepted request, which asked for `credit`. */
  predicate WithinCredit(n: Node, credit: nat, spent: nat) {
    && spent <= credit
    && (n.e.batchActive ==> spent == n.e.batchSent && spent + Remaining(n.e) <= credit)
  }

  function NextCredit(form: Form, credit: nat): nat { if form.Began? then form.k else credit }

  function NextSpent(form: Form, spent: nat): nat {
    if form.Began? then 0 else if form.SentBlock? || form.SentLoss? then spent + 1 else spent
  }

  /** A request for `k` blocks leads to at most `k` messages, even when a BOOT gap moves the end of the batch. */
  lemma {:induction false} CreditKept(n: Node, n': Node, io: set<nat>, form: Form, credit: nat, spent: nat)
    requires Took(n, n', io, form) && WithinCredit(n, credit, spent)
    ensures WithinCredit(n', NextCredit(form, credit), NextSpent(form, spent))
  {
    hide Read, Stored, IsBootFrom, Intact, Carried, SeqOf, DeleteUpTo;
  }

  // ---- truthful LOSS markers ----

  /**
   * A LOSS names at most 64 seqs, and in that very call each of them was absent from the log,
   * unreadable, or failing its CRC.
   */
  lemma {:induction false} LossIsTruthful(n: Node, log: seq<LogSeg>, luck: Luck, from: nat, to: nat, tag: bytes)
    requires Describes(n.st, log) && InBounds(n)
    requires Carried(SendNext(n, luck).0.tx) == Carried(n.tx) + [LossMsg(from, to, tag)]
    ensures from <= to < from + 64 && to <= n.Head()
    ensures forall q :: from <= q <= to ==> !Intact(Read(n.st, q, luck.io))
  {
    hide Describes, SendNext, Read, Stored, IsBootFrom, Intact, Carried;
    var form := SendNextIs(n, log, luck);
    var tx, m := Carried(n.tx), LossMsg(from, to, tag);
    match form
    case SentBlock(b) => SameLast(tx, m, BlockMsg(b));
    case SentLoss(end, t) => SameLast(tx, m, LossMsg(n.e.cursor, end, t));
    case _ => NoMore(tx, m);
  }

  lemma {:induction false} SameLast<T>(s: seq<T>, a: T, b: T)
    requires s + [a] == s + [b]
    ensures a == b
  {
    assert (s + [a])[|s|] == a;
  }

  lemma {:induction false} NoMore<T>(s: seq<T>, a: T)
    ensures s + [a] != s
  {
    assert |s + [a]| == |s| + 1;
  }

  /** While a discard of unconfirmed blocks has not been told, nothing is sent: the call closes the session instead. */
  lemma {:induction false} LossIsToldFirst(n: Node, log: seq<LogSeg>, luck: Luck)
    requires Describes(n.st, log) && InBounds(n)
    requires n.st.overflow > n.e.overflowSeen && n.st.overflow > n.e.ack
    ensures Carried(SendNext(n, luck).0.tx) == Carried(n.tx) && !SendNext(n, luck).0.e.batchActive
    ensures var n' := CheckOverflow(n); !n'.e.sessionOpen && !n'.e.batchActive && n'.e.noHsConn
  {
    hide Describes, Read, Stored, IsBootFrom, Intact, Carried;
    var form := SendNextIs(n, log, luck);
  }

  // ---- the tail ----

  /** Seqs the log stands for: those of its records, and the ranges its BOOTs declare. */
  ghost predicate StandsFor(r: seq<Block>, q: nat) {
    exists i :: 0 <= i < |r| && StandsAt(r[i], q)
  }

  predicate StandsAt(b: Block, q: nat) {
    var m := ParseMarker(b.data);
    SeqOf(b) == q || (m.Boot? && m.from <= q <= SeqOf(b))
  }

  /**
   * The tail the dongle reports, and takes for the seq after the ACK at boot, is the least seq the
   * log stands for if the oldest record is read intact, and the least stored one otherwise.
   */
  lemma {:induction false} TailIsLeast(st: Store, log: seq<LogSeg>, io: set<nat>)
    requires Sound(st, log) && st.segs != []
    ensures var tail := EffectiveTail(st, io);
      if Intact(Read(st, st.OldestSeq(), io))
      then StandsFor(Flat(log), tail) && forall q: nat :: StandsFor(Flat(log), q) ==> tail <= q
      else Stored(st, tail) && forall q: nat :: Stored(st, q) ==> tail <= q
  {
    hide Describes, Read, Flat, SeqOf, Stored, Consistent, StandsFor, Declaring, CrcMatches, ParseMarker, StandsAt;
    SoundDescribes(st, log);
    var oldest, r := st.OldestSeq(), Flat(log);
    forall q: nat
      ensures Stored(st, q) ==> oldest <= q
      ensures st.segs != [] ==> Stored(st, oldest)
    {
      StoredBounds(st, log, q);
    }
    if Intact(Read(st, oldest, io)) {
      var i := OldestIsFirst(st, log);
      IntactOpened(st, oldest, io);
      var tail := EffectiveTail(st, io);
      assert StandsAt(r[0], tail) by {
        StandsFirst(r[0], oldest, tail);
      }
      assert StandsFor(r, tail) by {
        StandsSome(r, 0, tail);
      }
      forall q: nat | StandsFor(r, q)
        ensures tail <= q
      {
        TailBelow(st, log, q, tail);
      }
    }
  }

  lemma {:induction false} StandsSome(r: seq<Block>, i: nat, q: nat)
    requires i < |r| && StandsAt(r[i], q)
    ensures StandsFor(r, q)
  {
    hide StandsAt;
  }

  lemma {:induction false} StandsFirst(b: Block, oldest: nat, tail: nat)
    requires SeqOf(b) == oldest
    requires var m := ParseMarker(b.data); tail == if m.Boot? && m.from <= oldest then m.from else oldest
    ensures StandsAt(b, tail)
  {
  }

  lemma {:induction false} OldestIsFirst(st: Store, log: seq<LogSeg>) returns (i: nat)
    requires Describes(st, log) && st.segs != []
    ensures |Flat(log)| > 0 && i == 0 && SeqOf(Flat(log)[0]) == st.OldestSeq()
    ensures Read(st, st.OldestSeq(), {}) == Found(Flat(log)[0])
    ensures forall j :: 0 <= j < |Flat(log)| ==> st.OldestSeq() <= SeqOf(Flat(log)[j])
  {
    FlatIncreasing(log);
    hide Describes, Read, Flat, SeqOf, Stored;
    StoredBounds(st, log, st.OldestSeq());
    i := ReadHeld(st, log, st.OldestSeq());
    forall j | 0 <= j < |Flat(log)|
      ensures st.OldestSeq() <= SeqOf(Flat(log)[j])
    {
      ReadIsLookup(st, log, j);
      ReadUnder(st, SeqOf(Flat(log)[j]), {});
      StoredBounds(st, log, SeqOf(Flat(log)[j]));
    }
    FirstIsLeast(Flat(log), i);
    i := 0;
  }

  lemma {:induction false} FirstIsLeast(r: seq<Block>, i: nat)
    requires Increasing(r) && i < |r|
    ensures SeqOf(r[i]) <= SeqOf(r[0]) ==> i == 0
  {
    hide SeqOf;
  }

  lemma {:induction false} TailBelow(st: Store, log: seq<LogSeg>, q: nat, tail: nat)
    requires Sound(st, log) && st.segs != [] && StandsFor(Flat(log), q)
    requires |Flat(log)| > 0 && SeqOf(Flat(log)[0]) == st.OldestSeq()
    requires var m := ParseMarker(Flat(log)[0].data);
      tail == if m.Boot? && m.from <= st.OldestSeq() then m.from else st.OldestSeq()
    ensures tail <= q
  {
    hide Describes, Read, Flat, SeqOf, Stored, Consistent, ParseMarker;
    SoundDescribes(st, log);
    var i := OldestIsFirst(st, log);
    var r := Flat(log);
    var j :| 0 <= j < |r| && StandsAt(r[j], q);
    assert DeclaresAt(r, j);
  }

  /** The data area a LOSS goes out with is the marker of its range, and it fits the transmit buffer. */
  lemma {:induction false} LossReadsBack(m: Msg)
    requires m.LossMsg? && m.from <= m.to < U32_END && |m.tag| <= MAX_TAG
    ensures var data := LossMarker(m.from, m.to);
      && BlockSeq(data) == m.from && ParseMarker(data) == Loss(m.from, m.to)
      && |data| + |m.tag| <= MAX_BLOCK_VALUE
  {
    hide BlockSeq, ParseMarker;
    MarkerRoundTrip(m.from, 0, 0, LOSS_TYPE, m.from, m.to);
  }

  /** What is sent fits the transmit buffer, whatever the bytes on flash. */
  lemma {:induction false} SentFits(st: Store, s: nat, io: set<nat>)
    ensures Read(st, s, io).Found? ==>
      var b := Read(st, s, io).block; HEADER <= |b.data| && |b.data| + |b.tag| <= MAX_BLOCK_VALUE
  {
    hide NextRecord, BlockSeq, RecordAt;
    if Read(st, s, io).Found? {
      var file := st.flash[st.segs[Locate(st.segs, s)].first];
      FoundIsSized(file[SEGMENT_HEADER..], file[5], s - st.segs[Locate(st.segs, s)].first);
    }
  }

  lemma {:induction false} FoundIsSized(bs: bytes, tagLen: nat, index: nat)
    requires RecordAt(bs, tagLen, index).Found?
    ensures Sized(RecordAt(bs, tagLen, index).block, tagLen)
    decreases index
  {
    NextIsSized(bs, tagLen);
    hide NextRecord, Sized;
    if index > 0 {
      FoundIsSized(NextRecord(bs, tagLen).rest, tagLen, index - 1);
    }
  }

  // ---- no gap in what was sent ----

  /** A block stands for its seq, a BOOT also for the range it declares, a LOSS for its range. */
  predicate CoversMsg(m: Msg, q: nat) {
    match m
    case BlockMsg(b) =>
      || SeqOf(b) == q
      || (var k := ParseMarker(b.data); k.Boot? && k.from <= q <= SeqOf(b))
    case LossMsg(from, to, _) => from <= q <= to
    case _ => false
  }

  ghost predicate Covers(since: seq<Msg>, q: nat) {
    exists i :: 0 <= i < |since| && CoversMsg(since[i], q)
  }

  /** In the gap declared by the intact BOOT at the cursor, which is next to be sent. */
  predicate Owed(n: Node, q: nat) {
    q < n.e.cursor && IsBootFrom(Read(n.st, n.e.cursor, {}), q)
  }

  predicate Uncovered(n: Node, mark: nat, q: nat) { mark < q < n.e.cursor && q > n.e.ack }

  /** Every seq between the ACK at the last rewind and the cursor is confirmed, sent, or about to be. */
  ghost predicate GapFree(n: Node, mark: nat, since: seq<Msg>) {
    forall q :: Uncovered(n, mark, q) ==> Covers(since, q) || Owed(n, q)
  }

  /** Some seq below the cursor hangs on the BOOT at the cursor. */
  ghost predicate InDebt(n: Node, mark: nat, since: seq<Msg>) {
    exists q :: Uncovered(n, mark, q) && !Covers(since, q)
  }

  lemma {:induction false} CoversMore(since: seq<Msg>, m: Msg, q: nat)
    ensures Covers(since + [m], q) <==> Covers(since, q) || CoversMsg(m, q)
  {
    hide CoversMsg;
    if Covers(since, q) {
      var i :| 0 <= i < |since| && CoversMsg(since[i], q);
      assert (since + [m])[i] == since[i];
    }
    if CoversMsg(m, q) {
      assert (since + [m])[|since|] == m;
    }
  }

  /** Deleting confirmed segments does not touch what is above. */
  lemma {:induction false} ReadAbove(st: Store, log: seq<LogSeg>, a: nat, s: nat)
    requires Describes(st, log) && s > a
    ensures Read(DeleteUpTo(st, a), s, {}) == Read(st, s, {})
  {
    hide Read, Describes, Flat, SeqOf, DeleteUpTo, Holds;
    var log' := DeleteFrees(st, log, a);
    FreedSuffix(st, log, a, log', s);
    StoredIsHeld(st, log, s);
    StoredIsHeld(DeleteUpTo(st, a), log', s);
    if Holds(Flat(log), s) {
      SameRecord(st, log, DeleteUpTo(st, a), log', s);
    }
  }

  /** What is above the confirmed seqs is still held. */
  lemma {:induction false} FreedSuffix(st: Store, log: seq<LogSeg>, a: nat, log': seq<LogSeg>, s: nat)
    requires Freed(st, log, a, DeleteUpTo(st, a), log') && s > a
    ensures Describes(DeleteUpTo(st, a), log') && IsSuffix(Flat(log'), Flat(log))
    ensures Holds(Flat(log'), s) <==> Holds(Flat(log), s)
  {
    hide Describes, Flat, SeqOf, DeleteUpTo, Holds;
    TailHolds(Flat(log'), Flat(log), a, s);
  }

  lemma {:induction false} TailHolds(r': seq<Block>, r: seq<Block>, a: nat, s: nat)
    requires IsSuffix(r', r) && s > a && forall i :: 0 <= i < |r| - |r'| ==> SeqOf(r[i]) <= a
    ensures Holds(r', s) <==> Holds(r, s)
  {
    hide SeqOf;
    SuffixHolds(r', r, s);
    if Holds(r, s) {
      var i :| 0 <= i < |r| && SeqOf(r[i]) == s;
      assert r'[i - (|r| - |r'|)] == r[i];
    }
  }

  /** Two logs, one the tail of the other, give the same record for a seq both hold. */
  lemma {:induction false} SameRecord(st: Store, log: seq<LogSeg>, st': Store, log': seq<LogSeg>, s: nat)
    requires Describes(st, log) && Describes(st', log') && IsSuffix(Flat(log'), Flat(log)) && Holds(Flat(log'), s)
    ensures Read(st', s, {}) == Read(st, s, {})
  {
    hide Read, Describes, Flat, SeqOf;
    var i :| 0 <= i < |Flat(log')| && SeqOf(Flat(log')[i]) == s;
    var d := |Flat(log)| - |Flat(log')|;
    assert Flat(log)[d + i] == Flat(log')[i];
    ReadIsLookup(st', log', i);
    ReadIsLookup(st, log, d + i);
  }

  lemma {:induction false} SuffixHolds(a: seq<Block>, b: seq<Block>, s: nat)
    requires IsSuffix(a, b)
    ensures Holds(a, s) ==> Holds(b, s)
  {
    hide SeqOf;
    if Holds(a, s) {
      var i :| 0 <= i < |a| && SeqOf(a[i]) == s;
      assert b[|b| - |a| + i] == a[i];
    }
  }

  lemma {:induction false} AckedGapFree(n: Node, log: seq<LogSeg>, n': Node, io: set<nat>, a: nat, mark: nat,
      since: seq<Msg>)
    requires Describes(n.st, log) && Took(n, n', io, Acked(a)) && GapFree(n, mark, since)
    ensures GapFree(n', mark, since)
  {
    hide Describes, Read, IsBootFrom, Carried, Covers, DeleteUpTo;
    if n'.e.cursor == n.e.cursor {
      ReadAbove(n.st, log, a, n.e.cursor);
      forall q: nat | Uncovered(n', mark, q)
        ensures Covers(since, q) || Owed(n', q)
      {
        assert Uncovered(n, mark, q);
      }
    }
  }

  /** A jump to a BOOT leaves the gap it declares to be covered by it. */
  lemma {:induction false} JumpGapFree(n: Node, n': Node, io: set<nat>, t: nat, mark: nat, since: seq<Msg>)
    requires Took(n, n', io, Jumped(t)) && GapFree(n, mark, since)
    ensures GapFree(n', mark, since)
  {
    hide Read, Carried, Covers, Stored;
    assert !Stored(n.st, n.e.cursor);
    ReadUnder(n.st, n.e.cursor, {});
    forall q: nat | Uncovered(n', mark, q)
      ensures Covers(since, q) || Owed(n', q)
    {
      if q < n.e.cursor {
        assert Uncovered(n, mark, q);
      }
    }
  }

  lemma {:induction false} BlockGapFree(n: Node, n': Node, io: set<nat>, b: Block, mark: nat, since: seq<Msg>)
    requires Took(n, n', io, SentBlock(b)) && GapFree(n, mark, since)
    ensures GapFree(n', mark, since + [BlockMsg(b)])
  {
    hide Carried, Covers, Stored, Read, SeqOf, ParseMarker, CrcMatches;
    ReadUnder(n.st, n.e.cursor, io);
    forall q: nat | Uncovered(n', mark, q)
      ensures Covers(since + [BlockMsg(b)], q)
    {
      CoversMore(since, BlockMsg(b), q);
      if q < n.e.cursor {
        assert Uncovered(n, mark, q);
      }
    }
  }

  /** A BOOT declares nothing that an older stored record already is. */
  lemma {:induction false} BootStartsAbove(st: Store, log: seq<LogSeg>, s: nat, t: nat, q: nat)
    requires Sound(st, log) && Stored(st, s) && s < t && q <= s
    ensures !IsBootFrom(Read(st, t, {}), q)
  {
    hide Read, Flat, SeqOf, ParseMarker, CrcMatches, Stored, Describes;
    ReadUnder(st, t, {});
    if Stored(st, t) {
      var i := ReadHeld(st, log, t);
      var j := ReadHeld(st, log, s);
      assert DeclaresAt(Flat(log), i);
      FlatOrdered(st, log, j, i);
    }
  }

  lemma {:induction false} FlatOrdered(st: Store, log: seq<LogSeg>, j: nat, i: nat)
    requires Describes(st, log) && i < |Flat(log)| && j < |Flat(log)| && SeqOf(Flat(log)[j]) < SeqOf(Flat(log)[i])
    ensures j < i && SeqOf(Flat(log)[j]) <= SeqOf(Flat(log)[i - 1])
  {
    FlatIncreasing(log);
    hide Flat, SeqOf, Describes;
    if j < i - 1 {
      assert SeqOf(Flat(log)[j]) < SeqOf(Flat(log)[i - 1]);
    }
  }

  /**
   * A LOSS sent in the place of the BOOT leaves the gap of the BOOT open: the stream is gap-free exactly if
   * nothing hung on it.
   */
  lemma {:induction false} LossGapFree(n: Node, log: seq<LogSeg>, n': Node, io: set<nat>, to: nat, tag: bytes,
      mark: nat, since: seq<Msg>)
    requires Sound(n.st, log) && Took(n, n', io, SentLoss(to, tag)) && GapFree(n, mark, since)
    ensures GapFree(n', mark, since + [LossMsg(n.e.cursor, to, tag)]) <==> !InDebt(n, mark, since)
  {
    hide Carried, Covers, Stored, Read, SeqOf, IsBootFrom, Intact, Sound;
    var m := LossMsg(n.e.cursor, to, tag);
    if InDebt(n, mark, since) {
      var q :| Uncovered(n, mark, q) && !Covers(since, q);
      CoversMore(since, m, q);
      OwedIsStored(n, q);
      BootStartsAbove(n.st, log, n.e.cursor, to + 1, q);
      assert Uncovered(n', mark, q) && !Owed(n', q);
    } else {
      forall q: nat | Uncovered(n', mark, q)
        ensures Covers(since + [m], q)
      {
        CoversMore(since, m, q);
        if q < n.e.cursor {
          assert Uncovered(n, mark, q);
        }
      }
    }
  }

  lemma {:induction false} OwedIsStored(n: Node, q: nat)
    requires Owed(n, q)
    ensures Stored(n.st, n.e.cursor)
  {
    hide Read, Stored, CrcMatches, ParseMarker;
    ReadUnder(n.st, n.e.cursor, {});
  }

  /** Every call but a LOSS in the place of an awaited BOOT keeps the stream gap-free. */
  lemma {:induction false} GapFreeKept(n: Node, log: seq<LogSeg>, n': Node, io: set<nat>, form: Form, mark: nat,
      since: seq<Msg>)
    requires Sound(n.st, log) && Took(n, n', io, form) && GapFree(n, mark, since)
    ensures var mark' := if form.Rewind? then n.e.ack else mark;
      GapFree(n', mark', NextSince(n, form, since)) <==> !(form.SentLoss? && InDebt(n, mark, since))
  {
    match form
    case Rewind =>
    case Acked(a) => AckedGapFree(n, log, n', io, a, mark, since);
    case Jumped(t) => JumpGapFree(n, n', io, t, mark, since);
    case SentBlock(b) => BlockGapFree(n, n', io, b, mark, since);
    case SentLoss(to, tag) => LossGapFree(n, log, n', io, to, tag, mark, since);
    case _ => SameGapFree(n, n', mark, since);
  }

  lemma {:induction false} SameGapFree(n: Node, n': Node, mark: nat, since: seq<Msg>)
    requires n'.st == n.st && n'.e.ack == n.e.ack && n'.e.cursor == n.e.cursor && GapFree(n, mark, since)
    ensures GapFree(n', mark, since)
  {
    hide Covers, IsBootFrom, Read;
    forall q: nat | Uncovered(n', mark, q)
      ensures Covers(since, q) || Owed(n', q)
    {
      assert Uncovered(n, mark, q);
    }
  }

  /** Messages carrying blocks, from a point on. */
  function Tail(tx: seq<Msg>, base: nat): seq<Msg> {
    if base <= |Carried(tx)| then Carried(tx)[base..] else []
  }

  /**
   * `sendNextBlock` and the gap-free stream: it is kept if and only if it is not the case that a
   * gap hangs on the BOOT at the cursor, the file of that BOOT does not open in this call, and the
   * LOSS that goes out in its place is signed and taken by the link.
   */
  lemma {:induction false} SendNextGapFree(n: Node, log: seq<LogSeg>, luck: Luck, mark: nat, base: nat)
    requires Sound(n.st, log) && InBounds(n) && base <= |Carried(n.tx)| && GapFree(n, mark, Tail(n.tx, base))
    ensures var n' := SendNext(n, luck).0;
      GapFree(n', mark, Tail(n'.tx, base)) <==>
        !(InDebt(n, mark, Tail(n.tx, base)) && MaySend(n) && n.e.cursor in luck.io && luck.sign.Some? && luck.link)
  {
    hide SendNext, Read, Stored, IsBootFrom, Intact, Bad, Carried, Sound, GapFree, InDebt, MaySend, Tail, Chosen;
    SoundDescribes(n.st, log);
    var form := SendNextIs(n, log, luck);
    BadLeadsToLoss(n, luck, form);
    var n' := SendNext(n, luck).0;
    var since := Tail(n.tx, base);
    GapFreeKept(n, log, n', luck.io, form, mark, since);
    TailIs(n, n', luck.io, form, base);
    if InDebt(n, mark, since) {
      DebtReads(n, mark, since, luck.io);
      if form.SentLoss? {
        LossReads(n, n', luck.io, form);
      }
    }
  }

  lemma {:induction false} SoundDescribes(st: Store, log: seq<LogSeg>)
    requires Sound(st, log)
    ensures Describes(st, log)
  {
  }

  lemma {:induction false} TailIs(n: Node, n': Node, io: set<nat>, form: Form, base: nat)
    requires Took(n, n', io, form) && base <= |Carried(n.tx)|
    ensures Tail(n'.tx, if form.Rewind? then |Carried(n'.tx)| else base) == NextSince(n, form, Tail(n.tx, base))
    ensures |Carried(n.tx)| <= |Carried(n'.tx)|
  {
    hide Read, Stored, IsBootFrom, Intact, Carried, DeleteUpTo;
  }

  /** In debt, the BOOT at the cursor is read intact exactly if its file opens. */
  lemma {:induction false} DebtReads(n: Node, mark: nat, since: seq<Msg>, io: set<nat>)
    requires InDebt(n, mark, since) && GapFree(n, mark, since)
    ensures var r := Read(n.st, n.e.cursor, io); (Intact(r) <==> n.e.cursor !in io) && (Bad(r) <==> n.e.cursor in io)
  {
    hide Read, CrcMatches, ParseMarker, Covers, Stored;
    var q :| Uncovered(n, mark, q) && !Covers(since, q);
    assert Owed(n, q);
    ReadUnder(n.st, n.e.cursor, io);
    ReadUnder(n.st, n.e.cursor, {});
  }

  lemma {:induction false} LossReads(n: Node, n': Node, io: set<nat>, form: Form)
    requires Took(n, n', io, form) && form.SentLoss?
    ensures !Intact(Read(n.st, n.e.cursor, io)) && MaySend(n)
  {
    hide Read, Intact, Carried;
  }
}
