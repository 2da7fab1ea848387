/**
 * The two block buffers and the two tasks that pass them on: acquisition
 * (`append`, `closeBlock`, `closeIfDue` of collector/Collector.cpp) and the flush task
 * (tasks/FlushTask.cpp), over the queues of rtos/Adapters.h and rtos/CollectorContext.cpp.
 *
 * Each queue operation is one step; between any two steps of the acquisition task the flush task
 * may make any number of its own.
 */
module Buffers {
  import opened Bytes
  import opened BlockFormat
  import B = BlockBuilder
  import Scheduler

  const BUFFERS: nat := 2

  /** A reading as it comes in, with its own instant. */
  datatype Sample = Sample(tMs: nat, isPid: bool)
  {
    function Size(): nat { if isPid then B.PID_SIZE else B.GPS_SIZE }
  }

  /** The content of a block. */
  datatype Content = Content(startMs: nat, closeAfterMs: nat, samples: seq<Sample>)
  {
    function Length(): nat { HEADER + SizeOf(samples) }

    predicate Takes(s: Sample) {
      Length() + s.Size() <= MAX_DATA && Since(startMs, s.tMs) <= B.MAX_DELTA
    }
  }

  /** On the wrapping clock. */
  function Since(startMs: nat, tMs: nat): nat { (tMs - startMs) % U32_END }

  /** The deadline of the block has passed, on the wrapping clock. */
  predicate Overdue(b: Content, now: nat) {
    Scheduler.Clock.Wrapped.Reached(now, (b.startMs + b.closeAfterMs) % U32_END)
  }

  /** At `now` the block has been open for as long as it may be, on the wrapping clock. */
  predicate Due(b: Content, now: nat) { (now - (b.startMs + b.closeAfterMs)) % 0x1_0000_0000 < 0x8000_0000 }

  /** The sample goes into the block: 1024 bytes in all, and at most 65535 ms after the start. */
  predicate Fits(b: Content, s: Sample) {
    && HEADER + SizeOf(b.samples) + (if s.isPid then 5 else 15) <= 1024
    && (s.tMs - b.startMs) % 0x1_0000_0000 <= 0xFFFF
  }

  function SizeOf(ss: seq<Sample>): nat {
    if ss == [] then 0 else SizeOf(ss[..|ss| - 1]) + ss[|ss| - 1].Size()
  }

  datatype Full = Full(id: nat, block: Content)

  /**
   * Where every buffer is: in the free queue, being filled, in the hands of the acquisition task
   * between close and hand-over, in the full queue, or being written. `written` are the blocks the
   * flush task is done with.
   */
  datatype Pool = Pool(
    free: seq<nat>, open: Option<nat>, held: Option<nat>, full: seq<Full>, flushing: Option<Full>,
    written: seq<Content>)

  function One<T(==)>(o: Option<T>): multiset<T> { if o.Some? then multiset{o.value} else multiset{} }

  function Ids(full: seq<Full>): seq<nat> {
    seq(|full|, i requires 0 <= i < |full| => full[i].id)
  }

  function Contents(full: seq<Full>): seq<Content> {
    seq(|full|, i requires 0 <= i < |full| => full[i].block)
  }

  function Owners(p: Pool): multiset<nat> {
    multiset(p.free) + One(p.open) + One(p.held) + multiset(Ids(p.full))
    + FlushOwner(p)
  }

  function FlushOwner(p: Pool): multiset<nat> {
    if p.flushing.Some? then multiset{p.flushing.value.id} else multiset{}
  }

  /** Every buffer is in exactly one place. */
  ghost predicate Partition(p: Pool) { Owners(p) == multiset{0, 1} }

  /** At the start both buffers are free. */
  lemma {:induction false} FirstPool()
    ensures var p := Pool([0, 1], None, None, [], None, []);
      Partition(p) && HandedOver(p) == [] && Samples(HandedOver(p)) == []
  {
    assert Ids([]) == [] && Contents([]) == [] && multiset([0, 1]) == multiset{0, 1};
  }

  lemma {:induction false} CountOwners(p: Pool)
    requires Partition(p)
    ensures |p.free| + |p.full| + |One(p.open)| + |One(p.held)| + (if p.flushing.Some? then 1 else 0) == BUFFERS
  {
    assert |Owners(p)| == 2;
  }

  /** No hand-over ever waits: when a task has a buffer to pass on, the queue has room. */
  lemma {:induction false} HandOversNeverBlock(p: Pool)
    requires Partition(p)
    ensures p.held.Some? ==> |p.full| < BUFFERS && |p.free| < BUFFERS
    ensures p.flushing.Some? ==> |p.free| < BUFFERS
  {
    CountOwners(p);
  }

  /** When no buffer is free and none is open, both wait to be written or are being written. */
  lemma {:induction false} NoneFreeMeansBothFull(p: Pool)
    requires Partition(p) && p.free == [] && p.open.None? && p.held.None?
    ensures |p.full| + (if p.flushing.Some? then 1 else 0) == BUFFERS
  {
    CountOwners(p);
  }

  // ---- the steps of the flush task ----

  datatype FlushStep = Receive | GiveBack

  function Flush(p: Pool, s: FlushStep): Pool {
    match s
    case Receive =>
      if p.flushing.Some? || p.full == [] then p else p.(flushing := Some(p.full[0]), full := p.full[1..])
    case GiveBack =>
      if p.flushing.None? then p
      else p.(free := p.free + [p.flushing.value.id], written := p.written + [p.flushing.value.block], flushing := None)
  }

  /** The blocks handed over so far, in order: written, being written, waiting. */
  function HandedOver(p: Pool): seq<Content> {
    p.written + (if p.flushing.Some? then [p.flushing.value.block] else []) + Contents(p.full)
  }

  lemma {:induction false} ReceiveKeeps(p: Pool)
    requires Partition(p) && p.flushing.None? && p.full != []
    ensures var p' := p.(flushing := Some(p.full[0]), full := p.full[1..]);
      Partition(p') && HandedOver(p') == HandedOver(p)
  {
    hide Ids, Contents, Owners;
    var f, more := p.full[0], p.full[1..];
    ContentsFront(p.full);
    TakeOwners(p);
    assert p.written + [] + ([f.block] + Contents(more)) == p.written + [f.block] + Contents(more);
  }

  lemma {:induction false} TakeOwners(p: Pool)
    requires p.flushing.None? && p.full != []
    ensures Owners(p.(flushing := Some(p.full[0]), full := p.full[1..])) == Owners(p)
  {
    hide Ids, Contents;
    ContentsFront(p.full);
    MoveLast(multiset(p.free) + One(p.open) + One(p.held), multiset{p.full[0].id}, multiset(Ids(p.full[1..])));
  }

  lemma {:induction false} MoveLast<T>(a: multiset<T>, x: multiset<T>, b: multiset<T>)
    ensures a + (x + b) + multiset{} == a + b + x
  {
  }

  lemma {:induction false} Opened(p: Pool)
    requires p.open.None? && p.free != []
    ensures Owners(p.(open := Some(p.free[0]), free := p.free[1..])) == Owners(p)
  {
    hide Ids, Contents;
    assert p.free == [p.free[0]] + p.free[1..];
    assert multiset(p.free) == multiset{p.free[0]} + multiset(p.free[1..]);
  }

  lemma {:induction false} ContentsFront(full: seq<Full>)
    requires full != []
    ensures Contents(full) == [full[0].block] + Contents(full[1..])
    ensures multiset(Ids(full)) == multiset{full[0].id} + multiset(Ids(full[1..]))
  {
    assert Ids(full) == [full[0].id] + Ids(full[1..]);
  }

  lemma {:induction false} ContentsBack(full: seq<Full>, f: Full)
    ensures Contents(full + [f]) == Contents(full) + [f.block]
    ensures multiset(Ids(full + [f])) == multiset(Ids(full)) + multiset{f.id}
  {
    assert Ids(full + [f]) == Ids(full) + [f.id];
  }

  lemma {:induction false} GiveBackKeeps(p: Pool)
    requires Partition(p) && p.flushing.Some?
    ensures var p' := p.(free := p.free + [p.flushing.value.id], written := p.written + [p.flushing.value.block],
                         flushing := None);
      Partition(p') && HandedOver(p') == HandedOver(p)
  {
    hide Ids, Contents;
    var f := p.flushing.value;
    assert multiset(p.free + [f.id]) == multiset(p.free) + multiset{f.id};
    assert p.written + [f.block] + [] + Contents(p.full) == p.written + [f.block] + Contents(p.full);
  }

  /** The flush task loses, duplicates and reorders nothing. */
  lemma {:induction false} FlushKeeps(p: Pool, s: FlushStep)
    requires Partition(p)
    ensures Partition(Flush(p, s)) && HandedOver(Flush(p, s)) == HandedOver(p)
    ensures Flush(p, s).open == p.open && Flush(p, s).held == p.held
  {
    hide Partition, HandedOver;
    if s.Receive? && p.flushing.None? && p.full != [] {
      ReceiveKeeps(p);
    }
    if s.GiveBack? && p.flushing.Some? {
      GiveBackKeeps(p);
    }
  }

  // ---- the acquisition task ----

  class Collector {
    var pool: Pool
    /** The open block; its buffer is `pool.open`. */
    var block: Option<Content>
    var dropped: nat
    /** Every sample stored, in order. */
    ghost var stored: seq<Sample>

    ghost predicate Valid()
      reads `pool, `block, `stored
    {
      && Partition(pool) && pool.held.None?
      && (block.Some? <==> pool.open.Some?)
      && (block.Some? ==> block.value.Length() <= MAX_DATA && Representable(block.value))
      && stored == Samples(HandedOver(pool)) + (if block.Some? then block.value.samples else [])
    }

    constructor ()
      ensures Valid() && stored == [] && dropped == 0 && pool == Pool([0, 1], None, None, [], None, [])
    {
      FirstPool();
      hide Owners, HandedOver, Samples;
      pool, block, dropped, stored := Pool([0, 1], None, None, [], None, []), None, 0, [];
    }

    /** Steps of the flush task between two of this one. */
    method Interleave(steps: seq<FlushStep>)
      requires Partition(pool)
      modifies this`pool
      ensures Partition(pool) && HandedOver(pool) == old(HandedOver(pool))
      ensures pool.open == old(pool.open) && pool.held == old(pool.held)
    {
      for i := 0 to |steps|
        invariant Partition(pool) && HandedOver(pool) == old(HandedOver(pool))
        invariant pool.open == old(pool.open) && pool.held == old(pool.held)
      {
        FlushKeeps(pool, steps[i]);
        pool := Flush(pool, steps[i]);
      }
    }

    /** `acquire`: nothing when no buffer is free. */
    method Acquire() returns (ok: bool)
      requires Partition(pool) && pool.open.None?
      modifies this`pool
      ensures ok <==> old(pool.free) != []
      ensures Partition(pool) && HandedOver(pool) == old(HandedOver(pool)) && pool.held == old(pool.held)
      ensures if ok then pool.open.Some? else pool == old(pool)
    {
      ok := pool.free != [];
      if ok {
        Opened(pool);
        pool := pool.(open := Some(pool.free[0]), free := pool.free[1..]);
      }
    }

    method CloseBlock(steps: seq<FlushStep>)
      requires Valid()
      modifies this
      ensures Valid() && block.None? && stored == old(stored) && dropped == old(dropped)
      ensures old(block).None? ==> pool == old(pool)
      ensures old(block).Some? ==> HandedOver(pool) == old(HandedOver(pool)) + Worth(old(block).value)
    {
      hide Partition, Representable, HandedOver, Samples, Content.Length;
      if block.None? {
        return;
      }
      var b := block.value;
      TakeHold(pool);
      pool := pool.(held := pool.open, open := None);
      block := None;
      Interleave(steps);
      assert stored == Samples(HandedOver(pool)) + b.samples;
      if b.samples == [] {
        Release();
        assert stored + [] == stored && HandedOver(pool) + [] == HandedOver(pool);
      } else {
        Submit(b);
      }
    }

    /** `release`: an empty block goes back unwritten. */
    method Release()
      requires Partition(pool) && pool.held.Some?
      modifies this`pool
      ensures Partition(pool) && HandedOver(pool) == old(HandedOver(pool)) && pool.open == old(pool.open)
        && pool.held.None?
    {
      PutBack(pool);
      pool := pool.(free := pool.free + [pool.held.value], held := None);
    }

    method Submit(b: Content)
      requires Partition(pool) && pool.held.Some?
      modifies this`pool
      ensures Partition(pool) && pool.open == old(pool.open) && pool.held.None?
      ensures HandedOver(pool) == old(HandedOver(pool)) + [b]
      ensures Samples(HandedOver(pool)) == old(Samples(HandedOver(pool))) + b.samples
    {
      PutFull(pool, b);
      SamplesMore(HandedOver(pool), b);
      pool := pool.(full := pool.full + [Full(pool.held.value, b)], held := None);
    }

    method CloseIfDue(now: nat, steps: seq<FlushStep>)
      requires Valid()
      modifies this
      ensures Valid() && stored == old(stored) && dropped == old(dropped)
      ensures old(block).Some? && Due(old(block).value, now) ==>
        block.None? && HandedOver(pool) == old(HandedOver(pool)) + Worth(old(block).value)
      ensures !(old(block).Some? && Due(old(block).value, now)) ==> block == old(block) && pool == old(pool)
    {
      if block.Some? {
        DueIsOverdue(block.value, now);
      }
      hide Overdue, Due, Partition, Representable;
      if block.Some? && Overdue(block.value, now) {
        CloseBlock(steps);
      }
    }

    /**
     * `append`: the sample is stored, or dropped and counted. It is dropped only when no buffer is
     * open and none is free: both wait to be written or are being written.
     */
    method Append(s: Sample, closeAfterMs: nat, before: seq<FlushStep>, closing: seq<FlushStep>) returns (ok: bool)
      requires Valid() && s.tMs < U32_END
      modifies this
      ensures Valid()
      ensures ok ==> stored == old(stored) + [s] && dropped == old(dropped)
      ensures !ok ==> stored == old(stored) && dropped == old(dropped) + 1
      ensures !ok ==> block.None? && |pool.full| + (if pool.flushing.Some? then 1 else 0) == BUFFERS
      ensures old(block).Some? && Fits(old(block).value, s) ==>
        ok && pool == old(pool) && block == Some(old(block).value.(samples := old(block).value.samples + [s]))
      ensures ok && !(old(block).Some? && Fits(old(block).value, s)) ==>
        block == Some(Content(s.tMs, closeAfterMs, [s]))
    {
      hide Representable, Partition, Samples, HandedOver, Fits, Content.Takes, Collector.Valid;
      ghost var fits := block.Some? && Fits(block.value, s);
      var attempt := 0;
      while attempt < 2
        invariant Valid() && attempt <= 2 && stored == old(stored) && dropped == old(dropped)
        invariant attempt == 0 ==> block == old(block) && pool == old(pool)
        invariant attempt == 1 ==> block.None? && !fits
        invariant attempt < 2
        decreases 2 - attempt
      {
        if block.None? {
          var got := OpenFor(s, closeAfterMs, before);
          if !got {
            break;
          }
        }
        FitsIsTakes(block.value, s);
        if block.value.Takes(s) {
          AddSample(s);
          assert [] + [s] == [s];
          return true;
        }
        CloseBlock(closing);
        attempt := attempt + 1;
      }
      dropped := dropped + 1;
      ok := false;
    }

    /** Opens a block that starts with this sample, if a buffer is free. */
    method OpenFor(s: Sample, closeAfterMs: nat, before: seq<FlushStep>) returns (ok: bool)
      requires Valid() && block.None? && s.tMs < U32_END
      modifies this`pool, this`block
      ensures Valid()
      ensures ok ==> block == Some(Content(s.tMs, closeAfterMs, [])) && Fits(block.value, s)
      ensures !ok ==> block.None? && |pool.full| + (if pool.flushing.Some? then 1 else 0) == BUFFERS
    {
      hide Representable, Partition, Samples, HandedOver, Fits;
      Interleave(before);
      ok := Acquire();
      if !ok {
        NoneFreeMeansBothFull(pool);
        return;
      }
      block := Some(Content(s.tMs, closeAfterMs, []));
      FreshTakes(s, closeAfterMs);
      FitsIsTakes(block.value, s);
      assert Samples(HandedOver(pool)) + [] == Samples(HandedOver(pool));
    }

    method AddSample(s: Sample)
      requires Valid() && block.Some? && block.value.Takes(s)
      modifies this`block, this`stored
      ensures Valid() && stored == old(stored) + [s]
      ensures block == Some(old(block).value.(samples := old(block).value.samples + [s]))
    {
      hide Partition, Samples;
      var b := block.value;
      block := Some(b.(samples := b.samples + [s]));
      TakenFits(b, s);
      stored := stored + [s];
    }
  }

  /** What is handed over of a block that is closed: nothing when it is empty. */
  function Worth(b: Content): seq<Content> { if b.samples == [] then [] else [b] }

  lemma {:induction false} DueIsOverdue(b: Content, now: nat)
    ensures Due(b, now) <==> Overdue(b, now)
  {
  }

  lemma {:induction false} FitsIsTakes(b: Content, s: Sample)
    ensures Fits(b, s) <==> b.Takes(s)
  {
  }

  /** Every sample of a block lies at most 16 bits of milliseconds after its start. */
  ghost predicate Representable(b: Content) {
    forall i :: 0 <= i < |b.samples| ==> Since(b.startMs, b.samples[i].tMs) <= B.MAX_DELTA
  }

  function Samples(bs: seq<Content>): seq<Sample> {
    if bs == [] then [] else Samples(bs[..|bs| - 1]) + bs[|bs| - 1].samples
  }

  lemma {:induction false} SamplesMore(bs: seq<Content>, b: Content)
    ensures Samples(bs + [b]) == Samples(bs) + b.samples
  {
    assert (bs + [b])[..|bs|] == bs;
  }

  lemma {:induction false} TakenFits(b: Content, s: Sample)
    requires b.Takes(s) && Representable(b)
    ensures var b' := b.(samples := b.samples + [s]); b'.Length() <= MAX_DATA && Representable(b')
  {
    hide Sample.Size, Since;
    assert (b.samples + [s])[..|b.samples|] == b.samples;
  }

  /** A block opened for a sample takes it. */
  lemma {:induction false} FreshTakes(s: Sample, closeAfterMs: nat)
    ensures var b := Content(s.tMs, closeAfterMs, []); b.Takes(s) && Representable(b) && b.Length() <= MAX_DATA
  {
  }

  lemma {:induction false} TakeHold(p: Pool)
    requires Partition(p) && p.open.Some? && p.held.None?
    ensures var p' := p.(held := p.open, open := None); Partition(p') && HandedOver(p') == HandedOver(p)
  {
  }

  lemma {:induction false} PutBack(p: Pool)
    requires Partition(p) && p.held.Some?
    ensures var p' := p.(free := p.free + [p.held.value], held := None);
      Partition(p') && HandedOver(p') == HandedOver(p)
  {
  }

  lemma {:induction false} PutFull(p: Pool, b: Content)
    requires Partition(p) && p.held.Some?
    ensures var p' := p.(full := p.full + [Full(p.held.value, b)], held := None);
      Partition(p') && HandedOver(p') == HandedOver(p) + [b]
  {
    hide Ids, Contents, Owners;
    ContentsBack(p.full, Full(p.held.value, b));
    PutOwners(p, b);
  }

  lemma {:induction false} PutOwners(p: Pool, b: Content)
    requires p.held.Some?
    ensures Owners(p.(full := p.full + [Full(p.held.value, b)], held := None)) == Owners(p)
  {
    hide Ids, Contents;
    ContentsBack(p.full, Full(p.held.value, b));
    MoveAcross(multiset(p.free) + One(p.open), multiset{p.held.value}, multiset(Ids(p.full)), FlushOwner(p));
  }

  lemma {:induction false} MoveAcross<T>(a: multiset<T>, x: multiset<T>, b: multiset<T>, c: multiset<T>)
    ensures a + x + b + c == a + multiset{} + (b + x) + c
  {
  }

}
