/**
 * The segment log itself (storage/LittleFsBlockStore.cpp): a ring of 256 index entries in RAM over
 * the files on flash. Every method does to the ring what StoreSpec says of the sequence it stands for.
 */
module BlockStore {
  import opened Bytes
  import opened BlockFormat
  import opened SegmentFormat
  import opened StoreSpec

  lemma {:induction false} NewFileIs(flash: Flash, f: nat, record: bytes, n: nat)
    ensures n >= |record| ==> [] + Prefix(record, n) == record
    ensures flash[f := [] + Prefix(record, n)] - {f} == flash - {f}
  {
  }

  class SegmentLog {
    const segments: array<Segment>
    /** Free space for a given content of the file system. */
    const free: Flash -> nat
    var head: nat
    var count: nat
    var blocks: nat
    var maxBlocks: nat
    var forceNew: bool
    var lost: nat
    var overflow: nat
    var flash: Flash

    ghost predicate Valid()
      reads `head, `count, `blocks, segments
      ensures Valid() ==> segments.Length == MAX_SEGMENTS
    {
      && segments.Length == MAX_SEGMENTS
      && head < MAX_SEGMENTS && count <= MAX_SEGMENTS
      && blocks == TotalOf(Segs())
    }

    function Slot(i: nat): (k: nat)
      reads `head
      ensures k < MAX_SEGMENTS
    {
      (head + i) % MAX_SEGMENTS
    }

    function At(i: nat): Segment
      requires segments.Length == MAX_SEGMENTS
      reads `head, segments
    {
      segments[Slot(i)]
    }

    /** The ring read from the oldest entry to the newest. */
    ghost function Segs(): (s: seq<Segment>)
      requires segments.Length == MAX_SEGMENTS
      reads `head, `count, segments
    {
      RingFrom(0)
    }

    ghost function RingFrom(i: nat): (s: seq<Segment>)
      requires segments.Length == MAX_SEGMENTS
      reads `head, `count, segments
      ensures |s| == (if i < count then count - i else 0)
      ensures forall k :: 0 <= k < |s| ==> s[k] == At(i + k)
      decreases count - i
    {
      if i >= count then [] else [At(i)] + RingFrom(i + 1)
    }

    ghost function Abs(): Store
      requires segments.Length == MAX_SEGMENTS
      reads this, segments
    {
      Store(Segs(), flash, maxBlocks, forceNew, lost, overflow)
    }

    constructor (flash: Flash, free: Flash -> nat)
      ensures Valid() && fresh(segments) && this.free == free
      ensures Abs() == Store([], flash, 0, false, 0, 0)
    {
      segments := new Segment[MAX_SEGMENTS](i => Segment(0, 0, 0, 0, 0, false));
      this.free := free;
      head, count, blocks, maxBlocks, forceNew, lost, overflow := 0, 0, 0, 0, false, 0, 0;
      this.flash := flash;
    }

    method DropOldest()
      requires Valid() && count > 0
      modifies this
      ensures Valid() && Abs() == StoreSpec.DropOldest(old(Abs()))
    {
      hide RingFrom, TotalOf;
      ghost var before := Segs();
      TotalCons(before);
      flash := flash - {At(0).first};
      blocks := blocks - At(0).count;
      ghost var h := head;
      head := (head + 1) % MAX_SEGMENTS;
      count := count - 1;
      forall k | 0 <= k < count
        ensures At(k) == before[k + 1]
      {
        SlotMoves(h, k);
      }
      assert Segs() == before[1..];
    }

    method DiscardOldest()
      requires Valid() && count > 0
      modifies this
      ensures Valid() && Abs() == StoreSpec.DiscardOldest(old(Abs()))
    {
      var oldest := At(0);
      lost := lost + oldest.count;
      if oldest.last > overflow {
        overflow := oldest.last;
      }
      DropOldest();
    }

    method PushSegment(seg: Segment)
      requires Valid()
      modifies this, segments
      ensures Valid() && Abs() == Push(old(Abs()), seg)
    {
      if count == MAX_SEGMENTS {
        DiscardOldest();
      }
      hide RingFrom, TotalOf;
      ghost var before := Segs();
      Put(count, seg);
      count := count + 1;
      blocks := blocks + seg.count;
      assert Segs() == before + [seg];
      TotalSnoc(before, seg);
    }

    /** Overwrites one entry of the ring. */
    method Put(i: nat, seg: Segment)
      requires segments.Length == MAX_SEGMENTS && i < MAX_SEGMENTS
      modifies segments
      ensures At(i) == seg
      ensures forall k :: 0 <= k < MAX_SEGMENTS && k != i ==> At(k) == old(At(k))
    {
      segments[Slot(i)] := seg;
      forall k | 0 <= k < MAX_SEGMENTS && k != i
        ensures Slot(k) != Slot(i)
      {
        SlotsDiffer(head, k, i);
      }
    }

    method EnsureSpace(n: nat)
      requires Valid()
      modifies this
      ensures Valid() && Abs() == StoreSpec.EnsureSpace(old(Abs()), n, free)
    {
      while count > 1 && (blocks + 1 > maxBlocks || free(flash) < n + RESERVE_BYTES)
        invariant Valid()
        invariant StoreSpec.EnsureSpace(old(Abs()), n, free) == StoreSpec.EnsureSpace(Abs(), n, free)
        decreases count
      {
        DiscardOldest();
      }
    }

    /** `begin`: rebuilds the ring from the files; those of `io` do not open. */
    method Begin(maxBlocks: nat, io: set<nat>)
      requires Valid() && count == 0 && !forceNew && lost == 0 && overflow == 0
      modifies this, segments
      ensures Valid() && Abs() == BeginWith(old(flash), maxBlocks, io)
    {
      hide FileRecords, HeaderOk, Leftover, Push;
      this.maxBlocks := maxBlocks;
      var firsts := Listing(flash.Keys);
      ghost var start := Store([], flash, maxBlocks, false, 0, 0);
      for i := 0 to |firsts|
        invariant Valid()
        invariant IndexOpened(start, firsts, io) == IndexOpened(Abs(), firsts[i..], io)
      {
        assert firsts[i..][0] == firsts[i] && firsts[i..][1..] == firsts[i + 1..];
        IndexFile(firsts[i], io);
      }
      while count > 1 && blocks > this.maxBlocks
        invariant Valid()
        invariant Shrink(IndexOpened(start, firsts, io)) == Shrink(Abs())
        decreases count
      {
        DiscardOldest();
      }
    }

    /** One file of the directory: indexed if it opens and the scan finds a record, removed otherwise. */
    method IndexFile(first: nat, io: set<nat>)
      requires Valid()
      modifies this, segments
      ensures Valid()
      ensures Abs() == Indexed(old(Abs()), first, io)
    {
      hide Push, SegmentLog.Valid, SegmentLog.RingFrom, Records, Leftover, TotalOf;
      if first !in flash {
        return;
      }
      if first in io {
        flash := flash - {first};
        return;
      }
      var src := new ByteSource(flash[first]);
      var valid, scan := ScanSegment(src, first);
      if !valid || scan.count == 0 {
        flash := flash - {first};
        return;
      }
      PushSegment(Segment(scan.first, scan.last, scan.count, scan.size, scan.tagLen,
                          scan.trailingGarbage || scan.count >= BLOCKS_PER_SEGMENT));
    }

    method StartNewSegment()
      requires Valid()
      modifies this`forceNew
      ensures Valid() && Abs() == old(Abs()).(forceNew := true)
    {
      forceNew := true;
    }

    /** `append`: `w` is what the file system makes of the write. */
    method Append(b: Block, w: Outcome) returns (ok: bool)
      requires Valid()
      modifies this, segments
      ensures Valid() && (Abs(), ok) == StoreSpec.Append(old(Abs()), b, free, w)
    {
      hide StoreSpec.EnsureSpace, BlockSeq, RecordBytes, EncodeHeader, Push;
      ghost var start := Abs();
      var seqNo, tagLen := BlockSeq(b.data), |b.tag|;
      var newSegment := true;
      if count > 0 {
        var last := At(count - 1);
        newSegment := forceNew || last.sealed || last.count >= BLOCKS_PER_SEGMENT || last.tagLen != tagLen
                      || last.last + 1 != seqNo;
      }
      assert newSegment == NeedsNew(start, seqNo, tagLen);
      var record := if newSegment then EncodeHeader(tagLen) + RecordBytes(b) else RecordBytes(b);
      EnsureSpace(|record|);
      assert Abs() == Roomy(start, b, free);
      ok := WriteRecord(b, record, newSegment, w);
    }

    /** A write that failed seals the segment it went to; the next record opens a new one. */
    method GiveUp(newSegment: bool)
      requires Valid() && (!newSegment ==> count > 0)
      modifies this`forceNew, segments
      ensures Valid()
      ensures Abs() == old(Abs()).(segs := if newSegment then old(Segs()) else Seal(old(Segs())), forceNew := true)
    {
      hide RingFrom, TotalOf, Seal;
      if !newSegment {
        SealNewest();
      }
      forceNew := true;
    }

    /** Writes the bytes and updates the index. */
    method WriteRecord(b: Block, record: bytes, newSegment: bool, w: Outcome) returns (ok: bool)
      requires Valid()
      requires newSegment == NeedsNew(Abs(), BlockSeq(b.data), |b.tag|) && record == AppendBytes(Abs(), b)
      modifies this, segments
      ensures Valid() && (Abs(), ok) == Write(old(Abs()), b, w)
    {
      assert !newSegment ==> count > 0 && Abs().Newest() == At(count - 1);
      hide BlockSeq, Segs, Valid, TotalOf, Push, WithLast, Seal, AppendBytes, NeedsNew, Slot, FileOf, Prefix;
      var seqNo := BlockSeq(b.data);
      if w.OpenFails? {
        GiveUp(newSegment);
        return false;
      }
      var first := if newSegment then seqNo else At(count - 1).first;
      NewFileIs(flash, seqNo, record, w.n);
      flash := flash[first := (if newSegment then [] else FileOf(flash, first)) + Prefix(record, w.n)];
      if w.n < |record| {
        if newSegment {
          flash := flash - {first};
        }
        GiveUp(newSegment);
        return false;
      }
      IndexRecord(seqNo, |b.tag|, |record|, newSegment);
      ok := true;
    }

    /** The index after a complete write. */
    method IndexRecord(seqNo: nat, tagLen: nat, size: nat, newSegment: bool)
      requires Valid() && (!newSegment ==> count > 0)
      modifies this, segments
      ensures Valid()
      ensures var s := old(Abs()).(forceNew := false); var g := s.Newest();
        Abs() == if newSegment then Push(s, Segment(seqNo, seqNo, 1, size, tagLen, false))
                 else s.(segs := WithLast(s.segs, g.(last := seqNo, count := g.count + 1, size := g.size + size,
                           sealed := g.sealed || g.count + 1 >= BLOCKS_PER_SEGMENT)))
    {
      hide RingFrom, TotalOf, Push, WithLast;
      forceNew := false;
      if newSegment {
        PushSegment(Segment(seqNo, seqNo, 1, size, tagLen, false));
      } else {
        var g := At(count - 1);
        blocks := blocks + 1;
        SetNewest(g.(last := seqNo, count := g.count + 1, size := g.size + size,
                     sealed := g.sealed || g.count + 1 >= BLOCKS_PER_SEGMENT));
      }
    }

    /** Replaces the newest entry; `blocks` already counts what it now holds. */
    method SetNewest(g: Segment)
      requires segments.Length == MAX_SEGMENTS && head < MAX_SEGMENTS && 0 < count <= MAX_SEGMENTS
      requires blocks == TotalOf(Segs()) - At(count - 1).count + g.count
      modifies segments
      ensures Valid() && Abs() == old(Abs()).(segs := WithLast(old(Segs()), g))
    {
      hide RingFrom, TotalOf;
      ghost var before := Segs();
      Put(count - 1, g);
      assert Segs() == before[..count - 1] + [g] == before[count - 1 := g];
      assert before == before[..count - 1] + [before[count - 1]];
      TotalSnoc(before[..count - 1], g);
      TotalSnoc(before[..count - 1], before[count - 1]);
    }

    method SealNewest()
      requires Valid() && count > 0
      modifies segments
      ensures Valid() && Abs() == old(Abs()).(segs := Seal(old(Segs())))
    {
      SetNewest(At(count - 1).(sealed := true));
    }

    /** `read`: `io` holds the seqs whose file cannot be opened this time. */
    method Read(seqNo: nat, io: set<nat>) returns (r: Fetched)
      requires Valid()
      ensures r == StoreSpec.Read(Abs(), seqNo, io)
    {
      hide Fetch;
      var i := Find(seqNo);
      if i == count {
        return Missing;
      }
      var first := At(i).first;
      if seqNo in io || first !in flash {
        return Broken;
      }
      var src := new ByteSource(flash[first]);
      r := ReadRecord(src, first, seqNo);
    }

    method Find(seqNo: nat) returns (i: nat)
      requires Valid()
      ensures i == Locate(Segs(), seqNo)
    {
      hide SegmentLog.RingFrom, TotalOf, Locate;
      ghost var segs := Segs();
      i := 0;
      while i < count && !(At(i).first <= seqNo <= At(i).last)
        invariant i <= count
        invariant forall j :: 0 <= j < i ==> !(segs[j].first <= seqNo <= segs[j].last)
      {
        assert segs[i] == At(i);
        i := i + 1;
      }
      assert i < count ==> segs[i] == At(i);
    }

    method NextStoredSeq(from: nat) returns (t: nat)
      requires Valid()
      ensures t == NextStored(Segs(), from)
    {
      for i := 0 to count
        invariant NextStored(Segs(), from) == NextStored(Segs()[i..], from)
      {
        assert Segs()[i..][1..] == Segs()[i + 1..];
        if At(i).last >= from {
          return Max(from, At(i).first);
        }
      }
      t := 0;
    }

    method DeleteUpTo(upTo: nat) returns (removed: nat)
      requires Valid()
      modifies this
      ensures Valid() && Abs() == StoreSpec.DeleteUpTo(old(Abs()), upTo)
      ensures removed == old(count) - count
    {
      removed := 0;
      while count > 1 && At(0).last <= upTo
        invariant Valid() && removed == old(count) - count
        invariant StoreSpec.DeleteUpTo(old(Abs()), upTo) == StoreSpec.DeleteUpTo(Abs(), upTo)
        decreases count
      {
        DropOldest();
        removed := removed + 1;
      }
    }

    method NewestSeq() returns (s: nat)
      requires Valid()
      ensures s == Abs().NewestSeq()
    {
      s := if count == 0 then 0 else At(count - 1).last;
    }

    method OldestSeq() returns (s: nat)
      requires Valid()
      ensures s == Abs().OldestSeq()
    {
      s := if count == 0 then 0 else At(0).first;
    }

    /** `corrupt`: walks the record headers and inverts one byte. */
    method Corrupt(seqNo: nat, io: set<nat>) returns (ok: bool)
      requires Valid()
      modifies this`flash
      ensures Valid() && (Abs(), ok) == StoreSpec.Corrupt(old(Abs()), seqNo, io)
    {
      hide LengthField;
      var i := Find(seqNo);
      if i == count {
        return false;
      }
      var seg := At(i);
      if seqNo in io || seg.first !in flash {
        return false;
      }
      var file := flash[seg.first];
      var at := DamageOffset(file, seg, seqNo);
      if at < 0 {
        return false;
      }
      flash := flash[seg.first := Flip(file, at)];
      ok := true;
    }
  }

  function Indexed(st: Store, first: nat, io: set<nat>): Store {
    if first !in st.flash then st
    else if first in io || FileRecords(st.flash[first], first) == [] then st.(flash := st.flash - {first})
    else Push(st, IndexedFile(st.flash[first], first))
  }

  lemma {:induction false} SlotsDiffer(head: nat, i: nat, j: nat)
    requires i < MAX_SEGMENTS && j < MAX_SEGMENTS && i != j
    ensures (head + i) % MAX_SEGMENTS != (head + j) % MAX_SEGMENTS
  {
  }

  lemma {:induction false} SlotMoves(head: nat, i: nat)
    ensures ((head + 1) % MAX_SEGMENTS + i) % MAX_SEGMENTS == (head + (i + 1)) % MAX_SEGMENTS
  {
  }

  lemma {:induction false} TotalCons(a: seq<Segment>)
    ensures a != [] ==> TotalOf(a) == a[0].count + TotalOf(a[1..])
  {
  }

  lemma {:induction false} TotalSnoc(a: seq<Segment>, e: Segment)
    ensures TotalOf(a + [e]) == TotalOf(a) + e.count
  {
    if a == [] {
      assert [e][1..] == [];
    } else {
      assert (a + [e])[1..] == a[1..] + [e];
      TotalSnoc(a[1..], e);
    }
  }

  method DamageOffset(file: bytes, seg: Segment, seqNo: nat) returns (at: int)
    ensures at == DamageAt(file, seg, seqNo)
  {
    hide LengthField;
    if seqNo < seg.first {
      return -1;
    }
    if |file| < SEGMENT_HEADER {
      return -1;
    }
    var body := BodyOf(file);
    var offset := SEGMENT_HEADER;
    for k := seg.first to seqNo
      invariant SEGMENT_HEADER <= offset <= |file|
      invariant var more := RecordStart(file[offset..], seg.tagLen, seqNo - k);
        RecordStart(body, seg.tagLen, seqNo - seg.first) == if more < 0 then -1 else offset - SEGMENT_HEADER + more
    {
      if |file| - offset < HEADER {
        return -1;
      }
      var size := LengthField(file[offset..]) + seg.tagLen + CRC_SIZE;
      if |file| - offset < size {
        return -1;
      }
      assert file[offset..][size..] == file[offset + size..];
      offset := offset + size;
    }
    at := if offset + HEADER >= |file| then -1 else offset + HEADER;
  }
}
