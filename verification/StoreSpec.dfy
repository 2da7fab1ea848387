/**
 * What each operation of the segment log (storage/LittleFsBlockStore.cpp) does to its index in
 * RAM and to the files on flash, as functions on values.
 *
 * Flash is a map from the first seq of a segment to the bytes of its file. `free` is the free
 * space the file system reports for a given content; a write persists a prefix of its bytes.
 */
module StoreSpec {
  import opened Bytes
  import opened BlockFormat
  import opened SegmentFormat

  const MAX_SEGMENTS: nat := 256
  const RESERVE_BYTES: nat := 8 * 1024

  type Flash = map<nat, bytes>

  datatype Segment = Segment(first: nat, last: nat, count: nat, size: nat, tagLen: nat, sealed: bool)

  /** RAM: the segments from oldest to newest, and the counters; flash: the files. */
  datatype Store = Store(
    segs: seq<Segment>, flash: Flash, maxBlocks: nat, forceNew: bool, lost: nat, overflow: nat)
  {
    function Newest(): Segment {
      if segs == [] then Segment(0, 0, 0, 0, 0, true) else segs[|segs| - 1]
    }

    function Total(): nat { TotalOf(segs) }

    /** HEAD: 0 when the log is empty. */
    function NewestSeq(): nat { if segs == [] then 0 else Newest().last }

    function OldestSeq(): nat { if segs == [] then 0 else segs[0].first }
  }

  function TotalOf(segs: seq<Segment>): nat {
    if segs == [] then 0 else segs[0].count + TotalOf(segs[1..])
  }

  function FileOf(flash: Flash, first: nat): bytes { if first in flash then flash[first] else [] }

  function Prefix(p: bytes, n: nat): bytes { if n <= |p| then p[..n] else p }

  function Max(a: nat, b: nat): nat { if a > b then a else b }

  // ---- dropping the oldest segment ----

  function DropOldest(st: Store): Store {
    if st.segs == [] then st else st.(segs := st.segs[1..], flash := st.flash - {st.segs[0].first})
  }

  /** A drop that is counted as a loss. */
  function DiscardOldest(st: Store): Store {
    if st.segs == [] then st
    else
      var oldest := st.segs[0];
      DropOldest(st).(lost := st.lost + oldest.count, overflow := Max(oldest.last, st.overflow))
  }

  function Push(st: Store, seg: Segment): Store {
    var s := if |st.segs| == MAX_SEGMENTS then DiscardOldest(st) else st;
    s.(segs := s.segs + [seg])
  }

  function EnsureSpace(st: Store, n: nat, free: Flash -> nat): (r: Store)
    ensures st.segs == [] ==> r == st
    ensures st.segs != [] ==> r.segs != [] && r.Newest() == st.Newest()
    ensures r.maxBlocks == st.maxBlocks && r.forceNew == st.forceNew
    decreases |st.segs|
  {
    if |st.segs| > 1 && (st.Total() + 1 > st.maxBlocks || free(st.flash) < n + RESERVE_BYTES)
    then EnsureSpace(DiscardOldest(st), n, free)
    else st
  }

  // ---- append ----

  /** What the file system made of one open-write-close. */
  datatype Outcome = OpenFails | Written(n: nat)

  predicate NeedsNew(st: Store, seqNo: nat, tagLen: nat) {
    || st.segs == []
    || st.forceNew
    || st.Newest().sealed
    || st.Newest().count >= BLOCKS_PER_SEGMENT
    || st.Newest().tagLen != tagLen
    || st.Newest().last + 1 != seqNo
  }

  /** The bytes one append writes: the record, after a segment header when the file is new. */
  function AppendBytes(st: Store, b: Block): bytes {
    if NeedsNew(st, BlockSeq(b.data), |b.tag|) then EncodeHeader(|b.tag|) + RecordBytes(b) else RecordBytes(b)
  }

  function Roomy(st: Store, b: Block, free: Flash -> nat): (r: Store)
    ensures st.segs == [] ==> r == st
    ensures st.segs != [] ==> r.segs != [] && r.Newest() == st.Newest()
  {
    EnsureSpace(st, |AppendBytes(st, b)|, free)
  }

  function WithLast(segs: seq<Segment>, g: Segment): seq<Segment> {
    if segs == [] then [g] else segs[|segs| - 1 := g]
  }

  function Seal(segs: seq<Segment>): seq<Segment> {
    if segs == [] then [] else segs[|segs| - 1 := segs[|segs| - 1].(sealed := true)]
  }

  /** The write of one record, once there is room for it. */
  function Write(s: Store, b: Block, w: Outcome): (Store, bool) {
    var seqNo := BlockSeq(b.data);
    var record := AppendBytes(s, b);
    if NeedsNew(s, seqNo, |b.tag|) then
      if w.OpenFails? then (s.(forceNew := true), false)
      else if w.n < |record| then (s.(flash := s.flash - {seqNo}, forceNew := true), false)
      else
        var t := s.(flash := s.flash[seqNo := record], forceNew := false);
        (Push(t, Segment(seqNo, seqNo, 1, |record|, |b.tag|, false)), true)
    else
      var g := s.Newest();
      if w.OpenFails? then (s.(segs := Seal(s.segs), forceNew := true), false)
      else
        var flash := s.flash[g.first := FileOf(s.flash, g.first) + Prefix(record, w.n)];
        if w.n < |record| then (s.(segs := Seal(s.segs), flash := flash, forceNew := true), false)
        else
          var g' := g.(last := seqNo, count := g.count + 1, size := g.size + |record|,
                       sealed := g.sealed || g.count + 1 >= BLOCKS_PER_SEGMENT);
          (s.(segs := WithLast(s.segs, g'), flash := flash, forceNew := false), true)
  }

  /** `append`: the new state, and whether the record is on flash. */
  function Append(st: Store, b: Block, free: Flash -> nat, w: Outcome): (Store, bool) {
    Write(Roomy(st, b, free), b, w)
  }

  // ---- delete ----

  /** `deleteUpTo`: whole segments the server has confirmed; the newest always stays. */
  function DeleteUpTo(st: Store, upTo: nat): (r: Store)
    decreases |st.segs|
  {
    if |st.segs| > 1 && st.segs[0].last <= upTo then DeleteUpTo(DropOldest(st), upTo) else st
  }

  // ---- lookup ----

  /** The position of the segment holding `seqNo`, or the number of segments. */
  function Locate(segs: seq<Segment>, seqNo: nat): (i: nat)
    ensures i <= |segs|
    ensures i < |segs| ==> segs[i].first <= seqNo <= segs[i].last
    ensures forall j :: 0 <= j < i ==> !(segs[j].first <= seqNo <= segs[j].last)
  {
    if segs == [] then 0
    else if segs[0].first <= seqNo <= segs[0].last then 0
    else
      var i := Locate(segs[1..], seqNo);
      assert forall j :: 1 <= j < i + 1 ==> segs[j] == segs[1..][j - 1];
      i + 1
  }

  /** `read`: `io` holds the seqs whose file cannot be opened this time. */
  function Read(st: Store, seqNo: nat, io: set<nat>): (r: Fetched)
    ensures r.Found? ==> BlockSeq(r.block.data) == seqNo
  {
    var i := Locate(st.segs, seqNo);
    if i == |st.segs| then Missing
    else if seqNo in io || st.segs[i].first !in st.flash then Broken
    else Fetch(st.flash[st.segs[i].first], st.segs[i].first, seqNo)
  }

  predicate Stored(st: Store, seqNo: nat) { Locate(st.segs, seqNo) < |st.segs| }

  /** `nextStoredSeq`: 0 when there is none. */
  function NextStored(segs: seq<Segment>, from: nat): nat {
    if segs == [] then 0
    else if segs[0].last >= from then Max(from, segs[0].first)
    else NextStored(segs[1..], from)
  }

  // ---- boot ----

  function Least(s: set<nat>): (m: nat)
    requires s != {}
    ensures m in s && forall x :: x in s ==> m <= x
  {
    LeastExists(s);
    var m :| m in s && forall x :: x in s ==> m <= x;
    m
  }

  lemma {:induction false} LeastExists(s: set<nat>)
    requires s != {}
    ensures exists m :: m in s && forall x :: x in s ==> m <= x
  {
    var a :| a in s;
    var rest := s - {a};
    if rest == {} {
      LeastOfOne(s, a);
    } else {
      LeastExists(rest);
      var b :| b in rest && forall x :: x in rest ==> b <= x;
      LeastOfTwo(s, a, b);
    }
  }

  lemma {:induction false} LeastOfOne(s: set<nat>, a: nat)
    requires a in s && s - {a} == {}
    ensures forall x :: x in s ==> a <= x
  {
    assert forall x :: x in s ==> x == a || x in s - {a};
  }

  lemma {:induction false} LeastOfTwo(s: set<nat>, a: nat, b: nat)
    requires a in s && b in s && forall x :: x in s - {a} ==> b <= x
    ensures exists m :: m in s && forall x :: x in s ==> m <= x
  {
    var m := if a < b then a else b;
    forall x | x in s
      ensures m <= x
    {
      if x != a {
        assert x in s - {a};
      }
    }
  }

  /** The directory listing, sorted. */
  function Listing(s: set<nat>): (ks: seq<nat>)
    ensures |ks| == |s|
  {
    if s == {} then [] else var m := Least(s); [m] + Listing(s - {m})
  }

  function BodyOf(file: bytes): bytes { if |file| >= SEGMENT_HEADER then file[SEGMENT_HEADER..] else [] }

  function IndexedFile(file: bytes, first: nat): Segment {
    var recs := FileRecords(file, first);
    var left := Leftover(BodyOf(file), TagLenIn(file), first);
    Segment(first, first + Max(|recs|, 1) - 1, |recs|, |file| - |left|, TagLenIn(file),
            |left| > HEADER || |recs| >= BLOCKS_PER_SEGMENT)
  }

  /** Takes the files in order: unusable ones are removed, the others are indexed. */
  function IndexFiles(st: Store, firsts: seq<nat>): Store
    decreases |firsts|
  {
    if firsts == [] then st
    else
      var f := firsts[0];
      if f !in st.flash then IndexFiles(st, firsts[1..])
      else if FileRecords(st.flash[f], f) == [] then IndexFiles(st.(flash := st.flash - {f}), firsts[1..])
      else IndexFiles(Push(st, IndexedFile(st.flash[f], f)), firsts[1..])
  }

  function Shrink(st: Store): Store
    decreases |st.segs|
  {
    if |st.segs| > 1 && st.Total() > st.maxBlocks then Shrink(DiscardOldest(st)) else st
  }

  /** `begin`: the index rebuilt from the files alone, which all open. */
  function Begin(flash: Flash, maxBlocks: nat): Store {
    Shrink(IndexFiles(Store([], flash, maxBlocks, false, 0, 0), Listing(flash.Keys)))
  }

  /** The same when the files of `io` do not open: they are removed, as if no record were in them. */
  function IndexOpened(st: Store, firsts: seq<nat>, io: set<nat>): Store
    decreases |firsts|
  {
    if firsts == [] then st
    else
      var f := firsts[0];
      if f !in st.flash then IndexOpened(st, firsts[1..], io)
      else if f in io || FileRecords(st.flash[f], f) == [] then
        IndexOpened(st.(flash := st.flash - {f}), firsts[1..], io)
      else IndexOpened(Push(st, IndexedFile(st.flash[f], f)), firsts[1..], io)
  }

  function BeginWith(flash: Flash, maxBlocks: nat, io: set<nat>): Store {
    Shrink(IndexOpened(Store([], flash, maxBlocks, false, 0, 0), Listing(flash.Keys), io))
  }

  // ---- the bench command that damages one byte ----

  /** Where the record number `index` starts in the body of a file, walking over the lengths. */
  function RecordStart(body: bytes, tagLen: nat, index: nat): int
    decreases index
  {
    if index == 0 then 0
    else if |body| < HEADER then -1
    else
      var size := LengthField(body) + tagLen + CRC_SIZE;
      if |body| < size then -1
      else
        var more := RecordStart(body[size..], tagLen, index - 1);
        if more < 0 then -1 else size + more
  }

  function Flip(file: bytes, at: nat): bytes {
    if at < |file| then file[at := 255 - file[at]] else file
  }

  /** The first byte after the header of the record with that seq; -1 when the walk runs off the file. */
  function DamageAt(file: bytes, seg: Segment, seqNo: nat): int {
    if seqNo < seg.first then -1
    else
      var start := RecordStart(BodyOf(file), seg.tagLen, seqNo - seg.first);
      var at := SEGMENT_HEADER + start + HEADER;
      if start < 0 || at >= |file| then -1 else at
  }

  /** `corrupt`: inverts that byte. */
  function Corrupt(st: Store, seqNo: nat, io: set<nat>): (Store, bool) {
    var i := Locate(st.segs, seqNo);
    if i == |st.segs| || seqNo in io || st.segs[i].first !in st.flash then (st, false)
    else
      var f := st.segs[i].first;
      var at := DamageAt(st.flash[f], st.segs[i], seqNo);
      if at < 0 then (st, false) else (st.(flash := st.flash[f := Flip(st.flash[f], at)]), true)
  }
}
