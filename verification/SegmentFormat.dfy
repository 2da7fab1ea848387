/**
 * Segment files (collector/SegmentFormat.cpp): an 8-byte header, then records
 * `data | tag | CRC32`. Two parsers read them: `ScanSegment`, which indexes a file at boot, and
 * `ReadRecord`, which fetches one block.
 */
module SegmentFormat {
  import opened Bytes
  import opened BlockFormat
  import Crc32

  const SEGMENT_HEADER: nat := 8
  const BLOCKS_PER_SEGMENT: nat := 64
  const MAGIC: bytes := [84, 67, 83, 50]
  const VERSION: byte := 2

  predicate ValidTagLen(t: int) { t == 0 || t == 32 || t == 64 }

  function EncodeHeader(tagLen: nat): (h: bytes)
    ensures |h| == SEGMENT_HEADER
  {
    MAGIC + [VERSION, tagLen % 256] + U16(0)
  }

  function TagLenIn(h: bytes): byte { if |h| > 5 then h[5] else 0 }

  predicate HeaderOk(h: bytes) {
    |h| >= SEGMENT_HEADER && h[..4] == MAGIC && h[4] == VERSION && ValidTagLen(h[5])
  }

  predicate CrcMatches(b: Block) { Crc32.Checksum(b.data + b.tag) == b.crc }

  // ---- what a sequence of bytes means ----

  datatype Next = Cut | Record(block: Block, rest: bytes)

  /** The record at the front of `bs`, if one is complete there. */
  function NextRecord(bs: bytes, tagLen: nat): Next {
    if |bs| < HEADER then Cut
    else
      var len := LengthField(bs);
      if len < HEADER || len > MAX_DATA || |bs| < len + tagLen + CRC_SIZE then Cut
      else
        Record(Block(bs[..len], bs[len..len + tagLen], GetU32(bs[len + tagLen..])), bs[len + tagLen + CRC_SIZE..])
  }

  /** The records a scan accepts: complete ones with consecutive seqs from `first`. */
  function Records(bs: bytes, tagLen: nat, first: nat): seq<Block>
    decreases |bs|
  {
    match NextRecord(bs, tagLen)
    case Cut => []
    case Record(b, rest) =>
      if BlockSeq(b.data) == first then [b] + Records(rest, tagLen, first + 1) else []
  }

  /** The bytes a scan leaves over. */
  function Leftover(bs: bytes, tagLen: nat, first: nat): (r: bytes)
    ensures |r| <= |bs|
    decreases |bs|
  {
    match NextRecord(bs, tagLen)
    case Cut => bs
    case Record(b, rest) =>
      if BlockSeq(b.data) == first then Leftover(rest, tagLen, first + 1) else bs
  }

  datatype Fetched = Missing | Broken | Found(block: Block)

  /** The record number `index`, walking over the lengths only. */
  function RecordAt(bs: bytes, tagLen: nat, index: nat): (r: Fetched)
    ensures r != Missing
    decreases index
  {
    match NextRecord(bs, tagLen)
    case Cut => Broken
    case Record(b, rest) => if index == 0 then Found(b) else RecordAt(rest, tagLen, index - 1)
  }

  /** What `readRecord` answers on a whole file. */
  function Fetch(file: bytes, first: nat, seqNo: nat): (r: Fetched)
    ensures r.Found? ==> BlockSeq(r.block.data) == seqNo
  {
    if seqNo < first then Missing
    else if !HeaderOk(file) then Broken
    else
      match RecordAt(file[SEGMENT_HEADER..], file[5], seqNo - first)
      case Found(b) => if BlockSeq(b.data) == seqNo then Found(b) else Broken
      case _ => Broken
  }

  function FileRecords(file: bytes, first: nat): seq<Block> {
    if HeaderOk(file) then Records(file[SEGMENT_HEADER..], file[5], first) else []
  }

  /** The size limits the transmit buffer relies on. */
  predicate Sized(b: Block, tagLen: nat) {
    HEADER <= |b.data| <= MAX_DATA && |b.tag| == tagLen && b.crc < U32_END && LengthField(b.data) == |b.data|
  }

  // ---- the two parsers agree ----

  lemma {:induction false} NextIsSized(bs: bytes, tagLen: nat)
    requires NextRecord(bs, tagLen).Record?
    ensures Sized(NextRecord(bs, tagLen).block, tagLen)
  {
    SameLength(bs[..LengthField(bs)], bs);
  }

  lemma {:induction false} ParsersAgree(bs: bytes, tagLen: nat, first: nat, k: nat)
    requires k < |Records(bs, tagLen, first)|
    ensures RecordAt(bs, tagLen, k) == Found(Records(bs, tagLen, first)[k])
    ensures Sized(Records(bs, tagLen, first)[k], tagLen)
    ensures BlockSeq(Records(bs, tagLen, first)[k].data) == first + k
    decreases k
  {
    NextIsSized(bs, tagLen);
    if k > 0 {
      ParsersAgree(NextRecord(bs, tagLen).rest, tagLen, first + 1, k - 1);
    }
  }

  /**
   * On arbitrary bytes: every seq a scan accepts is fetched, with the right seq, and fits the
   * transmit buffer (12..1024 bytes of data, a tag of at most 64).
   */
  lemma {:induction false} ScannedIsFetched(file: bytes, first: nat, seqNo: nat)
    requires first <= seqNo < first + |FileRecords(file, first)|
    ensures Fetch(file, first, seqNo) == Found(FileRecords(file, first)[seqNo - first])
    ensures Sized(FileRecords(file, first)[seqNo - first], file[5]) && file[5] <= MAX_TAG
  {
    ParsersAgree(file[SEGMENT_HEADER..], file[5], first, seqNo - first);
  }

  // ---- writing ----

  function RecordBytes(b: Block): bytes { b.data + b.tag + U32(b.crc) }

  function RecordsBytes(bs: seq<Block>): bytes {
    if bs == [] then [] else RecordBytes(bs[0]) + RecordsBytes(bs[1..])
  }

  /** A complete record in four parts. */
  lemma {:induction false} NextParts(data: bytes, tag: bytes, crc: bytes, rest: bytes)
    requires HEADER <= |data| <= MAX_DATA && LengthField(data) == |data| && |crc| == CRC_SIZE
    ensures NextRecord(data + tag + crc + rest, |tag|) == Record(Block(data, tag, GetU32(crc)), rest)
  {
    hide GetU16, GetU32;
    var bs := data + tag + crc + rest;
    var len, t := |data|, |tag|;
    SameLength(data, bs);
    assert bs[..len] == data;
    assert bs[len..len + t] == tag;
    assert bs[len + t..] == crc + rest;
    SameU32(crc, rest);
    assert bs[len + t + CRC_SIZE..] == rest;
  }

  predicate Complete(bs: bytes, tagLen: nat) {
    |bs| >= HEADER && HEADER <= LengthField(bs) <= MAX_DATA && |bs| >= LengthField(bs) + tagLen + CRC_SIZE
  }

  lemma {:induction false} NextIncomplete(bs: bytes, tagLen: nat)
    requires !Complete(bs, tagLen)
    ensures NextRecord(bs, tagLen) == Cut
  {
  }

  lemma {:induction false} SameLength(h: bytes, bs: bytes)
    requires HEADER <= |h| <= |bs| && bs[..|h|] == h
    ensures LengthField(h) == LengthField(bs) && BlockSeq(h) == BlockSeq(bs)
  {
    assert forall i :: 0 <= i < HEADER ==> h[i] == bs[..|h|][i] == bs[i];
    assert h[10..][0] == h[10] && h[10..][1] == h[11] && bs[10..][0] == bs[10] && bs[10..][1] == bs[11];
  }

  lemma {:induction false} SameU32(p: bytes, rest: bytes)
    requires |p| == 4
    ensures GetU32(p + rest) == GetU32(p)
  {
  }

  lemma {:induction false} NextOfWritten(b: Block, tagLen: nat, rest: bytes)
    requires Sized(b, tagLen)
    ensures NextRecord(RecordBytes(b) + rest, tagLen) == Record(b, rest)
  {
    hide U32, GetU32, GetU16, NextRecord;
    GetPutU32(b.crc, []);
    assert U32(b.crc) + [] == U32(b.crc);
    NextParts(b.data, b.tag, U32(b.crc), rest);
    assert RecordBytes(b) + rest == b.data + b.tag + U32(b.crc) + rest;
  }

  /** A record cut short at any byte is never taken for a record. */
  lemma {:induction false} CutIsNotRead(b: Block, tagLen: nat, p: nat)
    requires Sized(b, tagLen) && p < |RecordBytes(b)|
    ensures NextRecord(RecordBytes(b)[..p], tagLen) == Cut
  {
    var bs := RecordBytes(b)[..p];
    if p >= HEADER {
      assert bs[..HEADER] == b.data[..HEADER];
      SameLength(b.data[..HEADER], bs);
      SameLength(b.data[..HEADER], b.data);
    }
  }

  predicate Consecutive(bs: seq<Block>, tagLen: nat, first: nat) {
    forall k :: 0 <= k < |bs| ==> Sized(bs[k], tagLen) && BlockSeq(bs[k].data) == first + k
  }

  lemma {:induction false} RecordsCons(b: Block, rest: bytes, tagLen: nat, first: nat)
    requires Sized(b, tagLen) && BlockSeq(b.data) == first
    ensures Records(RecordBytes(b) + rest, tagLen, first) == [b] + Records(rest, tagLen, first + 1)
    ensures Leftover(RecordBytes(b) + rest, tagLen, first) == Leftover(rest, tagLen, first + 1)
  {
    hide NextRecord, RecordBytes, BlockSeq, Sized;
    NextOfWritten(b, tagLen, rest);
  }

  /** Scanning what was written gives the records back, then whatever the tail holds. */
  lemma {:induction false} RecordsOfWritten(bs: seq<Block>, tail: bytes, tagLen: nat, first: nat)
    requires Consecutive(bs, tagLen, first)
    ensures Records(RecordsBytes(bs) + tail, tagLen, first) == bs + Records(tail, tagLen, first + |bs|)
    ensures Leftover(RecordsBytes(bs) + tail, tagLen, first) == Leftover(tail, tagLen, first + |bs|)
  {
    hide Records, Leftover, BlockSeq, RecordBytes, Sized;
    if bs == [] {
      assert RecordsBytes(bs) + tail == tail;
    } else {
      var b, more := bs[0], bs[1..];
      var rest := RecordsBytes(more) + tail;
      assert RecordsBytes(bs) + tail == RecordBytes(b) + rest;
      assert Sized(b, tagLen) && BlockSeq(b.data) == first + 0;
      RecordsCons(b, rest, tagLen, first);
      forall k | 0 <= k < |more|
        ensures Sized(more[k], tagLen) && BlockSeq(more[k].data) == first + 1 + k
      {
        assert more[k] == bs[k + 1];
      }
      RecordsOfWritten(more, tail, tagLen, first + 1);
      assert bs == [b] + more;
    }
  }

  lemma {:induction false} RecordsBytesAppend(a: seq<Block>, b: seq<Block>)
    ensures RecordsBytes(a + b) == RecordsBytes(a) + RecordsBytes(b)
  {
    if a == [] {
      assert a + b == b;
    } else {
      assert (a + b)[1..] == a[1..] + b;
      RecordsBytesAppend(a[1..], b);
    }
  }

  // ---- the parsers themselves ----

  /** A sequential source of bytes: a file, or a buffer in memory. */
  class ByteSource {
    const content: bytes
    var pos: nat

    ghost predicate Valid() reads this { pos <= |content| }

    ghost function Rest(): bytes
      requires Valid()
      reads this
    {
      content[pos..]
    }

    constructor (content: bytes)
      ensures Valid() && this.content == content && pos == 0
    {
      this.content := content;
      pos := 0;
    }

    /** Reads up to `n` bytes; a short read consumes what there was. */
    method Read(n: nat) returns (out: bytes)
      requires Valid()
      modifies this
      ensures Valid() && |out| == (if n <= |old(Rest())| then n else |old(Rest())|)
      ensures old(Rest()) == out + Rest()
    {
      var k := if n <= |content| - pos then n else |content| - pos;
      out := content[pos..pos + k];
      pos := pos + k;
    }

    method Skip(n: nat) returns (ok: bool)
      requires Valid()
      modifies this
      ensures Valid() && ok == (n <= |old(Rest())|)
      ensures Rest() == if ok then old(Rest())[n..] else old(Rest())
    {
      ok := n <= |content| - pos;
      if ok {
        pos := pos + n;
      }
    }

    method Remaining() returns (n: nat)
      requires Valid()
      ensures n == |Rest()|
    {
      n := |content| - pos;
    }
  }

  datatype ScanResult = ScanResult(first: nat, last: nat, count: nat, size: nat, tagLen: nat, trailingGarbage: bool)

  /** Reads one record header and skips the rest of the record, if it is the expected one. */
  method ScanOne(src: ByteSource, tagLen: nat, expected: nat) returns (ok: bool, length: nat)
    requires src.Valid()
    modifies src
    ensures src.Valid()
    ensures var next := NextRecord(old(src.Rest()), tagLen);
      if next.Record? && BlockSeq(next.block.data) == expected
      then ok && src.Rest() == next.rest && length == |next.block.data|
      else !ok && |src.Rest()| == if |old(src.Rest())| <= HEADER then 0 else |old(src.Rest())| - HEADER
    ensures ok ==> |old(src.Rest())| == |src.Rest()| + length + tagLen + CRC_SIZE
  {
    hide GetU16, GetU32;
    ghost var at := src.Rest();
    ok, length := false, 0;
    var h := src.Read(HEADER);
    if |h| == HEADER {
      SameLength(h, at);
      length := LengthField(h);
      if HEADER <= length <= MAX_DATA {
        if |at| >= length {
          SameLength(at[..length], at);
        }
        if BlockSeq(h) == expected {
          var rest := length - HEADER + tagLen + CRC_SIZE;
          var left := src.Remaining();
          if left >= rest {
            ok := src.Skip(rest);
            assert src.Rest() == at[length + tagLen + CRC_SIZE..];
          }
        }
      }
    }
  }

  /** A segment's header is good and its records, from seq `first`, are as `out` says. */
  ghost predicate Indexes(file: bytes, first: nat, out: ScanResult)
    requires HeaderOk(file)
  {
    var recs := FileRecords(file, first);
    var left := Leftover(file[SEGMENT_HEADER..], file[5], first);
    && out.first == first && out.tagLen == file[5] && out.count == |recs|
    && (recs != [] ==> out.last == first + |recs| - 1)
    && out.size == |file| - |left|
    // The flag misses a tail of 1 to 12 bytes: reading the next header has already consumed it.
    && (out.trailingGarbage <==> |left| > HEADER)
  }

  lemma {:induction false} NothingLeft(tagLen: nat, next: nat)
    ensures Records([], tagLen, next) == [] && Leftover([], tagLen, next) == []
  {
  }

  method ScanSegment(src: ByteSource, first: nat) returns (valid: bool, out: ScanResult)
    requires src.Valid() && src.pos == 0
    modifies src
    ensures valid == HeaderOk(src.content)
    ensures valid ==> Indexes(src.content, first, out)
  {
    hide NextRecord, BlockSeq, GetU16, GetU32, U16, U32;
    out := ScanResult(0, 0, 0, 0, 0, false);
    var head := src.Read(SEGMENT_HEADER);
    assert src.content == head + src.Rest();
    if |head| != SEGMENT_HEADER || !HeaderOk(head) {
      return false, out;
    }
    var tagLen: nat := head[5];
    ghost var body := src.Rest();
    assert src.content[SEGMENT_HEADER..] == body && src.content[..4] == head[..4] && src.content[5] == tagLen;
    out := ScanResult(first, 0, 0, SEGMENT_HEADER, tagLen, false);
    ghost var at := body;
    var stop := false;
    var left := src.Remaining();
    while left > 0 && !stop
      invariant src.Valid() && left == |src.Rest()|
      invariant !stop ==> src.Rest() == at
      invariant out.first == first && out.tagLen == tagLen
      invariant |Records(body, tagLen, first)| == out.count + |Records(at, tagLen, first + out.count)|
      invariant Leftover(body, tagLen, first) == Leftover(at, tagLen, first + out.count)
      invariant out.count > 0 ==> out.last == first + out.count - 1
      invariant out.size + |at| == |src.content|
      invariant stop ==> Records(at, tagLen, first + out.count) == [] && Leftover(at, tagLen, first + out.count) == at
      invariant stop ==> left == if |at| <= HEADER then 0 else |at| - HEADER
      decreases !stop, |at|
    {
      var ok, length := ScanOne(src, tagLen, first + out.count);
      if ok {
        at := src.Rest();
        out := out.(last := first + out.count, count := out.count + 1, size := out.size + length + tagLen + CRC_SIZE);
      }
      stop := !ok;
      left := src.Remaining();
    }
    if !stop {
      NothingLeft(tagLen, first + out.count);
      assert at == [];
    }
    out := out.(trailingGarbage := left > 0);
    valid := true;
  }

  /** Passes over one record without looking at its seq. */
  method SkipOne(src: ByteSource, tagLen: nat) returns (ok: bool)
    requires src.Valid()
    modifies src
    ensures src.Valid()
    ensures var next := NextRecord(old(src.Rest()), tagLen);
      if next.Record? then ok && src.Rest() == next.rest else !ok
  {
    hide GetU16, GetU32;
    ghost var at := src.Rest();
    var h := src.Read(HEADER);
    if |h| != HEADER {
      return false;
    }
    SameLength(h, at);
    var length := LengthField(h);
    if length < HEADER || length > MAX_DATA {
      return false;
    }
    ok := src.Skip(length - HEADER + tagLen + CRC_SIZE);
    if ok {
      assert src.Rest() == at[length + tagLen + CRC_SIZE..];
    }
  }

  /** Reads one whole record. */
  method ReadOne(src: ByteSource, tagLen: nat) returns (r: Fetched)
    requires src.Valid()
    modifies src
    ensures src.Valid()
    ensures var next := NextRecord(old(src.Rest()), tagLen);
      r == if next.Record? then Found(next.block) else Broken
  {
    hide GetU16, GetU32, NextRecord, LengthField;
    ghost var at := src.Rest();
    if !Complete(at, tagLen) {
      NextIncomplete(at, tagLen);
    }
    var h := src.Read(HEADER);
    if |h| != HEADER {
      return Broken;
    }
    SameLength(h, at);
    var length := LengthField(h);
    if length < HEADER || length > MAX_DATA {
      return Broken;
    }
    var left := src.Remaining();
    if left < length - HEADER + tagLen + CRC_SIZE {
      return Broken;
    }
    var more := src.Read(length - HEADER);
    var tag := src.Read(tagLen);
    var crc := src.Read(CRC_SIZE);
    assert at == (h + more) + tag + crc + src.Rest();
    SameLength(h, h + more);
    NextParts(h + more, tag, crc, src.Rest());
    r := Found(Block(h + more, tag, GetU32(crc)));
  }

  method ReadRecord(src: ByteSource, first: nat, seqNo: nat) returns (r: Fetched)
    requires src.Valid() && src.pos == 0
    modifies src
    ensures r == Fetch(src.content, first, seqNo)
  {
    hide NextRecord, BlockSeq;
    if seqNo < first {
      return Missing;
    }
    var head := src.Read(SEGMENT_HEADER);
    assert src.content == head + src.Rest();
    if |head| != SEGMENT_HEADER || !HeaderOk(head) {
      return Broken;
    }
    var tagLen: nat := head[5];
    assert src.content[SEGMENT_HEADER..] == src.Rest() && src.content[..4] == head[..4] && src.content[5] == tagLen;
    var index := seqNo - first;
    for k := 0 to index
      invariant src.Valid()
      invariant RecordAt(src.content[SEGMENT_HEADER..], tagLen, index) == RecordAt(src.Rest(), tagLen, index - k)
    {
      var ok := SkipOne(src, tagLen);
      if !ok {
        return Broken;
      }
    }
    r := ReadOne(src, tagLen);
    if r.Found? && BlockSeq(r.block.data) != seqNo {
      r := Broken;
    }
  }
}
