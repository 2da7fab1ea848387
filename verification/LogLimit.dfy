/** How many blocks the log keeps (collector/LogLimit.h). */
module LogLimit {
  import opened Bytes
  import opened BlockFormat
  import opened SegmentFormat
  import opened LogSpec

  function RecordSize(length: nat, tagLen: nat): nat { length + tagLen + CRC_SIZE }

  /** Worst case of bytes per block: a full record and its share of a segment header, rounded up. */
  function MaxRecordBytes(tagLen: nat): nat {
    RecordSize(MAX_DATA, tagLen) + (SEGMENT_HEADER + BLOCKS_PER_SEGMENT - 1) / BLOCKS_PER_SEGMENT
  }

  function Usable(totalBytes: nat, marginPct: nat): nat
    requires marginPct < 100
  {
    totalBytes - totalBytes * marginPct / 100
  }

  /**
   * The limit N: the most blocks whose worst case fits in the usable bytes, but never fewer than two
   * segments and never more than the index holds.
   */
  function MaxBlocksFor(totalBytes: nat, marginPct: nat, tagLen: nat, ceiling: nat): (n: nat)
    requires marginPct < 100 && ceiling < U32_END
    ensures n >= 2 * BLOCKS_PER_SEGMENT
    ensures n > 2 * BLOCKS_PER_SEGMENT ==> n <= ceiling && n * MaxRecordBytes(tagLen) <= Usable(totalBytes, marginPct)
    ensures n < ceiling ==> (n + 1) * MaxRecordBytes(tagLen) > Usable(totalBytes, marginPct)
  {
    MostThatFit(Usable(totalBytes, marginPct), MaxRecordBytes(tagLen), ceiling)
  }

  function MostThatFit(usable: nat, size: nat, ceiling: nat): (n: nat)
    requires size > 0 && ceiling < U32_END
    ensures n >= 2 * BLOCKS_PER_SEGMENT
    ensures n > 2 * BLOCKS_PER_SEGMENT ==> n <= ceiling && n * size <= usable
    ensures n < ceiling ==> (n + 1) * size > usable
  {
    var q := usable / size;
    Quotient(usable, size);
    var n := if q < U32_END - 1 then q else U32_END - 1;
    var m := if n < ceiling then n else ceiling;
    MoreBlocks(m, q, size);
    MoreBlocks(q + 1, 2 * BLOCKS_PER_SEGMENT + 1, size);
    if m > 2 * BLOCKS_PER_SEGMENT then m else 2 * BLOCKS_PER_SEGMENT
  }

  lemma {:induction false} Quotient(a: nat, d: nat)
    requires d > 0
    ensures a / d * d <= a < (a / d + 1) * d
  {
    assert a == a / d * d + a % d;
  }

  lemma {:induction false} MoreBlocks(a: nat, b: nat, size: nat)
    ensures a <= b ==> a * size <= b * size
  {
  }

  /**
   * In the terms of the flash: with a worst case of 1029 bytes and the tag per block, N blocks take no
   * more than what the margin leaves of the total, up to a byte, and one block more would not fit.
   */
  lemma {:induction false} LimitLeavesMargin(totalBytes: nat, marginPct: nat, tagLen: nat, ceiling: nat)
    requires marginPct < 100 && ceiling < U32_END
    ensures var n := MaxBlocksFor(totalBytes, marginPct, tagLen, ceiling);
      && (n > 128 ==> n <= ceiling && 100 * (n * (1029 + tagLen)) < totalBytes * (100 - marginPct) + 100)
      && (n < ceiling ==> 100 * ((n + 1) * (1029 + tagLen)) > totalBytes * (100 - marginPct))
  {
    var u := Usable(totalBytes, marginPct);
    WorstCase(tagLen);
    MarginIs(totalBytes, marginPct);
    hide MaxRecordBytes, Usable;
  }

  lemma {:induction false} WorstCase(tagLen: nat)
    ensures MaxRecordBytes(tagLen) == 1029 + tagLen
  {
  }

  lemma {:induction false} MarginIs(totalBytes: nat, marginPct: nat)
    requires marginPct < 100
    ensures var u := Usable(totalBytes, marginPct);
      totalBytes * (100 - marginPct) <= 100 * u < totalBytes * (100 - marginPct) + 100
  {
    var m := totalBytes * marginPct;
    assert 100 * (m / 100) + m % 100 == m;
    assert totalBytes * (100 - marginPct) == 100 * totalBytes - m;
  }

  /** A segment of at least eight records takes no more than its share; a shorter one only a few bytes more. */
  lemma {:induction false} SegmentFitsItsShare(g: LogSeg)
    requires g.Wf() && g.junk == []
    ensures |g.File()| <= |g.recs| * MaxRecordBytes(g.tagLen)
      + (if |g.recs| >= SEGMENT_HEADER then 0 else SEGMENT_HEADER - |g.recs|)
  {
    RecordsFit(g.recs, g.tagLen);
    var n, size := |g.recs|, RecordSize(MAX_DATA, g.tagLen);
    assert n * (size + 1) == n * size + n;
  }

  lemma {:induction false} RecordFits(b: Block, tagLen: nat)
    requires Sized(b, tagLen)
    ensures |RecordBytes(b)| <= RecordSize(MAX_DATA, tagLen)
  {
  }

  lemma {:induction false} OneMoreTimes(n: nat, size: nat)
    ensures n * size == (n - 1) * size + size
  {
  }

  lemma {:induction false} RecordsFit(recs: seq<Block>, tagLen: nat)
    requires forall i :: 0 <= i < |recs| ==> Sized(recs[i], tagLen)
    ensures |RecordsBytes(recs)| <= |recs| * RecordSize(MAX_DATA, tagLen)
  {
    hide RecordBytes, Sized;
    if recs != [] {
      RecordsFit(recs[1..], tagLen);
      RecordFits(recs[0], tagLen);
      OneMoreTimes(|recs|, RecordSize(MAX_DATA, tagLen));
    }
  }
}
