/**
 * Splitting a message into notifications (sync/Fragmenter.h) and putting it together again
 * (`Assembler` of tools/sync-bench/sync_bench.py).
 */
module Fragments {
  import opened Bytes
  import opened SyncProtocol

  const FIRST: nat := 0x80
  const TURN: nat := 128
  const MIN_MTU: nat := 23

  // ---- the fragmenter ----

  /** Payload bytes per fragment. */
  function Chunk(mtu: nat): (c: nat)
    ensures c >= 19
  {
    (if mtu < MIN_MTU then MIN_MTU else mtu) - 4
  }

  /** Where fragment `i` starts. */
  function Offset(length: nat, chunk: nat, i: nat): nat { if i * chunk < length then i * chunk else length }

  function Header(i: nat): (h: byte) { (if i == 0 then FIRST else 0) + i % TURN }

  function Piece(msg: bytes, chunk: nat, i: nat): bytes {
    OffsetsRise(|msg|, chunk, i);
    msg[Offset(|msg|, chunk, i)..Offset(|msg|, chunk, i + 1)]
  }

  function Fragment(msg: bytes, chunk: nat, i: nat): (f: bytes)
    ensures f != []
  {
    [Header(i)] + Piece(msg, chunk, i)
  }

  function Count(length: nat, chunk: nat): nat
    requires chunk > 0
  {
    (length + chunk - 1) / chunk
  }

  lemma {:induction false} OffsetsRise(length: nat, chunk: nat, i: nat)
    ensures Offset(length, chunk, i) <= Offset(length, chunk, i + 1) <= length
  {
    assert (i + 1) * chunk == i * chunk + chunk;
  }

  /** Every fragment before the last starts and ends inside the message, and carries at least a byte. */
  lemma {:induction false} CountIs(length: nat, chunk: nat, i: nat)
    requires chunk > 0
    ensures i < Count(length, chunk) <==> i * chunk < length
    ensures i < Count(length, chunk) ==> Offset(length, chunk, i) < Offset(length, chunk, i + 1)
    ensures i >= Count(length, chunk) ==> Offset(length, chunk, i) == length
  {
    var n := Count(length, chunk);
    var r := (length + chunk - 1) % chunk;
    assert n * chunk + r == length + chunk - 1;
    if i < n {
      MoreTimes(i + 1, n, chunk);
    } else {
      MoreTimes(n, i, chunk);
    }
    assert (i + 1) * chunk == i * chunk + chunk;
  }

  lemma {:induction false} MoreTimes(a: nat, b: nat, chunk: nat)
    requires a <= b
    ensures a * chunk <= b * chunk
  {
  }

  // ---- how large the fragments are ----

  /** What one notification carries: the MTU, of which 23 bytes are always there, less 3 of its own. */
  function Room(mtu: nat): nat { (if mtu > 23 then mtu else 23) - 3 }

  /**
   * Every fragment fits a notification, and every one but the last fills it. Its first byte tells the
   * first fragment by the high bit and counts modulo 128 in the others.
   */
  lemma {:induction false} FragmentFills(msg: bytes, mtu: nat, i: nat)
    requires i < Count(|msg|, Chunk(mtu))
    ensures var f := Fragment(msg, Chunk(mtu), i);
      && 2 <= |f| <= Room(mtu) && (i + 1 < Count(|msg|, Chunk(mtu)) ==> |f| == Room(mtu))
      && (f[0] >= 128 <==> i == 0) && f[0] % 128 == i % 128
  {
    var chunk := Chunk(mtu);
    CountIs(|msg|, chunk, i);
    CountIs(|msg|, chunk, i + 1);
    assert (i + 1) * chunk == i * chunk + chunk;
  }

  /** The message that pieces make. */
  function Joined(pieces: seq<bytes>): bytes {
    if pieces == [] then [] else pieces[0] + Joined(pieces[1..])
  }

  lemma {:induction false} JoinedFits(pieces: seq<bytes>, chunk: nat)
    requires forall i :: 0 <= i < |pieces| ==> |pieces[i]| <= chunk
    ensures |Joined(pieces)| <= |pieces| * chunk
  {
    if pieces != [] {
      JoinedFits(pieces[1..], chunk);
      assert |pieces| * chunk == (|pieces| - 1) * chunk + chunk;
    }
  }

  /** No way of splitting the message into fragments that fit, each with its counter byte, takes fewer. */
  lemma {:induction false} FewestFragments(msg: bytes, mtu: nat, pieces: seq<bytes>)
    requires Joined(pieces) == msg && forall i :: 0 <= i < |pieces| ==> 1 + |pieces[i]| <= Room(mtu)
    ensures |pieces| >= Count(|msg|, Chunk(mtu))
  {
    var chunk := Chunk(mtu);
    JoinedFits(pieces, chunk);
    CountIs(|msg|, chunk, |pieces|);
  }

  class Fragmenter {
    const msg: bytes
    const chunk: nat
    var off: nat
    var index: nat

    ghost predicate Valid() reads this { chunk >= 19 && off == Offset(|msg|, chunk, index) }

    constructor (msg: bytes, mtu: nat)
      ensures Valid() && this.msg == msg && chunk == Chunk(mtu) && chunk + 1 == Room(mtu) && index == 0
    {
      this.msg, chunk := msg, Chunk(mtu);
      off, index := 0, 0;
    }

    method CountAll() returns (n: nat)
      requires Valid()
      ensures n == Count(|msg|, chunk)
    {
      n := (|msg| + chunk - 1) / chunk;
    }

    /** The next fragment; nothing when all have gone out. */
    method Next() returns (ok: bool, out: bytes)
      requires Valid()
      modifies this
      ensures Valid() && ok == (old(index) < Count(|msg|, chunk))
      ensures ok ==> out == Fragment(msg, chunk, old(index)) && index == old(index) + 1 && |out| <= chunk + 1
      ensures !ok ==> out == [] && index == old(index)
    {
      CountIs(|msg|, chunk, index);
      OffsetsRise(|msg|, chunk, index);
      if off >= |msg| {
        return false, [];
      }
      var n := |msg| - off;
      if n > chunk {
        n := chunk;
      }
      assert (index + 1) * chunk == index * chunk + chunk;
      out := [(if index == 0 then FIRST else 0) + index % TURN];
      for i := 0 to n
        invariant out == [Header(index)] + msg[off..off + i]
      {
        out := out + [msg[off + i]];
      }
      off := off + n;
      index := index + 1;
      ok := true;
    }
  }

  // ---- the assembler ----

  datatype State = State(buf: bytes, counter: Option<nat>)

  /** One notification: the new state, and the message it completes. */
  function Fed(s: State, data: bytes): (State, Option<Tlv>)
    requires data != []
  {
    var c, piece := data[0] as nat, data[1..];
    if c < FIRST && (s.counter.None? || c % TURN != (s.counter.value + 1) % TURN) then (State([], None), None)
    else
      var s1 := if c >= FIRST then State(piece, Some(0)) else State(s.buf + piece, Some(c % TURN));
      if |s1.buf| >= TLV_HEADER && |s1.buf| == TLV_HEADER + GetU16(s1.buf[1..])
      then (s1.(buf := []), Some(Tlv(s1.buf[0], s1.buf[TLV_HEADER..])))
      else (s1, None)
  }

  class Assembler {
    var buf: bytes
    var counter: Option<nat>

    ghost function Abs(): State reads this { State(buf, counter) }

    constructor ()
      ensures Abs() == State([], None)
    {
      buf, counter := [], None;
    }

    method Feed(data: bytes) returns (out: Option<Tlv>)
      requires data != []
      modifies this
      ensures (Abs(), out) == Fed(old(Abs()), data)
    {
      var c, piece := data[0] as nat, data[1..];
      if c >= FIRST {
        buf, counter := piece, Some(0);
      } else if counter.None? || c % TURN != (counter.value + 1) % TURN {
        buf, counter := [], None;
        return None;
      } else {
        buf := buf + piece;
        counter := Some(c % TURN);
      }
      if |buf| >= TLV_HEADER && |buf| == TLV_HEADER + GetU16(buf[1..]) {
        out := Some(Tlv(buf[0], buf[TLV_HEADER..]));
        buf := [];
        return;
      }
      out := None;
    }
  }

  // ---- round trip ----

  /** Feeding the fragments with these numbers, in this order: the state after, and what came out each time. */
  function FedAll(s: State, msg: bytes, chunk: nat, ks: seq<nat>): (State, seq<Option<Tlv>>)
    decreases |ks|
  {
    if ks == [] then (s, [])
    else
      var n := |ks| - 1;
      var (s1, outs) := FedAll(s, msg, chunk, ks[..n]);
      var (s2, out) := Fed(s1, Fragment(msg, chunk, ks[n]));
      (s2, outs + [out])
  }

  function Upto(n: nat): (ks: seq<nat>)
    ensures |ks| == n && forall i :: 0 <= i < n ==> ks[i] == i
  {
    if n == 0 then [] else Upto(n - 1) + [n - 1]
  }

  predicate WellFormed(msg: bytes) { |msg| >= TLV_HEADER && GetU16(msg[1..]) == |msg| - TLV_HEADER }

  /** A prefix of the message is complete only when it is the whole message. */
  lemma {:induction false} CompleteIsWhole(msg: bytes, p: bytes)
    requires WellFormed(msg) && |p| <= |msg| && |p| >= TLV_HEADER && p[..TLV_HEADER] == msg[..TLV_HEADER]
    ensures |p| == TLV_HEADER + GetU16(p[1..]) <==> |p| == |msg|
  {
    assert p[1..][..2] == p[..TLV_HEADER][1..] && msg[1..][..2] == msg[..TLV_HEADER][1..];
    assert p[1..][0] == p[1..][..2][0] && p[1..][1] == p[1..][..2][1];
    assert msg[1..][0] == msg[1..][..2][0] && msg[1..][1] == msg[1..][..2][1];
  }

  lemma {:induction false} PieceIs(msg: bytes, chunk: nat, i: nat)
    ensures msg[..Offset(|msg|, chunk, i)] + Piece(msg, chunk, i) == msg[..Offset(|msg|, chunk, i + 1)]
  {
    OffsetsRise(|msg|, chunk, i);
  }

  lemma {:induction false} FirstPiece(msg: bytes, chunk: nat)
    requires chunk >= 19 && WellFormed(msg)
    ensures Piece(msg, chunk, 0) == msg[..Offset(|msg|, chunk, 1)] && Offset(|msg|, chunk, 1) >= TLV_HEADER
  {
    assert 0 * chunk == 0 && 1 * chunk == chunk;
  }

  ghost predicate Holding(s: State, outs: seq<Option<Tlv>>, msg: bytes, chunk: nat, n: nat) {
    && |outs| == n && n >= 1 && |msg| >= TLV_HEADER && chunk > 0
    && (forall i :: 0 <= i < n - 1 ==> outs[i] == None)
    && s.counter == Some((n - 1) % TURN)
    && (if n == Count(|msg|, chunk) then outs[n - 1] == Some(Tlv(msg[0], msg[TLV_HEADER..]))
        else outs[n - 1] == None && s.buf == msg[..Offset(|msg|, chunk, n)])
  }

  /** One more fragment, when all before it have arrived. */
  lemma {:induction false} CollectOne(s: State, msg: bytes, chunk: nat, m: nat)
    requires WellFormed(msg) && chunk >= 19 && m < Count(|msg|, chunk)
    requires m > 0 ==> s.counter == Some((m - 1) % TURN) && s.buf == msg[..Offset(|msg|, chunk, m)]
    ensures var (s', out) := Fed(s, Fragment(msg, chunk, m));
      && s'.counter == Some(m % TURN)
      && (if m + 1 == Count(|msg|, chunk) then out == Some(Tlv(msg[0], msg[TLV_HEADER..]))
          else out == None && s'.buf == msg[..Offset(|msg|, chunk, m + 1)])
  {
    hide GetU16, Offset, Fed, Piece, Fragment;
    WholeSoFar(msg, chunk, m);
    var whole := msg[..Offset(|msg|, chunk, m + 1)];
    PieceIs(msg, chunk, m);
    FirstPiece(msg, chunk);
    assert (if m == 0 then [] else s.buf) + Piece(msg, chunk, m) == whole by {
      assert [] + Piece(msg, chunk, m) == Piece(msg, chunk, m);
    }
    assert whole[..TLV_HEADER] == msg[..TLV_HEADER];
    CompleteIsWhole(msg, whole);
    FeedOne(s, msg, chunk, m);
    assert |whole| == |msg| ==> whole == msg;
  }

  /** Only the last fragment completes the message. */
  lemma {:induction false} WholeSoFar(msg: bytes, chunk: nat, m: nat)
    requires WellFormed(msg) && chunk >= 19 && m < Count(|msg|, chunk)
    ensures TLV_HEADER <= Offset(|msg|, chunk, m + 1) <= |msg|
    ensures Offset(|msg|, chunk, m + 1) == |msg| <==> m + 1 == Count(|msg|, chunk)
  {
    CountIs(|msg|, chunk, m + 1);
    FirstPiece(msg, chunk);
    OffsetAtLeast(|msg|, chunk, m + 1);
    OffsetsRise(|msg|, chunk, m);
    OffsetsRise(|msg|, chunk, m + 1);
    if m + 1 < Count(|msg|, chunk) {
      assert Offset(|msg|, chunk, m + 1) < Offset(|msg|, chunk, m + 2);
      OffsetsRise(|msg|, chunk, m + 1);
    }
  }

  /** After fragments 0 to n - 1: the message so far, or the whole message, out and gone. */
  lemma {:induction false} Collected(s: State, msg: bytes, chunk: nat, n: nat)
    requires WellFormed(msg) && chunk >= 19 && 1 <= n <= Count(|msg|, chunk)
    ensures var (s', outs) := FedAll(s, msg, chunk, Upto(n)); Holding(s', outs, msg, chunk, n)
  {
    hide WellFormed, Offset, Fed, Fragment, Count;
    var m := n - 1;
    assert Upto(n)[..m] == Upto(m);
    var (s1, outs) := FedAll(s, msg, chunk, Upto(m));
    if m == 0 {
      assert Upto(0) == [];
      FirstPiece(msg, chunk);
    } else {
      Collected(s, msg, chunk, m);
    }
    LongEnough(msg);
    CollectOne(s1, msg, chunk, m);
  }

  lemma {:induction false} LongEnough(msg: bytes)
    requires WellFormed(msg)
    ensures |msg| >= TLV_HEADER
  {
  }

  lemma {:induction false} OffsetAtLeast(length: nat, chunk: nat, n: nat)
    requires n >= 1
    ensures Offset(length, chunk, n) >= Offset(length, chunk, 1)
  {
    MoreTimes(1, n, chunk);
  }

  /** Fragment `m`, when the assembler expects it. */
  lemma {:induction false} FragmentParts(msg: bytes, chunk: nat, m: nat)
    ensures var f := Fragment(msg, chunk, m); f[0] == Header(m) && f[1..] == Piece(msg, chunk, m)
    ensures [] + Piece(msg, chunk, m) == Piece(msg, chunk, m)
  {
    hide Piece, Header;
  }

  /** The first header stands out; the others count on from one to the next, modulo 128. */
  lemma {:induction false} HeaderCounts(m: nat)
    ensures m == 0 ==> Header(m) >= FIRST
    ensures m > 0 ==> Header(m) < FIRST && Header(m) as nat % TURN == m % TURN == ((m - 1) % TURN + 1) % TURN
    ensures 0 % TURN == 0
  {
  }

  lemma {:induction false} FeedOne(s: State, msg: bytes, chunk: nat, m: nat)
    requires m > 0 ==> s.counter == Some((m - 1) % TURN)
    ensures var buf := (if m == 0 then [] else s.buf) + Piece(msg, chunk, m);
      var complete := |buf| >= TLV_HEADER && |buf| == TLV_HEADER + GetU16(buf[1..]);
      Fed(s, Fragment(msg, chunk, m))
        == (State(if complete then [] else buf, Some(m % TURN)),
            if complete then Some(Tlv(buf[0], buf[TLV_HEADER..])) else None)
  {
    hide GetU16, Piece, Fragment, Header;
    FragmentParts(msg, chunk, m);
    HeaderCounts(m);
  }

  /**
   * For every well-formed message, every MTU and every state of the assembler: feeding the
   * fragments in order gives the message exactly once, at the last one.
   */
  lemma {:induction false} MessageArrivesOnce(s: State, msg: bytes, mtu: nat)
    requires WellFormed(msg)
    ensures var n := Count(|msg|, Chunk(mtu));
      var outs := FedAll(s, msg, Chunk(mtu), Upto(n)).1;
      && n >= 1 && |outs| == n
      && (forall i :: 0 <= i < n - 1 ==> outs[i] == None)
      && outs[n - 1] == Some(Tlv(msg[0], msg[TLV_HEADER..]))
  {
    hide FedAll, WellFormed, Count, Offset;
    LongEnough(msg);
    var n := Count(|msg|, Chunk(mtu));
    AtLeastOne(msg, Chunk(mtu));
    Collected(s, msg, Chunk(mtu), n);
  }

  lemma {:induction false} AtLeastOne(msg: bytes, chunk: nat)
    requires WellFormed(msg) && chunk > 0
    ensures Count(|msg|, chunk) >= 1
  {
    CountIs(|msg|, chunk, 0);
    assert 0 * chunk == 0;
  }

  // ---- lost fragments ----

  /** Some of the fragments, in order, the first among them. */
  predicate Subsequence(ks: seq<nat>, n: nat) {
    && ks != [] && ks[0] == 0
    && (forall i :: 0 <= i < |ks| ==> ks[i] < n)
    && (forall i, j :: 0 <= i < j < |ks| ==> ks[i] < ks[j])
  }

  /** What the assembler holds once a fragment is missing: nothing, or fewer bytes than the message. */
  ghost predicate Short(s: State, msg: bytes, chunk: nat, ks: seq<nat>) {
    var last := if ks == [] then 0 else ks[|ks| - 1];
    || s == State([], None)
    || (&& s.counter.Some? && TLV_HEADER <= |s.buf| && TLV_HEADER <= |msg| && s.buf[..TLV_HEADER] == msg[..TLV_HEADER]
        && |s.buf| + last + 1 - |ks| <= Offset(|msg|, chunk, last + 1))
  }

  /** Skipped fragments are skipped bytes. */
  lemma {:induction false} OffsetGap(length: nat, chunk: nat, a: nat, b: nat)
    requires chunk > 0 && a <= b <= Count(length, chunk)
    ensures Offset(length, chunk, a) + (b - a) <= Offset(length, chunk, b)
    decreases b
  {
    if a < b {
      OffsetGap(length, chunk, a, b - 1);
      CountIs(length, chunk, b - 1);
    }
  }

  lemma {:induction false} PieceLength(msg: bytes, chunk: nat, k: nat)
    ensures |Piece(msg, chunk, k)| == Offset(|msg|, chunk, k + 1) - Offset(|msg|, chunk, k)
  {
    OffsetsRise(|msg|, chunk, k);
  }

  lemma {:induction false} StaysShort(s: State, msg: bytes, chunk: nat, ks: seq<nat>, k: nat)
    requires WellFormed(msg) && chunk >= 19 && ks != [] && Subsequence(ks, Count(|msg|, chunk))
    requires Short(s, msg, chunk, ks) && ks[|ks| - 1] < k < Count(|msg|, chunk) && |ks| + 1 < Count(|msg|, chunk)
    ensures var (s', out) := Fed(s, Fragment(msg, chunk, k)); Short(s', msg, chunk, ks + [k]) && out == None
  {
    hide GetU16, Piece, Offset;
    var last := ks[|ks| - 1];
    OffsetGap(|msg|, chunk, last + 1, k);
    PieceLength(msg, chunk, k);
    var f := Fragment(msg, chunk, k);
    assert f[1..] == Piece(msg, chunk, k);
    if s.counter.Some? {
      var buf := s.buf + Piece(msg, chunk, k);
      assert buf[..TLV_HEADER] == s.buf[..TLV_HEADER];
      assert |buf| + k + 1 - (|ks| + 1) <= Offset(|msg|, chunk, k + 1);
      EndGap(msg, chunk, k);
      CompleteIsWhole(msg, buf);
    }
  }

  lemma {:induction false} EndGap(msg: bytes, chunk: nat, k: nat)
    requires chunk > 0 && k < Count(|msg|, chunk)
    ensures Offset(|msg|, chunk, k + 1) + (Count(|msg|, chunk) - (k + 1)) <= |msg|
  {
    OffsetGap(|msg|, chunk, k + 1, Count(|msg|, chunk));
    CountIs(|msg|, chunk, Count(|msg|, chunk));
  }

  lemma {:induction false} FirstIsShort(s: State, msg: bytes, chunk: nat)
    requires WellFormed(msg) && chunk >= 19 && Count(|msg|, chunk) > 1
    ensures var (s', out) := Fed(s, Fragment(msg, chunk, 0)); Short(s', msg, chunk, [0]) && out == None
  {
    hide GetU16;
    FirstPiece(msg, chunk);
    FeedOne(s, msg, chunk, 0);
    EndGap(msg, chunk, 0);
    var buf := Piece(msg, chunk, 0);
    assert [] + buf == buf;
    assert buf[..TLV_HEADER] == msg[..TLV_HEADER];
    CompleteIsWhole(msg, buf);
  }

  lemma {:induction false} LossIsSilent(s: State, msg: bytes, chunk: nat, ks: seq<nat>)
    requires WellFormed(msg) && chunk >= 19 && Subsequence(ks, Count(|msg|, chunk)) && |ks| < Count(|msg|, chunk)
    ensures var (s', outs) := FedAll(s, msg, chunk, ks);
      Short(s', msg, chunk, ks) && |outs| == |ks| && forall i :: 0 <= i < |ks| ==> outs[i] == None
    decreases |ks|
  {
    hide Fed, Short, WellFormed, Fragment;
    var n := |ks| - 1;
    if n == 0 {
      FirstIsShort(s, msg, chunk);
      assert ks[..0] == [] && ks == [0];
    } else {
      LossIsSilent(s, msg, chunk, ks[..n]);
      assert ks[..n] + [ks[n]] == ks;
      StaysShort(FedAll(s, msg, chunk, ks[..n]).0, msg, chunk, ks[..n], ks[n]);
    }
  }

  /** When the first fragment arrives and any other is lost, nothing comes out, at any MTU and from any state. */
  lemma {:induction false} NothingFromAnIncompleteMessage(s: State, msg: bytes, mtu: nat, ks: seq<nat>)
    requires WellFormed(msg) && Subsequence(ks, Count(|msg|, Chunk(mtu))) && |ks| < Count(|msg|, Chunk(mtu))
    ensures var outs := FedAll(s, msg, Chunk(mtu), ks).1;
      |outs| == |ks| && forall i :: 0 <= i < |ks| ==> outs[i] == None
  {
    hide FedAll, Short, WellFormed;
    LossIsSilent(s, msg, Chunk(mtu), ks);
  }
}
