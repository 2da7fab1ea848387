/**
 * Building a data block in its buffer (collector/BlockBuilder.cpp), and a marker in the BlockWriter's
 * buffer (collector/MarkerBlock.cpp): what a closed block decodes to.
 */
module BlockBuilder {
  import opened Bytes
  import opened BlockFormat

  const PID_SIZE: nat := 5
  const GPS_SIZE: nat := 15
  const GPS_TYPE: byte := 0xFF
  const PID_MAX: byte := 0xFC
  const MAX_DELTA: nat := 0xFFFF

  /** What is recorded: a PID with two value bytes, or a position; `delta` counts from the block's start. */
  datatype Reading =
    | Pid(pid: byte, delta: nat, v0: byte, v1: byte)
    | Gps(delta: nat, lat: int, lon: int, alt: int)
  {
    predicate Ok() {
      && delta <= MAX_DELTA
      && (Pid? ==> pid <= PID_MAX)
      && (Gps? ==> IsI32(lat) && IsI32(lon) && IsI32(alt))
    }

    function Size(): nat { if Pid? then PID_SIZE else GPS_SIZE }
  }

  predicate IsI32(v: int) { -0x8000_0000 <= v < 0x8000_0000 }

  /** A signed integer as the unsigned one with the same 32 bits, and back. */
  function AsU32(v: int): nat { v % U32_END }

  function AsI32(u: nat): int { if u < 0x8000_0000 then u else u - U32_END }

  function Encode(r: Reading): (p: bytes)
    ensures |p| == r.Size()
  {
    match r
    case Pid(pid, delta, v0, v1) => [pid] + U16(delta) + [v0, v1]
    case Gps(delta, lat, lon, alt) => [GPS_TYPE] + U16(delta) + U32(AsU32(lat)) + U32(AsU32(lon)) + U32(AsU32(alt))
  }

  function EncodeAll(rs: seq<Reading>): bytes {
    if rs == [] then [] else EncodeAll(rs[..|rs| - 1]) + Encode(rs[|rs| - 1])
  }

  /** The data area of a closed block; seq and boot_id are stamped later. */
  function DataArea(startMs: nat, rs: seq<Reading>): bytes {
    var body := EncodeAll(rs);
    U32(0) + U16(0) + U32(startMs) + U16(HEADER + |body|) + body
  }

  // ---- decoding ----

  function DecodeOne(p: bytes): Option<Reading>
    requires p != []
  {
    if p[0] == GPS_TYPE then
      if |p| < GPS_SIZE then None
      else Some(Gps(GetU16(p[1..]), AsI32(GetU32(p[3..])), AsI32(GetU32(p[7..])), AsI32(GetU32(p[11..]))))
    else if p[0] > PID_MAX || |p| < PID_SIZE then None
    else Some(Pid(p[0], GetU16(p[1..]), p[3], p[4]))
  }

  /** The readings of a body, first to last; nothing if it is not made of whole readings. */
  function DecodeAll(p: bytes): Option<seq<Reading>>
    decreases |p|
  {
    if p == [] then Some([])
    else
      match DecodeOne(p)
      case None => None
      case Some(r) =>
        match DecodeAll(p[r.Size()..])
        case None => None
        case Some(rest) => Some([r] + rest)
  }

  datatype Decoded = Decoded(startMs: nat, readings: seq<Reading>)

  function DecodeBlock(data: bytes): Option<Decoded> {
    if |data| < HEADER || GetU16(data[10..]) != |data| then None
    else
      match DecodeAll(data[HEADER..])
      case None => None
      case Some(rs) => Some(Decoded(GetU32(data[6..]), rs))
  }

  // ---- round trip ----

  lemma {:induction false} SignedRoundTrip(v: int)
    requires IsI32(v)
    ensures AsU32(v) < U32_END && AsI32(AsU32(v)) == v
  {
  }

  /** The fields of a GPS reading, each where the decoder looks for it. */
  lemma {:induction false} GpsFields(delta: nat, lat: nat, lon: nat, alt: nat, rest: bytes)
    requires delta <= MAX_DELTA && lat < U32_END && lon < U32_END && alt < U32_END
    ensures var p := [GPS_TYPE] + U16(delta) + U32(lat) + U32(lon) + U32(alt) + rest;
      && p[0] == GPS_TYPE && GetU16(p[1..]) == delta
      && GetU32(p[3..]) == lat && GetU32(p[7..]) == lon && GetU32(p[11..]) == alt
  {
    hide U16, U32, GetU16, GetU32;
    var p := [GPS_TYPE] + U16(delta) + U32(lat) + U32(lon) + U32(alt) + rest;
    var c := U32(alt) + rest;
    var b := U32(lon) + c;
    var a := U32(lat) + b;
    assert p == [GPS_TYPE] + (U16(delta) + a);
    assert p[1..] == U16(delta) + a && p[3..] == a && p[7..] == b && p[11..] == c;
    GetPutU16(delta, a);
    GetPutU32(lat, b);
    GetPutU32(lon, c);
    GetPutU32(alt, rest);
  }

  lemma {:induction false} PidFields(pid: byte, delta: nat, v0: byte, v1: byte, rest: bytes)
    requires delta <= MAX_DELTA
    ensures var p := [pid] + U16(delta) + [v0, v1] + rest;
      p[0] == pid && GetU16(p[1..]) == delta && p[3] == v0 && p[4] == v1
  {
    hide U16, GetU16;
    var p := [pid] + U16(delta) + [v0, v1] + rest;
    assert p[1..] == U16(delta) + ([v0, v1] + rest);
    GetPutU16(delta, [v0, v1] + rest);
  }

  lemma {:induction false} DecodeEncoded(r: Reading, rest: bytes)
    requires r.Ok()
    ensures DecodeOne(Encode(r) + rest) == Some(r)
  {
    hide U16, U32, GetU16, GetU32, AsU32, AsI32;
    match r
    case Pid(pid, delta, v0, v1) =>
      PidFields(pid, delta, v0, v1, rest);
    case Gps(delta, lat, lon, alt) =>
      SignedRoundTrip(lat);
      SignedRoundTrip(lon);
      SignedRoundTrip(alt);
      GpsFields(delta, AsU32(lat), AsU32(lon), AsU32(alt), rest);
  }

  lemma {:induction false} EncodeFront(rs: seq<Reading>)
    requires rs != []
    ensures EncodeAll(rs) == Encode(rs[0]) + EncodeAll(rs[1..])
  {
    hide Encode;
    var n := |rs| - 1;
    if n > 0 {
      EncodeFront(rs[..n]);
      assert rs[..n][1..] == rs[1..][..n - 1];
      var a, b, c := Encode(rs[0]), EncodeAll(rs[1..n]), Encode(rs[n]);
      assert rs[1..][..n - 1] == rs[1..n];
      assert (a + b) + c == a + (b + c);
    } else {
      assert EncodeAll(rs[..0]) == [] && EncodeAll(rs[1..]) == [];
    }
  }

  predicate AllOk(rs: seq<Reading>) { forall i :: 0 <= i < |rs| ==> rs[i].Ok() }

  lemma {:induction false} BodyRoundTrip(rs: seq<Reading>)
    requires AllOk(rs)
    ensures DecodeAll(EncodeAll(rs)) == Some(rs)
  {
    hide Encode, DecodeOne, Reading.Ok;
    if rs != [] {
      var r, more := rs[0], rs[1..];
      EncodeFront(rs);
      DecodeEncoded(r, EncodeAll(more));
      BodyRoundTrip(more);
      assert (Encode(r) + EncodeAll(more))[r.Size()..] == EncodeAll(more);
      assert [r] + more == rs;
    }
  }

  /** Readings take 5 or 15 bytes, so a body is never 11 bytes long. */
  lemma {:induction false} BodyInFives(rs: seq<Reading>)
    ensures |EncodeAll(rs)| % 5 == 0
  {
    hide Encode;
    if rs != [] {
      BodyInFives(rs[..|rs| - 1]);
    }
  }

  /** A closed block decodes to the readings added, and is never taken for a marker. */
  lemma {:induction false} BlockRoundTrip(startMs: nat, rs: seq<Reading>)
    requires AllOk(rs) && startMs < U32_END && HEADER + |EncodeAll(rs)| <= MAX_DATA
    ensures var data := DataArea(startMs, rs);
      && DecodeBlock(data) == Some(Decoded(startMs, rs))
      && HEADER <= |data| <= MAX_DATA && LengthField(data) == |data|
      && ParseMarker(data) == NoMarker
  {
    hide U16, U32, GetU16, GetU32, EncodeAll, DecodeAll;
    var body := EncodeAll(rs);
    var data := DataArea(startMs, rs);
    BodyRoundTrip(rs);
    BodyInFives(rs);
    assert data[10..] == U16(HEADER + |body|) + body;
    GetPutU16(HEADER + |body|, body);
    assert data[6..] == U32(startMs) + (U16(HEADER + |body|) + body);
    GetPutU32(startMs, U16(HEADER + |body|) + body);
    assert data[HEADER..] == body;
  }

  /** A value of fewer than two bytes is filled up with zeros. */
  function PidReading(pid: byte, value: bytes, delta: nat): Reading {
    Pid(pid, delta, if |value| > 0 then value[0] else 0, if |value| > 1 then value[1] else 0)
  }

  /** A reading of this PID with the first two bytes of its value, 0 for those it does not have. */
  predicate IsPid(r: Reading, pid: byte, value: bytes) {
    && r.Pid? && r.pid == pid
    && r.v0 == (if |value| >= 1 then value[0] else 0) && r.v1 == (if |value| >= 2 then value[1] else 0)
  }

  /** Counting on from the start by the offset gives the instant back. */
  lemma {:induction false} OffsetIsInstant(startMs: nat, tMs: nat)
    ensures (startMs + (tMs - startMs) % U32_END) % U32_END == tMs % U32_END
  {
    var d := tMs - startMs;
    var q := d / U32_END;
    assert startMs + d % U32_END == tMs - q * U32_END;
    Turns(tMs, q);
  }

  lemma {:induction false} Turns(t: nat, q: int)
    requires t - q * U32_END >= 0
    ensures (t - q * U32_END) % U32_END == t % U32_END
  {
    var k := t / U32_END;
    assert t - q * U32_END == (k - q) * U32_END + t % U32_END;
  }

  // ---- the builder, in the buffer ----

  /** `Block`: the data area and how much of it is in use. */
  class Buffer {
    const data: array<byte>
    var length: nat

    ghost predicate Valid() reads this, data { data.Length == MAX_DATA && length <= MAX_DATA }

    constructor ()
      ensures Valid() && fresh(data)
    {
      data := new byte[MAX_DATA](_ => 0);
      length := 0;
    }

    /** Overwrites bytes in place. */
    method Put(at: nat, p: bytes)
      requires Valid() && at + |p| <= MAX_DATA
      modifies data
      ensures data[..] == old(data[..at]) + p + old(data[at + |p|..])
    {
      for i := 0 to |p|
        invariant data[..] == old(data[..at]) + p[..i] + old(data[at + i..])
      {
        data[at + i] := p[i];
        assert data[..] == old(data[..at]) + (p[..i] + [p[i]]) + old(data[at + i + 1..]);
        assert p[..i] + [p[i]] == p[..i + 1];
      }
      assert p[..|p|] == p;
    }
  }

  class Builder {
    var block: Buffer?
    var startMs: nat
    var closeAfterMs: nat
    /** The readings added to the open block. */
    ghost var readings: seq<Reading>

    ghost predicate Valid()
      reads this, block, if block != null then {block.data} else {}
    {
      && startMs < U32_END
      && (block != null ==>
            && block.Valid() && block.length == HEADER + |EncodeAll(readings)|
            && block.data[..block.length] == Zeros(HEADER) + EncodeAll(readings))
    }

    constructor ()
      ensures Valid() && block == null
    {
      block, startMs, closeAfterMs, readings := null, 0, 0, [];
    }

    method Open(b: Buffer, startMs: nat, closeAfterMs: nat)
      requires b.Valid() && startMs < U32_END
      modifies this, b, b.data
      ensures Valid() && block == b && readings == [] && this.startMs == startMs && this.closeAfterMs == closeAfterMs
    {
      b.Put(0, Zeros(HEADER));
      b.length := HEADER;
      block, this.startMs, this.closeAfterMs, readings := b, startMs, closeAfterMs, [];
      assert b.data[..HEADER] == b.data[..][..HEADER];
      assert Zeros(HEADER) + [] == Zeros(HEADER);
    }

    /** The instant of a reading, on the 32-bit clock. */
    predicate At(r: Reading, tMs: nat)
      reads `startMs
    {
      (startMs + r.delta) % 0x1_0000_0000 == tMs % 0x1_0000_0000
    }

    /** The offset of an instant; nothing when it is before the start or more than 16 bits after. */
    function DeltaFor(tMs: nat): Option<nat>
      reads `startMs
    {
      var elapsed := (tMs - startMs) % U32_END;
      if elapsed <= MAX_DELTA then Some(elapsed) else None
    }

    method AddPid(pid: byte, value: bytes, tMs: nat) returns (ok: bool)
      requires Valid()
      modifies this, block, if block != null then {block.data} else {}
      ensures Valid() && block == old(block) && startMs == old(startMs) && closeAfterMs == old(closeAfterMs)
      ensures ok <==> block != null && old(block.length) + 5 <= 1024 && (tMs - startMs) % 0x1_0000_0000 <= 0xFFFF
      ensures ok ==> |readings| == |old(readings)| + 1 && readings[..|old(readings)|] == old(readings)
      ensures ok ==> IsPid(readings[|readings| - 1], pid, value) && At(readings[|readings| - 1], tMs)
      ensures ok && pid <= PID_MAX && AllOk(old(readings)) ==> AllOk(readings)
      ensures !ok ==> readings == old(readings)
    {
      var delta := DeltaFor(tMs);
      if block == null || block.length + PID_SIZE > MAX_DATA || delta.None? {
        return false;
      }
      OffsetIsInstant(startMs, tMs);
      Add(PidReading(pid, value, delta.value));
      ok := true;
    }

    method AddGps(lat: int, lon: int, alt: int, tMs: nat) returns (ok: bool)
      requires Valid()
      modifies this, block, if block != null then {block.data} else {}
      ensures Valid() && block == old(block) && startMs == old(startMs) && closeAfterMs == old(closeAfterMs)
      ensures ok <==> block != null && old(block.length) + 15 <= 1024 && (tMs - startMs) % 0x1_0000_0000 <= 0xFFFF
      ensures ok ==> |readings| == |old(readings)| + 1 && readings[..|old(readings)|] == old(readings)
      ensures ok ==> var r := readings[|readings| - 1];
        r.Gps? && r.lat == lat && r.lon == lon && r.alt == alt && At(r, tMs)
      ensures ok && IsI32(lat) && IsI32(lon) && IsI32(alt) && AllOk(old(readings)) ==> AllOk(readings)
      ensures !ok ==> readings == old(readings)
    {
      hide EncodeAll;
      var delta := DeltaFor(tMs);
      if block == null || block.length + GPS_SIZE > MAX_DATA || delta.None? {
        return false;
      }
      OffsetIsInstant(startMs, tMs);
      Add(Gps(delta.value, lat, lon, alt));
      ok := true;
    }

    /** Writes one reading at the end of the block. */
    method Add(r: Reading)
      requires Valid() && block != null && block.length + r.Size() <= MAX_DATA
      modifies this`readings, block, block.data
      ensures Valid() && readings == old(readings) + [r]
    {
      hide Encode;
      ghost var used := block.data[..block.length];
      block.Put(block.length, Encode(r));
      assert block.data[..block.length] == block.data[..][..block.length] == used;
      block.length := block.length + r.Size();
      readings := readings + [r];
      assert readings[..|readings| - 1] == old(readings);
      assert block.data[..block.length] == block.data[..][..block.length] == used + Encode(r);
    }

    method Close() returns (b: Buffer?)
      requires Valid()
      modifies this, block, if block != null then {block.data} else {}
      ensures Valid() && block == null && b == old(block)
      ensures b != null ==>
        b.Valid() && b.length == old(b.length) && b.data[..b.length] == DataArea(old(startMs), old(readings))
      ensures b != null && AllOk(old(readings)) ==>
        DecodeBlock(b.data[..b.length]) == Some(Decoded(old(startMs), old(readings)))
    {
      hide Encode, EncodeAll, U16, U32, DecodeBlock, AllOk;
      b := block;
      if b == null {
        return;
      }
      ghost var body := EncodeAll(readings);
      ghost var rest := b.data[b.length..];
      assert b.data[..] == Zeros(HEADER) + body + rest;
      b.Put(6, U32(startMs));
      b.Put(10, U16(b.length));
      ClosedBytes(b.data[..], body, rest, startMs, b.length);
      assert b.data[..b.length] == b.data[..][..b.length];
      if AllOk(readings) {
        BlockRoundTrip(startMs, readings);
      }
      block := null;
    }
  }

  function Zeros(n: nat): (z: bytes)
    ensures |z| == n
  {
    seq(n, _ => 0)
  }

  lemma {:induction false} ZeroHeader()
    ensures U32(0) + U16(0) == Zeros(6) && Zeros(HEADER)[..6] == Zeros(6)
  {
    assert U32(0) == [0, 0, 0, 0] && U16(0) == [0, 0];
  }

  /** What the two writes of `close` leave in the buffer. */
  lemma {:induction false} ClosedBytes(now: bytes, body: bytes, rest: bytes, startMs: nat, length: nat)
    requires length == HEADER + |body|
    requires var was := Zeros(HEADER) + body + rest;
      var one := was[..6] + U32(startMs) + was[10..];
      now == one[..10] + U16(length) + one[12..]
    ensures now == U32(0) + U16(0) + U32(startMs) + U16(length) + body + rest
  {
    hide U16, U32;
    ZeroHeader();
    var was := Zeros(HEADER) + body + rest;
    var one := was[..6] + U32(startMs) + was[10..];
    assert was[..6] == Zeros(6);
    assert one[..10] == Zeros(6) + U32(startMs);
    assert one[12..] == was[12..] == body + rest;
  }

  /** What a closed block decodes to ends in the reading added last, with its value and its instant. */
  method LastIsDecoded(builder: Builder, pid: byte, value: bytes, tMs: nat)
      returns (ok: bool, b: Buffer?, last: Reading)
    requires builder.Valid() && AllOk(builder.readings) && pid <= PID_MAX
    modifies builder, builder.block, if builder.block != null then {builder.block.data} else {}
    ensures ok ==> b != null && b.Valid() && DecodeBlock(b.data[..b.length]).Some?
    ensures ok ==> var d := DecodeBlock(b.data[..b.length]).value;
      && d.startMs == old(builder.startMs) && |d.readings| == |old(builder.readings)| + 1
      && d.readings[..|old(builder.readings)|] == old(builder.readings)
      && last == d.readings[|d.readings| - 1] && IsPid(last, pid, value)
      && (d.startMs + last.delta) % 0x1_0000_0000 == tMs % 0x1_0000_0000
  {
    hide DecodeBlock, Builder.Valid, EncodeAll;
    ok := builder.AddPid(pid, value, tMs);
    last := Pid(pid, 0, 0, 0);
    ghost var rs := builder.readings;
    b := builder.Close();
    if ok {
      var d := DecodeBlock(b.data[..b.length]);
      last := d.value.readings[|d.value.readings| - 1];
    }
  }

  /** A block just opened takes its first reading, whatever it is. */
  method FirstReadingFits(b: Buffer, builder: Builder, r: Reading, tMs: nat, closeAfterMs: nat) returns (ok: bool)
    requires b.Valid() && tMs < U32_END
    modifies builder, b, b.data
    ensures ok
  {
    builder.Open(b, tMs, closeAfterMs);
    match r {
      case Pid(pid, _, v0, v1) => ok := builder.AddPid(pid, [v0, v1], tMs);
      case Gps(_, lat, lon, alt) => ok := builder.AddGps(lat, lon, alt, tMs);
    }
  }

  // ---- markers, in the buffer ----

  method Build(b: Buffer, seqNo: nat, bootId: nat, tMs: nat, kind: byte, from: nat, to: nat)
    requires b.Valid()
    modifies b, b.data
    ensures b.Valid() && b.length == MARKER_LENGTH
    ensures b.data[..b.length] == BuildMarker(seqNo, bootId, tMs, kind, from, to)
  {
    hide U16, U32;
    b.Put(0, U32(seqNo));
    b.Put(4, U16(bootId));
    b.Put(6, U32(tMs));
    b.Put(10, U16(MARKER_LENGTH));
    b.Put(12, [kind]);
    b.Put(13, U16(0));
    b.Put(15, U32(from));
    b.Put(19, U32(to));
    b.length := MARKER_LENGTH;
  }
}
