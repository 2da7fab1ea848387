/** Messages of the sync service (sync/SyncProtocol.h, sync/SyncProtocol.cpp): type, length, value. */
module SyncProtocol {
  import opened Bytes
  import opened BlockFormat

  const TLV_HEADER: nat := 3
  const MAX_BLOCK_VALUE: nat := MAX_DATA + MAX_TAG

  const CHALLENGE: byte := 0x01
  const ACK: byte := 0x04
  const BATCH_REQUEST: byte := 0x05
  const ERROR: byte := 0x06

  const INVALID_TAG: byte := 0x01
  const STALE_CHALLENGE: byte := 0x02
  const INVALID_ACK_SEQ: byte := 0x03
  const INCOMPLETE: byte := 0x04
  const NO_SESSION: byte := 0x05
  const RESEND_FROM_BOUNDARY: byte := 0x07

  datatype Tlv = Tlv(kind: byte, value: bytes)

  function PutTlv(kind: byte, value: bytes): bytes { [kind] + U16(|value|) + value }

  function ParseTlv(msg: bytes): Option<Tlv> {
    if |msg| < TLV_HEADER || GetU16(msg[1..]) != |msg| - TLV_HEADER then None
    else Some(Tlv(msg[0], msg[TLV_HEADER..]))
  }

  /** The parser accepts exactly the messages the encoder builds. */
  lemma {:induction false} TlvRoundTrip(msg: bytes, m: Tlv)
    requires |m.value| < U16_END
    ensures ParseTlv(msg) == Some(m) <==> msg == PutTlv(m.kind, m.value)
  {
    var built := PutTlv(m.kind, m.value);
    assert built[1..] == U16(|m.value|) + m.value;
    assert built[TLV_HEADER..] == m.value;
    GetPutU16(|m.value|, m.value);
    if ParseTlv(msg) == Some(m) {
      var p := msg[1..][..2];
      assert msg[1..] == p + m.value;
      PutGetU16(p);
      assert GetU16(msg[1..]) == GetU16(p);
      assert msg == [msg[0]] + p + m.value;
    }
  }

  lemma {:induction false} PutGetU16(p: bytes)
    requires |p| == 2
    ensures U16(GetU16(p)) == p
  {
    var v := GetU16(p);
    assert v / 256 == p[1];
  }

  datatype Challenge = Challenge(cs: nat, nonce: bytes, ackSeq: nat, cConf: nat, diag: bool)

  datatype Ack = Ack(ackSeq: nat, cConf: nat, anchorFailed: bool)

  predicate LowBit(b: byte) { b % 2 == 1 }

  /** 45 bytes without the diagnostic flag, or 47 with it. */
  function DecodeChallenge(v: bytes): Option<Challenge> {
    if |v| != 45 && |v| != 47 then None
    else if LowBit(v[28]) != (|v| == 47) then None
    else Some(Challenge(GetU32(v), v[4..20], GetU32(v[20..]), GetU32(v[24..]), LowBit(v[28])))
  }

  function DecodeAck(v: bytes): Option<Ack> {
    if |v| != 25 then None else Some(Ack(GetU32(v), GetU32(v[4..]), LowBit(v[8])))
  }

  function EncodeChallengePayload(cs: nat, nonce: bytes, ackSeq: nat, cConf: nat): bytes {
    U32(cs) + nonce + U32(ackSeq) + U32(cConf) + [0]
  }

  /** So is a challenge without the diagnostic flag. */
  lemma {:induction false} ChallengeRoundTrip(cs: nat, nonce: bytes, ackSeq: nat, cConf: nat, tag: bytes)
    requires cs < U32_END && ackSeq < U32_END && cConf < U32_END && |nonce| == 16 && |tag| == 16
    ensures DecodeChallenge(EncodeChallengePayload(cs, nonce, ackSeq, cConf) + tag)
      == Some(Challenge(cs, nonce, ackSeq, cConf, false))
  {
    hide U32, GetU32;
    var v := EncodeChallengePayload(cs, nonce, ackSeq, cConf) + tag;
    var a, c := U32(ackSeq) + (U32(cConf) + ([0] + tag)), U32(cConf) + ([0] + tag);
    assert v == U32(cs) + (nonce + a) && v[4..20] == nonce && v[20..] == a && v[24..] == c && v[28] == 0;
    GetPutU32(cs, nonce + a);
    GetPutU32(ackSeq, c);
    GetPutU32(cConf, [0] + tag);
  }

  /** So is one with the flag, which carries two bytes of minutes. */
  lemma {:induction false} DiagRoundTrip(cs: nat, nonce: bytes, ackSeq: nat, cConf: nat, minutes: nat, tag: bytes)
    requires cs < U32_END && ackSeq < U32_END && cConf < U32_END && |nonce| == 16 && |tag| == 16
    ensures DecodeChallenge(U32(cs) + nonce + U32(ackSeq) + U32(cConf) + [1] + U16(minutes) + tag)
      == Some(Challenge(cs, nonce, ackSeq, cConf, true))
  {
    hide U32, GetU32, U16;
    var rest := [1] + U16(minutes) + tag;
    var v := U32(cs) + nonce + U32(ackSeq) + U32(cConf) + [1] + U16(minutes) + tag;
    var a, c := U32(ackSeq) + (U32(cConf) + rest), U32(cConf) + rest;
    assert v == U32(cs) + (nonce + a) && v[4..20] == nonce && v[20..] == a && v[24..] == c && v[28] == 1;
    GetPutU32(cs, nonce + a);
    GetPutU32(ackSeq, c);
    GetPutU32(cConf, rest);
  }

  /** Only these two lengths decode, each with the flag that belongs to it. */
  lemma {:induction false} ChallengeLengths(v: bytes)
    ensures DecodeChallenge(v).Some? <==> (|v| == 45 && v[28] % 2 == 0) || (|v| == 47 && v[28] % 2 == 1)
    ensures DecodeAck(v).Some? <==> |v| == 25
  {
  }

  function EncodeAckPayload(ackSeq: nat, cConf: nat, flags: byte): bytes { U32(ackSeq) + U32(cConf) + [flags] }

  function DecodeBatchRequest(v: bytes): Option<nat> { if |v| != 2 then None else Some(GetU16(v)) }

  /** An ACK built by the bench command is read back, whatever its tag. */
  lemma {:induction false} AckRoundTrip(ackSeq: nat, cConf: nat, flags: byte, tag: bytes)
    requires ackSeq < U32_END && cConf < U32_END && |tag| == 16
    ensures DecodeAck(EncodeAckPayload(ackSeq, cConf, flags) + tag) == Some(Ack(ackSeq, cConf, LowBit(flags)))
  {
    hide U32, GetU32;
    var v := EncodeAckPayload(ackSeq, cConf, flags) + tag;
    assert v == U32(ackSeq) + (U32(cConf) + [flags] + tag);
    assert v[4..] == U32(cConf) + ([flags] + tag);
    GetPutU32(ackSeq, U32(cConf) + [flags] + tag);
    GetPutU32(cConf, [flags] + tag);
  }
}
