/**
 * Writing one block (collector/BlockWriter.cpp): reserve the seq in NVS, stamp, sign, append, and
 * only then consume the seq. The BOOT of a restart goes before any data.
 */
module BlockWriter {
  import opened Bytes
  import opened BlockFormat
  import opened SegmentFormat
  import opened StoreSpec
  import BlockStore
  import Crc32
  import SeqReserve

  /** A save in NVS may persist and still answer false; it never answers true in vain. */
  datatype Save = Save(persists: bool, answers: bool)

  /** What the hardware does during one commit: two attempts to sign, two to append. */
  datatype Faults = Faults(
    save: Save, sign1: Option<bytes>, sign2: Option<bytes>, write1: Outcome, write2: Outcome)
  {
    predicate Ok(tagLen: nat) {
      && (save.answers ==> save.persists)
      && (sign1.Some? ==> |sign1.value| == tagLen)
      && (sign2.Some? ==> |sign2.value| == tagLen)
    }

    function Tag(): Option<bytes> { if sign1.Some? then sign1 else sign2 }
  }

  datatype Writer = Writer(
    next: nat, reserve: nat, step: nat, bootId: nat, pending: bool, bootFrom: nat, bootTo: nat, failed: nat)
  {
    function Failed(): Writer { this.(failed := failed + 1) }

    function Consumed(): Writer { this.(next := next + 1) }
  }

  /** The log, the writer, and the reserve persisted in NVS. */
  datatype Device = Device(st: Store, w: Writer, nvs: nat)

  // ---- what a commit does ----

  function ReserveSeq(d: Device, save: Save): (Device, bool) {
    if d.w.next < d.w.reserve then (d, true)
    else
      var value := d.w.next + d.w.step;
      var nvs := if save.persists then value else d.nvs;
      if save.answers then (d.(nvs := nvs, w := d.w.(reserve := value)), true)
      else (d.(nvs := nvs, w := d.w.Failed()), false)
  }

  /** The block as it goes to flash: stamped, signed, and with the CRC of both. */
  function Signed(w: Writer, data: bytes, tag: bytes): Block {
    var stamped := Stamp(data, w.next, w.bootId);
    Block(stamped, tag, Crc32.Checksum(stamped + tag))
  }

  /** The second attempt goes to a new segment. */
  function Retry(st: Store): Store { st.(forceNew := true) }

  function AppendTwice(st: Store, b: Block, free: Flash -> nat, w1: Outcome, w2: Outcome): (Store, bool) {
    var (s1, ok) := Append(st, b, free, w1);
    if ok then (s1, true) else Append(Retry(s1), b, free, w2)
  }

  function Committed(d: Device, data: bytes, free: Flash -> nat, f: Faults): (Device, bool) {
    var (d1, reserved) := ReserveSeq(d, f.save);
    if !reserved then (d1, false)
    else
      match f.Tag()
      case None => (d1.(w := d1.w.Failed()), false)
      case Some(tag) =>
        var (s, ok) := AppendTwice(d.st, Signed(d.w, data, tag), free, f.write1, f.write2);
        (d1.(st := s, w := if ok then d1.w.Consumed() else d1.w.Failed()), ok)
  }

  /** The BOOT is pending until it is on flash, and always opens a segment. */
  function Pending(d: Device, from: nat, to: nat): Device {
    d.(w := d.w.(pending := true, bootFrom := from, bootTo := to), st := d.st.(forceNew := true))
  }

  function WriteBoot(d: Device, tMs: nat, free: Flash -> nat, f: Faults): (Device, bool) {
    var d0 := Pending(d, d.w.bootFrom, d.w.bootTo);
    var (d1, ok) := Committed(d0, BootMarker(d.w.next, d.w.bootId, tMs, d.w.bootFrom, d.w.bootTo), free, f);
    if ok then (d1.(w := d1.w.(pending := false)), true) else (d1, false)
  }

  /** `write`: no data before the BOOT. */
  function WriteData(d: Device, data: bytes, tMs: nat, free: Flash -> nat, fBoot: Faults, f: Faults): (Device, bool) {
    if !d.w.pending then Committed(d, data, free, f)
    else
      var (d1, ok) := WriteBoot(d, tMs, free, fBoot);
      if ok then Committed(d1, data, free, f) else (d1.(w := d1.w.Failed()), false)
  }

  // ---- the writer itself ----

  class BlockLogWriter {
    const store: BlockStore.SegmentLog
    const counter: SeqReserve.Counter
    const bootId: nat
    /** The reserve persisted in NVS. */
    var nvs: nat
    var failedBlocks: nat
    var bootPending: bool
    var bootFrom: nat
    var bootTo: nat

    ghost predicate Valid()
      reads this, store, store.segments, counter
    {
      store.Valid()
    }

    ghost function Abs(): Device
      requires store.segments.Length == MAX_SEGMENTS
      reads this, store, store.segments, counter
    {
      Device(store.Abs(),
             Writer(counter.next, counter.reserve, counter.step, bootId, bootPending, bootFrom, bootTo, failedBlocks),
             nvs)
    }

    constructor (store: BlockStore.SegmentLog, counter: SeqReserve.Counter, bootId: nat, nvs: nat)
      requires store.Valid()
      ensures Valid() && this.store == store && this.counter == counter && this.bootId == bootId
      ensures this.nvs == nvs && failedBlocks == 0 && !bootPending
    {
      this.store, this.counter, this.bootId, this.nvs := store, counter, bootId, nvs;
      failedBlocks, bootPending, bootFrom, bootTo := 0, false, 0, 0;
    }

    method WriteBootMarker(from: nat, to: nat, tMs: nat, f: Faults) returns (ok: bool)
      requires Valid()
      modifies this, store, store.segments, counter
      ensures Valid()
      ensures (Abs(), ok) == WriteBoot(Pending(old(Abs()), from, to), tMs, store.free, f)
    {
      hide Committed;
      bootFrom, bootTo, bootPending := from, to, true;
      store.StartNewSegment();
      var marker := BootMarker(counter.next, bootId, tMs, from, to);
      ok := Commit(marker, f);
      if ok {
        bootPending := false;
      }
    }

    method Write(data: bytes, tMs: nat, fBoot: Faults, f: Faults) returns (ok: bool)
      requires Valid()
      modifies this, store, store.segments, counter
      ensures Valid()
      ensures (Abs(), ok) == WriteData(old(Abs()), data, tMs, store.free, fBoot, f)
    {
      hide Committed;
      if bootPending {
        var booted := WriteBootMarker(bootFrom, bootTo, tMs, fBoot);
        if !booted {
          failedBlocks := failedBlocks + 1;
          return false;
        }
      }
      ok := Commit(data, f);
    }

    method Commit(data: bytes, f: Faults) returns (ok: bool)
      requires Valid()
      modifies this, store, store.segments, counter
      ensures Valid() && bootPending == old(bootPending)
      ensures (Abs(), ok) == Committed(old(Abs()), data, store.free, f)
    {
      hide Stamp, Crc32.Checksum, Append, ReserveSeq, AppendTwice;
      var seqNo := counter.next;
      var reserved := Reserve(f.save);
      if !reserved {
        return false;
      }
      var stamped := Stamp(data, seqNo, bootId);
      var tag := if f.sign1.Some? then f.sign1 else f.sign2;
      if tag.None? {
        failedBlocks := failedBlocks + 1;
        return false;
      }
      var b := Block(stamped, tag.value, Crc32.Checksum(stamped + tag.value));
      ok := AppendUpToTwice(b, f.write1, f.write2);
      if ok {
        counter.Commit();
      } else {
        failedBlocks := failedBlocks + 1;
      }
    }

    /** Before the flash: otherwise a seq on flash could be at or above the reserve. */
    method Reserve(save: Save) returns (ok: bool)
      requires Valid()
      modifies this`nvs, this`failedBlocks, counter`reserve
      ensures Valid() && store.Abs() == old(store.Abs())
      ensures (Abs(), ok) == ReserveSeq(old(Abs()), save)
    {
      if counter.NeedsReserve(counter.next) {
        var value := counter.ReserveFor(counter.next);
        if save.persists {
          nvs := value;
        }
        if !save.answers {
          failedBlocks := failedBlocks + 1;
          return false;
        }
        counter.Reserved(value);
      }
      ok := true;
    }

    method AppendUpToTwice(b: Block, w1: Outcome, w2: Outcome) returns (ok: bool)
      requires Valid()
      modifies store, store.segments
      ensures Valid() && (store.Abs(), ok) == AppendTwice(old(store.Abs()), b, store.free, w1, w2)
    {
      hide Append;
      ok := store.Append(b, w1);
      if !ok {
        store.StartNewSegment();
        ok := store.Append(b, w2);
      }
    }
  }
}
