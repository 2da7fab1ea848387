/** The start of the collector (app/CollectorApp.cpp, steps 1 to 6), in its order. */
module App {
  import opened Bytes
  import opened StoreSpec
  import BlockStore
  import W = BlockWriter
  import D = Device
  import SeqReserve
  import Unopened

  /** What is left of a device when the power is off. */
  function Asleep(flash: Flash, nvs: nat, legacy: nat, era: nat): D.World {
    D.Factory(legacy).x.(d := W.Device(Store([], flash, 0, false, 0, 0), D.Factory(legacy).x.d.w, nvs), era := era)
  }

  /**
   * Index the log, recover the seq, write the BOOT before any data, and forget the old counter once
   * the BOOT is on flash. The result is the device after the events PowerOn and BootRecord, on the
   * flash without the files of `io`, which do not open.
   */
  method Start(flash: Flash, io: set<nat>, nvs: nat, legacy: nat, c: D.Config, bootId: nat, maxBlocks: nat,
      tMs: nat, f: W.Faults)
    returns (writer: W.BlockLogWriter, bootWritten: bool, legacyLeft: nat)
    ensures fresh(writer) && writer.Valid()
    ensures (writer.Abs(), bootWritten)
      == W.WriteBoot(D.Restart(c, Asleep(flash - io, nvs, legacy, 0), bootId, maxBlocks).d, tMs, c.free, f)
    ensures legacyLeft == if nvs == 0 && bootWritten then 0 else legacy
  {
    hide W.WriteBoot, StoreSpec.Begin, BeginWith;
    var store := new BlockStore.SegmentLog(flash, c.free);
    store.Begin(maxBlocks, io);
    Unopened.BeginsWithout(flash, maxBlocks, io);
    var newest := store.NewestSeq();
    var r := SeqReserve.Recover(nvs, legacy, newest);
    var counter := new SeqReserve.Counter.AfterRecovery(r, c.step);
    writer := new W.BlockLogWriter(store, counter, bootId, nvs);
    assert W.Pending(writer.Abs(), r.from, r.to)
      == D.Restart(c, Asleep(flash - io, nvs, legacy, 0), bootId, maxBlocks).d;
    bootWritten := writer.WriteBootMarker(r.from, r.to, tMs, f);
    legacyLeft := if r.migrated && bootWritten then 0 else legacy;
  }
}
