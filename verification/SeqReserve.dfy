/** The counter of seqs and its reserve in NVS (collector/SeqReserve.h, collector/SeqReserve.cpp). */
module SeqReserve {

  const DEFAULT_STEP: nat := 64

  datatype Recovery = Recovery(bootSeq: nat, from: nat, to: nat, reserveRead: nat, migrated: bool)
  {
    predicate Declares(s: nat) { from <= s <= to }
  }

  /**
   * The seq of the BOOT after a restart, and the range it declares. The BOOT is newer than the log
   * and starts at the reserve whenever the reserve covers the log; the range is what lies strictly
   * between the newest block and the BOOT, or nothing when the log is empty.
   */
  function Recover(reserveInNvs: nat, legacyLast: nat, newest: nat): (r: Recovery)
    ensures r.bootSeq > newest
    ensures reserveInNvs > newest ==> r.bootSeq == reserveInNvs
    ensures reserveInNvs == 0 ==> r.bootSeq > legacyLast && r.migrated
    ensures forall s: nat :: r.Declares(s) <==> newest > 0 && newest < s < r.bootSeq
  {
    var start :=
      if reserveInNvs > 0 then reserveInNvs
      else (if legacyLast > newest then legacyLast else newest) + 1;
    var bootSeq := if start < newest + 1 then newest + 1 else start;
    Recovery(bootSeq, if newest == 0 then bootSeq else newest + 1, bootSeq - 1, reserveInNvs, reserveInNvs == 0)
  }

  /** Owner of the next seq: it only moves once the block is on flash. */
  class Counter {
    var next: nat
    var reserve: nat
    const step: nat

    constructor (next: nat, reserve: nat, step: nat)
      ensures this.next == next && this.reserve == reserve && this.step == step
    {
      this.next, this.reserve, this.step := next, reserve, step;
    }

    /** `afterRecovery`: an empty reserve in RAM forces a save before the BOOT. */
    constructor AfterRecovery(r: Recovery, step: nat)
      ensures next == r.bootSeq && reserve == 0 && this.step == step
    {
      next, reserve, this.step := r.bootSeq, 0, step;
    }

    predicate NeedsReserve(seqNo: nat) reads `reserve { seqNo >= reserve }

    function ReserveFor(seqNo: nat): nat { seqNo + step }

    method Commit()
      modifies `next
      ensures next == old(next) + 1
    {
      next := next + 1;
    }

    method Reserved(value: nat)
      modifies `reserve
      ensures reserve == value
    {
      reserve := value;
    }
  }
}
