/**
 * The scheduler of PID reads (collector/Scheduler.cpp) on the wrapping millisecond clock
 * (collector/Clock.h).
 *
 * The functions take the clock as a parameter: `Wrapped` is the 32-bit counter of the program,
 * `Ideal` is time that never wraps.
 */
module Scheduler {
  import opened Bytes

  const MAX_PIDS: nat := 16
  const MAX_PER_REQUEST: nat := 6
  const IDLE_WAIT: nat := 1000
  const HALF: nat := 0x8000_0000

  datatype Clock = Wrapped | Ideal
  {
    function At(t: int): int { if this == Ideal then t else t % U32_END }

    /** `a` is at or after `b`. */
    predicate Reached(a: int, b: int) { if this == Ideal then a >= b else (a - b) % U32_END < HALF }

    function Remaining(now: int, target: int): int { if Reached(now, target) then 0 else At(target - now) }
  }

  datatype Entry = Entry(pid: byte, period: nat, minInterval: nat, due: int, last: int)

  datatype Setting = Setting(pid: byte, period: nat, minInterval: nat)

  datatype Decision = Decision(read: bool, early: bool, pids: seq<byte>, wait: int, late: int, slack: int)

  datatype Filter = Overdue | EarlyEligible

  function Applied(c: Clock, settings: seq<Setting>, now: int): seq<Entry> {
    seq(|settings|, i requires 0 <= i < |settings| =>
      Entry(settings[i].pid, settings[i].period, settings[i].minInterval, now, c.At(now - settings[i].minInterval)))
  }

  predicate CanReadEarly(c: Clock, e: Entry, now: int) { c.Reached(now, c.At(e.last + e.minInterval)) }

  predicate Passes(c: Clock, e: Entry, filter: Filter, now: int) {
    if filter == Overdue then c.Reached(now, e.due) else CanReadEarly(c, e, now)
  }

  predicate Candidate(c: Clock, es: seq<Entry>, picks: seq<nat>, filter: Filter, now: int, i: nat) {
    i < |es| && i !in picks && Passes(c, es[i], filter, now)
  }

  /** The first candidate, from `i` on, that is due before all others; `best` is the one so far. */
  function Best(c: Clock, es: seq<Entry>, picks: seq<nat>, filter: Filter, now: int, i: nat,
      best: Option<nat>): (r: Option<nat>)
    requires i <= |es| && (best.Some? ==> best.value < |es|)
    ensures r.Some? ==> r.value < |es|
    decreases |es| - i
  {
    if i == |es| then best
    else
      var better :=
        Candidate(c, es, picks, filter, now, i) && (best.None? || !c.Reached(es[i].due, es[best.value].due));
      Best(c, es, picks, filter, now, i + 1, if better then Some(i) else best)
  }

  /** Up to `max` candidates, in order of due time. */
  function Pick(c: Clock, es: seq<Entry>, picks: seq<nat>, max: nat, filter: Filter, now: int): (r: seq<nat>)
    requires forall k :: 0 <= k < |picks| ==> picks[k] < |es|
    ensures forall k :: 0 <= k < |r| ==> r[k] < |es|
    ensures |picks| <= |r| && r[..|picks|] == picks
    decreases max - |picks|
  {
    if |picks| >= max then picks
    else
      match Best(c, es, picks, filter, now, 0, None)
      case None => picks
      case Some(b) =>
        var r := Pick(c, es, picks + [b], max, filter, now);
        assert r[..|picks|] == r[..|picks| + 1][..|picks|];
        r
  }

  function EarliestDue(c: Clock, es: seq<Entry>, i: nat, earliest: int): int
    requires i <= |es|
    decreases |es| - i
  {
    if i == |es| then earliest
    else EarliestDue(c, es, i + 1, if c.Reached(es[i].due, earliest) then earliest else es[i].due)
  }

  /** Shortens the wait to the next early read that leaves more than `tmax` before the next due time. */
  function EarlyWait(c: Clock, es: seq<Entry>, tmax: nat, now: int, untilDue: int, i: nat, wait: int): int
    requires i <= |es|
    decreases |es| - i
  {
    if i == |es| then wait
    else
      var eligibleIn := c.Remaining(now, c.At(es[i].last + es[i].minInterval));
      EarlyWait(c, es, tmax, now, untilDue, i + 1,
                if eligibleIn < wait && untilDue - eligibleIn > tmax then eligibleIn else wait)
  }

  function PidsOf(es: seq<Entry>, picks: seq<nat>): seq<byte>
    requires forall k :: 0 <= k < |picks| ==> picks[k] < |es|
  {
    seq(|picks|, j requires 0 <= j < |picks| => es[picks[j]].pid)
  }

  function Least(a: nat, b: nat): nat { if a < b then a else b }

  /** `next`: the rules in order. */
  function Decide(c: Clock, es: seq<Entry>, tmax: nat, now: int, maxPerRead: nat): Decision {
    if es == [] then Decision(false, false, [], IDLE_WAIT, 0, 0)
    else
      var max := Least(maxPerRead, MAX_PER_REQUEST);
      var overdue := Pick(c, es, [], max, Overdue, now);
      if overdue != [] then Decision(true, false, PidsOf(es, overdue), 0, c.At(now - es[overdue[0]].due), 0)
      else
        var untilDue := c.Remaining(now, EarliestDue(c, es, 1, es[0].due));
        var early := if untilDue > tmax then Pick(c, es, [], max, EarlyEligible, now) else [];
        if early != [] then Decision(true, true, PidsOf(es, early), 0, 0, untilDue)
        else Decision(false, false, [], EarlyWait(c, es, tmax, now, untilDue, 0, untilDue), 0, 0)
  }

  /** The entry with this PID, or the number of entries. */
  function Find(es: seq<Entry>, pid: byte): (i: nat)
    ensures i <= |es| && (i < |es| ==> es[i].pid == pid)
    ensures forall j :: 0 <= j < i ==> es[j].pid != pid
  {
    if es == [] then 0
    else if es[0].pid == pid then 0
    else
      var i := Find(es[1..], pid);
      assert forall j :: 1 <= j < i + 1 ==> es[j] == es[1..][j - 1];
      i + 1
  }

  /** One entry after a read that ended at `now`: an early read restarts the period, another keeps its phase. */
  function Rescheduled(c: Clock, e: Entry, early: bool, now: int): Entry {
    var next := c.At((if early then now else e.due) + e.period);
    e.(last := now, due := if !early && c.Reached(now, next) then now else next)
  }

  function AfterRead(c: Clock, es: seq<Entry>, pids: seq<byte>, early: bool, now: int): (r: seq<Entry>)
    ensures |r| == |es|
    decreases |pids|
  {
    if pids == [] then es
    else
      var i := Find(es, pids[0]);
      AfterRead(c, if i < |es| then es[i := Rescheduled(c, es[i], early, now)] else es, pids[1..], early, now)
  }

  // ---- the scheduler itself ----

  class PidScheduler {
    const entries: array<Entry>
    var count: nat
    var tmax: nat

    ghost predicate Valid() reads this { entries.Length == MAX_PIDS && count <= MAX_PIDS }

    ghost function Table(): seq<Entry>
      requires Valid()
      reads this, entries
    {
      entries[..count]
    }

    constructor (tmax: nat)
      ensures Valid() && count == 0 && this.tmax == tmax && fresh(entries)
    {
      entries := new Entry[MAX_PIDS](i => Entry(0, 0, 0, 0, 0));
      count, this.tmax := 0, tmax;
    }

    method Apply(settings: seq<Setting>, tmax: nat, now: int)
      requires Valid() && |settings| <= MAX_PIDS
      modifies this, entries
      ensures Valid() && this.tmax == tmax && Table() == Applied(Wrapped, settings, now)
    {
      this.tmax, count := tmax, |settings|;
      for i := 0 to count
        invariant Valid() && count == |settings| && this.tmax == tmax
        invariant entries[..i] == Applied(Wrapped, settings, now)[..i]
      {
        var s := settings[i];
        entries[i] := Entry(s.pid, s.period, s.minInterval, now, (now - s.minInterval) % U32_END);
        assert entries[..i + 1] == entries[..i] + [Applied(Wrapped, settings, now)[i]];
      }
    }

    method FindBest(picks: seq<nat>, filter: Filter, now: int) returns (best: Option<nat>)
      requires Valid()
      ensures best == Best(Wrapped, Table(), picks, filter, now, 0, None)
    {
      best := None;
      for i := 0 to count
        invariant best.Some? ==> best.value < count
        invariant Best(Wrapped, Table(), picks, filter, now, 0, None)
          == Best(Wrapped, Table(), picks, filter, now, i, best)
      {
        var e := entries[i];
        var eligible := if filter == Overdue then Wrapped.Reached(now, e.due) else CanReadEarly(Wrapped, e, now);
        if i !in picks && eligible && (best.None? || !Wrapped.Reached(e.due, entries[best.value].due)) {
          best := Some(i);
        }
      }
    }

    method PickUpTo(max: nat, filter: Filter, now: int) returns (picks: seq<nat>)
      requires Valid()
      ensures picks == Pick(Wrapped, Table(), [], max, filter, now)
    {
      picks := [];
      while |picks| < max
        invariant forall k :: 0 <= k < |picks| ==> picks[k] < count
        invariant Pick(Wrapped, Table(), [], max, filter, now) == Pick(Wrapped, Table(), picks, max, filter, now)
        decreases max - |picks|
      {
        var best := FindBest(picks, filter, now);
        if best.None? {
          return;
        }
        picks := picks + [best.value];
      }
    }

    method Next(now: int, maxPerRead: nat) returns (d: Decision)
      requires Valid()
      ensures d == Decide(Wrapped, Table(), tmax, now, maxPerRead)
    {
      hide Best, Pick;
      if count == 0 {
        return Decision(false, false, [], IDLE_WAIT, 0, 0);
      }
      var max := Least(maxPerRead, MAX_PER_REQUEST);
      var picks := PickUpTo(max, Overdue, now);
      if picks != [] {
        var pids := PidsOf(entries[..count], picks);
        return Decision(true, false, pids, 0, (now - entries[picks[0]].due) % U32_END, 0);
      }
      var earliest := entries[0].due;
      for i := 1 to count
        invariant EarliestDue(Wrapped, Table(), 1, Table()[0].due) == EarliestDue(Wrapped, Table(), i, earliest)
      {
        if !Wrapped.Reached(entries[i].due, earliest) {
          earliest := entries[i].due;
        }
      }
      var untilDue := Wrapped.Remaining(now, earliest);
      if untilDue > tmax {
        picks := PickUpTo(max, EarlyEligible, now);
        if picks != [] {
          var pids := PidsOf(entries[..count], picks);
          return Decision(true, true, pids, 0, 0, untilDue);
        }
      }
      var wait := untilDue;
      for i := 0 to count
        invariant EarlyWait(Wrapped, Table(), tmax, now, untilDue, 0, untilDue)
          == EarlyWait(Wrapped, Table(), tmax, now, untilDue, i, wait)
      {
        var eligibleIn := Wrapped.Remaining(now, (entries[i].last + entries[i].minInterval) % U32_END);
        if eligibleIn < wait && untilDue - eligibleIn > tmax {
          wait := eligibleIn;
        }
      }
      d := Decision(false, false, [], wait, 0, 0);
    }

    method FindPid(pid: byte) returns (i: nat)
      requires Valid()
      ensures i == Find(Table(), pid)
    {
      i := 0;
      while i < count && entries[i].pid != pid
        invariant i <= count
        invariant Find(Table(), pid) == i + Find(Table()[i..], pid)
      {
        assert Table()[i..][1..] == Table()[i + 1..];
        i := i + 1;
      }
    }

    method OnRead(d: Decision, now: int)
      requires Valid()
      modifies entries
      ensures Valid() && Table() == AfterRead(Wrapped, old(Table()), d.pids, d.early, now)
    {
      for k := 0 to |d.pids|
        invariant Valid() && count == old(count)
        invariant AfterRead(Wrapped, old(Table()), d.pids, d.early, now)
          == AfterRead(Wrapped, Table(), d.pids[k..], d.early, now)
      {
        assert d.pids[k..][0] == d.pids[k] && d.pids[k..][1..] == d.pids[k + 1..];
        ghost var before := Table();
        var i := FindPid(d.pids[k]);
        if i < count {
          Reschedule(i, d.early, now);
          assert Table() == before[i := Rescheduled(Wrapped, before[i], d.early, now)];
        }
      }
    }

    method Reschedule(i: nat, early: bool, now: int)
      requires Valid() && i < count
      modifies entries
      ensures Valid() && Table() == old(Table())[i := Rescheduled(Wrapped, old(Table())[i], early, now)]
    {
      var e := entries[i];
      var next := ((if early then now else e.due) + e.period) % U32_END;
      if !early && Wrapped.Reached(now, next) {
        next := now;
      }
      entries[i] := e.(last := now, due := next);
    }
  }
}
