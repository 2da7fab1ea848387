/**
 * How late the scheduler can be: polled after exactly the waits it returns, with every request
 * taking at most Tmax, no PID is ever more than (n - 1) * Tmax late, whatever the load; and the
 * program's wrapping clock decides as one that never wraps.
 */
module Lateness {
  import opened Bytes
  import opened Scheduler

  // ---- what is picked ----

  /** The order of service: by due time, then by position. */
  predicate Precedes(es: seq<Entry>, k: int, j: int)
    requires 0 <= k < |es| && 0 <= j < |es|
  {
    es[k].due < es[j].due || (es[k].due == es[j].due && k < j)
  }

  ghost predicate IsBest(es: seq<Entry>, picks: seq<nat>, filter: Filter, now: int, end: nat, best: Option<nat>)
    requires end <= |es|
  {
    match best
    case None => forall j :: 0 <= j < end ==> !Candidate(Ideal, es, picks, filter, now, j)
    case Some(b) =>
      && b < end && Candidate(Ideal, es, picks, filter, now, b)
      && forall j :: 0 <= j < end && j != b && Candidate(Ideal, es, picks, filter, now, j) ==> Precedes(es, b, j)
  }

  lemma {:induction false} BestIsBest(es: seq<Entry>, picks: seq<nat>, filter: Filter, now: int, i: nat,
      best: Option<nat>)
    requires i <= |es| && IsBest(es, picks, filter, now, i, best)
    ensures IsBest(es, picks, filter, now, |es|, Best(Ideal, es, picks, filter, now, i, best))
    decreases |es| - i
  {
    if i < |es| {
      hide Candidate;
      var better := Candidate(Ideal, es, picks, filter, now, i)
        && (best.None? || !Ideal.Reached(es[i].due, es[best.value].due));
      BestIsBest(es, picks, filter, now, i + 1, if better then Some(i) else best);
    }
  }

  predicate Distinct(picks: seq<nat>) {
    forall a, b :: 0 <= a < b < |picks| ==> picks[a] != picks[b]
  }

  /** The picks so far pass the filter, come in the order of service, and before everything not picked. */
  ghost predicate Leads(es: seq<Entry>, picks: seq<nat>, filter: Filter, now: int) {
    && Distinct(picks)
    && (forall k :: 0 <= k < |picks| ==> picks[k] < |es| && Passes(Ideal, es[picks[k]], filter, now))
    && (forall a, b :: 0 <= a < b < |picks| ==> Precedes(es, picks[a], picks[b]))
    && (forall k, j :: 0 <= k < |picks| && 0 <= j < |es| && j !in picks && Passes(Ideal, es[j], filter, now) ==>
          Precedes(es, picks[k], j))
  }

  /** The first `max` entries that pass, in the order of service, or all of them. */
  ghost predicate Serves(es: seq<Entry>, picks: seq<nat>, max: nat, filter: Filter, now: int) {
    && Leads(es, picks, filter, now) && |picks| <= max
    && (|picks| < max ==> forall j :: 0 <= j < |es| && Passes(Ideal, es[j], filter, now) ==> j in picks)
  }

  lemma {:induction false} PickServes(es: seq<Entry>, picks: seq<nat>, max: nat, filter: Filter, now: int)
    requires Leads(es, picks, filter, now) && |picks| <= max
    ensures Serves(es, Pick(Ideal, es, picks, max, filter, now), max, filter, now)
    decreases max - |picks|
  {
    hide Passes, Best, Precedes;
    if |picks| < max {
      var best := Best(Ideal, es, picks, filter, now, 0, None);
      BestIsBest(es, picks, filter, now, 0, None);
      if best.Some? {
        LeadsMore(es, picks, filter, now, best.value);
        PickServes(es, picks + [best.value], max, filter, now);
      } else {
        assert forall j :: 0 <= j < |es| && Passes(Ideal, es[j], filter, now) ==>
            Candidate(Ideal, es, picks, filter, now, j) || j in picks;
      }
    }
  }

  lemma {:induction false} LeadsMore(es: seq<Entry>, picks: seq<nat>, filter: Filter, now: int, b: nat)
    requires Leads(es, picks, filter, now) && IsBest(es, picks, filter, now, |es|, Some(b))
    ensures Leads(es, picks + [b], filter, now)
  {
    hide Passes, Precedes;
    var more := picks + [b];
    forall k, j | 0 <= k < |more| && 0 <= j < |es| && j !in more && Passes(Ideal, es[j], filter, now)
      ensures Precedes(es, more[k], j)
    {
      assert Candidate(Ideal, es, picks, filter, now, j);
      assert j != more[|picks|];
    }
  }

  // ---- what a read changes ----

  predicate DistinctPids(es: seq<Entry>) {
    forall a, b :: 0 <= a < b < |es| ==> es[a].pid != es[b].pid
  }

  lemma {:induction false} FindIs(es: seq<Entry>, i: nat)
    requires DistinctPids(es) && i < |es|
    ensures Find(es, es[i].pid) == i
  {
    assert Find(es, es[i].pid) <= i;
  }

  /** Exactly the entries picked are rescheduled, each once. */
  lemma {:induction false} AfterReadIs(c: Clock, es: seq<Entry>, picks: seq<nat>, early: bool, now: int)
    requires DistinctPids(es) && Distinct(picks) && forall k :: 0 <= k < |picks| ==> picks[k] < |es|
    ensures var r := AfterRead(c, es, PidsOf(es, picks), early, now);
      |r| == |es| && forall i :: 0 <= i < |es| ==>
        r[i] == if i in picks then Rescheduled(c, es[i], early, now) else es[i]
    decreases |picks|
  {
    hide Rescheduled;
    if picks != [] {
      var i := picks[0];
      FindIs(es, i);
      SamePid(c, es[i], early, now);
      var es1 := es[i := Rescheduled(c, es[i], early, now)];
      assert PidsOf(es, picks)[1..] == PidsOf(es1, picks[1..]);
      AfterReadIs(c, es1, picks[1..], early, now);
      assert forall k :: k in picks <==> k == i || k in picks[1..];
      assert i !in picks[1..];
    }
  }

  lemma {:induction false} SamePid(c: Clock, e: Entry, early: bool, now: int)
    ensures var r := Rescheduled(c, e, early, now);
      r.pid == e.pid && r.period == e.period && r.minInterval == e.minInterval && r.last == now
  {
  }

  // ---- the order of service ----

  ghost function Before(es: seq<Entry>, j: int): set<int>
    requires 0 <= j < |es|
  {
    set k | 0 <= k < |es| && Precedes(es, k, j)
  }

  lemma {:induction false} FewBefore(es: seq<Entry>, j: int)
    requires 0 <= j < |es|
    ensures |Before(es, j)| <= |es| - 1
  {
    var others := Indices(|es|) - {j};
    assert Before(es, j) <= others;
    Subset(Before(es, j), others);
  }

  function Indices(n: nat): (r: set<int>)
    ensures |r| == n && forall k :: k in r <==> 0 <= k < n
  {
    if n == 0 then {} else Indices(n - 1) + {n - 1}
  }

  lemma {:induction false} Subset(a: set<int>, b: set<int>)
    requires a <= b
    ensures |a| <= |b|
  {
    assert b == a + (b - a) && a * (b - a) == {};
  }

  /** The lateness allowed to the entry with this many others before it. */
  function Allowance(n: nat, before: nat, tmax: nat): int { (n - 1 - before) * tmax }

  lemma {:induction false} AllowanceMore(n: nat, before: nat, before': nat, tmax: nat)
    ensures before' + 1 <= before ==> Allowance(n, before, tmax) + tmax <= Allowance(n, before', tmax)
    ensures before <= n - 1 ==> 0 <= Allowance(n, before, tmax) <= (n - 1) * tmax
  {
    if before' + 1 <= before {
      Times(n - 1 - before, 1 + (before - before' - 1), tmax);
      Times(1, before - before' - 1, tmax);
    }
    if before <= n - 1 {
      Times(n - 1 - before, before, tmax);
    }
  }

  lemma {:induction false} Times(a: int, b: nat, t: nat)
    ensures (a + b) * t == a * t + b * t && b * t >= 0 && (a >= 0 ==> a * t >= 0)
  {
  }

  // ---- the invariant ----

  datatype Plan = Plan(es: seq<Entry>, now: int)

  ghost predicate OnTime(p: Plan, tmax: nat) {
    forall j :: 0 <= j < |p.es| ==> p.now - p.es[j].due <= Allowance(|p.es|, |Before(p.es, j)|, tmax)
  }

  function Longest(e: Entry): nat { if e.period > e.minInterval then e.period else e.minInterval }

  /** The next read is due within one period of the last. */
  ghost predicate Fresh(p: Plan) {
    forall j :: 0 <= j < |p.es| ==> p.es[j].last <= p.now && p.es[j].due <= p.es[j].last + Longest(p.es[j])
  }

  ghost predicate Inv(p: Plan, tmax: nat) {
    DistinctPids(p.es) && OnTime(p, tmax) && Fresh(p)
  }

  /** One poll: a read that takes `dt`, or a wait of `dt`. */
  function Poll(p: Plan, tmax: nat, maxPerRead: nat, dt: nat): Plan {
    var d := Decide(Ideal, p.es, tmax, p.now, maxPerRead);
    if d.read then Plan(AfterRead(Ideal, p.es, d.pids, d.early, p.now + dt), p.now + dt)
    else p.(now := p.now + dt)
  }

  /** Requests last at most Tmax; the poll comes back no later than it was told to. */
  predicate Punctual(p: Plan, tmax: nat, maxPerRead: nat, dt: nat) {
    var d := Decide(Ideal, p.es, tmax, p.now, maxPerRead);
    p.es != [] && maxPerRead >= 1 && dt <= (if d.read then tmax else d.wait)
  }

  lemma {:induction false} EarliestIsEarliest(es: seq<Entry>, i: nat, earliest: int)
    requires i <= |es|
    ensures var r := EarliestDue(Ideal, es, i, earliest); r <= earliest && forall j :: i <= j < |es| ==> r <= es[j].due
    decreases |es| - i
  {
    if i < |es| {
      EarliestIsEarliest(es, i + 1, if es[i].due >= earliest then earliest else es[i].due);
    }
  }

  /** An early read of the entry, this long from now, leaves more than `tmax` before the next due time. */
  predicate EarlyAt(es: seq<Entry>, tmax: nat, now: int, untilDue: int, j: nat, t: int)
    requires j < |es|
  {
    t == Ideal.Remaining(now, es[j].last + es[j].minInterval) && untilDue - t > tmax
  }

  /** The wait ends with the first chance of an early read, if that comes before `wait`. */
  lemma {:induction false} EarlyWaitIs(es: seq<Entry>, tmax: nat, now: int, untilDue: int, i: nat, wait: int)
    requires i <= |es|
    ensures var w := EarlyWait(Ideal, es, tmax, now, untilDue, i, wait);
      && w <= wait && (w == wait || exists j :: i <= j < |es| && EarlyAt(es, tmax, now, untilDue, j, w))
      && forall j, t :: i <= j < |es| && EarlyAt(es, tmax, now, untilDue, j, t) ==> w <= t
    decreases |es| - i
  {
    hide Clock.Remaining;
    if i < |es| {
      var t := Ideal.Remaining(now, es[i].last + es[i].minInterval);
      var next := if t < wait && untilDue - t > tmax then t else wait;
      EarlyWaitIs(es, tmax, now, untilDue, i + 1, next);
      assert EarlyAt(es, tmax, now, untilDue, i, t) <==> untilDue - t > tmax;
    }
  }

  /** A decision, in terms of what it picks. */
  ghost predicate Decided(es: seq<Entry>, tmax: nat, now: int, max: nat, d: Decision, picks: seq<nat>) {
    && Distinct(picks) && (forall k :: 0 <= k < |picks| ==> picks[k] < |es|)
    && d.pids == PidsOf(es, picks)
    && (d.read <==> picks != [])
    && (d.read && !d.early ==>
          && Serves(es, picks, max, Overdue, now)
          && (forall j :: 0 <= j < |es| && j !in picks ==> Precedes(es, picks[0], j))
          && d.late == now - es[picks[0]].due)
    && (d.read && d.early ==>
          && Serves(es, picks, max, EarlyEligible, now)
          && forall j :: 0 <= j < |es| ==> now + tmax < now + d.slack <= es[j].due)
    && (!d.read ==> forall j :: 0 <= j < |es| ==> now + d.wait <= es[j].due)
  }

  lemma {:induction false} AllServed(es: seq<Entry>, max: nat, filter: Filter, now: int)
    ensures Serves(es, Pick(Ideal, es, [], max, filter, now), max, filter, now)
  {
    hide Pick, Passes, Precedes;
    PickServes(es, [], max, filter, now);
  }

  lemma {:induction false} ServesParts(es: seq<Entry>, picks: seq<nat>, max: nat, filter: Filter, now: int)
    requires Serves(es, picks, max, filter, now) && max >= 1
    ensures Distinct(picks) && forall k :: 0 <= k < |picks| ==> picks[k] < |es|
    ensures picks == [] <==> forall j :: 0 <= j < |es| ==> !Passes(Ideal, es[j], filter, now)
    ensures picks != [] && filter == Overdue ==>
      es[picks[0]].due <= now && forall j :: 0 <= j < |es| && j !in picks ==> Precedes(es, picks[0], j)
  {
    hide CanReadEarly;
    assert picks != [] ==> Passes(Ideal, es[picks[0]], filter, now);
  }

  lemma {:induction false} DecisionIs(es: seq<Entry>, tmax: nat, now: int, maxPerRead: nat) returns (picks: seq<nat>)
    requires es != [] && maxPerRead >= 1
    ensures Decided(es, tmax, now, Scheduler.Least(maxPerRead, MAX_PER_REQUEST),
                    Decide(Ideal, es, tmax, now, maxPerRead), picks)
  {
    hide Pick, EarliestDue, EarlyWait, Serves, Passes, Precedes, Distinct, EarlyAt;
    var max := Scheduler.Least(maxPerRead, MAX_PER_REQUEST);
    AllServed(es, max, Overdue, now);
    picks := Pick(Ideal, es, [], max, Overdue, now);
    ServesParts(es, picks, max, Overdue, now);
    if picks == [] {
      EarliestIsEarliest(es, 1, es[0].due);
      var earliest := EarliestDue(Ideal, es, 1, es[0].due);
      var untilDue := Ideal.Remaining(now, earliest);
      EarliestIsLater(es, now);
      if untilDue > tmax {
        AllServed(es, max, EarlyEligible, now);
        picks := Pick(Ideal, es, [], max, EarlyEligible, now);
        ServesParts(es, picks, max, EarlyEligible, now);
      }
      EarlyWaitIs(es, tmax, now, untilDue, 0, untilDue);
    }
  }

  /** Something is due, or an early read is allowed and harms nothing. */
  ghost predicate CanRead(es: seq<Entry>, tmax: nat, now: int) {
    || (exists j :: 0 <= j < |es| && es[j].due <= now)
    || ((forall j :: 0 <= j < |es| ==> now + tmax < es[j].due)
        && exists j :: 0 <= j < |es| && CanReadEarly(Ideal, es[j], now))
  }

  /** There is a read exactly when there can be one. */
  lemma {:induction false} ReadsWhenItCan(es: seq<Entry>, tmax: nat, now: int, maxPerRead: nat)
    requires es != [] && maxPerRead >= 1
    ensures Decide(Ideal, es, tmax, now, maxPerRead).read <==> CanRead(es, tmax, now)
  {
    hide Pick, EarliestDue, EarlyWait, Serves, Precedes, Distinct, PidsOf, CanReadEarly;
    var max := Scheduler.Least(maxPerRead, MAX_PER_REQUEST);
    AllServed(es, max, Overdue, now);
    ServesParts(es, Pick(Ideal, es, [], max, Overdue, now), max, Overdue, now);
    AllServed(es, max, EarlyEligible, now);
    ServesParts(es, Pick(Ideal, es, [], max, EarlyEligible, now), max, EarlyEligible, now);
    EarliestIsLeast(es);
    if Pick(Ideal, es, [], max, Overdue, now) == [] {
      assert forall j :: 0 <= j < |es| ==> es[j].due > now;
    } else {
      assert Passes(Ideal, es[Pick(Ideal, es, [], max, Overdue, now)[0]], Overdue, now);
    }
  }

  lemma {:induction false} EarliestIsLeast(es: seq<Entry>)
    requires es != []
    ensures var r := EarliestDue(Ideal, es, 1, es[0].due);
      (exists j :: 0 <= j < |es| && r == es[j].due) && forall j :: 0 <= j < |es| ==> r <= es[j].due
  {
    EarliestIsEarliest(es, 1, es[0].due);
    EarliestIsSome(es, 1, 0);
  }

  lemma {:induction false} EarliestIsSome(es: seq<Entry>, i: nat, m: nat)
    requires 0 < i <= |es| && m < i
    ensures exists j :: 0 <= j < |es| && EarliestDue(Ideal, es, i, es[m].due) == es[j].due
    decreases |es| - i
  {
    if i < |es| {
      EarliestIsSome(es, i + 1, if es[i].due >= es[m].due then m else i);
    } else {
      assert EarliestDue(Ideal, es, i, es[m].due) == es[m].due;
    }
  }

  /** A wait ends at the first moment at which there can be a read, neither before nor after. */
  lemma {:induction false} WaitIsExact(es: seq<Entry>, tmax: nat, now: int, maxPerRead: nat, t: nat)
    requires es != [] && maxPerRead >= 1 && !Decide(Ideal, es, tmax, now, maxPerRead).read
    ensures var wait := Decide(Ideal, es, tmax, now, maxPerRead).wait;
      && wait > 0 && Decide(Ideal, es, tmax, now + wait, maxPerRead).read
      && (t < wait ==> !Decide(Ideal, es, tmax, now + t, maxPerRead).read)
  {
    hide Decide, CanRead;
    var wait := Decide(Ideal, es, tmax, now, maxPerRead).wait;
    ReadsWhenItCan(es, tmax, now, maxPerRead);
    ReadsWhenItCan(es, tmax, now + wait, maxPerRead);
    ReadsWhenItCan(es, tmax, now + t, maxPerRead);
    WaitsUntilItCan(es, tmax, now, maxPerRead, t);
  }

  lemma {:induction false} WaitsUntilItCan(es: seq<Entry>, tmax: nat, now: int, maxPerRead: nat, t: nat)
    requires es != [] && !Decide(Ideal, es, tmax, now, maxPerRead).read && !CanRead(es, tmax, now)
    ensures var wait := Decide(Ideal, es, tmax, now, maxPerRead).wait;
      wait > 0 && CanRead(es, tmax, now + wait) && (t < wait ==> !CanRead(es, tmax, now + t))
  {
    hide Pick, EarliestDue, EarlyWait, PidsOf, EarlyAt, CanReadEarly;
    EarliestIsLeast(es);
    var earliest := EarliestDue(Ideal, es, 1, es[0].due);
    var m :| 0 <= m < |es| && earliest == es[m].due;
    assert earliest > now;
    var untilDue := earliest - now;
    EarlyWaitIs(es, tmax, now, untilDue, 0, untilDue);
    var wait := Decide(Ideal, es, tmax, now, maxPerRead).wait;
    assert wait == EarlyWait(Ideal, es, tmax, now, untilDue, 0, untilDue);
    if wait == untilDue {
      assert es[m].due <= now + wait;
    } else {
      var j :| 0 <= j < |es| && EarlyAt(es, tmax, now, untilDue, j, wait);
      EarlyWhen(es, tmax, now, untilDue, j, wait);
    }
    assert CanRead(es, tmax, now + wait);
    forall j | 0 <= j < |es| && 0 <= t < wait && tmax < untilDue - t
      ensures !CanReadEarly(Ideal, es[j], now + t)
    {
      EarlyWhen(es, tmax, now, untilDue, j, t);
    }
    assert wait > 0;
    assert t < wait ==> !CanRead(es, tmax, now + t);
  }

  /** An entry may be read early from a chance on, and not before the first one. */
  lemma {:induction false} EarlyWhen(es: seq<Entry>, tmax: nat, now: int, untilDue: int, j: nat, t: int)
    requires j < |es|
    ensures EarlyAt(es, tmax, now, untilDue, j, t) ==>
      t >= 0 && CanReadEarly(Ideal, es[j], now + t) && untilDue - t > tmax
    ensures t >= 0 && tmax < untilDue - t && CanReadEarly(Ideal, es[j], now + t) ==>
      exists r :: 0 <= r <= t && EarlyAt(es, tmax, now, untilDue, j, r)
  {
    var r := Ideal.Remaining(now, es[j].last + es[j].minInterval);
    assert tmax < untilDue - r ==> EarlyAt(es, tmax, now, untilDue, j, r);
  }

  lemma {:induction false} EarliestIsLater(es: seq<Entry>, now: int)
    requires es != [] && forall j :: 0 <= j < |es| ==> !Passes(Ideal, es[j], Overdue, now)
    ensures EarliestDue(Ideal, es, 1, es[0].due) > now
  {
    EarliestIsOne(es, 1, es[0].due, now);
  }

  lemma {:induction false} EarliestIsOne(es: seq<Entry>, i: nat, earliest: int, now: int)
    requires i <= |es| && earliest > now && forall j :: 0 <= j < |es| ==> es[j].due > now
    ensures EarliestDue(Ideal, es, i, earliest) > now
    decreases |es| - i
  {
    if i < |es| {
      EarliestIsOne(es, i + 1, if es[i].due >= earliest then earliest else es[i].due, now);
    }
  }

  // ---- one poll ----

  /**
   * A read entry is not due before the read ended. A read in time keeps the phase: the next one is
   * due a period after the last was, or at once if that has passed. An early one starts anew.
   */
  lemma {:induction false} ReadIsAhead(e: Entry, early: bool, now: int)
    ensures var r := Rescheduled(Ideal, e, early, now);
      && r.due >= now && (early || e.due <= now ==> r.due <= now + e.period)
      && (early ==> r.due == now + e.period)
      && (!early ==> r.due == e.due + e.period || (r.due == now && e.due + e.period <= now))
  {
  }

  lemma {:induction false} MovesUp(es: seq<Entry>, es': seq<Entry>, picks: seq<nat>, j: int, now: int)
    requires |es'| == |es| && 0 <= j < |es| && j !in picks && picks != [] && picks[0] < |es|
    requires forall i :: 0 <= i < |es| ==> if i in picks then es'[i].due >= now else es'[i] == es[i]
    requires es[j].due < now && Precedes(es, picks[0], j)
    ensures |Before(es', j)| + 1 <= |Before(es, j)|
  {
    var rest := Before(es, j) - {picks[0]};
    forall k | k in Before(es', j)
      ensures k in rest
    {
      assert Precedes(es', k, j);
    }
    Subset(Before(es', j), rest);
  }

  lemma {:induction false} ReadOnTime(p: Plan, tmax: nat, max: nat, d: Decision, picks: seq<nat>, dt: nat,
      es': seq<Entry>)
    requires OnTime(p, tmax) && Decided(p.es, tmax, p.now, max, d, picks) && d.read && dt <= tmax
    requires |es'| == |p.es|
    requires forall i :: 0 <= i < |p.es| ==> if i in picks then es'[i].due >= p.now + dt else es'[i] == p.es[i]
    ensures OnTime(Plan(es', p.now + dt), tmax)
  {
    hide Allowance, Before, Precedes;
    var now', n := p.now + dt, |p.es|;
    forall j | 0 <= j < n
      ensures now' - es'[j].due <= Allowance(n, |Before(es', j)|, tmax)
    {
      FewBefore(es', j);
      AllowanceMore(n, |Before(es', j)|, 0, tmax);
      if es'[j].due < now' {
        assert j !in picks && !d.early;
        MovesUp(p.es, es', picks, j, now');
        AllowanceMore(n, |Before(p.es, j)|, |Before(es', j)|, tmax);
      }
    }
  }

  lemma {:induction false} WaitOnTime(p: Plan, tmax: nat, dt: nat)
    requires OnTime(p, tmax) && forall j :: 0 <= j < |p.es| ==> p.now + dt <= p.es[j].due
    ensures OnTime(p.(now := p.now + dt), tmax)
  {
    hide Allowance, Before;
    forall j | 0 <= j < |p.es|
      ensures 0 <= Allowance(|p.es|, |Before(p.es, j)|, tmax)
    {
      FewBefore(p.es, j);
      AllowanceMore(|p.es|, |Before(p.es, j)|, 0, tmax);
    }
  }

  lemma {:induction false} PollKeeps(p: Plan, tmax: nat, maxPerRead: nat, dt: nat)
    requires Inv(p, tmax) && Punctual(p, tmax, maxPerRead, dt)
    ensures Inv(Poll(p, tmax, maxPerRead, dt), tmax) && |Poll(p, tmax, maxPerRead, dt).es| == |p.es|
  {
    hide Decide, AfterRead, Rescheduled, OnTime, Precedes, PidsOf;
    var d := Decide(Ideal, p.es, tmax, p.now, maxPerRead);
    var picks := DecisionIs(p.es, tmax, p.now, maxPerRead);
    if d.read {
      var now' := p.now + dt;
      AfterReadIs(Ideal, p.es, picks, d.early, now');
      var es' := AfterRead(Ideal, p.es, d.pids, d.early, now');
      forall i | 0 <= i < |p.es|
        ensures if i in picks then es'[i].due >= now' else es'[i] == p.es[i]
        ensures es'[i].pid == p.es[i].pid && es'[i].last <= now' && es'[i].due <= es'[i].last + Longest(es'[i])
      {
        if i in picks {
          ReadIsAhead(p.es[i], d.early, now');
          SamePid(Ideal, p.es[i], d.early, now');
        }
      }
      ReadOnTime(p, tmax, Scheduler.Least(maxPerRead, MAX_PER_REQUEST), d, picks, dt, es');
    } else {
      WaitOnTime(p, tmax, dt);
    }
  }

  // ---- runs ----

  function PollAll(p: Plan, tmax: nat, maxPerRead: nat, dts: seq<nat>): Plan
    decreases |dts|
  {
    if dts == [] then p else PollAll(Poll(p, tmax, maxPerRead, dts[0]), tmax, maxPerRead, dts[1..])
  }

  predicate AllPunctual(p: Plan, tmax: nat, maxPerRead: nat, dts: seq<nat>)
    decreases |dts|
  {
    dts != [] ==>
      && Punctual(p, tmax, maxPerRead, dts[0])
      && AllPunctual(Poll(p, tmax, maxPerRead, dts[0]), tmax, maxPerRead, dts[1..])
  }

  lemma {:induction false} PollAllKeeps(p: Plan, tmax: nat, maxPerRead: nat, dts: seq<nat>)
    requires Inv(p, tmax) && AllPunctual(p, tmax, maxPerRead, dts)
    ensures Inv(PollAll(p, tmax, maxPerRead, dts), tmax) && |PollAll(p, tmax, maxPerRead, dts).es| == |p.es|
    decreases |dts|
  {
    hide Inv, Punctual, Poll;
    if dts != [] {
      PollKeeps(p, tmax, maxPerRead, dts[0]);
      PollAllKeeps(Poll(p, tmax, maxPerRead, dts[0]), tmax, maxPerRead, dts[1..]);
    }
  }

  predicate DistinctSettings(settings: seq<Setting>) {
    forall a, b :: 0 <= a < b < |settings| ==> settings[a].pid != settings[b].pid
  }

  /** A new configuration: everything is due now. */
  lemma {:induction false} AppliedInv(settings: seq<Setting>, now: int, tmax: nat)
    requires DistinctSettings(settings)
    ensures Inv(Plan(Applied(Ideal, settings, now), now), tmax)
  {
    var p := Plan(Applied(Ideal, settings, now), now);
    forall j | 0 <= j < |p.es|
      ensures 0 <= Allowance(|p.es|, |Before(p.es, j)|, tmax)
    {
      FewBefore(p.es, j);
      AllowanceMore(|p.es|, |Before(p.es, j)|, 0, tmax);
    }
  }

  /**
   * Bounded lateness: in every run, at every poll, no PID is more than (n - 1) * Tmax past its due
   * time, and none has gone unread for longer than its period (or minimum interval) plus that.
   */
  lemma {:induction false} LatenessIsBounded(settings: seq<Setting>, start: int, tmax: nat, maxPerRead: nat,
      dts: seq<nat>, j: nat)
    requires DistinctSettings(settings) && j < |settings|
    requires AllPunctual(Plan(Applied(Ideal, settings, start), start), tmax, maxPerRead, dts)
    ensures var p := PollAll(Plan(Applied(Ideal, settings, start), start), tmax, maxPerRead, dts);
      && |p.es| == |settings|
      && p.now - p.es[j].due <= (|settings| - 1) * tmax
      && p.now - p.es[j].last <= Longest(p.es[j]) + (|settings| - 1) * tmax
      && p.es[j].pid == settings[j].pid && p.es[j].period == settings[j].period
      && p.es[j].minInterval == settings[j].minInterval
  {
    PollAllSettings(Plan(Applied(Ideal, settings, start), start), tmax, maxPerRead, dts);
    AppliedIs(settings, start, j);
    hide PollAll, AllPunctual, Applied, Before, Allowance;
    var p0 := Plan(Applied(Ideal, settings, start), start);
    AppliedInv(settings, start, tmax);
    PollAllKeeps(p0, tmax, maxPerRead, dts);
    SameCount(settings, start);
    var p := PollAll(p0, tmax, maxPerRead, dts);
    FewBefore(p.es, j);
    AllowanceMore(|p.es|, |Before(p.es, j)|, 0, tmax);
  }

  /** A new table: as configured, due at once, and the last read long enough ago. */
  lemma {:induction false} AppliedIs(settings: seq<Setting>, now: int, j: nat)
    requires j < |settings|
    ensures var e := Applied(Ideal, settings, now)[j];
      && e.pid == settings[j].pid && e.period == settings[j].period && e.minInterval == settings[j].minInterval
      && e.due == now && now - e.last == settings[j].minInterval
  {
  }

  /** The same PIDs with the same period and minimum interval. */
  predicate SameSettings(es: seq<Entry>, es': seq<Entry>) {
    |es'| == |es| && forall i :: 0 <= i < |es| ==>
      es'[i].pid == es[i].pid && es'[i].period == es[i].period && es'[i].minInterval == es[i].minInterval
  }

  lemma {:induction false} ReadSettings(es: seq<Entry>, pids: seq<byte>, early: bool, now: int)
    ensures SameSettings(es, AfterRead(Ideal, es, pids, early, now))
    decreases |pids|
  {
    hide Rescheduled;
    if pids != [] {
      var i := Scheduler.Find(es, pids[0]);
      if i < |es| {
        SamePid(Ideal, es[i], early, now);
      }
      ReadSettings(if i < |es| then es[i := Rescheduled(Ideal, es[i], early, now)] else es, pids[1..], early, now);
    }
  }

  lemma {:induction false} PollAllSettings(p: Plan, tmax: nat, maxPerRead: nat, dts: seq<nat>)
    ensures SameSettings(p.es, PollAll(p, tmax, maxPerRead, dts).es)
    decreases |dts|
  {
    hide Decide, AfterRead;
    if dts != [] {
      var d := Decide(Ideal, p.es, tmax, p.now, maxPerRead);
      ReadSettings(p.es, d.pids, d.early, p.now + dts[0]);
      PollAllSettings(Poll(p, tmax, maxPerRead, dts[0]), tmax, maxPerRead, dts[1..]);
    }
  }

  lemma {:induction false} SameCount(settings: seq<Setting>, now: int)
    ensures |Applied(Ideal, settings, now)| == |settings|
  {
  }

  /**
   * A read asks for at most six PIDs. An early one asks only for PIDs whose minimum interval has passed
   * since their last read. Without PIDs the scheduler waits a second.
   */
  lemma {:induction false} ReadsAreSpaced(es: seq<Entry>, tmax: nat, now: int, maxPerRead: nat)
      returns (picks: seq<nat>)
    requires maxPerRead >= 1
    ensures var d := Decide(Ideal, es, tmax, now, maxPerRead);
      && |d.pids| == |picks| <= 6 && |picks| <= maxPerRead && (forall k :: 0 <= k < |picks| ==> picks[k] < |es|)
      && (forall k :: 0 <= k < |picks| ==> d.pids[k] == es[picks[k]].pid)
      && (d.read && d.early ==>
            forall k :: 0 <= k < |picks| ==> now - es[picks[k]].last >= es[picks[k]].minInterval)
      && (es == [] ==> !d.read && d.wait == 1000)
  {
    picks := [];
    if es != [] {
      hide Decide, Precedes;
      picks := DecisionIs(es, tmax, now, maxPerRead);
    }
  }

  /** An early read ends before anything is due, so it makes nothing late. */
  lemma {:induction false} EarlyReadsAddNoLateness(p: Plan, tmax: nat, maxPerRead: nat, dt: nat, j: nat)
    requires Punctual(p, tmax, maxPerRead, dt) && j < |p.es|
    requires Decide(Ideal, p.es, tmax, p.now, maxPerRead).early && Decide(Ideal, p.es, tmax, p.now, maxPerRead).read
    ensures p.now + dt < p.es[j].due
  {
    hide Decide;
    var picks := DecisionIs(p.es, tmax, p.now, maxPerRead);
  }

  // ---- the wrapping clock ----

  function Wrap(e: Entry): Entry { e.(due := Wrapped.At(e.due), last := Wrapped.At(e.last)) }

  function WrapAll(es: seq<Entry>): seq<Entry> {
    seq(|es|, i requires 0 <= i < |es| => Wrap(es[i]))
  }

  predicate Close(a: int, b: int) { a - b < HALF && b - a <= HALF }

  /** Everything the scheduler compares lies less than half a turn of the counter apart. */
  ghost predicate Near(es: seq<Entry>, now: int) {
    && (forall i :: 0 <= i < |es| ==> Close(now, es[i].due) && Close(now, es[i].last + es[i].minInterval))
    && (forall i, j :: 0 <= i < |es| && 0 <= j < |es| ==> Close(es[i].due, es[j].due))
  }

  lemma {:induction false} WrapDiff(a: int, b: int)
    ensures (a % U32_END - b % U32_END) % U32_END == (a - b) % U32_END
    ensures (a % U32_END + b) % U32_END == (a + b) % U32_END
    ensures (a % U32_END) % U32_END == a % U32_END
  {
    var q, r := a / U32_END, b / U32_END;
    assert a % U32_END - b % U32_END == (a - b) + (r - q) * U32_END;
    assert a % U32_END + b == (a + b) + (-q) * U32_END;
    Turns(a - b, r - q);
    Turns(a + b, -q);
  }

  lemma {:induction false} Turns(a: int, k: int)
    ensures (a + k * U32_END) % U32_END == a % U32_END
  {
    var q := a / U32_END;
    assert a + k * U32_END == (q + k) * U32_END + a % U32_END;
  }

  /** Within half a turn the wrapped clock tells before from after, and by how much. */
  lemma {:induction false} ReachedWraps(a: int, b: int)
    requires Close(a, b)
    ensures Wrapped.Reached(Wrapped.At(a), Wrapped.At(b)) == Ideal.Reached(a, b)
    ensures Ideal.Reached(a, b) ==> Wrapped.At(Wrapped.At(a) - Wrapped.At(b)) == a - b
  {
    WrapDiff(a, b);
  }

  lemma {:induction false} RemainingWraps(now: int, target: int)
    requires Close(now, target)
    ensures Wrapped.Remaining(Wrapped.At(now), Wrapped.At(target)) == Ideal.Remaining(now, target)
  {
    ReachedWraps(now, target);
    if !Ideal.Reached(now, target) {
      WrapDiff(target, now);
    }
  }

  lemma {:induction false} PassesWraps(es: seq<Entry>, filter: Filter, now: int, i: nat)
    requires Near(es, now) && i < |es|
    ensures Passes(Wrapped, WrapAll(es)[i], filter, Wrapped.At(now)) == Passes(Ideal, es[i], filter, now)
  {
    var e := es[i];
    ReachedWraps(now, e.due);
    ReachedWraps(now, e.last + e.minInterval);
    WrapDiff(e.last, e.minInterval);
  }

  lemma {:induction false} BestWraps(es: seq<Entry>, picks: seq<nat>, filter: Filter, now: int, i: nat,
      best: Option<nat>)
    requires Near(es, now) && i <= |es| && (best.Some? ==> best.value < |es|)
    ensures Best(Wrapped, WrapAll(es), picks, filter, Wrapped.At(now), i, best)
      == Best(Ideal, es, picks, filter, now, i, best)
    decreases |es| - i
  {
    if i < |es| {
      PassesWraps(es, filter, now, i);
      if best.Some? {
        ReachedWraps(es[i].due, es[best.value].due);
      }
      hide Passes, Near, Clock.Reached;
      var better := Candidate(Ideal, es, picks, filter, now, i)
        && (best.None? || !Ideal.Reached(es[i].due, es[best.value].due));
      BestWraps(es, picks, filter, now, i + 1, if better then Some(i) else best);
    }
  }

  lemma {:induction false} PickWraps(es: seq<Entry>, picks: seq<nat>, max: nat, filter: Filter, now: int)
    requires Near(es, now) && forall k :: 0 <= k < |picks| ==> picks[k] < |es|
    ensures Pick(Wrapped, WrapAll(es), picks, max, filter, Wrapped.At(now)) == Pick(Ideal, es, picks, max, filter, now)
    decreases max - |picks|
  {
    hide Near, Best, WrapAll, Clock.At;
    if |picks| < max {
      BestWraps(es, picks, filter, now, 0, None);
      var best := Best(Ideal, es, picks, filter, now, 0, None);
      if best.Some? {
        PickWraps(es, picks + [best.value], max, filter, now);
      }
    }
  }

  lemma {:induction false} EarliestWraps(es: seq<Entry>, now: int, i: nat, k: nat)
    requires Near(es, now) && i <= |es| && k < |es|
    ensures EarliestDue(Wrapped, WrapAll(es), i, Wrapped.At(es[k].due))
      == Wrapped.At(EarliestDue(Ideal, es, i, es[k].due))
    ensures exists m :: 0 <= m < |es| && EarliestDue(Ideal, es, i, es[k].due) == es[m].due
    decreases |es| - i
  {
    if i < |es| {
      ReachedWraps(es[i].due, es[k].due);
      EarliestWraps(es, now, i + 1, if es[i].due >= es[k].due then k else i);
    }
  }

  lemma {:induction false} EarlyWaitWraps(es: seq<Entry>, tmax: nat, now: int, untilDue: int, i: nat, wait: int)
    requires Near(es, now) && i <= |es|
    ensures EarlyWait(Wrapped, WrapAll(es), tmax, Wrapped.At(now), untilDue, i, wait)
      == EarlyWait(Ideal, es, tmax, now, untilDue, i, wait)
    decreases |es| - i
  {
    if i < |es| {
      var e := es[i];
      RemainingWraps(now, e.last + e.minInterval);
      WrapDiff(e.last, e.minInterval);
      hide Near, Clock.Remaining;
      var eligibleIn := Ideal.Remaining(now, e.last + e.minInterval);
      EarlyWaitWraps(es, tmax, now, untilDue, i + 1,
                     if eligibleIn < wait && untilDue - eligibleIn > tmax then eligibleIn else wait);
    }
  }

  lemma {:induction false} PidsWrap(es: seq<Entry>, picks: seq<nat>)
    requires forall k :: 0 <= k < |picks| ==> picks[k] < |es|
    ensures PidsOf(WrapAll(es), picks) == PidsOf(es, picks)
  {
  }

  /** On wrapped times the scheduler decides as on true times. */
  lemma {:induction false} DecideWraps(es: seq<Entry>, tmax: nat, now: int, maxPerRead: nat)
    requires Near(es, now)
    ensures Decide(Wrapped, WrapAll(es), tmax, Wrapped.At(now), maxPerRead) == Decide(Ideal, es, tmax, now, maxPerRead)
  {
    hide Pick, EarliestDue, EarlyWait, PidsOf, Near, Clock.Reached, Clock.Remaining, Clock.At, WrapAll;
    SameLength(es);
    if es == [] {
      return;
    }
    var max := Scheduler.Least(maxPerRead, MAX_PER_REQUEST);
    PickWraps(es, [], max, Overdue, now);
    var overdue := Pick(Ideal, es, [], max, Overdue, now);
    if overdue != [] {
      LateWraps(es, max, now);
      PidsWrap(es, overdue);
    } else {
      UntilWraps(es, now);
      var untilDue := Ideal.Remaining(now, EarliestDue(Ideal, es, 1, es[0].due));
      PickWraps(es, [], max, EarlyEligible, now);
      PidsWrap(es, Pick(Ideal, es, [], max, EarlyEligible, now));
      EarlyWaitWraps(es, tmax, now, untilDue, 0, untilDue);
    }
  }

  lemma {:induction false} SameLength(es: seq<Entry>)
    ensures |WrapAll(es)| == |es| && forall i :: 0 <= i < |es| ==> WrapAll(es)[i] == Wrap(es[i])
  {
  }

  lemma {:induction false} LateWraps(es: seq<Entry>, max: nat, now: int)
    requires Near(es, now) && Pick(Ideal, es, [], max, Overdue, now) != []
    ensures var i := Pick(Ideal, es, [], max, Overdue, now)[0];
      Wrapped.At(Wrapped.At(now) - WrapAll(es)[i].due) == Ideal.At(now - es[i].due)
  {
    hide Pick, Clock.At, Near;
    AllServed(es, max, Overdue, now);
    var i := Pick(Ideal, es, [], max, Overdue, now)[0];
    LateWrap(es, i, now);
  }

  lemma {:induction false} LateWrap(es: seq<Entry>, i: nat, now: int)
    requires Near(es, now) && i < |es| && Passes(Ideal, es[i], Overdue, now)
    ensures Wrapped.At(Wrapped.At(now) - WrapAll(es)[i].due) == Ideal.At(now - es[i].due)
  {
    ReachedWraps(now, es[i].due);
  }

  lemma {:induction false} UntilWraps(es: seq<Entry>, now: int)
    requires Near(es, now) && es != []
    ensures Wrapped.Remaining(Wrapped.At(now), EarliestDue(Wrapped, WrapAll(es), 1, WrapAll(es)[0].due))
      == Ideal.Remaining(now, EarliestDue(Ideal, es, 1, es[0].due))
  {
    EarliestWraps(es, now, 1, 0);
    var m :| 0 <= m < |es| && EarliestDue(Ideal, es, 1, es[0].due) == es[m].due;
    RemainingWraps(now, es[m].due);
  }

  /** And reschedules as on true times. */
  lemma {:induction false} RescheduleWraps(e: Entry, early: bool, now: int)
    requires early || Close(now, e.due + e.period)
    ensures Rescheduled(Wrapped, Wrap(e), early, Wrapped.At(now)) == Wrap(Rescheduled(Ideal, e, early, now))
  {
    if !early {
      ReachedWraps(now, e.due + e.period);
    }
    WrapDiff(e.due, e.period);
    WrapDiff(now, e.period);
  }

  lemma {:induction false} AfterReadWraps(es: seq<Entry>, picks: seq<nat>, early: bool, now: int)
    requires DistinctPids(es) && Distinct(picks) && forall k :: 0 <= k < |picks| ==> picks[k] < |es|
    requires early || forall i :: 0 <= i < |es| && i in picks ==> Close(now, es[i].due + es[i].period)
    ensures AfterRead(Wrapped, WrapAll(es), PidsOf(es, picks), early, Wrapped.At(now))
      == WrapAll(AfterRead(Ideal, es, PidsOf(es, picks), early, now))
  {
    hide AfterRead, Rescheduled;
    PidsWrap(es, picks);
    AfterReadIs(Ideal, es, picks, early, now);
    AfterReadIs(Wrapped, WrapAll(es), picks, early, Wrapped.At(now));
    forall i | 0 <= i < |es| && i in picks
      ensures Rescheduled(Wrapped, WrapAll(es)[i], early, Wrapped.At(now))
        == Wrap(Rescheduled(Ideal, es[i], early, now))
    {
      RescheduleWraps(es[i], early, now);
    }
  }

  /** Periods and lateness must stay below half a turn of the counter: 24 days. */
  predicate Fits(es: seq<Entry>, tmax: nat) {
    forall i :: 0 <= i < |es| ==> Longest(es[i]) + |es| * tmax < HALF
  }

  lemma {:induction false} InvIsNear(p: Plan, tmax: nat)
    requires Inv(p, tmax) && Fits(p.es, tmax)
    ensures Near(p.es, p.now)
    ensures forall i :: 0 <= i < |p.es| ==> p.now - (|p.es| - 1) * tmax <= p.es[i].due <= p.now + Longest(p.es[i])
  {
    hide Before, Allowance, Near, Fits;
    if p.es != [] {
      var late := (|p.es| - 1) * tmax;
      forall i | 0 <= i < |p.es|
        ensures p.now - late <= p.es[i].due
      {
        FewBefore(p.es, i);
        AllowanceMore(|p.es|, |Before(p.es, i)|, 0, tmax);
      }
      LateFits(p.es, tmax);
      BoundsAreNear(p.es, p.now, late);
    } else {
      NoneIsNear(p.now);
    }
  }

  lemma {:induction false} LateFits(es: seq<Entry>, tmax: nat)
    requires Fits(es, tmax) && es != []
    ensures forall i :: 0 <= i < |es| ==> Longest(es[i]) + (|es| - 1) * tmax < HALF
  {
    hide Longest;
    Times(|es| - 1, 1, tmax);
  }

  lemma {:induction false} BoundsAreNear(es: seq<Entry>, now: int, late: int)
    requires forall i :: 0 <= i < |es| ==> now - late <= es[i].due <= es[i].last + Longest(es[i])
    requires forall i :: 0 <= i < |es| ==> es[i].last <= now && Longest(es[i]) + late < HALF
    requires 0 <= late
    ensures Near(es, now)
  {
  }

  lemma {:induction false} NoneIsNear(now: int)
    ensures Near([], now)
  {
  }

  /** One poll of the program, on its own clock. */
  function WrappedPoll(es: seq<Entry>, now: int, tmax: nat, maxPerRead: nat, dt: nat): seq<Entry> {
    var d := Decide(Wrapped, es, tmax, now, maxPerRead);
    if d.read then AfterRead(Wrapped, es, d.pids, d.early, Wrapped.At(now + dt)) else es
  }

  /** The program, on its 32-bit clock, takes the very steps the lateness result is about. */
  lemma {:induction false} PollWraps(p: Plan, tmax: nat, maxPerRead: nat, dt: nat)
    requires Inv(p, tmax) && Fits(p.es, tmax) && Punctual(p, tmax, maxPerRead, dt)
    ensures Decide(Wrapped, WrapAll(p.es), tmax, Wrapped.At(p.now), maxPerRead)
      == Decide(Ideal, p.es, tmax, p.now, maxPerRead)
    ensures WrappedPoll(WrapAll(p.es), Wrapped.At(p.now), tmax, maxPerRead, dt)
      == WrapAll(Poll(p, tmax, maxPerRead, dt).es)
  {
    hide Decide, Near, AfterRead, Inv, PidsOf;
    InvIsNear(p, tmax);
    DecideWraps(p.es, tmax, p.now, maxPerRead);
    var d := Decide(Ideal, p.es, tmax, p.now, maxPerRead);
    var picks := DecisionIs(p.es, tmax, p.now, maxPerRead);
    if d.read {
      assert DistinctPids(p.es) by {
        InvPids(p, tmax);
      }
      WrapDiff(p.now, dt);
      FarEnough(p, tmax, Scheduler.Least(maxPerRead, MAX_PER_REQUEST), d, picks, dt);
      AfterReadWraps(p.es, picks, d.early, p.now + dt);
    }
  }

  lemma {:induction false} InvPids(p: Plan, tmax: nat)
    requires Inv(p, tmax)
    ensures DistinctPids(p.es)
  {
  }

  lemma {:induction false} FarEnough(p: Plan, tmax: nat, max: nat, d: Decision, picks: seq<nat>, dt: nat)
    requires Inv(p, tmax) && Fits(p.es, tmax) && dt <= tmax && Decided(p.es, tmax, p.now, max, d, picks) && d.read
    ensures d.early || forall i :: 0 <= i < |p.es| && i in picks ==> Close(p.now + dt, p.es[i].due + p.es[i].period)
  {
    hide Inv, PidsOf, Precedes, Distinct;
    InvIsNear(p, tmax);
    assert |p.es| > 0 ==> (|p.es| - 1) * tmax + tmax == |p.es| * tmax;
  }

  lemma {:induction false} PollFits(p: Plan, tmax: nat, maxPerRead: nat, dt: nat)
    requires Inv(p, tmax) && Fits(p.es, tmax) && Punctual(p, tmax, maxPerRead, dt)
    ensures Fits(Poll(p, tmax, maxPerRead, dt).es, tmax)
  {
    hide Decide, Rescheduled, Precedes, PidsOf, OnTime, AfterRead;
    var d := Decide(Ideal, p.es, tmax, p.now, maxPerRead);
    var picks := DecisionIs(p.es, tmax, p.now, maxPerRead);
    if d.read {
      AfterReadIs(Ideal, p.es, picks, d.early, p.now + dt);
      forall i | 0 <= i < |p.es|
        ensures Longest(Rescheduled(Ideal, p.es[i], d.early, p.now + dt)) == Longest(p.es[i])
      {
        SamePid(Ideal, p.es[i], d.early, p.now + dt);
      }
    }
  }

  function WrappedRun(es: seq<Entry>, now: int, tmax: nat, maxPerRead: nat, dts: seq<nat>): seq<Entry>
    decreases |dts|
  {
    if dts == [] then es
    else
      WrappedRun(WrappedPoll(es, now, tmax, maxPerRead, dts[0]), Wrapped.At(now + dts[0]), tmax, maxPerRead, dts[1..])
  }

  lemma {:induction false} RunWraps(p: Plan, tmax: nat, maxPerRead: nat, dts: seq<nat>)
    requires Inv(p, tmax) && Fits(p.es, tmax) && AllPunctual(p, tmax, maxPerRead, dts)
    ensures WrappedRun(WrapAll(p.es), Wrapped.At(p.now), tmax, maxPerRead, dts)
      == WrapAll(PollAll(p, tmax, maxPerRead, dts).es)
    decreases |dts|
  {
    hide Inv, Fits, Punctual, Poll, WrapAll, WrappedPoll;
    if dts != [] {
      var p1 := Poll(p, tmax, maxPerRead, dts[0]);
      PollKeeps(p, tmax, maxPerRead, dts[0]);
      PollFits(p, tmax, maxPerRead, dts[0]);
      PollWraps(p, tmax, maxPerRead, dts[0]);
      NextTime(p, tmax, maxPerRead, dts[0]);
      WrapDiff(p.now, dts[0]);
      RunWraps(p1, tmax, maxPerRead, dts[1..]);
    }
  }

  lemma {:induction false} NextTime(p: Plan, tmax: nat, maxPerRead: nat, dt: nat)
    ensures Poll(p, tmax, maxPerRead, dt).now == p.now + dt
  {
    hide Decide, AfterRead;
  }

  predicate SettingsFit(settings: seq<Setting>, tmax: nat) {
    forall i :: 0 <= i < |settings| ==>
      settings[i].period + |settings| * tmax < HALF && settings[i].minInterval + |settings| * tmax < HALF
  }

  /**
   * A whole run of the program on its 32-bit clock is the run on true time, wrapped: the bound on
   * lateness holds however often the counter turns over.
   */
  lemma {:induction false} ProgramFollowsTrueTime(settings: seq<Setting>, start: int, tmax: nat, maxPerRead: nat,
      dts: seq<nat>)
    requires DistinctSettings(settings) && SettingsFit(settings, tmax)
    requires AllPunctual(Plan(Applied(Ideal, settings, start), start), tmax, maxPerRead, dts)
    ensures WrappedRun(Applied(Wrapped, settings, Wrapped.At(start)), Wrapped.At(start), tmax, maxPerRead, dts)
      == WrapAll(PollAll(Plan(Applied(Ideal, settings, start), start), tmax, maxPerRead, dts).es)
  {
    hide Inv, AllPunctual, PollAll, WrappedRun, Applied, WrapAll;
    AppliedInv(settings, start, tmax);
    AppliedWraps(settings, start, tmax);
    RunWraps(Plan(Applied(Ideal, settings, start), start), tmax, maxPerRead, dts);
  }

  lemma {:induction false} AppliedWraps(settings: seq<Setting>, start: int, tmax: nat)
    ensures Applied(Wrapped, settings, Wrapped.At(start)) == WrapAll(Applied(Ideal, settings, start))
    ensures SettingsFit(settings, tmax) ==> Fits(Applied(Ideal, settings, start), tmax)
  {
    forall i | 0 <= i < |settings|
      ensures Applied(Wrapped, settings, Wrapped.At(start))[i] == Wrap(Applied(Ideal, settings, start)[i])
    {
      WrapDiff(start, -(settings[i].minInterval as int));
    }
  }
}
