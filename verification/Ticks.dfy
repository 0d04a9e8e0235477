/** Millisecond ticks on a ring of 2^29, and what their arithmetic means in unwrapped time. */
module Ticks {
  import opened Basics

  const PERIOD: int := 0x2000_0000

  const HALF: int := 0x1000_0000

  /** The tick shown at unwrapped time `t`. */
  function Wrap(t: int): int { t % PERIOD }

  /** ticks_add; None is its OverflowError. */
  function TicksAdd(ticks: int, delta: int): Option<int> {
    if -HALF < delta < HALF then Some((ticks + delta) % PERIOD) else None
  }

  /** ticks_diff. */
  function TicksDiff(end: int, start: int): (d: int)
    ensures -HALF <= d < HALF
  {
    ((end - start) % PERIOD + HALF) % PERIOD - HALF
  }

  /** ticks_diff recovers the true distance exactly when that lies in its half-ring. */
  lemma {:induction false} DiffUnwraps(end: int, start: int)
    ensures TicksDiff(Wrap(end), Wrap(start)) == end - start <==> -HALF <= end - start < HALF
  {
    var d := end - start;
    WrapDifference(end, start);
    if -HALF <= d < HALF {
      if d < 0 {
        assert d % PERIOD == d + PERIOD;
      } else {
        assert d % PERIOD == d;
      }
    }
  }

  lemma {:induction false} WrapDifference(end: int, start: int)
    ensures (Wrap(end) - Wrap(start)) % PERIOD == (end - start) % PERIOD
  {
    var k := end / PERIOD - start / PERIOD;
    assert end == PERIOD * (end / PERIOD) + end % PERIOD;
    assert start == PERIOD * (start / PERIOD) + start % PERIOD;
    assert end - start == PERIOD * k + (Wrap(end) - Wrap(start));
    ModShift(Wrap(end) - Wrap(start), k);
  }

  lemma {:induction false} ModShift(x: int, k: int)
    ensures (PERIOD * k + x) % PERIOD == x % PERIOD
  {
    var y := PERIOD * k + x;
    var q := x / PERIOD;
    assert y == PERIOD * (k + q) + x % PERIOD;
    assert y / PERIOD == k + q;
  }

  /** ticks_add moves the tick as unwrapped time moves, by less than half the ring. */
  lemma {:induction false} AddUnwraps(t: int, delta: int)
    ensures TicksAdd(Wrap(t), delta)
         == if -0x1000_0000 < delta < 0x1000_0000 then Some((t + delta) % 0x2000_0000) else None
    ensures -HALF < delta < HALF ==> TicksAdd(Wrap(t), delta) == Some(Wrap(t + delta))
  {
    assert t + delta == PERIOD * (t / PERIOD) + (t % PERIOD + delta);
    ModShift(t % PERIOD + delta, t / PERIOD);
  }
}

/** The value objects built on ticks, and the schedule of a runner task. */
module Timing {
  import opened Basics
  import opened Ticks

  /** When a periodic schedule that is due next at `due` should be due after a check at `now`. */
  ghost predicate Rephased(due: int, period: int, now: int, fired: bool, due': int) {
    && (fired <==> now >= due)
    && (fired ==> now < due' <= now + period && exists k :: k > 0 && due' == due + Times(k, period))
    && (!fired ==> due' == due)
  }

  ghost function Times(k: int, period: int): int { k * period }

  lemma {:induction false} MissedPeriods(behind: int, period: int)
    requires behind >= 0 && period > 0
    ensures var k := behind / period + 1;
            k > 0 && behind < k * period <= behind + period
  {
    assert behind == period * (behind / period) + behind % period;
  }

  /** The due time after a check, in unwrapped arithmetic. */
  function Advanced(due: int, period: int, now: int, fired: bool): int
    requires period > 0
  {
    if fired then due + ((now - due) / period + 1) * period else due
  }

  /** The tick arithmetic of a check is sound: the check and the due time, and the due time and the next, lie within
      half the ring of each other. */
  predicate Reckonable(due: int, period: int, now: int)
    requires period > 0
  {
    -HALF <= now - due < HALF && Advanced(due, period, now, now >= due) - due < HALF
  }

  class Deadline {
    const period: int
    var dueTick: int
    ghost var due: int

    ghost predicate Valid()
      reads this
    {
      -HALF < period < HALF && dueTick == Wrap(due)
    }

    constructor (period: int, now: int, ghost t: int)
      requires -HALF < period < HALF && now == Wrap(t)
      ensures Valid() && due == t + period && this.period == period
    {
      AddUnwraps(t, period);
      this.period := period;
      dueTick := TicksAdd(now, period).value;
      due := t + period;
    }

    method Expired(now: int, ghost t: int) returns (r: bool)
      requires Valid() && now == Wrap(t) && -HALF <= t - due < HALF
      ensures r <==> t >= due
    {
      DiffUnwraps(t, due);
      r := TicksDiff(now, dueTick) >= 0;
    }

    method Remaining(now: int, ghost t: int) returns (r: int)
      requires Valid() && now == Wrap(t) && -HALF <= due - t < HALF
      ensures r == if t >= due then 0 else due - t
    {
      DiffUnwraps(due, t);
      var left := TicksDiff(dueTick, now);
      r := if left > 0 then left else 0;
    }

    method Reset(now: int, ghost t: int)
      requires Valid() && now == Wrap(t)
      modifies this
      ensures Valid() && due == t + period
    {
      AddUnwraps(t, period);
      dueTick := TicksAdd(now, period).value;
      due := t + period;
    }
  }

  class Rate {
    const period: int
    var dueTick: int
    ghost var due: int

    ghost predicate Valid()
      reads this
    {
      0 < period < HALF && dueTick == Wrap(due)
    }

    constructor (period: int, now: int, ghost t: int)
      requires 0 < period < HALF && now == Wrap(t)
      ensures Valid() && due == t + period && this.period == period
    {
      AddUnwraps(t, period);
      this.period := period;
      dueTick := TicksAdd(now, period).value;
      due := t + period;
    }

    method Due(now: int, ghost t: int) returns (fired: bool)
      requires Valid() && now == Wrap(t)
      requires Reckonable(due, period, t)
      modifies this
      ensures Valid() && Rephased(old(due), period, t, fired, due)
      ensures fired == (t >= old(due)) && due == Advanced(old(due), period, t, fired)
    {
      DiffUnwraps(t, due);
      var behind := TicksDiff(now, dueTick);
      if behind < 0 {
        return false;
      }
      var missed := behind / period + 1;
      MissedPeriods(behind, period);
      AddUnwraps(due, missed * period);
      dueTick := TicksAdd(dueTick, missed * period).value;
      assert due + missed * period == due + Times(missed, period);
      due := due + missed * period;
      return true;
    }
  }

  /** Rate's constructor: a period outside the half-ring is a ValueError. */
  method NewRate(period: int, now: int, ghost t: int) returns (rate: Rate?)
    requires now == Wrap(t)
    ensures rate == null <==> period <= 0 || period >= HALF
    ensures rate != null ==> fresh(rate) && rate.Valid() && rate.period == period && rate.due == t + period
  {
    if period <= 0 || period >= HALF {
      return null;
    }
    rate := new Rate(period, now, t);
  }

  /** The schedule part of a runner entry, as tick() advances it. */
  class Task {
    var period: Option<int>
    const preservePhase: bool
    var dueTick: Option<int>
    ghost var due: int

    ghost predicate Valid()
      reads this
    {
      && (period.Some? ==> 0 < period.value < HALF)
      && (dueTick.Some? ==> dueTick.value == Wrap(due))
    }

    constructor (period: Option<int>, preservePhase: bool, delay: Option<int>, now: int, ghost t: int)
      requires period.Some? ==> 0 < period.value < HALF
      requires delay.Some? ==> -HALF < delay.value < HALF
      requires now == Wrap(t)
      ensures Valid() && this.period == period && this.preservePhase == preservePhase
      ensures var first := if delay.Some? then delay else period;
              dueTick.Some? == first.Some? && (first.Some? ==> due == t + first.value)
    {
      var first := if delay.Some? then delay else period;
      this.period := period;
      this.preservePhase := preservePhase;
      if first.Some? {
        AddUnwraps(t, first.value);
        dueTick := TicksAdd(now, first.value);
        due := t + first.value;
      } else {
        dueTick := None;
      }
    }

    /** Whether tick() runs the entry at this time, and how it moves the due time. */
    method Tick(now: int, ghost t: int) returns (runs: bool)
      requires Valid() && now == Wrap(t)
      requires dueTick.Some? ==> -HALF <= t - due < HALF
      requires dueTick.Some? && period.Some? && preservePhase ==> Reckonable(due, period.value, t)
      modifies this
      ensures Valid() && period == old(period)
      ensures runs <==> old(dueTick.None?) || t >= old(due)
      ensures !runs ==> dueTick == old(dueTick) && due == old(due)
      ensures runs && old(dueTick.Some?) ==>
                if period.None? then dueTick.None?
                else dueTick.Some? && (if preservePhase then
                                         && Rephased(old(due), period.value, t, true, due)
                                         && due == Advanced(old(due), period.value, t, true)
                                       else due == t + period.value)
    {
      if dueTick.None? {
        return true;
      }
      DiffUnwraps(t, due);
      var behind := TicksDiff(now, dueTick.value);
      if behind < 0 {
        return false;
      }
      if period.None? {
        dueTick := None;
      } else if preservePhase {
        var missed := behind / period.value + 1;
        MissedPeriods(behind, period.value);
        AddUnwraps(due, missed * period.value);
        dueTick := TicksAdd(dueTick.value, missed * period.value);
        assert due + missed * period.value == due + Times(missed, period.value);
        due := due + missed * period.value;
      } else {
        AddUnwraps(t, period.value);
        dueTick := TicksAdd(now, period.value);
        due := t + period.value;
      }
      return true;
    }
  }

  /** The due time standing after some checks. */
  function DueAfter(first: int, period: int, checks: seq<int>): int
    requires period > 0
  {
    if checks == [] then first
    else
      var due := DueAfter(first, period, checks[..|checks| - 1]);
      Advanced(due, period, checks[|checks| - 1], checks[|checks| - 1] >= due)
  }

  /** No check is half a ring late for the due time then standing. */
  predicate OnTime(first: int, period: int, checks: seq<int>)
    requires period > 0
  {
    forall i :: 0 <= i < |checks| ==> Reckonable(DueAfter(first, period, checks[..i]), period, checks[i])
  }

  lemma {:induction false} DueAfterNext(first: int, period: int, checks: seq<int>, i: nat)
    requires period > 0 && i < |checks| && OnTime(first, period, checks)
    ensures var due := DueAfter(first, period, checks[..i]);
            && Reckonable(due, period, checks[i])
            && DueAfter(first, period, checks[..i + 1]) == Advanced(due, period, checks[i], checks[i] >= due)
  {
    assert checks[..i + 1][..i] == checks[..i];
  }

  /** A due time that has been reached moves on by whole periods. */
  lemma {:induction false} AdvancedInPhase(first: int, due: int, period: int, now: int)
    requires period > 0 && (due - first) % period == 0 && due >= first
    ensures var next := Advanced(due, period, now, now >= due); next >= due && (next - first) % period == 0
  {
    if now >= due {
      MissedPeriods(now - due, period);
      PeriodMultiple(first, due, (now - due) / period + 1, period);
    }
  }

  /**
   A Rate checked at the unwrapped times `checks`, each less than half a ring late for the due time then standing: the
   due times it goes through are strictly increasing multiples of the period from the start, one for each firing, and it
   fires at a check exactly when that check has reached the due time then standing.
   */
  method RunRate(period: int, start: int, checks: seq<int>) returns (fired: seq<bool>, dues: seq<int>)
    requires 0 < period < HALF && OnTime(start + period, period, checks)
    ensures |fired| == |checks| && |dues| == |checks| + 1
    ensures forall i :: 0 <= i < |dues| ==> dues[i] == DueAfter(start + period, period, checks[..i])
    ensures forall i :: 0 <= i < |dues| ==> dues[i] > start && (dues[i] - start) % period == 0
    ensures forall i :: 0 <= i < |checks| ==> Rephased(dues[i], period, checks[i], fired[i], dues[i + 1])
  {
    hide Advanced, OnTime, DueAfter, Reckonable, Rephased;
    var rate := new Rate(period, Wrap(start), start);
    fired, dues := [], [start + period];
    ghost var first := start + period;
    NoChecksYet(first, period, checks);
    PeriodMultiple(start, start, 1, period);
    for i := 0 to |checks|
      invariant rate.Valid() && fresh(rate) && rate.period == period
      invariant |fired| == i && |dues| == i + 1 && dues[i] == rate.due == DueAfter(first, period, checks[..i])
      invariant forall j :: 0 <= j < |dues| ==> dues[j] == DueAfter(first, period, checks[..j])
      invariant forall j :: 0 <= j < |dues| ==> dues[j] > start && (dues[j] - start) % period == 0
      invariant forall j :: 0 <= j < i ==> Rephased(dues[j], period, checks[j], fired[j], dues[j + 1])
    {
      DueAfterNext(first, period, checks, i);
      AdvancedInPhase(start, dues[i], period, checks[i]);
      var f := rate.Due(Wrap(checks[i]), checks[i]);
      fired := fired + [f];
      dues := dues + [Advanced(dues[i], period, checks[i], f)];
    }
  }

  lemma {:induction false} NoChecksYet(first: int, period: int, checks: seq<int>)
    requires period > 0
    ensures DueAfter(first, period, checks[..0]) == first
  {
  }

  /**
   A preserve_phase task ticked at the unwrapped times `checks`, each less than half a ring late for the due time then
   standing: it first runs once its delay, or else its period, has passed; the due times it goes through stay a whole
   number of periods from that, move on by at least one period with every run, and it runs at a tick exactly when that
   tick has reached the due time then standing.
   */
  method RunTask(period: int, delay: Option<int>, start: int, checks: seq<int>)
    returns (ran: seq<bool>, dues: seq<int>)
    requires 0 < period < HALF && (delay.Some? ==> -HALF < delay.value < HALF)
    requires OnTime(start + (if delay.Some? then delay.value else period), period, checks)
    ensures |ran| == |checks| && |dues| == |checks| + 1
    ensures var first := start + if delay.Some? then delay.value else period;
            && (forall i :: 0 <= i < |dues| ==> dues[i] == DueAfter(first, period, checks[..i]))
            && (forall i :: 0 <= i < |dues| ==> dues[i] >= first && (dues[i] - first) % period == 0)
    ensures forall i :: 0 <= i < |checks| ==> Rephased(dues[i], period, checks[i], ran[i], dues[i + 1])
  {
    hide Advanced, OnTime, DueAfter, Reckonable;
    var task := new Task(Some(period), true, delay, Wrap(start), start);
    var first := start + if delay.Some? then delay.value else period;
    ran, dues := [], [first];
    NoChecksYet(first, period, checks);
    for i := 0 to |checks|
      invariant task.Valid() && fresh(task) && task.period == Some(period) && task.preservePhase && task.dueTick.Some?
      invariant |ran| == i && |dues| == i + 1 && dues[i] == task.due == DueAfter(first, period, checks[..i])
      invariant forall j :: 0 <= j < |dues| ==> dues[j] == DueAfter(first, period, checks[..j])
      invariant forall j :: 0 <= j < |dues| ==> dues[j] >= first && (dues[j] - first) % period == 0
      invariant forall j :: 0 <= j < i ==> Rephased(dues[j], period, checks[j], ran[j], dues[j + 1])
    {
      DueAfterNext(first, period, checks, i);
      AdvancedInPhase(first, dues[i], period, checks[i]);
      ReckonableIsNear(dues[i], period, checks[i]);
      var r := task.Tick(Wrap(checks[i]), checks[i]);
      ran := ran + [r];
      dues := dues + [Advanced(dues[i], period, checks[i], r)];
    }
  }

  lemma {:induction false} ReckonableIsNear(due: int, period: int, now: int)
    requires period > 0 && Reckonable(due, period, now)
    ensures -HALF <= now - due < HALF && Advanced(due, period, now, false) == due
  {
  }

  lemma {:induction false} StrictMultiples(a: int, b: int, period: int)
    requires period > 0
    ensures a < b ==> a * period + period <= b * period
    decreases b - a
  {
    if a + 1 < b {
      StrictMultiples(a, b - 1, period);
    }
    assert (b - 1) * period + period == b * period;
  }

  lemma {:induction false} PeriodMultiple(start: int, due: int, k: int, period: int)
    requires period > 0 && (due - start) % period == 0
    ensures (due + Times(k, period) - start) % period == 0
  {
    var q := (due - start) / period;
    assert due - start == period * q;
    assert due + k * period - start == period * (q + k);
    assert (period * (q + k)) % period == 0 by {
      ModZero(q + k, period);
    }
  }

  lemma {:induction false} ModZero(q: int, period: int)
    requires period > 0
    ensures (period * q) % period == 0
  {
    var x := period * q;
    assert x == period * (x / period) + x % period;
    StrictMultiples(x / period, q, period);
    StrictMultiples(q, x / period, period);
  }
}
