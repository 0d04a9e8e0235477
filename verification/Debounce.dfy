/**
 The interrupt-driven button source: an interrupt handler fills a ring of edges while the consumer drains it,
 debounces each key and sweeps for levels that have settled.  An interrupt may arrive between any two steps of the
 consumer that touch shared state: at each such point the source is preempted by an arbitrary number of the pulses
 still to come.
 */
module Debounce {
  import opened Basics
  import opened DebounceSpec
  import opened Ticks

  /** A pin interrupt: the level sampled by the handler, `delay` milliseconds after the last thing that happened. */
  datatype Pulse = Pulse(key: nat, level: nat, delay: nat)

  /** An edge as captured, in unwrapped time. */
  datatype Edge = Edge(key: nat, level: nat, at: int)

  /** What happens around one poll: pulses before it; the tick the caller passes; pulses that strike during the check,
      as many as `bursts` says at each preemption point, and those left when it is over. */
  datatype Round = Round(before: seq<Pulse>, requested: int, during: seq<Pulse>, bursts: seq<nat>)

  predicate RoundFits(keyCount: nat, r: Round) {
    PulsesFit(keyCount, r.before) && PulsesFit(keyCount, r.during)
  }

  datatype Event = Event(key: nat, pressed: bool, ms: int)

  function PressedLevel(activeLow: bool): nat { if activeLow then 0 else 1 }

  function Sample(pressedLevel: nat, level: nat): nat { if level == pressedLevel then 1 else 0 }

  /** The edges of one key among those captured. */
  function EdgesOf(key: nat, pressedLevel: nat, edges: seq<Edge>): seq<KeyEdge> {
    if edges == [] then []
    else
      var before := EdgesOf(key, pressedLevel, edges[..|edges| - 1]);
      var e := edges[|edges| - 1];
      if e.key == key then before + [KeyEdge(Sample(pressedLevel, e.level), e.at)] else before
  }

  lemma {:induction false} EdgesOfAppend(key: nat, pressedLevel: nat, edges: seq<Edge>, e: Edge)
    ensures EdgesOf(key, pressedLevel, edges + [e])
            == if e.key == key then EdgesOf(key, pressedLevel, edges) + [KeyEdge(Sample(pressedLevel, e.level), e.at)]
               else EdgesOf(key, pressedLevel, edges)
  {
    assert (edges + [e])[..|edges|] == edges;
  }

  /** The events reported for one key. */
  function EventsOf(key: nat, events: seq<Event>): seq<Event> {
    if events == [] then []
    else
      var before := EventsOf(key, events[..|events| - 1]);
      if events[|events| - 1].key == key then before + [events[|events| - 1]] else before
  }

  /** A report as an event: the level and the wrapped tick of the run's first edge. */
  function Shown(key: nat, reports: seq<Run>): (r: seq<Event>)
    ensures |r| == |reports|
    ensures forall i :: 0 <= i < |r| ==> r[i] == Event(key, reports[i].level == 1, Wrap(reports[i].start))
  {
    seq(|reports|, i requires 0 <= i < |reports| => Event(key, reports[i].level == 1, Wrap(reports[i].start)))
  }

  predicate PulsesFit(keyCount: nat, pulses: seq<Pulse>) {
    forall i :: 0 <= i < |pulses| ==> pulses[i].key < keyCount && pulses[i].level <= 1
  }

  /** The time when the last of the pulses has struck. */
  function After(clock: int, pulses: seq<Pulse>): int
    decreases |pulses|
  {
    if pulses == [] then clock else After(clock + pulses[0].delay, pulses[1..])
  }

  /** The pulses as edges in unwrapped time. */
  function Timed(clock: int, pulses: seq<Pulse>): (r: seq<Edge>)
    ensures |r| == |pulses|
    decreases |pulses|
  {
    if pulses == [] then []
    else
      var at := clock + pulses[0].delay;
      [Edge(pulses[0].key, pulses[0].level, at)] + Timed(at, pulses[1..])
  }

  /** Some of the edges, in the same order. */
  predicate Thins(some: seq<Edge>, edges: seq<Edge>) {
    if edges == [] then some == []
    else
      var n, m := |some|, |edges|;
      || Thins(some, edges[..m - 1])
      || (n > 0 && some[n - 1] == edges[m - 1] && Thins(some[..n - 1], edges[..m - 1]))
  }

  lemma {:induction false} ThinsMore(some: seq<Edge>, edges: seq<Edge>, e: Edge)
    requires Thins(some, edges)
    ensures Thins(some, edges + [e]) && Thins(some + [e], edges + [e])
  {
    assert (edges + [e])[..|edges|] == edges && (some + [e])[..|some|] == some;
  }

  function RoundEnd(clock: int, r: Round): int {
    After(Greatest(After(clock, r.before), r.requested), r.during)
  }

  /** The edges of a round: pulses that strike during the check or later do so after the tick of its poll. */
  function RoundEdges(clock: int, r: Round): seq<Edge> {
    Timed(clock, r.before) + Timed(Greatest(After(clock, r.before), r.requested), r.during)
  }

  /** The first `room` of the edges. */
  function First(room: nat, edges: seq<Edge>): seq<Edge> {
    if room < |edges| then edges[..room] else edges
  }

  lemma {:induction false} FirstOfNone(room: nat, before: seq<Edge>, all: seq<Edge>)
    ensures before == before + First(room, all[..0])
  {
  }

  lemma {:induction false} FirstNext(room: nat, before: seq<Edge>, all: seq<Edge>, n: nat)
    requires n < |all|
    ensures |First(room, all[..n])| == Least(n, room)
    ensures before + First(room, all[..n + 1])
            == if n < room then before + First(room, all[..n]) + [all[n]] else before + First(room, all[..n])
  {
  }

  /** Whether the key is among the edges from position `from` on. */
  predicate Hit(key: nat, from: nat, edges: seq<Edge>) {
    exists i :: from <= i < |edges| && edges[i].key == key
  }

  /** Where a stamp comes from: the start or a poll, or an edge captured for the key. */
  predicate Origin(key: nat, stamp: int, nows: seq<int>, captured: seq<Edge>) {
    || (exists i :: 0 <= i < |nows| && stamp == Wrap(nows[i]))
    || (exists i :: 0 <= i < |captured| && captured[i].key == key && stamp == Wrap(captured[i].at))
  }

  ghost predicate Dated(stamps: seq<set<int>>, nows: seq<int>, captured: seq<Edge>) {
    forall k, t :: 0 <= k < |stamps| && t in stamps[k] ==> Origin(k, t, nows, captured)
  }

  lemma {:induction false} DatedGrows(stamps: seq<set<int>>, nows: seq<int>, captured: seq<Edge>, nows': seq<int>,
                                      captured': seq<Edge>)
    requires Dated(stamps, nows, captured) && nows <= nows' && captured <= captured'
    ensures Dated(stamps, nows', captured')
  {
    forall k, t | 0 <= k < |stamps| && t in stamps[k] ensures Origin(k, t, nows', captured') {
      assert Origin(k, t, nows, captured);
      if i :| 0 <= i < |nows| && t == Wrap(nows[i]) {
        assert nows'[i] == nows[i];
      } else {
        var i :| 0 <= i < |captured| && captured[i].key == k && t == Wrap(captured[i].at);
        assert captured'[i] == captured[i];
      }
    }
  }

  ghost predicate KeyState(settle: nat, horizon: int, floor: int, runs: seq<Run>, swept: bool, reports: seq<Run>,
                           believed: int, pending: int, changeMs: int)
  {
    runs != [] &&
    var last := runs[|runs| - 1];
    var s := Settled(settle, runs);
    && pending == last.level <= 1
    && believed == Believed(reports)
    && reports == (if swept then s + [last] else s)
    && (swept ==> last.level != Believed(s) && last.start + settle <= horizon)
    && (pending != believed ==> changeMs == Wrap(last.start) && last.start >= floor)
  }

  /** An edge to the other level, the level it ends having been held too briefly or being believed already. */
  lemma {:induction false} UnconfirmedEdge(settle: nat, horizon: int, floor: int, runs: seq<Run>, swept: bool,
                                           reports: seq<Run>, believed: int, pending: int, changeMs: int, sample: nat,
                                           at: int)
    requires KeyState(settle, horizon, floor, runs, swept, reports, believed, pending, changeMs)
    requires sample <= 1 && sample != pending && at >= horizon && at >= floor
    requires !(pending != believed && at - runs[|runs| - 1].start >= settle)
    ensures KeyState(settle, horizon, floor, runs + [Run(sample, at)], false, reports, believed, sample,
                     if sample != believed then Wrap(at) else changeMs)
  {
    SettledAppend(settle, runs, Run(sample, at));
  }

  /** An edge that ends a level held long enough: the level it ends is reported, stamped with its first edge. */
  lemma {:induction false} ConfirmedEdge(settle: nat, horizon: int, floor: int, runs: seq<Run>, swept: bool,
                                         reports: seq<Run>, believed: int, pending: int, changeMs: int, sample: nat,
                                         at: int)
    requires KeyState(settle, horizon, floor, runs, swept, reports, believed, pending, changeMs)
    requires sample <= 1 && sample != pending && at >= floor
    requires pending != believed && at - runs[|runs| - 1].start >= settle
    ensures var last := runs[|runs| - 1];
            && KeyState(settle, horizon, floor, runs + [Run(sample, at)], false, reports + [last],
                        last.level, sample, Wrap(at))
            && last.level == pending && Wrap(last.start) == changeMs
  {
    SettledAppend(settle, runs, Run(sample, at));
  }

  /** A sweep that finds a level held long enough reports it before its run has ended. */
  lemma {:induction false} SweptLevel(settle: nat, horizon: int, floor: int, runs: seq<Run>, swept: bool,
                                      reports: seq<Run>, believed: int, pending: int, changeMs: int, now: int)
    requires KeyState(settle, horizon, floor, runs, swept, reports, believed, pending, changeMs)
    requires pending != believed && now - runs[|runs| - 1].start >= settle && now >= horizon
    ensures KeyState(settle, now, floor, runs, true, reports + [runs[|runs| - 1]], pending, pending, changeMs)
    ensures runs[|runs| - 1].level == pending && Wrap(runs[|runs| - 1].start) == changeMs
  {
  }

  lemma {:induction false} HorizonGrows(settle: nat, horizon: int, now: int, floor: int, runs: seq<Run>, swept: bool,
                                        reports: seq<Run>, believed: int, pending: int, changeMs: int)
    requires KeyState(settle, horizon, floor, runs, swept, reports, believed, pending, changeMs) && now >= horizon
    ensures KeyState(settle, now, floor, runs, swept, reports, believed, pending, changeMs)
  {
  }

  /** The edges captured since are not older than `clock`. */
  predicate Grown(before: seq<Edge>, after: seq<Edge>, clock: int) {
    before <= after && forall i :: |before| <= i < |after| ==> after[i].at >= clock
  }

  lemma {:induction false} GrownBefore(before: seq<Edge>, after: seq<Edge>, clock: int)
    requires Grown(before, after, clock)
    ensures before <= after
  {
  }

  lemma {:induction false} NotGrown(edges: seq<Edge>, clock: int)
    ensures Grown(edges, edges, clock)
  {
  }

  lemma {:induction false} GrownTwice(a: seq<Edge>, b: seq<Edge>, c: seq<Edge>, t: int, u: int)
    requires Grown(a, b, t) && Grown(b, c, u) && t <= u
    ensures Grown(a, c, t)
  {
  }

  lemma {:induction false} GrownByOne(before: seq<Edge>, after: seq<Edge>, e: Edge, clock: int)
    requires Grown(before, after, clock) && e.at >= clock
    ensures Grown(before, after + [e], clock)
  {
  }

  predicate Stamped(stamps: set<int>, reports: seq<Run>) {
    forall i :: 0 <= i < |reports| ==> Wrap(reports[i].start) in stamps
  }

  /** The edge a pulse is that comes next. */
  function Striking(clock: int, p: Pulse): Edge { Edge(p.key, p.level, clock + p.delay) }

  lemma {:induction false} TimedHead(clock: int, pulses: seq<Pulse>)
    requires pulses != []
    ensures var e := Striking(clock, pulses[0]);
            && Timed(clock, pulses) == [e] + Timed(e.at, pulses[1..])
            && After(clock, pulses) == After(e.at, pulses[1..])
  {
  }

  lemma {:induction false} StampedMore(stamps: set<int>, stamps': set<int>, reports: seq<Run>)
    requires Stamped(stamps, reports) && stamps <= stamps'
    ensures Stamped(stamps', reports)
  {
  }

  lemma {:induction false} StampedAppend(stamps: set<int>, reports: seq<Run>, run: Run)
    requires Stamped(stamps, reports) && Wrap(run.start) in stamps
    ensures Stamped(stamps, reports + [run])
  {
  }

  lemma {:induction false} Regroup(a: seq<Edge>, e: Edge, b: seq<Edge>)
    ensures a + ([e] + b) == (a + [e]) + b
  {
  }

  lemma {:induction false} WrapsToItself(t: int)
    requires 0 <= t < PERIOD
    ensures Wrap(t) == t
  {
  }

  lemma {:induction false} WrapsInRange(t: int)
    ensures 0 <= Wrap(t) < PERIOD
  {
  }

  lemma {:induction false} HitLater(key: nat, from: nat, edges: seq<Edge>, edges': seq<Edge>)
    requires edges <= edges'
    ensures Hit(key, from, edges) ==> Hit(key, from, edges')
  {
    if Hit(key, from, edges) {
      var i :| from <= i < |edges| && edges[i].key == key;
      assert edges'[i].key == key;
    }
  }

  lemma {:induction false} HitSooner(key: nat, from: nat, later: nat, edges: seq<Edge>)
    requires from <= later && Hit(key, later, edges)
    ensures Hit(key, from, edges)
  {
    var i :| later <= i < |edges| && edges[i].key == key;
  }

  /** Only the pins of keys that struck have changed. */
  predicate PinsHold(before: seq<nat>, after: seq<nat>, from: nat, struck: seq<Edge>) {
    |after| == |before| && forall k :: 0 <= k < |before| && after[k] != before[k] ==> Hit(k, from, struck)
  }

  lemma {:induction false} PinsUntouched(levels: seq<nat>, from: nat, struck: seq<Edge>)
    ensures PinsHold(levels, levels, from, struck)
  {
  }

  lemma {:induction false} PinsFollow(before: seq<nat>, after: seq<nat>, from: nat, struck: seq<Edge>, e: Edge)
    requires PinsHold(before, after, from, struck) && e.key < |after| && from <= |struck|
    ensures PinsHold(before, after[e.key := e.level], from, struck + [e])
  {
    var struck', after' := struck + [e], after[e.key := e.level];
    forall k | 0 <= k < |before| && after'[k] != before[k] ensures Hit(k, from, struck') {
      if k == e.key {
        assert struck'[|struck|].key == k;
      } else {
        HitLater(k, from, struck, struck');
      }
    }
  }

  class MpButtonSource {
    const settle: nat
    const pressedLevel: nat
    const keyCount: nat
    const depth: nat
    const codes: array<int>
    const times: array<int>
    const believed: array<int>
    const pending: array<int>
    const changeMs: array<int>
    var writeIndex: nat
    var readIndex: nat
    var overflowed: bool
    var droppedEdges: bool
    var sweepKey: nat
    var nowMs: int
    var eventKey: nat
    var eventPressed: bool
    var eventMs: int

    // The world outside: interrupts to come and how many strike at each preemption point, unwrapped time,
    // the level on each pin, and what the handler recorded.
    var pulses: seq<Pulse>
    var bursts: seq<nat>
    var clock: int
    var levels: seq<nat>
    var captured: seq<Edge>
    /** The ring overflowed and was resynchronised from the pins. */
    var resynced: bool
    /** Half a ring of ticks passed since the last complete drain. */
    var late: bool

    /** Unwrapped time of the poll, and a lower bound for the start of any level still unconfirmed. */
    var now: int
    var floor: int

    ghost var consumed: nat
    ghost var processed: nat
    /** The time of the last poll whose sweep reported something early. */
    ghost var horizon: int
    ghost var initial: seq<Run>
    ghost var runs: seq<seq<Run>>
    ghost var swept: seq<bool>
    ghost var reports: seq<seq<Run>>
    /** Every edge that struck, kept or not. */
    ghost var struck: seq<Edge>
    /** The edges that will have struck, and the time it will be, when no pulse is left. */
    ghost var expected: seq<Edge>
    ghost var ends: int
    /** As `late`, when the last complete drain ended. */
    ghost var wasLate: bool
    /** A bound on the pulses still to come, and whether the ring has room for all of them. */
    ghost var supply: nat
    ghost var calm: bool
    /** The captured edges, and whether the ring had overflowed, when the pulses now striking began to. */
    ghost var kept: seq<Edge>
    ghost var spoilt: bool
    /** The start and the time of every poll so far. */
    ghost var nows: seq<int>
    /** The ticks at which a level of the key may be said to have started. */
    ghost var stamps: seq<set<int>>

    // ----- Invariants ------------------------------------------------------------------

    ghost predicate Shape()
      reads this`levels, this`initial, this`runs, this`swept, this`reports, this`stamps
      reads this`pulses, this`sweepKey, this`processed, this`consumed, this`captured
    {
      && codes.Length == times.Length == depth >= 1
      && believed.Length == pending.Length == changeMs.Length == keyCount
      && codes != times && believed != pending && believed != changeMs && pending != changeMs
      && codes !in {believed, pending, changeMs} && times !in {believed, pending, changeMs}
      && pressedLevel <= 1
      && |levels| == |initial| == |runs| == |swept| == |reports| == |stamps| == keyCount
      && PulsesFit(keyCount, pulses)
      && sweepKey <= keyCount
      && processed <= consumed <= |captured|
      && (forall i :: 0 <= i < |captured| ==> captured[i].key < keyCount && captured[i].level <= 1)
    }

    /** Position of the i-th unread ring entry. */
    function Slot(i: nat): (s: nat)
      requires readIndex < depth && i < depth
      reads this`readIndex
      ensures s < depth
    {
      if readIndex + i < depth then readIndex + i else readIndex + i - depth
    }

    function Code(e: Edge): nat { 2 * e.key + e.level }

    /** The ring holds exactly the captured edges not yet consumed. */
    ghost predicate Ring()
      requires codes.Length == times.Length == depth >= 1 && consumed <= |captured|
      reads this`readIndex, this`writeIndex, this`captured, this`consumed, codes, times
    {
      && readIndex < depth && |captured| - consumed < depth
      && writeIndex == Slot(|captured| - consumed)
      && forall i :: 0 <= i < |captured| - consumed ==>
           codes[Slot(i)] == Code(captured[consumed + i]) && times[Slot(i)] == Wrap(captured[consumed + i].at)
    }

    /** Where the poll stands in time. */
    ghost predicate Instant()
      reads this`nowMs, this`now, this`floor, this`clock, this`late, this`horizon
    {
      && nowMs == Wrap(now) && floor <= now <= clock && horizon <= now
      && (!late ==> clock - floor < HALF)
    }

    /** Time only moves forward. */
    ghost predicate Clocked()
      requires |runs| == keyCount && processed <= |captured|
      reads this`floor, this`clock, this`horizon, this`captured, this`processed, this`runs
    {
      && (forall i, j :: 0 <= i < j < |captured| ==> captured[i].at <= captured[j].at)
      && (forall i :: 0 <= i < |captured| ==> captured[i].at <= clock)
      && (forall i :: processed <= i < |captured| ==> captured[i].at >= floor && captured[i].at >= horizon)
      && (forall k :: 0 <= k < keyCount ==> runs[k] != [] && runs[k][|runs[k]| - 1].start <= clock)
      && (forall k, i :: 0 <= k < keyCount && processed <= i < |captured| ==>
            runs[k][|runs[k]| - 1].start <= captured[i].at)
    }

    /** The runs are those of the edges processed so far. */
    ghost predicate Recorded()
      requires |initial| == |runs| == keyCount && processed <= |captured|
      reads this`initial, this`runs, this`captured, this`processed
    {
      forall k :: 0 <= k < keyCount ==>
        runs[k] == Runs(initial[k], EdgesOf(k, pressedLevel, captured[..processed]))
    }

    ghost predicate Sized(k: nat)
      reads this`runs, this`swept, this`reports, this`stamps
    {
      k < keyCount && believed.Length == pending.Length == changeMs.Length == keyCount
      && |runs| == |swept| == |reports| == |stamps| == keyCount
    }

    /** Whatever happens, reports alternate and agree with the level believed. */
    ghost predicate Base(k: nat)
      requires Sized(k)
      reads this`runs, this`swept, this`reports, this`stamps, believed, pending, changeMs
    {
      && 0 <= pending[k] <= 1 && 0 <= changeMs[k] < PERIOD && changeMs[k] in stamps[k]
      && Alternating(reports[k]) && believed[k] == Believed(reports[k])
      && Stamped(stamps[k], reports[k])
    }

    /** The key's machine is exactly where the reference debouncer is, up to one report made early by a sweep,
        which later edges will confirm; and a level not yet confirmed is not too old. */
    ghost predicate Exact(k: nat)
      requires Sized(k)
      reads this`runs, this`swept, this`reports, this`stamps, this`horizon, this`floor, believed, pending, changeMs
    {
      KeyState(settle, horizon, floor, runs[k], swept[k], reports[k], believed[k], pending[k], changeMs[k])
    }

    ghost predicate Sound()
      reads this`resynced, this`late
    {
      !resynced && !late
    }

    /** Every edge that struck was captured unless the ring overflowed. */
    ghost predicate Accounted()
      reads this`captured, this`struck, this`overflowed, this`droppedEdges, this`resynced
    {
      && Thins(captured, struck)
      && if overflowed then |captured| < |struck| else captured == struck && !droppedEdges && !resynced
    }

    /** What has struck and what is still to strike are as expected. */
    ghost predicate Foreseen()
      reads this`struck, this`pulses, this`clock, this`expected, this`ends
    {
      expected == struck + Timed(clock, pulses) && ends == After(clock, pulses)
    }

    ghost predicate Bounded()
      reads this`captured, this`consumed, this`pulses, this`supply, this`calm, this`overflowed, this`kept, this`spoilt
    {
      && consumed <= |captured| && |pulses| <= supply
      && kept <= captured && |captured| + |pulses| <= |kept| + supply
      && (overflowed ==> spoilt || |pulses| < supply) && (spoilt ==> overflowed)
      && (calm ==> Load() < depth && !overflowed)
    }

    ghost predicate Books()
      reads this`captured, this`struck, this`overflowed, this`droppedEdges, this`resynced, this`consumed
      reads this`pulses, this`clock, this`expected, this`ends, this`supply, this`calm
      reads this`kept, this`spoilt, this`floor, this`late, this`wasLate
    {
      && Accounted() && Foreseen() && Bounded()
      && (late <==> wasLate || clock - floor >= HALF)
    }

    ghost predicate Valid()
      reads this`levels, this`initial, this`runs, this`swept, this`reports, this`stamps, this`pulses, this`sweepKey
      reads this`processed, this`consumed, this`captured, this`readIndex, this`writeIndex
      reads this`nowMs, this`now, this`floor, this`clock, this`late, this`horizon, this`resynced
      reads this`struck, this`overflowed, this`droppedEdges, this`expected, this`ends, this`supply, this`calm
      reads this`kept, this`spoilt, this`wasLate, this`nows
      reads codes, times, believed, pending, changeMs
    {
      Core() && Books()
    }

    /** A stamp never comes from nowhere. */
    ghost predicate Dating()
      reads this`stamps, this`nows, this`now, this`captured
    {
      now in nows && Dated(stamps, nows, captured)
    }

    /** The machine itself. */
    ghost predicate Core()
      reads this`levels, this`initial, this`runs, this`swept, this`reports, this`stamps, this`pulses, this`sweepKey
      reads this`processed, this`consumed, this`captured, this`readIndex, this`writeIndex
      reads this`nowMs, this`now, this`floor, this`clock, this`late, this`horizon, this`resynced, this`nows
      reads codes, times, believed, pending, changeMs
    {
      && Shape() && Ring() && Instant() && Clocked() && Recorded() && Dating()
      && (forall k :: 0 <= k < keyCount ==> Base(k))
      && (Sound() ==> forall k :: 0 <= k < keyCount ==> Exact(k))
    }

    /** A level not yet believed has not been held long enough at the time of the poll. */
    ghost predicate Waiting(k: nat)
      requires Sized(k)
      reads this`runs, this`swept, this`reports, this`stamps, this`now, believed, pending
    {
      runs[k] != [] && pending[k] != believed[k] ==>
        runs[k][|runs[k]| - 1].start + settle > now || runs[k][|runs[k]| - 1].start >= now
    }

    // ----- The interrupt handler ---------------------------------------------------------

    /** _capture_edge, at unwrapped time clock: the edge is kept exactly when the ring has a slot to spare. */
    method CaptureEdge(key: nat, level: nat) returns (kept: bool)
      requires Core() && key < keyCount && level <= 1
      modifies this`writeIndex, this`overflowed, this`droppedEdges, this`captured, codes, times
      ensures Core()
      ensures kept <==> |old(captured)| - consumed < depth - 1
      ensures captured == if kept then old(captured) + [Edge(key, level, clock)] else old(captured)
      ensures overflowed == (old(overflowed) || !kept) && droppedEdges == (old(droppedEdges) || !kept)
    {
      hide KeyState, Runs, EdgesOf, Alternating, Stamped, Dated;
      kept := Push(key, level);
      DatedGrows(stamps, nows, old(captured), nows, captured);
      assert captured[..processed] == old(captured)[..processed];
    }

    /** The ring side of the handler: refuse when the slot after the write index is the consumer's. */
    method Push(key: nat, level: nat) returns (kept: bool)
      requires Shape() && Ring() && key < keyCount && level <= 1
      modifies this`writeIndex, this`overflowed, this`droppedEdges, this`captured, codes, times
      ensures Shape() && Ring()
      ensures kept <==> |old(captured)| - consumed < depth - 1
      ensures captured == if kept then old(captured) + [Edge(key, level, clock)] else old(captured)
      ensures overflowed == (old(overflowed) || !kept) && droppedEdges == (old(droppedEdges) || !kept)
    {
      hide PulsesFit;
      var next := writeIndex + 1;
      if next >= depth {
        next := 0;
      }
      if next == readIndex {
        overflowed := true;
        droppedEdges := true;
        return false;
      }
      codes[writeIndex] := 2 * key + level;
      times[writeIndex] := Wrap(clock);
      writeIndex := next;
      captured := captured + [Edge(key, level, clock)];
      return true;
    }

    /** `delay` milliseconds pass. */
    method Pass(delay: nat)
      requires Core()
      modifies this`clock, this`late
      ensures Core() && clock == old(clock) + delay
      ensures late == (old(late) || clock - floor >= HALF)
    {
      hide Settled, Runs, EdgesOf, Alternating, Stamped;
      clock := clock + delay;
      late := late || clock - floor >= HALF;
    }

    /** Edges not yet consumed, in the ring or still to be captured: what bounds a drain. */
    ghost function Load(): nat
      requires consumed <= |captured|
      reads this`captured, this`consumed, this`pulses
    {
      |captured| - consumed + |pulses|
    }

    /** Interrupts may strike: as many as are due at this preemption point. */
    method Preempt()
      requires Valid()
      modifies this`writeIndex, this`overflowed, this`droppedEdges, this`captured, codes, times
      modifies this`clock, this`late, this`pulses, this`bursts, this`struck, this`levels
      ensures Valid() && Load() <= old(Load())
      ensures Grown(old(captured), captured, old(clock)) && old(clock) <= clock
      ensures old(late) ==> late
      ensures old(struck) <= struck && PinsHold(old(levels), levels, |old(struck)|, struck)
    {
      hide Valid, Shape, PinsHold, Grown;
      Shaped();
      NotGrown(captured, clock);
      PinsUntouched(levels, |struck|, struck);
      if bursts == [] {
        return;
      }
      var due := if bursts[0] <= |pulses| then bursts[0] else |pulses|;
      bursts := bursts[1..];
      for i := 0 to due
        invariant Valid() && |pulses| == |old(pulses)| - i && consumed <= |captured| && Load() <= old(Load())
        invariant Grown(old(captured), captured, old(clock)) && old(clock) <= clock
        invariant old(late) ==> late
        invariant old(struck) <= struck && PinsHold(old(levels), levels, |old(struck)|, struck)
      {
        StrikeNext(old(captured), old(clock), old(levels), |old(struck)|);
      }
    }

    /** The next pulse strikes, not the first of its burst. */
    method StrikeNext(ghost before: seq<Edge>, ghost since: int, ghost pins: seq<nat>, ghost from: nat)
      requires Valid() && pulses != []
      requires Grown(before, captured, since) && since <= clock && from <= |struck|
               && PinsHold(pins, levels, from, struck)
      modifies this`writeIndex, this`overflowed, this`droppedEdges, this`captured, codes, times
      modifies this`clock, this`late, this`pulses, this`struck, this`levels
      ensures Valid() && |pulses| == |old(pulses)| - 1
      ensures consumed <= |old(captured)| && consumed <= |captured| && Load() <= old(Load())
      ensures Grown(before, captured, since) && since <= clock
      ensures old(late) ==> late
      ensures old(struck) <= struck && PinsHold(pins, levels, from, struck)
    {
      hide Valid, Shape, PinsHold, Grown, Striking;
      Shaped();
      ghost var e := Coming();
      GrownByOne(before, captured, e, since);
      PinsFollow(pins, levels, from, struck, e);
      Strike(e);
    }

    /** The edge the next pulse will be. */
    ghost method Coming() returns (e: Edge)
      requires Valid() && pulses != []
      ensures e == Striking(clock, pulses[0]) && e.at >= clock && e.key < keyCount == |levels|
    {
      hide Alternating, Stamped, Ring, Recorded, Clocked, Instant, Base, Exact, Dating, Books;
      e := Striking(clock, pulses[0]);
    }

    /** All pulses left strike: the ring takes as many as it has room for. */
    method StrikeAll()
      requires Valid()
      modifies this`writeIndex, this`overflowed, this`droppedEdges, this`captured, codes, times
      modifies this`clock, this`late, this`pulses, this`bursts, this`struck, this`levels
      ensures Valid() && pulses == [] && Load() <= old(Load())
      ensures |old(captured)| - consumed < depth
      ensures captured == old(captured)
                          + First(depth - 1 - (|old(captured)| - consumed), Timed(old(clock), old(pulses)))
      ensures overflowed == (old(overflowed) || |old(captured)| - consumed + |old(pulses)| >= depth)
      ensures old(clock) <= clock && (old(late) ==> late)
      ensures Grown(old(captured), captured, old(clock))
    {
      hide Valid, Shape, Timed, Grown, First;
      Shaped();
      NotGrown(captured, clock);
      ghost var all := Timed(clock, pulses);
      ghost var room := depth - 1 - (|captured| - consumed);
      ghost var n := 0;
      FirstOfNone(room, captured, all);
      while pulses != []
        decreases |pulses|
        invariant Valid() && consumed <= |captured| && Load() <= old(Load())
        invariant n + |pulses| == |all| && all[n..] == Timed(clock, pulses)
        invariant captured == old(captured) + First(room, all[..n])
        invariant overflowed == (old(overflowed) || n > room)
        invariant old(clock) <= clock && (old(late) ==> late) && Grown(old(captured), captured, old(clock))
      {
        StrikeNth(old(captured), old(clock), all, n, room, old(overflowed));
        n := n + 1;
      }
      assert all[..n] == all;
    }

    /** The next pulse strikes, the n-th of all that are left. */
    method StrikeNth(ghost before: seq<Edge>, ghost since: int, ghost all: seq<Edge>, ghost n: nat, ghost room: nat,
                     ghost spoilt: bool)
      requires Valid() && pulses != [] && consumed <= |captured|
      requires n + |pulses| == |all| && all[n..] == Timed(clock, pulses)
      requires consumed <= |before| && room == depth - 1 - (|before| - consumed)
      requires captured == before + First(room, all[..n]) && overflowed == (spoilt || n > room)
      requires Grown(before, captured, since) && since <= clock
      modifies this`writeIndex, this`overflowed, this`droppedEdges, this`captured, codes, times
      modifies this`clock, this`late, this`pulses, this`struck, this`levels
      ensures Valid() && |pulses| == |old(pulses)| - 1 && consumed <= |captured| && Load() <= old(Load())
      ensures all[n + 1..] == Timed(clock, pulses)
      ensures captured == before + First(room, all[..n + 1]) && overflowed == (spoilt || n + 1 > room)
      ensures Grown(before, captured, since) && old(clock) <= clock && (old(late) ==> late)
    {
      hide Valid, Shape, Timed, Grown, First, Striking;
      Shaped();
      TimedHead(clock, pulses);
      ghost var e := Coming();
      GrownByOne(before, captured, e, since);
      FirstNext(room, before, all, n);
      Strike(e);
    }

    /** One pin interrupt, the next to come. */
    method Strike(ghost e: Edge)
      requires Valid() && pulses != [] && e == Striking(clock, pulses[0])
      modifies this`writeIndex, this`overflowed, this`droppedEdges, this`captured, codes, times
      modifies this`clock, this`late, this`pulses, this`struck, this`levels
      ensures Valid() && pulses == old(pulses)[1..] && clock == e.at && struck == old(struck) + [e]
      ensures |old(captured)| - consumed < depth
      ensures captured == if |old(captured)| - consumed < depth - 1 then old(captured) + [e] else old(captured)
      ensures overflowed == (old(overflowed) || |old(captured)| - consumed >= depth - 1)
      ensures old(late) ==> late
      ensures |old(levels)| == keyCount > e.key && levels == old(levels)[e.key := e.level]
    {
      hide Core, Shape, Thins, Timed, After, Striking;
      TimedHead(clock, pulses);
      ThinsMore(captured, struck, e);
      Regroup(struck, e, Timed(e.at, pulses[1..]));
      var kept := StrikeMachine(e);
      struck := struck + [e];
    }

    /** What a pin interrupt does to the machine. */
    method StrikeMachine(ghost e: Edge) returns (kept: bool)
      requires Core() && pulses != [] && e == Striking(clock, pulses[0])
      modifies this`writeIndex, this`overflowed, this`droppedEdges, this`captured, codes, times
      modifies this`clock, this`late, this`pulses, this`levels
      ensures Core() && pulses == old(pulses)[1..] && clock == e.at >= old(clock)
      ensures consumed <= |old(captured)| && |old(captured)| - consumed < depth
      ensures kept <==> |old(captured)| - consumed < depth - 1
      ensures captured == if kept then old(captured) + [e] else old(captured)
      ensures overflowed == (old(overflowed) || !kept) && droppedEdges == (old(droppedEdges) || !kept)
      ensures late == (old(late) || clock - floor >= HALF)
      ensures |old(levels)| == keyCount > e.key && levels == old(levels)[e.key := e.level]
    {
      hide Core, Shape;
      CoreShape();
      var pulse := pulses[0];
      NextPulse();
      Pass(pulse.delay);
      kept := CaptureEdge(pulse.key, pulse.level);
    }

    lemma {:induction false} CoreShape()
      requires Core()
      ensures Shape() && Ring() && consumed <= |captured| && |captured| - consumed < depth
    {
    }

    method NextPulse()
      requires Core() && pulses != []
      modifies this`pulses, this`levels
      ensures Core() && pulses == old(pulses)[1..]
      ensures |old(levels)| == keyCount > old(pulses)[0].key && old(pulses)[0].level <= 1
      ensures levels == old(levels)[old(pulses)[0].key := old(pulses)[0].level]
    {
      hide Settled, Runs, EdgesOf, Alternating, Stamped;
      levels := levels[pulses[0].key := pulses[0].level];
      pulses := pulses[1..];
    }

    // ----- The consumer ----------------------------------------------------------------------

    /** Take the head of the ring; interrupts may strike between reading the code, reading the time and moving on. */
    method TakeHead() returns (code: int, at: int)
      requires Valid() && consumed == processed < |captured|
      modifies this`writeIndex, this`overflowed, this`droppedEdges, this`captured, codes, times
      modifies this`clock, this`late, this`pulses, this`bursts, this`struck, this`levels
      modifies this`readIndex, this`consumed
      ensures Valid() && consumed == processed + 1 && Load() < old(Load())
      ensures Grown(old(captured), captured, old(clock)) && old(clock) <= clock
      ensures code == Code(captured[processed]) && at == Wrap(captured[processed].at)
      ensures old(late) ==> late
    {
      hide Valid, Shape, Grown;
      Shaped();
      NotGrown(captured, clock);
      code, at := ReadHead(captured, clock);
      Publish();
      Shaped();
      PreemptAgain(old(captured), old(clock));
    }

    /** Read the head's code and time. */
    method ReadHead(ghost before: seq<Edge>, ghost since: int) returns (code: int, at: int)
      requires Valid() && consumed == processed < |before|
      requires Grown(before, captured, since) && before <= captured && since <= clock
      modifies this`writeIndex, this`overflowed, this`droppedEdges, this`captured, codes, times
      modifies this`clock, this`late, this`pulses, this`bursts, this`struck, this`levels
      ensures Valid() && before <= captured && Load() <= old(Load())
      ensures Grown(before, captured, since) && since <= old(clock) <= clock
      ensures code == Code(captured[processed]) && at == Wrap(captured[processed].at)
      ensures old(late) ==> late
    {
      hide Valid, Shape, Grown;
      PreemptAgain(before, since);
      code := HeadCode();
      PreemptAgain(before, since);
      at := HeadTime();
      PreemptAgain(before, since);
    }

    /** Interrupts may strike, not for the first time since `since`. */
    method PreemptAgain(ghost before: seq<Edge>, ghost since: int)
      requires Valid() && Grown(before, captured, since) && since <= clock && consumed <= |captured|
      modifies this`writeIndex, this`overflowed, this`droppedEdges, this`captured, codes, times
      modifies this`clock, this`late, this`pulses, this`bursts, this`struck, this`levels
      ensures Valid() && before <= captured && consumed <= |captured| && Load() <= old(Load())
      ensures Grown(before, captured, since) && old(clock) <= clock
      ensures old(late) ==> late
    {
      hide Valid, Shape, PinsHold, Grown;
      ghost var edges, t := captured, clock;
      Preempt();
      Shaped();
      GrownTwice(before, edges, captured, since, t);
      GrownBefore(before, captured, since);
    }

    function HeadCode(): (code: int)
      requires Valid() && consumed < |captured|
      reads this, codes, times, believed, pending, changeMs
      ensures code == Code(captured[consumed])
    {
      assert readIndex == Slot(0);
      codes[readIndex]
    }

    function HeadTime(): (at: int)
      requires Valid() && consumed < |captured|
      reads this, codes, times, believed, pending, changeMs
      ensures at == Wrap(captured[consumed].at)
    {
      assert readIndex == Slot(0);
      times[readIndex]
    }

    /** Move the read index past the head: from here on its slot is the handler's. */
    method Publish()
      requires Valid() && consumed == processed < |captured|
      modifies this`readIndex, this`consumed
      ensures Valid() && consumed == old(consumed) + 1 && Load() < old(Load())
    {
      hide Core, Thins, Foreseen;
      AdvanceRead();
    }

    method AdvanceRead()
      requires Core() && consumed == processed < |captured|
      modifies this`readIndex, this`consumed
      ensures Core() && consumed == old(consumed) + 1
    {
      hide Settled, Runs, EdgesOf, Alternating, Stamped, Base, Exact, Recorded, Accounted, Foreseen, Dated;
      var next := readIndex + 1;
      if next >= depth {
        next := 0;
      }
      readIndex := next;
      consumed := consumed + 1;
      forall i | 0 <= i < |captured| - consumed
        ensures codes[Slot(i)] == Code(captured[consumed + i]) && times[Slot(i)] == Wrap(captured[consumed + i].at)
      {
        assert Slot(i) == old(Slot(i + 1));
        assert codes[old(Slot(i + 1))] == Code(captured[old(consumed) + (i + 1)]);
      }
    }

    /** The runs once the next edge is processed. */
    ghost function NextRuns(): seq<seq<Run>>
      requires Shape() && processed < |captured|
      requires forall k :: 0 <= k < keyCount ==> runs[k] != []
      reads this
    {
      var e := captured[processed];
      var sample := Sample(pressedLevel, e.level);
      var r := runs[e.key];
      runs[e.key := if sample == r[|r| - 1].level then r else r + [Run(sample, e.at)]]
    }

    /** While the machine is exact, an edge away from the pending level starts a new run. */
    lemma {:induction false} NewRun()
      requires Core() && Sound() && consumed == processed + 1
      requires Sample(pressedLevel, captured[processed].level) != pending[captured[processed].key]
      ensures var e := captured[processed];
              NextRuns()[e.key] == runs[e.key] + [Run(Sample(pressedLevel, e.level), e.at)]
    {
      assert Exact(captured[processed].key);
    }

    lemma {:induction false} NextRunsRecorded(k: nat)
      requires Shape() && Recorded() && processed < |captured| && k < keyCount
      requires forall j :: 0 <= j < keyCount ==> runs[j] != []
      ensures Runs(initial[k], EdgesOf(k, pressedLevel, captured[..processed + 1])) == NextRuns()[k]
    {
      var e := captured[processed];
      assert captured[..processed + 1] == captured[..processed] + [e];
      EdgesOfAppend(k, pressedLevel, captured[..processed], e);
      RunsAppend(initial[k], EdgesOf(k, pressedLevel, captured[..processed]),
                 KeyEdge(Sample(pressedLevel, e.level), e.at));
    }

    /** The processed edge joins its key's runs. */
    ghost method Record()
      requires Shape() && Ring() && Clocked() && Recorded() && processed < consumed
      modifies this`processed, this`runs
      ensures processed == old(processed) + 1 && runs == old(NextRuns())
      ensures Shape() && Ring() && Clocked() && Recorded()
    {
      hide Runs, EdgesOf, PulsesFit;
      forall k | 0 <= k < keyCount
        ensures NextRuns()[k] == Runs(initial[k], EdgesOf(k, pressedLevel, captured[..processed + 1]))
      {
        NextRunsRecorded(k);
      }
      runs := NextRuns();
      processed := processed + 1;
    }

    /** What an event of the source stands for: one more report of its key. */
    ghost predicate Reports(before: seq<seq<Run>>, run: Run)
      reads this`eventKey, this`eventPressed, this`eventMs, this`reports
    {
      && eventKey < |before| && reports == before[eventKey := before[eventKey] + [run]]
      && eventPressed == (run.level == 1) && eventMs == Wrap(run.start)
    }

    /** The body of the ring loop for an edge that was taken from the ring. */
    method Process(code: int, at: int) returns (got: bool, ghost run: Run)
      requires Core() && consumed == processed + 1
      requires code == Code(captured[processed]) && at == Wrap(captured[processed].at)
      modifies this`processed, this`runs, this`swept, this`reports, this`stamps
      modifies this`eventKey, this`eventPressed, this`eventMs
      modifies believed, pending, changeMs
      ensures Core() && processed == consumed
      ensures if got then Reports(old(reports), run) else reports == old(reports)
      ensures old(captured[processed]).at >= now && Sound() ==>
                forall k :: 0 <= k < keyCount && old(Waiting(k)) ==> Waiting(k)
    {
      hide Core, KeyState, Alternating, Stamped, PulsesFit, TicksDiff, Wrap;
      NextEdge();
      Distance();
      var key := code / 2;
      var sample := Sample(pressedLevel, code % 2);
      if sample == pending[key] {
        Unchanged();
        return false, Run(0, 0);
      }
      var departed := pending[key];
      var departedMs := changeMs[key];
      var confirmed := departed != believed[key] && TicksDiff(at, departedMs) >= settle;
      if Sound() {
        NewRun();
      }
      if confirmed {
        run := Confirm(key, sample, at);
        return true, run;
      }
      Depart(key, sample, at);
      return false, Run(0, 0);
    }

    method ProcessNext(code: int, at: int) returns (got: bool, ghost run: Run)
      requires Valid() && consumed == processed + 1
      requires code == Code(captured[processed]) && at == Wrap(captured[processed].at)
      modifies this`processed, this`runs, this`swept, this`reports, this`stamps
      modifies this`eventKey, this`eventPressed, this`eventMs
      modifies believed, pending, changeMs
      ensures Valid() && processed == consumed
      ensures if got then Reports(old(reports), run) else reports == old(reports)
      ensures old(captured[processed]).at >= now && Sound() ==>
                forall k :: 0 <= k < keyCount && old(Waiting(k)) ==> Waiting(k)
    {
      hide Core, Books, Waiting;
      got, run := Process(code, at);
    }

    /** The wrapped comparison of the edge with the start of the level it ends is the true one. */
    lemma {:induction false} Distance()
      requires Core() && consumed == processed + 1
      ensures var e := captured[processed];
              Sound() && pending[e.key] != believed[e.key] ==>
                TicksDiff(Wrap(e.at), changeMs[e.key]) == e.at - runs[e.key][|runs[e.key]| - 1].start
    {
      var e := captured[processed];
      if Sound() && pending[e.key] != believed[e.key] {
        assert Exact(e.key);
        DiffUnwraps(e.at, runs[e.key][|runs[e.key]| - 1].start);
      }
    }

    /** An edge to the level already pending. */
    ghost method Unchanged()
      requires Core() && consumed == processed + 1
      requires Sample(pressedLevel, captured[processed].level) == pending[captured[processed].key]
      modifies this`processed, this`runs
      ensures Core() && processed == consumed
      ensures Sound() ==> runs == old(runs)
    {
      hide Settled, Runs, EdgesOf, Alternating, Stamped, PulsesFit;
      ghost var e := captured[processed];
      if Sound() {
        assert Exact(e.key);
      }
      Record();
      hide KeyState;
      forall k | 0 <= k < keyCount ensures Base(k) && (Sound() ==> Exact(k)) {
        assert old(Base(k)) && (Sound() ==> old(Exact(k)));
      }
    }

    /** What is known about the edge about to be processed. */
    lemma {:induction false} NextEdge()
      requires Core() && consumed == processed + 1
      ensures var e := captured[processed];
              && Shape() && e.key < keyCount && e.at >= floor && e.at >= horizon && runs[e.key] != []
              && 0 <= pending[e.key] <= 1 && 0 <= changeMs[e.key] < PERIOD && changeMs[e.key] in stamps[e.key]
              && Stamped(stamps[e.key], reports[e.key]) && Alternating(reports[e.key])
              && believed[e.key] == Believed(reports[e.key])
              && (Sound() ==> KeyState(settle, horizon, floor, runs[e.key], swept[e.key], reports[e.key],
                                       believed[e.key], pending[e.key], changeMs[e.key]))
    {
      var e := captured[processed];
      assert Base(e.key);
      if Sound() {
        assert Exact(e.key);
      }
    }

    /** A level may be said to have started with the edge being processed. */
    lemma {:induction false} NewStamp(key: nat, c: int)
      requires Shape() && Dated(stamps, nows, captured) && processed < |captured| && key == captured[processed].key
      requires c in stamps[key] || c == Wrap(captured[processed].at)
      ensures Dated(stamps[key := stamps[key] + {c}], nows, captured)
    {
      forall k, t | 0 <= k < |stamps| && t in stamps[key := stamps[key] + {c}][k] ensures Origin(k, t, nows, captured) {
        if t !in stamps[k] {
          assert captured[processed].key == k && t == Wrap(captured[processed].at);
        }
      }
    }

    /** Store the new state of the key whose edge was processed. */
    method Store(key: nat, p: int, b: int, c: int, ghost reported: seq<Run>)
      requires Core() && consumed == processed + 1 && key == captured[processed].key
      requires 0 <= p <= 1 && 0 <= c < PERIOD && Alternating(reported) && b == Believed(reported)
      requires c in stamps[key] || c == Wrap(captured[processed].at)
      requires Stamped(stamps[key], reported)
      requires Sound() ==> KeyState(settle, horizon, floor, NextRuns()[key], false, reported, b, p, c)
      modifies this`processed, this`runs, this`swept, this`reports, this`stamps, believed, pending, changeMs
      ensures Core() && processed == consumed
      ensures reports == old(reports)[key := reported] && runs == old(NextRuns())
      ensures pending[..] == old(pending[..])[key := p] && believed[..] == old(believed[..])[key := b]
    {
      hide KeyState, Alternating, Stamped, Ring, Clocked, Recorded, Dated;
      NewStamp(key, c);
      StampedMore(stamps[key], stamps[key] + {c}, reported);
      Record();
      forall k | 0 <= k < keyCount && k != key ensures Base(k) && (Sound() ==> Exact(k)) {
        assert old(Base(k)) && (Sound() ==> old(Exact(k)));
      }
      Put(key, p, b, c, reported);
    }

    method Put(key: nat, p: int, b: int, c: int, ghost reported: seq<Run>)
      requires Shape() && Ring() && Instant() && Clocked() && Recorded() && now in nows && key < keyCount
      requires forall k :: 0 <= k < keyCount && k != key ==> Base(k) && (Sound() ==> Exact(k))
      requires 0 <= p <= 1 && 0 <= c < PERIOD && Alternating(reported) && b == Believed(reported)
      requires Dated(stamps[key := stamps[key] + {c}], nows, captured) && Stamped(stamps[key] + {c}, reported)
      requires Sound() ==> KeyState(settle, horizon, floor, runs[key], false, reported, b, p, c)
      modifies this`swept, this`reports, this`stamps, believed, pending, changeMs
      ensures Core() && reports == old(reports)[key := reported]
      ensures pending[..] == old(pending[..])[key := p] && believed[..] == old(believed[..])[key := b]
    {
      hide KeyState, Alternating, Stamped, Ring, Instant, Clocked, Recorded, Dated, PulsesFit;
      pending[key] := p;
      believed[key] := b;
      changeMs[key] := c;
      swept := swept[key := false];
      stamps := stamps[key := stamps[key] + {c}];
      reports := reports[key := reported];
      forall k | 0 <= k < keyCount && k != key ensures Base(k) && (Sound() ==> Exact(k)) {
        assert old(Base(k)) && (Sound() ==> old(Exact(k)));
      }
    }

    /** The pending level changes without a report. */
    method Depart(key: nat, sample: nat, at: int)
      requires Core() && consumed == processed + 1
      requires var e := captured[processed];
               key == e.key && sample == Sample(pressedLevel, e.level) && at == Wrap(e.at)
      requires sample != pending[key]
      requires Sound() && pending[key] != believed[key] ==>
                 captured[processed].at - runs[key][|runs[key]| - 1].start < settle
      modifies this`processed, this`runs, this`swept, this`reports, this`stamps, believed, pending, changeMs
      ensures Core() && processed == consumed && reports == old(reports)
      ensures runs == old(NextRuns())
      ensures pending[..] == old(pending[..])[key := sample] && believed[..] == old(believed[..])
    {
      hide Core, Alternating;
      NextEdge();
      if Sound() {
        UnconfirmedEdge(settle, horizon, floor, runs[key], swept[key], reports[key],
                        believed[key], pending[key], changeMs[key], sample, captured[processed].at);
        NewRun();
      }
      var change := changeMs[key];
      if sample != believed[key] {
        change := at;
      }
      hide KeyState;
      Store(key, sample, believed[key], change, reports[key]);
    }

    /** The pending level is confirmed by the edge that ends it. */
    method Confirm(key: nat, sample: nat, at: int) returns (ghost run: Run)
      requires Core() && consumed == processed + 1
      requires var e := captured[processed];
               key == e.key && sample == Sample(pressedLevel, e.level) && at == Wrap(e.at)
      requires sample != pending[key] && pending[key] != believed[key]
      requires Sound() ==> captured[processed].at - runs[key][|runs[key]| - 1].start >= settle
      modifies this`processed, this`runs, this`swept, this`reports, this`stamps
      modifies this`eventKey, this`eventPressed, this`eventMs
      modifies believed, pending, changeMs
      ensures Core() && processed == consumed
      ensures Reports(old(reports), run) && runs == old(NextRuns())
      ensures pending[..] == old(pending[..])[key := sample]
      ensures believed[..] == old(believed[..])[key := old(pending[key])]
    {
      hide Core, Alternating, KeyState, Stamped, Wrap;
      NextEdge();
      var departed := pending[key];
      var departedMs := changeMs[key];
      WrapsToItself(departedMs);
      WrapsInRange(captured[processed].at);
      run := Run(departed, departedMs);
      if Sound() {
        ConfirmedEdge(settle, horizon, floor, runs[key], swept[key], reports[key],
                      believed[key], pending[key], changeMs[key], sample, captured[processed].at);
        NewRun();
        run := runs[key][|runs[key]| - 1];
      }
      AlternatingAppend(reports[key], run);
      StampedAppend(stamps[key], reports[key], run);
      Store(key, sample, departed, at, reports[key] + [run]);
      eventKey := key;
      eventPressed := departed == 1;
      eventMs := departedMs;
    }

    ghost predicate Recent()
      reads this`processed, this`captured, this`now
    {
      forall i :: 0 <= processed <= i < |captured| ==> captured[i].at >= now
    }

    /** Between two calls for the same poll: the keys already swept have nothing to report. */
    ghost predicate Sweeping()
      requires Shape()
      reads this`levels, this`initial, this`runs, this`swept, this`reports, this`stamps, this`pulses, this`sweepKey
      reads this`processed, this`consumed, this`captured, this`now, this`resynced, this`late
      reads believed, pending
    {
      sweepKey > 0 ==> WaitingBelow(sweepKey)
    }

    lemma {:induction false} Shaped()
      requires Valid()
      ensures Shape() && processed <= consumed <= |captured|
      ensures readIndex == writeIndex <==> consumed == |captured|
      ensures now <= clock && sweepKey <= keyCount == |levels| && |captured| - consumed < depth
    {
    }

    /** The sweep's test of one key. */
    method SweepOne(k: nat) returns (got: bool, ghost run: Run)
      requires Core() && consumed == processed && Recent() && k < keyCount
      modifies this`sweepKey, this`swept, this`reports, this`horizon, this`eventKey, this`eventPressed, this`eventMs
      modifies believed
      ensures Core()
      ensures if got then Reports(old(reports), run) && sweepKey == k + 1
              else reports == old(reports) && sweepKey == old(sweepKey)
      ensures Sound() ==> Waiting(k)
      ensures forall j :: 0 <= j < keyCount && j != k && old(Waiting(j)) ==> Waiting(j)
    {
      hide Core, Settled, Alternating, KeyState, Stamped;
      KeyFacts(k);
      SweepDistance(k);
      if pending[k] == believed[k] || TicksDiff(nowMs, changeMs[k]) < settle {
        return false, Run(0, 0);
      }
      run := ReportSwept(k);
      return true, run;
    }

    /** A level held long enough is believed and reported. */
    method ReportSwept(k: nat) returns (ghost run: Run)
      requires Core() && Recent() && k < keyCount && pending[k] != believed[k]
      requires Sound() ==> now - runs[k][|runs[k]| - 1].start >= settle
      modifies this`sweepKey, this`swept, this`reports, this`horizon, this`eventKey, this`eventPressed, this`eventMs
      modifies believed
      ensures Core() && sweepKey == k + 1 && Reports(old(reports), run)
      ensures believed[..] == old(believed[..])[k := pending[k]]
    {
      hide Core, Settled, Alternating, KeyState, Stamped, Wrap;
      KeyFacts(k);
      WrapsToItself(changeMs[k]);
      run := Run(pending[k], changeMs[k]);
      if Sound() {
        SweptLevel(settle, horizon, floor, runs[k], swept[k], reports[k], believed[k], pending[k], changeMs[k], now);
        run := runs[k][|runs[k]| - 1];
      }
      AlternatingAppend(reports[k], run);
      StampedAppend(stamps[k], reports[k], run);
      RaiseHorizon();
      eventKey := k;
      eventPressed := pending[k] == 1;
      eventMs := changeMs[k];
      MarkSwept(k, reports[k] + [run]);
    }

    method SweepKey(k: nat) returns (got: bool, ghost run: Run)
      requires Valid() && consumed == processed && Recent() && k < keyCount
      modifies this`sweepKey, this`swept, this`reports, this`horizon, this`eventKey, this`eventPressed, this`eventMs
      modifies believed
      ensures Valid()
      ensures if got then Reports(old(reports), run) && sweepKey == k + 1
              else reports == old(reports) && sweepKey == old(sweepKey)
      ensures Sound() ==> Waiting(k)
      ensures forall j :: 0 <= j < keyCount && j != k && old(Waiting(j)) ==> Waiting(j)
    {
      hide Core, Books, Waiting;
      got, run := SweepOne(k);
    }

    lemma {:induction false} KeyFacts(k: nat)
      requires Core() && k < keyCount
      ensures Shape() && runs[k] != [] && horizon <= now && processed <= |captured|
      ensures 0 <= pending[k] <= 1 && 0 <= changeMs[k] < PERIOD && changeMs[k] in stamps[k]
      ensures Stamped(stamps[k], reports[k])
      ensures Alternating(reports[k]) && believed[k] == Believed(reports[k])
      ensures Sound() ==>
                KeyState(settle, horizon, floor, runs[k], swept[k], reports[k], believed[k], pending[k], changeMs[k])
    {
      assert Base(k);
      if Sound() {
        assert Exact(k);
      }
    }

    /** The sweep may report early what no edge before this poll can contradict. */
    ghost method RaiseHorizon()
      requires Core() && Recent()
      modifies this`horizon
      ensures Core() && horizon == now
    {
      hide Alternating, Stamped, Ring, Recorded, KeyState;
      horizon := now;
      forall j | 0 <= j < keyCount && Sound() ensures Exact(j) {
        assert old(Exact(j));
        HorizonGrows(settle, old(horizon), now, floor, runs[j], swept[j], reports[j], believed[j], pending[j],
                     changeMs[j]);
      }
    }

    /** Store the new state of the key just swept. */
    method MarkSwept(k: nat, ghost reported: seq<Run>)
      requires Core() && horizon == now && k < keyCount
      requires Alternating(reported) && pending[k] == Believed(reported) && Stamped(stamps[k], reported)
      requires Sound() ==> KeyState(settle, now, floor, runs[k], true, reported, pending[k], pending[k], changeMs[k])
      modifies this`sweepKey, this`swept, this`reports, believed
      ensures Core() && sweepKey == k + 1 && reports == old(reports)[k := reported]
      ensures believed[..] == old(believed[..])[k := pending[k]]
    {
      hide Alternating, Stamped, Ring, Recorded, Clocked, Dating, KeyState;
      assert Base(k);
      sweepKey := k + 1;
      believed[k] := pending[k];
      reports := reports[k := reported];
      swept := swept[k := true];
      forall j | 0 <= j < keyCount && j != k ensures Base(j) && (Sound() ==> Exact(j)) {
        assert old(Base(j)) && (Sound() ==> old(Exact(j)));
      }
    }

    lemma {:induction false} SweepDistance(k: nat)
      requires Core() && k < keyCount
      ensures Sound() && pending[k] != believed[k] ==>
                runs[k] != [] && TicksDiff(nowMs, changeMs[k]) == now - runs[k][|runs[k]| - 1].start
    {
      if Sound() && pending[k] != believed[k] {
        assert Exact(k);
        DiffUnwraps(now, runs[k][|runs[k]| - 1].start);
      }
    }

    /** After an overflow the pending levels are taken from the pins; the edges lost cannot be accounted for. */
    method Resync()
      requires Valid() && consumed == processed && droppedEdges
      modifies this`resynced, this`droppedEdges, this`stamps, pending, changeMs
      modifies this`writeIndex, this`overflowed, this`captured, codes, times
      modifies this`clock, this`late, this`pulses, this`bursts, this`struck, this`levels
      ensures Valid() && resynced && Load() <= old(Load())
      ensures Grown(old(captured), captured, old(clock)) && old(clock) <= clock
      ensures old(struck) <= struck && |levels| == pending.Length
      ensures forall k :: 0 <= k < |levels| ==>
                pending[k] == Sample(pressedLevel, levels[k]) || Hit(k, |old(struck)|, struck)
    {
      hide Valid, Shape, Hit;
      Shaped();
      Unsound();
      var key := 0;
      while key < keyCount
        invariant Valid() && Shape() && resynced && key <= keyCount && consumed <= |captured| && Load() <= old(Load())
        invariant Grown(old(captured), captured, old(clock)) && old(clock) <= clock
        invariant old(struck) <= struck && |levels| == pending.Length
        invariant forall k :: 0 <= k < key ==>
                    pending[k] == Sample(pressedLevel, levels[k]) || Hit(k, |old(struck)|, struck)
      {
        ResyncTurn(key, |old(struck)|);
        key := key + 1;
      }
    }

    /** One pin is read, and whatever interrupts follow. */
    method ResyncTurn(key: nat, ghost from: nat)
      requires Valid() && Shape() && consumed == processed && resynced && key < keyCount == |levels| == pending.Length
      requires from <= |struck| && consumed <= |captured|
      requires forall k :: 0 <= k < key ==> pending[k] == Sample(pressedLevel, levels[k]) || Hit(k, from, struck)
      modifies this`stamps, pending, changeMs
      modifies this`writeIndex, this`overflowed, this`captured, codes, times, this`droppedEdges
      modifies this`clock, this`late, this`pulses, this`bursts, this`struck, this`levels
      ensures Valid() && Shape() && consumed <= |captured| && Load() <= old(Load())
      ensures Grown(old(captured), captured, old(clock)) && old(clock) <= clock
      ensures old(struck) <= struck && |levels| == keyCount
      ensures forall k :: 0 <= k <= key ==> pending[k] == Sample(pressedLevel, levels[k]) || Hit(k, from, struck)
    {
      hide Valid, Shape, Hit, Grown, Sample;
      ghost var before := struck;
      ResyncKey(key);
      Shaped();
      ghost var pins := levels;
      Preempt();
      Shaped();
      forall k | 0 <= k <= key
        ensures pending[k] == Sample(pressedLevel, levels[k]) || Hit(k, from, struck)
      {
        HitLater(k, from, before, struck);
        if levels[k] != pins[k] {
          HitSooner(k, from, |before|, struck);
        }
      }
    }

    method Unsound()
      requires Valid() && droppedEdges
      modifies this`resynced, this`droppedEdges
      ensures Valid() && resynced
    {
      hide Alternating, Stamped, Ring, Recorded, Clocked, KeyState, Dated, Thins;
      droppedEdges := false;
      resynced := true;
    }

    method ResyncKey(key: nat)
      requires Valid() && resynced && key < keyCount
      modifies this`stamps, pending, changeMs
      ensures Valid() && |levels| == keyCount
      ensures pending[..] == old(pending[..])[key := Sample(pressedLevel, levels[key])]
    {
      hide Core, Books;
      ResyncOne(key);
    }

    method ResyncOne(key: nat)
      requires Core() && resynced && key < keyCount
      modifies this`stamps, pending, changeMs
      ensures Core() && |levels| == keyCount
      ensures pending[..] == old(pending[..])[key := Sample(pressedLevel, levels[key])]
    {
      hide Alternating, Stamped, Ring, Recorded, Clocked, KeyState, Dated, Thins;
      var sample := Sample(pressedLevel, levels[key]);
      assert Base(key) && 0 <= nowMs < PERIOD && nowMs == Wrap(now) by {
        NowInRange();
      }
      if sample != pending[key] {
        pending[key] := sample;
        if sample != believed[key] {
          PollStamp(key);
          changeMs[key] := nowMs;
          stamps := stamps[key := stamps[key] + {nowMs}];
        }
      }
      StampedMore(old(stamps[key]), stamps[key], reports[key]);
      forall k | 0 <= k < keyCount && k != key ensures Base(k) {
        assert old(Base(k));
      }
    }

    /** A level may be said to have started at the poll. */
    lemma {:induction false} PollStamp(key: nat)
      requires Shape() && Dated(stamps, nows, captured) && key < keyCount && now in nows && nowMs == Wrap(now)
      ensures Dated(stamps[key := stamps[key] + {nowMs}], nows, captured)
    {
      forall k, t | 0 <= k < |stamps| && t in stamps[key := stamps[key] + {nowMs}][k]
        ensures Origin(k, t, nows, captured)
      {
        if t !in stamps[k] {
          var i :| 0 <= i < |nows| && nows[i] == now;
          assert t == Wrap(nows[i]);
        }
      }
    }

    lemma {:induction false} NowInRange()
      requires Core()
      ensures 0 <= nowMs < PERIOD && nowMs == Wrap(now)
    {
    }

    /** One turn of the ring loop. */
    method RingTurn() returns (got: bool, ghost run: Run)
      requires Valid() && consumed == processed < |captured| && Sweeping()
      modifies this`writeIndex, this`overflowed, this`droppedEdges, this`captured, codes, times
      modifies this`clock, this`late, this`pulses, this`bursts, this`struck, this`levels, this`readIndex, this`consumed
      modifies this`processed, this`runs, this`swept, this`reports, this`stamps
      modifies this`eventKey, this`eventPressed, this`eventMs
      modifies believed, pending, changeMs
      ensures Valid() && consumed == processed && Sweeping() && Load() < old(Load())
      ensures if got then Reports(old(reports), run) else reports == old(reports)
    {
      hide Valid, Shape, Waiting;
      Shaped();
      var code, at := TakeHead();
      Shaped();
      got, run := ProcessNext(code, at);
      Shaped();
    }

    /** The ring loop of next_event: process captured edges until one confirms a level or none are left. */
    method DrainRing() returns (got: bool, ghost run: Run)
      requires Valid() && consumed == processed && Sweeping()
      modifies this`writeIndex, this`overflowed, this`droppedEdges, this`captured, codes, times
      modifies this`clock, this`late, this`pulses, this`bursts, this`struck, this`levels, this`readIndex, this`consumed
      modifies this`processed, this`runs, this`swept, this`reports, this`stamps
      modifies this`eventKey, this`eventPressed, this`eventMs
      modifies believed, pending, changeMs
      ensures Valid() && consumed == processed && Sweeping()
      ensures if got then Reports(old(reports), run) && Load() < old(Load())
              else reports == old(reports) && consumed == |captured| && Load() <= old(Load())
    {
      hide Valid, Shape, Sweeping;
      got, run := false, Run(0, 0);
      Shaped();
      while readIndex != writeIndex
        invariant Valid() && consumed == processed <= |captured| && Shape() && Sweeping()
        invariant reports == old(reports) && Load() <= old(Load())
        invariant readIndex == writeIndex <==> consumed == |captured|
        decreases Load()
      {
        got, run := RingTurn();
        Shaped();
        if got {
          return;
        }
      }
    }

    ghost predicate WaitingBelow(limit: nat)
      requires Shape() && limit <= keyCount
      reads this`levels, this`initial, this`runs, this`swept, this`reports, this`stamps, this`pulses, this`sweepKey
      reads this`processed, this`consumed, this`captured, this`now, this`resynced, this`late
      reads believed, pending
    {
      Recent() && (Sound() ==> forall j :: 0 <= j < limit ==> Waiting(j))
    }

    /** Time passes between two steps of the sweep. */
    method PreemptSweep(limit: nat)
      requires Valid() && consumed == processed && limit <= keyCount && WaitingBelow(limit)
      modifies this`writeIndex, this`overflowed, this`droppedEdges, this`captured, codes, times
      modifies this`clock, this`late, this`pulses, this`bursts, this`struck, this`levels
      ensures Valid() && Shape() && WaitingBelow(limit) && consumed <= |captured| && Load() <= old(Load())
    {
      hide Valid, Shape;
      Shaped();
      Preempt();
      Shaped();
      assert Sound() ==> forall j :: 0 <= j < limit ==> old(Waiting(j));
    }

    /** The sweep of next_event, from the key after the one last reported. */
    method Sweep() returns (got: bool, ghost run: Run)
      requires Valid() && consumed == processed && WaitingBelow(sweepKey)
      modifies this`writeIndex, this`overflowed, this`droppedEdges, this`captured, codes, times
      modifies this`clock, this`late, this`pulses, this`bursts, this`struck, this`levels
      modifies this`sweepKey, this`swept, this`reports, this`horizon, this`eventKey, this`eventPressed, this`eventMs
      modifies believed
      ensures Valid() && Shape() && consumed == processed <= |captured| && Load() <= old(Load())
      ensures if got then Reports(old(reports), run) && sweepKey > old(sweepKey) && WaitingBelow(sweepKey)
              else reports == old(reports) && sweepKey == 0 && WaitingBelow(keyCount)
    {
      hide *;
      got, run := false, Run(0, 0);
      Shaped();
      var key := sweepKey;
      while key < keyCount
        invariant Valid() && Shape() && consumed == processed <= |captured|
        invariant old(sweepKey) == sweepKey <= key <= keyCount && WaitingBelow(key)
        invariant reports == old(reports) && Load() <= old(Load())
      {
        got, run := SweepTurn(key);
        if got {
          return;
        }
        key := key + 1;
      }
      StartOver();
      Shaped();
    }

    /** One turn of the sweep, and whatever interrupts follow it. */
    method SweepTurn(key: nat) returns (got: bool, ghost run: Run)
      requires Valid() && consumed == processed && key < keyCount && WaitingBelow(key)
      modifies this`writeIndex, this`overflowed, this`droppedEdges, this`captured, codes, times
      modifies this`clock, this`late, this`pulses, this`bursts, this`struck, this`levels
      modifies this`sweepKey, this`swept, this`reports, this`horizon, this`eventKey, this`eventPressed, this`eventMs
      modifies believed
      ensures Valid() && Shape() && WaitingBelow(key + 1) && consumed <= |captured| && Load() <= old(Load())
      ensures if got then Reports(old(reports), run) && sweepKey == key + 1
              else reports == old(reports) && sweepKey == old(sweepKey)
    {
      hide Valid, Shape;
      Shaped();
      got, run := SweepKey(key);
      Shaped();
      assert Sound() ==> forall j :: 0 <= j < key ==> old(Waiting(j));
      if !got {
        PreemptSweep(key + 1);
      }
      Shaped();
    }

    method StartOver()
      requires Valid()
      modifies this`sweepKey
      ensures Valid() && sweepKey == 0
      ensures old(WaitingBelow(keyCount)) ==> WaitingBelow(keyCount)
    {
      hide Alternating, Ring, Recorded, Clocked, KeyState;
      sweepKey := 0;
      assert old(WaitingBelow(keyCount)) && Sound() ==> forall j :: 0 <= j < keyCount ==> old(Waiting(j));
    }

    /** next_event: the next report of any key for the present poll, if there is one. */
    method NextEvent() returns (got: bool, ghost run: Run)
      requires Valid() && consumed == processed && Sweeping()
      modifies this`writeIndex, this`overflowed, this`droppedEdges, this`captured, codes, times
      modifies this`clock, this`late, this`pulses, this`bursts, this`struck, this`levels
      modifies this`readIndex, this`consumed, this`processed, this`runs, this`swept, this`reports, this`stamps
      modifies this`eventKey, this`eventPressed, this`eventMs, this`sweepKey, this`horizon, this`resynced
      modifies believed, pending, changeMs
      ensures Valid() && consumed == processed && Sweeping()
      ensures if got then Reports(old(reports), run)
              else reports == old(reports) && sweepKey == 0 && WaitingBelow(keyCount) && Load() <= supply
      ensures consumed <= |captured|
      ensures Load() < old(Load()) || (Load() == old(Load()) && (got ==> sweepKey > old(sweepKey)))
    {
      hide Valid, Shape, WaitingBelow, Load, Reports, Recent;
      got, run := DrainRing();
      Shaped();
      if got {
        return;
      }
      RingEmpty();
      got, run := SweepAll();
    }

    /** The rest of next_event, once the ring is empty. */
    method SweepAll() returns (got: bool, ghost run: Run)
      requires Valid() && Shape() && consumed == processed <= |captured|
      requires sweepKey <= keyCount && WaitingBelow(sweepKey)
      modifies this`resynced, this`droppedEdges, this`stamps, pending, changeMs
      modifies this`writeIndex, this`overflowed, this`captured, codes, times
      modifies this`clock, this`late, this`pulses, this`bursts, this`struck, this`levels
      modifies this`sweepKey, this`swept, this`reports, this`horizon, this`eventKey, this`eventPressed, this`eventMs
      modifies believed
      ensures Valid() && Shape() && consumed == processed <= |captured| && Load() <= old(Load())
      ensures if got then Reports(old(reports), run) && sweepKey > old(sweepKey) && WaitingBelow(sweepKey)
              else reports == old(reports) && sweepKey == 0 && WaitingBelow(keyCount)
    {
      hide *;
      PreemptSweep(sweepKey);
      if droppedEdges {
        ResyncSweep();
      }
      got, run := Sweep();
    }

    lemma {:induction false} RingEmpty()
      requires Valid() && consumed == processed == |captured| && Sweeping()
      ensures sweepKey <= keyCount && WaitingBelow(sweepKey) && Load() <= supply
    {
    }

    method ResyncSweep()
      requires Valid() && Shape() && consumed == processed && WaitingBelow(sweepKey) && droppedEdges
      modifies this`resynced, this`droppedEdges, this`stamps, pending, changeMs
      modifies this`writeIndex, this`overflowed, this`captured, codes, times
      modifies this`clock, this`late, this`pulses, this`bursts, this`struck, this`levels
      ensures Valid() && Shape() && resynced && WaitingBelow(sweepKey)
      ensures consumed <= |captured| && Load() <= old(Load())
    {
      hide Valid, Shape;
      Shaped();
      Resync();
      Shaped();
    }

    // ----- A poll, and the start of everything -------------------------------------------------

    /** poll: the tick the caller captured, no later than the clock and no earlier than the last one. */
    method Poll(requested: int)
      requires Valid() && pulses == []
      modifies this`nowMs, this`now, this`nows, this`clock, this`late, this`ends
      ensures Valid() && now == Greatest(old(now), requested) && clock == Greatest(old(clock), requested)
      ensures nows == old(nows) + [now]
    {
      hide Core, Thins;
      PollMachine(requested);
      ends := clock;
    }

    method PollMachine(requested: int)
      requires Core()
      modifies this`nowMs, this`now, this`nows, this`clock, this`late
      ensures Core() && now == Greatest(old(now), requested) && clock == Greatest(old(clock), requested)
      ensures nows == old(nows) + [now]
      ensures late == (old(late) || clock - floor >= HALF)
    {
      hide Core;
      InstantOrder();
      var t := Greatest(now, requested);
      if t > clock {
        Pass(t - clock);
      }
      SetTick(t);
    }

    lemma {:induction false} InstantOrder()
      requires Core()
      ensures floor <= now <= clock && Dated(stamps, nows, captured)
      ensures !late ==> clock - floor < HALF
    {
      hide Dated;
    }

    method SetTick(t: int)
      requires Core() && now <= t <= clock
      modifies this`nowMs, this`now, this`nows
      ensures Core() && now == t && nows == old(nows) + [t]
    {
      hide Alternating, Stamped, Ring, Recorded, Clocked, KeyState, Exact, Base, Shape, Dated, Wrap;
      DatedGrows(stamps, nows, captured, nows + [t], captured);
      now := t;
      nowMs := Wrap(t);
      nows := nows + [t];
    }

    /** The pulses of the next stretch of time, to strike in bursts of the given sizes at the preemption points. */
    method Expect(next: seq<Pulse>, bursts: seq<nat>)
      requires Valid() && pulses == [] && PulsesFit(keyCount, next)
      modifies this`pulses, this`bursts, this`expected, this`ends, this`supply, this`calm, this`kept, this`spoilt
      ensures Valid() && pulses == next && supply == |next|
      ensures expected == struck + Timed(clock, next) && ends == After(clock, next)
      ensures consumed <= |captured| && calm == (!overflowed && Load() < depth) && kept == captured
              && spoilt == overflowed
    {
      hide Core, Accounted, Foreseen, Bounded, PulsesFit, Timed, After;
      LoadPulses(next, bursts);
      CoreShape();
      OpenBooks();
    }

    /** Write down what is to come. */
    ghost method OpenBooks()
      requires consumed <= |captured|
      modifies this`expected, this`ends, this`supply, this`calm, this`kept, this`spoilt
      ensures Foreseen() && Bounded() && supply == |pulses|
      ensures expected == struck + Timed(clock, pulses) && ends == After(clock, pulses)
      ensures calm == (!overflowed && Load() < depth) && kept == captured && spoilt == overflowed
    {
      hide Timed, After;
      expected, ends, supply := struck + Timed(clock, pulses), After(clock, pulses), |pulses|;
      kept, spoilt, calm := captured, overflowed, !overflowed && Load() < depth;
    }

    /** The same between two checks. */
    method ExpectAtRest(next: seq<Pulse>, bursts: seq<nat>)
      requires Resting() && pulses == [] && PulsesFit(keyCount, next)
      modifies this`pulses, this`bursts, this`expected, this`ends, this`supply, this`calm, this`kept, this`spoilt
      ensures Resting() && pulses == next
      ensures expected == struck + Timed(clock, next) && ends == After(clock, next)
    {
      hide Valid, Shape, Waiting, PulsesFit, Timed, After;
      Expect(next, bursts);
      Shaped();
      assert Sound() ==> forall j :: 0 <= j < keyCount ==> old(Waiting(j));
    }

    method LoadPulses(next: seq<Pulse>, bursts: seq<nat>)
      requires Core() && PulsesFit(keyCount, next)
      modifies this`pulses, this`bursts
      ensures Core() && pulses == next
    {
      hide Alternating, Stamped, Ring, Recorded, Clocked, Base, Exact, Dating, PulsesFit;
      pulses, this.bursts := next, bursts;
    }

    /** After a complete drain no unconfirmed level is older than the settling time. */
    method RaiseFloor()
      requires Valid() && WaitingBelow(keyCount)
      modifies this`floor, this`wasLate
      ensures Valid() && floor == Greatest(old(floor), now - settle) && wasLate == late
    {
      hide Alternating, Stamped, Ring, Recorded, KeyState, Dated, Thins;
      InstantOrder();
      floor := Greatest(floor, now - settle);
      wasLate := late;
      forall k | 0 <= k < keyCount && Sound() ensures Exact(k) {
        assert old(Exact(k)) && old(Waiting(k));
        FloorRises(settle, horizon, old(floor), floor, now, runs[k], swept[k], reports[k],
                   believed[k], pending[k], changeMs[k]);
      }
    }

    /** The source as built: every pin is read once, and a key already down counts as down since then. */
    constructor (settle: nat, activeLow: bool, depth: nat, levels: seq<nat>, start: int)
      requires depth >= 1 && forall k :: 0 <= k < |levels| ==> levels[k] <= 1
      ensures Resting() && Sound() && consumed == 0
      ensures this.settle == settle && keyCount == |levels| && captured == [] && clock == start && now == start
      ensures this.depth == depth && pressedLevel == PressedLevel(activeLow)
      ensures pulses == [] && struck == [] && nows == [start] && floor == start && !late && !wasLate && !overflowed
      ensures initial == FirstRuns(PressedLevel(activeLow), levels, start)
      ensures |reports| == keyCount && forall k :: 0 <= k < keyCount ==> reports[k] == []
      ensures fresh(codes) && fresh(times) && fresh(believed) && fresh(pending) && fresh(changeMs)
    {
      var pressed := PressedLevel(activeLow);
      this.settle := settle;
      this.depth := depth;
      pressedLevel := pressed;
      keyCount := |levels|;
      codes := new int[depth](_ => 0);
      times := new int[depth](_ => 0);
      believed := new int[|levels|](_ => 0);
      pending := new int[|levels|](k requires 0 <= k < |levels| => Sample(pressed, levels[k]));
      changeMs := new int[|levels|](_ => Wrap(start));
      writeIndex, readIndex, overflowed, droppedEdges, sweepKey := 0, 0, false, false, 0;
      nowMs, now, floor, clock := Wrap(start), start, start, start;
      eventKey, eventPressed, eventMs := 0, false, 0;
      this.levels, pulses, bursts, captured := levels, [], [], [];
      resynced, late := false, false;
      consumed, processed, horizon := 0, 0, start;
      initial := FirstRuns(pressed, levels, start);
      runs := seq(|levels|, k requires 0 <= k < |levels| => [FirstRuns(pressed, levels, start)[k]]);
      swept := seq(|levels|, k => false);
      reports := seq(|levels|, k => []);
      struck, expected, ends, wasLate, supply, calm, kept, spoilt := [], [], start, false, 0, false, [], false;
      nows, stamps := [start], seq(|levels|, k => {Wrap(start)});
      new;
      Fresh();
    }

    /** A source that has captured nothing yet. */
    lemma {:induction false} Fresh()
      requires Shape() && captured == [] && processed == consumed == 0 && readIndex == writeIndex == 0
      requires nowMs == Wrap(now) && floor == now == clock == horizon == ends && !late && !wasLate && !resynced
      requires pulses == [] && struck == expected == kept == [] && !overflowed && !droppedEdges && !calm && !spoilt
      requires nows == [now] && |stamps| == keyCount && forall k :: 0 <= k < keyCount ==> stamps[k] == {Wrap(now)}
      requires forall k :: 0 <= k < keyCount ==>
                 && runs[k] == [initial[k]] && initial[k].start == now && initial[k].level <= 1
                 && !swept[k] && reports[k] == [] && believed[k] == 0
                 && pending[k] == initial[k].level && changeMs[k] == Wrap(now)
      ensures Valid() && WaitingBelow(keyCount)
    {
      assert captured[..processed] == [];
      assert Ring() && Instant() && Clocked() && Recorded();
    }

    /** check's loop: take events until there are none. */
    method TakeEvents(ghost before: seq<Event>) returns (events: seq<Event>)
      requires Valid() && consumed == processed && sweepKey == 0
      requires Told(before)
      modifies this`writeIndex, this`overflowed, this`droppedEdges, this`captured, codes, times
      modifies this`clock, this`late, this`pulses, this`bursts, this`struck, this`levels
      modifies this`readIndex, this`consumed, this`processed, this`runs, this`swept, this`reports, this`stamps
      modifies this`eventKey, this`eventPressed, this`eventMs, this`sweepKey, this`horizon, this`resynced
      modifies believed, pending, changeMs
      ensures Resting() && Told(before + events)
      ensures consumed <= |captured| && Load() <= supply
    {
      hide Valid, Shape, WaitingBelow, Resting, ToldBy;
      Shaped();
      events := [];
      assert before + events == before;
      while true
        invariant Valid() && Shape() && consumed == processed <= |captured| && Sweeping()
        invariant Told(before + events)
        decreases Load(), keyCount - sweepKey
      {
        ghost var reported := reports;
        var got, run := NextEvent();
        Shaped();
        if !got {
          AtRest();
          return;
        }
        var event := Event(eventKey, eventPressed, eventMs);
        OneMore(before + events, event, reported, run);
        assert before + events + [event] == before + (events + [event]);
        events := events + [event];
      }
    }

    /** Between two checks. */
    ghost predicate Resting()
      reads this, codes, times, believed, pending, changeMs
    {
      Valid() && consumed == processed && sweepKey == 0 && WaitingBelow(keyCount)
    }

    /** What the books say. */
    lemma {:induction false} Reckoned()
      requires Valid()
      ensures Shape() && consumed <= |captured| && |captured| - consumed < depth
      ensures Thins(captured, struck)
      ensures if overflowed then captured != struck else captured == struck && !droppedEdges && !resynced
      ensures late <==> wasLate || clock - floor >= HALF
      ensures pulses == [] ==> struck == expected && clock == ends
      ensures calm ==> !overflowed
      ensures spoilt ==> overflowed
      ensures supply == 0 ==> captured == kept && overflowed == spoilt
      ensures Dated(stamps, nows, captured) && floor <= now <= clock
    {
      hide Core, Thins, Dated;
      CoreShape();
      InstantOrder();
    }

    /** The pulses left strike, after the check. */
    method StrikeRest()
      requires Resting()
      modifies this`writeIndex, this`overflowed, this`droppedEdges, this`captured, codes, times
      modifies this`clock, this`late, this`pulses, this`bursts, this`struck, this`levels
      ensures Resting() && pulses == [] && consumed <= |captured| && Load() <= old(Load())
      ensures |old(captured)| - consumed < depth
      ensures captured == old(captured)
                          + First(depth - 1 - (|old(captured)| - consumed), Timed(old(clock), old(pulses)))
      ensures overflowed == (old(overflowed) || |old(captured)| - consumed + |old(pulses)| >= depth)
    {
      hide Valid, Shape, Timed;
      Shaped();
      StrikeAll();
      Shaped();
      assert Sound() ==> forall j :: 0 <= j < keyCount ==> old(Waiting(j));
    }

    /** What can be said between two checks. */
    lemma {:induction false} RestFacts()
      requires Resting()
      ensures Valid() && consumed == processed && sweepKey == 0
      ensures Shape() && consumed <= |captured| && |captured| - consumed < depth
      ensures late <==> wasLate || clock - floor >= HALF
      ensures pulses == [] ==> struck == expected && clock == ends
      ensures calm ==> !overflowed
      ensures spoilt ==> overflowed
      ensures supply == 0 ==> captured == kept && overflowed == spoilt
    {
      Reckoned();
    }

    lemma {:induction false} AtRest()
      requires Valid() && Shape() && consumed == processed && sweepKey == 0 && WaitingBelow(keyCount)
      ensures Resting()
    {
    }

    /** check: poll, then take events until there are none, while `during` strikes in the given bursts. */
    method Check(requested: int, during: seq<Pulse>, bursts: seq<nat>, ghost before: seq<Event>)
      returns (events: seq<Event>)
      requires Resting() && pulses == [] && Told(before) && PulsesFit(keyCount, during)
      modifies this`nowMs, this`now, this`nows
      modifies this`expected, this`ends, this`supply, this`calm, this`kept, this`spoilt
      modifies this`writeIndex, this`overflowed, this`droppedEdges, this`captured, codes, times
      modifies this`clock, this`late, this`pulses, this`bursts, this`struck, this`levels
      modifies this`readIndex, this`consumed, this`processed, this`runs, this`swept, this`reports, this`stamps
      modifies this`eventKey, this`eventPressed, this`eventMs, this`sweepKey, this`horizon, this`resynced
      modifies believed, pending, changeMs
      ensures Resting() && Told(before + events)
      ensures now == Greatest(old(now), requested) && nows == old(nows) + [now]
      ensures expected == old(struck) + Timed(Greatest(old(clock), requested), during)
      ensures ends == After(Greatest(old(clock), requested), during)
      ensures consumed <= |captured| && Load() <= |during|
      ensures old(consumed) <= |old(captured)| && calm == (!old(overflowed) && old(Load()) + |during| < depth)
      ensures supply == |during| && kept == old(captured) && spoilt == old(overflowed)
    {
      hide *;
      PollAndExpect(requested, during, bursts);
      events := TakeEvents(before);
    }

    method PollAndExpect(requested: int, during: seq<Pulse>, bursts: seq<nat>)
      requires Resting() && pulses == [] && PulsesFit(keyCount, during)
      modifies this`nowMs, this`now, this`nows, this`clock, this`late
      modifies this`pulses, this`bursts, this`expected, this`ends, this`supply, this`calm, this`kept, this`spoilt
      ensures Valid() && now == Greatest(old(now), requested) && nows == old(nows) + [now]
      ensures expected == struck + Timed(Greatest(old(clock), requested), during)
      ensures ends == After(Greatest(old(clock), requested), during)
      ensures consumed == processed <= |captured| && sweepKey == 0
      ensures calm == (!overflowed && old(Load()) + |during| < depth)
      ensures supply == |during| && kept == captured && spoilt == overflowed
    {
      hide Valid, Resting, Shape, Timed, After, PulsesFit;
      RestFacts();
      Poll(requested);
      Expect(during, bursts);
    }

    /** The pulses before a poll strike. */
    method Approach(next: seq<Pulse>)
      requires Resting() && pulses == [] && PulsesFit(keyCount, next)
      modifies this`expected, this`ends, this`supply, this`calm, this`kept, this`spoilt
      modifies this`writeIndex, this`overflowed, this`droppedEdges, this`captured, codes, times
      modifies this`clock, this`late, this`pulses, this`bursts, this`struck, this`levels
      ensures Resting() && pulses == [] && consumed <= |old(captured)| && |old(captured)| - consumed < depth
      ensures struck == old(struck) + Timed(old(clock), next) && clock == After(old(clock), next)
      ensures consumed <= |captured| && Load() <= old(Load()) + |next|
      ensures captured == old(captured) + First(depth - 1 - (|old(captured)| - consumed), Timed(old(clock), next))
      ensures overflowed == (old(overflowed) || |old(captured)| - consumed + |next| >= depth)
    {
      hide Resting, Valid, Shape, Timed, After, First;
      RestFacts();
      ExpectAtRest(next, []);
      StrikeRest();
      RestFacts();
    }

    /** What did not strike during the check strikes after it. */
    method Aftermath()
      requires Resting()
      modifies this`writeIndex, this`overflowed, this`droppedEdges, this`captured, codes, times
      modifies this`clock, this`late, this`pulses, this`bursts, this`struck, this`levels, this`floor, this`wasLate
      ensures Resting() && pulses == [] && wasLate == late
      ensures struck == expected && clock == ends && floor == Greatest(old(floor), now - settle)
      ensures late <==> old(wasLate) || clock - old(floor) >= HALF
      ensures consumed <= |old(captured)| && consumed <= |captured| && Load() <= old(Load())
      ensures (calm ==> !overflowed) && (spoilt ==> overflowed)
      ensures supply == 0 ==> captured == kept && overflowed == spoilt
    {
      hide Resting, Valid, Shape, Timed, After, First;
      RestFacts();
      StrikeRest();
      RestFacts();
      RaiseFloorAtRest();
    }

    method RaiseFloorAtRest()
      requires Resting()
      modifies this`floor, this`wasLate
      ensures Resting() && floor == Greatest(old(floor), now - settle) && wasLate == late
    {
      hide Valid, Shape, Waiting;
      RaiseFloor();
      Shaped();
      assert Sound() ==> forall j :: 0 <= j < keyCount ==> old(Waiting(j));
    }

    /** One round: pulses, a check, and whatever strikes during it or after. */
    method RunRound(r: Round, ghost before: seq<Event>) returns (events: seq<Event>)
      requires Resting() && pulses == [] && wasLate == late && Told(before) && RoundFits(keyCount, r)
      modifies this, codes, times, believed, pending, changeMs
      ensures Resting() && pulses == [] && wasLate == late && Told(before + events)
      ensures initial == old(initial) && now == Greatest(old(now), r.requested) && nows == old(nows) + [now]
      ensures clock == RoundEnd(old(clock), r) && struck == old(struck) + RoundEdges(old(clock), r)
      ensures floor == Greatest(old(floor), now - settle) && (late <==> old(late) || clock - old(floor) >= HALF)
      ensures consumed <= |captured| && Load() <= |r.during| && old(consumed) <= |old(captured)|
      ensures old(Load()) + |r.before| + |r.during| < depth && !old(overflowed) ==> !overflowed
      ensures |r.before| >= depth || old(overflowed) ==> overflowed
      ensures r.during == [] && old(Load()) == 0 ==>
                captured == old(captured) + First(depth - 1, Timed(old(clock), r.before))
    {
      hide Resting, Valid, Shape, ToldBy, Timed, After, First, PulsesFit;
      Approach(r.before);
      events := Check(r.requested, r.during, r.bursts, before);
      Aftermath();
    }

    /** The events seen so far are, key by key, the reports made. */
    ghost predicate Told(events: seq<Event>)
      reads this`reports
    {
      ToldBy(keyCount, reports, events)
    }

    lemma {:induction false} OneMore(events: seq<Event>, event: Event, reported: seq<seq<Run>>, run: Run)
      requires ToldBy(keyCount, reported, events) && Reports(reported, run)
      requires event == Event(eventKey, eventPressed, eventMs)
      ensures Told(events + [event])
    {
      assert (events + [event])[..|events|] == events;
      forall k | 0 <= k < keyCount ensures EventsOf(k, events + [event]) == Shown(k, reports[k]) {
        if k == eventKey {
          assert Shown(k, reported[k] + [run]) == Shown(k, reported[k]) + [event];
        }
      }
    }
  }

  ghost predicate ToldBy(keyCount: nat, reports: seq<seq<Run>>, events: seq<Event>) {
    |reports| == keyCount && forall k :: 0 <= k < keyCount ==> EventsOf(k, events) == Shown(k, reports[k])
  }

  lemma {:induction false} FloorRises(settle: nat, horizon: int, floor: int, floor': int, now: int, runs: seq<Run>,
                                      swept: bool, reports: seq<Run>, believed: int, pending: int, changeMs: int)
    requires KeyState(settle, horizon, floor, runs, swept, reports, believed, pending, changeMs)
    requires pending != believed ==> runs[|runs| - 1].start + settle > now || runs[|runs| - 1].start >= now
    requires floor' == floor || floor' <= now - settle
    ensures KeyState(settle, horizon, floor', runs, swept, reports, believed, pending, changeMs)
  {
  }

  /** The run every key starts with. */
  function FirstRuns(pressedLevel: nat, levels: seq<nat>, start: int): (r: seq<Run>)
    ensures |r| == |levels|
    ensures forall k :: 0 <= k < |r| ==> r[k] == Run(Sample(pressedLevel, levels[k]), start)
  {
    seq(|levels|, k requires 0 <= k < |levels| => Run(Sample(pressedLevel, levels[k]), start))
  }

  lemma {:induction false} AlternatingAppend(reports: seq<Run>, run: Run)
    requires Alternating(reports) && run.level <= 1 && run.level != Believed(reports)
    ensures Alternating(reports + [run]) && Believed(reports + [run]) == run.level
  {
  }
}
