/** Whole runs of the interrupt-driven button source against the reference debouncer. */
module DebounceRuns {
  import opened Basics
  import opened DebounceSpec
  import opened Ticks
  import opened Debounce
  import opened CleanPresses

  // ----- Whole runs --------------------------------------------------------------------------

  /** The reports a key's captured edges lead to. */
  function Reference(settle: nat, pressedLevel: nat, initial: Run, key: nat, edges: seq<Edge>): seq<Run> {
    Final(settle, Runs(initial, EdgesOf(key, pressedLevel, edges)))
  }

  lemma {:induction false} EdgesOfSplit(key: nat, pressedLevel: nat, a: seq<Edge>, b: seq<Edge>)
    ensures EdgesOf(key, pressedLevel, a + b) == EdgesOf(key, pressedLevel, a) + EdgesOf(key, pressedLevel, b)
    decreases |b|
  {
    if b == [] {
      assert a + b == a;
    } else {
      var init := b[..|b| - 1];
      EdgesOfSplit(key, pressedLevel, a, init);
      assert a + b == (a + init) + [b[|b| - 1]];
      EdgesOfAppend(key, pressedLevel, a + init, b[|b| - 1]);
    }
  }

  lemma {:induction false} EdgesOfTimes(key: nat, pressedLevel: nat, edges: seq<Edge>, bound: int)
    requires forall i :: 0 <= i < |edges| ==> edges[i].at >= bound
    ensures forall i :: 0 <= i < |EdgesOf(key, pressedLevel, edges)| ==>
              EdgesOf(key, pressedLevel, edges)[i].at >= bound
  {
    if edges != [] {
      EdgesOfTimes(key, pressedLevel, edges[..|edges| - 1], bound);
    }
  }

  /** A key's machine that has seen part of the edges has reported a prefix of what all of them lead to. */
  lemma {:induction false} ReportedPrefix(settle: nat, horizon: int, floor: int, first: Run, seen: seq<KeyEdge>,
                                          later: seq<KeyEdge>, swept: bool, reports: seq<Run>, believed: int,
                                          pending: int, changeMs: int)
    requires KeyState(settle, horizon, floor, Runs(first, seen), swept, reports, believed, pending, changeMs)
    requires forall i :: 0 <= i < |later| ==> later[i].at >= horizon
    ensures reports <= Final(settle, Runs(first, seen + later))
  {
    var runs, all := Runs(first, seen), Runs(first, seen + later);
    RunsGrow(first, seen, later);
    var more := all[|runs|..];
    assert all == runs + more;
    if swept {
      SettledKeepsLast(settle, runs, more);
    } else {
      SettledGrows(settle, runs, more);
    }
  }

  /** A key's machine with nothing left to wait for has reported all that its runs lead to. */
  lemma {:induction false} ReportedAll(settle: nat, horizon: int, floor: int, runs: seq<Run>, swept: bool,
                                       reports: seq<Run>, believed: int, pending: int, changeMs: int)
    requires KeyState(settle, horizon, floor, runs, swept, reports, believed, pending, changeMs)
    requires pending == believed
    ensures reports == Final(settle, runs)
  {
  }

  lemma {:induction false} SoFar(source: MpButtonSource, k: nat)
    requires source.Valid() && source.Sound() && k < source.keyCount
    ensures source.reports[k] <= Reference(source.settle, source.pressedLevel, source.initial[k], k, source.captured)
  {
    hide KeyState;
    var seen, later := source.captured[..source.processed], source.captured[source.processed..];
    assert seen + later == source.captured;
    EdgesOfSplit(k, source.pressedLevel, seen, later);
    EdgesOfTimes(k, source.pressedLevel, later, source.horizon);
    assert source.Exact(k);
    ReportedPrefix(source.settle, source.horizon, source.floor, source.initial[k],
                   EdgesOf(k, source.pressedLevel, seen), EdgesOf(k, source.pressedLevel, later), source.swept[k],
                   source.reports[k], source.believed[k], source.pending[k], source.changeMs[k]);
  }

  /** All captured edges are older than the poll by the settling time at least. */
  predicate Quiet(settle: nat, start: int, edges: seq<Edge>, now: int) {
    && start + settle <= now && start < now
    && forall i :: 0 <= i < |edges| ==> edges[i].at + settle <= now && edges[i].at < now
  }

  lemma {:induction false} HeadIsRecent(source: MpButtonSource)
    requires source.Valid() && source.WaitingBelow(source.keyCount)
    ensures source.processed < |source.captured| ==> source.captured[source.processed].at >= source.now
  {
  }

  lemma {:induction false} Caught(source: MpButtonSource, k: nat, start: int)
    requires source.Valid() && source.Sound() && k < source.keyCount
    requires source.consumed == source.processed && source.WaitingBelow(source.keyCount)
    requires source.initial[k].start == start && Quiet(source.settle, start, source.captured, source.now)
    ensures source.reports[k] == Reference(source.settle, source.pressedLevel, source.initial[k], k, source.captured)
  {
    hide KeyState;
    HeadIsRecent(source);
    assert source.processed == |source.captured|;
    assert source.captured[..source.processed] == source.captured;
    assert source.Exact(k) && source.Waiting(k);
    var edges := EdgesOf(k, source.pressedLevel, source.captured);
    LastRunStart(source.initial[k], k, source.pressedLevel, source.captured);
    Unpended(source, k);
    ReportedAll(source.settle, source.horizon, source.floor, source.runs[k], source.swept[k],
                source.reports[k], source.believed[k], source.pending[k], source.changeMs[k]);
  }

  lemma {:induction false} Unpended(source: MpButtonSource, k: nat)
    requires source.Valid() && k < source.keyCount && source.Waiting(k)
    requires source.runs[k] != [] && var last := source.runs[k][|source.runs[k]| - 1];
             last.start + source.settle <= source.now && last.start < source.now
    ensures source.pending[k] == source.believed[k]
  {
  }

  lemma {:induction false} NoEdgesNoRuns(first: Run, key: nat, pressedLevel: nat)
    ensures Runs(first, EdgesOf(key, pressedLevel, [])) == [first]
  {
  }

  lemma {:induction false} LastRunStart(first: Run, key: nat, pressedLevel: nat, edges: seq<Edge>)
    ensures var r := Runs(first, EdgesOf(key, pressedLevel, edges));
            r[|r| - 1].start == first.start || exists i :: 0 <= i < |edges| && edges[i].at == r[|r| - 1].start
    decreases |edges|
  {
    NoEdgesNoRuns(first, key, pressedLevel);
    hide Runs, EdgesOf, Sample;
    if edges != [] {
      var init := edges[..|edges| - 1];
      var e := edges[|edges| - 1];
      LastRunStart(first, key, pressedLevel, init);
      EdgesOfAppend(key, pressedLevel, init, e);
      RunsAppend(first, EdgesOf(key, pressedLevel, init), KeyEdge(Sample(pressedLevel, e.level), e.at));
      assert edges == init + [e];
      var r, r' := Runs(first, EdgesOf(key, pressedLevel, init)), Runs(first, EdgesOf(key, pressedLevel, edges));
      if r'[|r'| - 1].start == e.at {
        assert edges[|edges| - 1].at == r'[|r'| - 1].start;
      } else if r[|r| - 1].start != first.start {
        var i :| 0 <= i < |init| && init[i].at == r[|r| - 1].start;
        assert edges[i].at == r'[|r'| - 1].start;
      }
    }
  }

  /** The edges older than `now`, in time order. */
  function Before(edges: seq<Edge>, now: int): seq<Edge> {
    if edges == [] || edges[|edges| - 1].at < now then edges else Before(edges[..|edges| - 1], now)
  }

  lemma {:induction false} BeforeIsPrefix(edges: seq<Edge>, now: int)
    ensures var n := |Before(edges, now)|;
            && n <= |edges| && Before(edges, now) == edges[..n]
            && (n > 0 ==> edges[n - 1].at < now)
            && forall i :: n <= i < |edges| ==> edges[i].at >= now
    decreases |edges|
  {
    if edges != [] && edges[|edges| - 1].at >= now {
      BeforeIsPrefix(edges[..|edges| - 1], now);
    }
  }

  /** The reports that are due at a poll: of runs that ended, and of the last one once it has lasted long enough. */
  function Due(settle: int, runs: seq<Run>, now: int): seq<Run>
    requires runs != []
  {
    var s := Settled(settle, runs);
    var last := runs[|runs| - 1];
    if last.level != Believed(s) && last.start + settle <= now && last.start < now then s + [last] else s
  }

  /** A key's machine that has seen the edges before the poll has made every report due, whatever else it has seen. */
  lemma {:induction false} ReportedDue(settle: nat, horizon: int, floor: int, first: Run, early: seq<KeyEdge>,
                                       later: seq<KeyEdge>, swept: bool, reports: seq<Run>, believed: int,
                                       pending: int, changeMs: int, now: int)
    requires KeyState(settle, horizon, floor, Runs(first, early + later), swept, reports, believed, pending, changeMs)
    requires forall i :: 0 <= i < |later| ==> later[i].at >= now
    requires var r := Runs(first, early + later);
             pending != believed ==> r[|r| - 1].start + settle > now || r[|r| - 1].start >= now
    ensures Due(settle, Runs(first, early), now) <= reports
  {
    hide Settled, Runs;
    var some, runs := Runs(first, early), Runs(first, early + later);
    RunsGrow(first, early, later);
    var more := runs[|some|..];
    assert runs == some + more;
    if more != [] {
      assert more[0] == runs[|some|] && more[0].start >= now;
      SettledAppend(settle, some, more[0]);
      assert runs == (some + [more[0]]) + more[1..];
      SettledGrows(settle, some + [more[0]], more[1..]);
      SettledGrows(settle, some, more);
    } else {
      assert runs == some;
    }
  }

  lemma {:induction false} AllDue(source: MpButtonSource, k: nat)
    requires source.Valid() && source.Sound() && k < source.keyCount
    requires source.consumed == source.processed && source.WaitingBelow(source.keyCount)
    ensures Due(source.settle,
                Runs(source.initial[k], EdgesOf(k, source.pressedLevel, Before(source.captured, source.now))),
                source.now)
            <= source.reports[k]
  {
    hide KeyState, Due, Before, EdgesOf, Runs;
    var seen := source.captured[..source.processed];
    var settled := Before(source.captured, source.now);
    BeforeIsPrefix(source.captured, source.now);
    var later := seen[|settled|..];
    assert settled + later == seen;
    EdgesOfSplit(k, source.pressedLevel, settled, later);
    EdgesOfTimes(k, source.pressedLevel, later, source.now);
    assert source.Exact(k) && source.Waiting(k);
    ReportedDue(source.settle, source.horizon, source.floor, source.initial[k],
                EdgesOf(k, source.pressedLevel, settled), EdgesOf(k, source.pressedLevel, later), source.swept[k],
                source.reports[k], source.believed[k], source.pending[k], source.changeMs[k], source.now);
  }

  lemma {:induction false} NothingTold(keyCount: nat, reports: seq<seq<Run>>)
    requires |reports| == keyCount && forall k :: 0 <= k < keyCount ==> reports[k] == []
    ensures ToldBy(keyCount, reports, [])
  {
  }

  /** Edges as the handler records them: in time order, from `start` on. */
  predicate InOrder(edges: seq<Edge>, start: int) {
    && (forall i :: 0 <= i < |edges| ==> edges[i].at >= start)
    && (forall i, j :: 0 <= i < j < |edges| ==> edges[i].at <= edges[j].at)
  }

  /** Binary edges in time order, between two moments. */
  predicate Sorted(es: seq<KeyEdge>, start: int, end: int) {
    && (forall i :: 0 <= i < |es| ==> start <= es[i].at <= end && es[i].level <= 1)
    && (forall i, j :: 0 <= i < j < |es| ==> es[i].at <= es[j].at)
  }

  lemma {:induction false} SortedGrows(es: seq<KeyEdge>, start: int, end: int, e: KeyEdge)
    requires Sorted(es, start, end) && start <= e.at && end <= e.at && e.level <= 1
    ensures Sorted(es, start, e.at) && Sorted(es + [e], start, e.at)
  {
  }

  lemma {:induction false} EdgesOfInOrder(key: nat, pressedLevel: nat, edges: seq<Edge>, start: int)
    requires InOrder(edges, start)
    ensures Sorted(EdgesOf(key, pressedLevel, edges), start, if edges == [] then start else edges[|edges| - 1].at)
  {
    if edges != [] {
      var n := |edges| - 1;
      var init, e := edges[..n], edges[n];
      EdgesOfInOrder(key, pressedLevel, init, start);
      assert n > 0 ==> init[n - 1] == edges[n - 1] && edges[n - 1].at <= e.at;
      var end := if n == 0 then start else edges[n - 1].at;
      assert edges == init + [e];
      EdgesOfAppend(key, pressedLevel, init, e);
      hide EdgesOf, Sorted;
      SortedGrows(EdgesOf(key, pressedLevel, init), start, end, KeyEdge(Sample(pressedLevel, e.level), e.at));
    }
  }

  lemma {:induction false} SortedRuns(first: Run, es: seq<KeyEdge>, end: int)
    requires Sorted(es, first.start, end) && first.level <= 1
    ensures Ordered(Runs(first, es)) && Binary(Runs(first, es))
  {
    RunsOrdered(first, es);
  }

  /** What the reference debouncer reports alternates, pressed first, and is spaced by the settling time. */
  lemma {:induction false} ReferenceShape(settle: nat, pressedLevel: nat, level: nat, start: int, key: nat,
                                          edges: seq<Edge>)
    requires InOrder(edges, start)
    ensures var r := Reference(settle, pressedLevel, Run(Sample(pressedLevel, level), start), key, edges);
            Alternating(r) && Apart(settle, r)
  {
    hide Runs, Settled, EdgesOf, Sorted, Ordered, Binary;
    var first := Run(Sample(pressedLevel, level), start);
    EdgesOfInOrder(key, pressedLevel, edges, start);
    SortedRuns(first, EdgesOf(key, pressedLevel, edges), if edges == [] then start else edges[|edges| - 1].at);
    FinalShape(settle, Runs(first, EdgesOf(key, pressedLevel, edges)));
  }

  // ----- Rounds: what the world does, as the caller can say it beforehand ------------------------

  function EndOf(start: int, rounds: seq<Round>): int {
    if rounds == [] then start else RoundEnd(EndOf(start, rounds[..|rounds| - 1]), rounds[|rounds| - 1])
  }

  /** Every edge that strikes, at its true time. */
  function Struck(start: int, rounds: seq<Round>): seq<Edge> {
    if rounds == [] then []
    else
      var init := rounds[..|rounds| - 1];
      Struck(start, init) + RoundEdges(EndOf(start, init), rounds[|rounds| - 1])
  }

  function Delays(pulses: seq<Pulse>): int {
    if pulses == [] then 0 else Delays(pulses[..|pulses| - 1]) + pulses[|pulses| - 1].delay
  }

  lemma {:induction false} DelaysFromFront(pulses: seq<Pulse>)
    requires pulses != []
    ensures Delays(pulses) == pulses[0].delay + Delays(pulses[1..])
  {
    if |pulses| > 1 {
      var n := |pulses| - 1;
      DelaysFromFront(pulses[..n]);
      assert pulses[..n][1..] == pulses[1..][..n - 1];
    }
  }

  /** Every pulse strikes after all the delays up to its own. */
  lemma {:induction false} TimedAt(clock: int, pulses: seq<Pulse>, i: nat)
    requires i < |pulses|
    ensures Timed(clock, pulses)[i] == Edge(pulses[i].key, pulses[i].level, clock + Delays(pulses[..i + 1]))
    ensures After(clock, pulses) == clock + Delays(pulses)
    decreases |pulses|
  {
    var next := clock + pulses[0].delay;
    DelaysFromFront(pulses);
    DelaysFromFront(pulses[..i + 1]);
    assert pulses[..i + 1][1..] == pulses[1..][..i];
    if |pulses| > 1 {
      TimedAt(next, pulses[1..], if i == 0 then 0 else i - 1);
    } else {
      assert Delays(pulses[1..]) == 0 && After(next, []) == next;
    }
  }

  /** The edges of a round: those before its poll count from the end of the round before, the others from the poll or,
      if that comes later, from the last of those. */
  lemma {:induction false} RoundTimes(clock: int, r: Round, i: nat)
    requires i < |r.before| + |r.during|
    ensures |RoundEdges(clock, r)| == |r.before| + |r.during|
    ensures var reached := clock + Delays(r.before);
            var poll := if reached >= r.requested then reached else r.requested;
            var n := |r.before|;
            RoundEdges(clock, r)[i]
            == if i < n then Edge(r.before[i].key, r.before[i].level, clock + Delays(r.before[..i + 1]))
               else Edge(r.during[i - n].key, r.during[i - n].level, poll + Delays(r.during[..i - n + 1]))
  {
    hide Timed, After, Delays;
    if i < |r.before| {
      TimedAt(clock, r.before, i);
    } else {
      if r.before == [] {
        assert After(clock, r.before) == clock + Delays(r.before) by { NoDelay(clock); }
      } else {
        TimedAt(clock, r.before, 0);
      }
      TimedAt(Greatest(After(clock, r.before), r.requested), r.during, i - |r.before|);
    }
  }

  lemma {:induction false} NoDelay(clock: int)
    ensures After(clock, []) == clock && Delays([]) == 0
  {
  }

  /** The greatest of the start and the polls. */
  function NowAfter(start: int, rounds: seq<Round>): int {
    if rounds == [] then start else Greatest(NowAfter(start, rounds[..|rounds| - 1]), rounds[|rounds| - 1].requested)
  }

  /** The start and the time of every poll. */
  function Nows(start: int, rounds: seq<Round>): seq<int> {
    if rounds == [] then [start] else Nows(start, rounds[..|rounds| - 1]) + [NowAfter(start, rounds)]
  }

  /** How far the i-th round reaches beyond the oldest level that can still be unconfirmed. */
  function Reach(settle: nat, start: int, rounds: seq<Round>, i: nat): int
    requires i < |rounds|
  {
    EndOf(start, rounds[..i + 1]) - Greatest(start, NowAfter(start, rounds[..i]) - settle)
  }

  /** Every round ends within half a ring of ticks. */
  predicate Punctual(settle: nat, start: int, rounds: seq<Round>) {
    forall i :: 0 <= i < |rounds| ==> Reach(settle, start, rounds, i) < HALF
  }

  /** The pulses that may strike between one complete drain and the end of the next. */
  function Between(rounds: seq<Round>, i: nat): nat
    requires i < |rounds|
  {
    (if i == 0 then 0 else |rounds[i - 1].during|) + |rounds[i].before| + |rounds[i].during|
  }

  /** The ring has a slot for every pulse between two complete drains. */
  predicate Roomy(depth: nat, rounds: seq<Round>) {
    forall i :: 0 <= i < |rounds| ==> Between(rounds, i) < depth
  }

  /** Some round brings more pulses before its check than the ring can hold. */
  predicate Crowded(depth: nat, rounds: seq<Round>) {
    exists i :: 0 <= i < |rounds| && |rounds[i].before| >= depth
  }

  /** Nothing strikes while the source is being checked. */
  predicate AtRest(rounds: seq<Round>) {
    forall i :: 0 <= i < |rounds| ==> rounds[i].during == []
  }

  /** The edges a ring keeps that is always empty again before the next round. */
  function Kept(depth: nat, start: int, rounds: seq<Round>): seq<Edge>
    requires depth >= 1
  {
    if rounds == [] then []
    else
      var init := rounds[..|rounds| - 1];
      Kept(depth, start, init) + First(depth - 1, Timed(EndOf(start, init), rounds[|rounds| - 1].before))
  }

  lemma {:induction false} RestingIsRoomyUnlessCrowded(depth: nat, rounds: seq<Round>)
    requires AtRest(rounds)
    ensures Roomy(depth, rounds) <==> !Crowded(depth, rounds)
  {
    forall i | 0 <= i < |rounds| ensures Between(rounds, i) == |rounds[i].before| {
    }
  }

  lemma {:induction false} TimedInOrder(clock: int, pulses: seq<Pulse>)
    ensures After(clock, pulses) >= clock && InOrder(Timed(clock, pulses), clock)
    ensures Until(Timed(clock, pulses), After(clock, pulses))
    decreases |pulses|
  {
    if pulses != [] {
      var at := clock + pulses[0].delay;
      TimedInOrder(at, pulses[1..]);
    }
  }

  predicate Until(edges: seq<Edge>, end: int) {
    forall i :: 0 <= i < |edges| ==> edges[i].at <= end
  }

  lemma {:induction false} InOrderJoins(a: seq<Edge>, b: seq<Edge>, start: int, middle: int, end: int)
    requires InOrder(a, start) && Until(a, middle) && InOrder(b, middle) && Until(b, end) && start <= middle <= end
    ensures InOrder(a + b, start) && Until(a + b, end)
  {
  }

  lemma {:induction false} StruckInOrder(start: int, rounds: seq<Round>)
    ensures EndOf(start, rounds) >= start && InOrder(Struck(start, rounds), start)
    ensures Until(Struck(start, rounds), EndOf(start, rounds))
    decreases |rounds|
  {
    hide InOrder, Until, Timed, After;
    if rounds == [] {
      NoneInOrder(start);
    } else {
      var init, r := rounds[..|rounds| - 1], rounds[|rounds| - 1];
      StruckInOrder(start, init);
      var clock := EndOf(start, init);
      TimedInOrder(clock, r.before);
      var t := Greatest(After(clock, r.before), r.requested);
      TimedInOrder(t, r.during);
      UntilLater(Timed(clock, r.before), After(clock, r.before), t);
      InOrderJoins(Timed(clock, r.before), Timed(t, r.during), clock, t, After(t, r.during));
      InOrderJoins(Struck(start, init), RoundEdges(clock, r), start, clock, EndOf(start, rounds));
    }
  }

  lemma {:induction false} NoneInOrder(start: int)
    ensures InOrder([], start) && Until([], start)
  {
  }

  lemma {:induction false} UntilLater(edges: seq<Edge>, end: int, later: int)
    requires Until(edges, end) && end <= later
    ensures Until(edges, later)
  {
  }

  /** Where a source stands after some rounds. */
  ghost predicate Stands(source: MpButtonSource, start: int, rounds: seq<Round>)
    reads source
  {
    && source.clock == EndOf(start, rounds) && source.struck == Struck(start, rounds)
    && source.now == NowAfter(start, rounds) && source.nows == Nows(start, rounds)
    && source.floor == Greatest(start, source.now - source.settle)
    && (source.late <==> !Punctual(source.settle, start, rounds))
  }

  /** How full its ring has been. */
  ghost predicate Fills(source: MpButtonSource, start: int, rounds: seq<Round>)
    requires source.depth >= 1
    reads source
  {
    && source.consumed <= |source.captured|
    && source.Load() <= (if rounds == [] then 0 else |rounds[|rounds| - 1].during|)
    && (Roomy(source.depth, rounds) ==> !source.overflowed)
    && (Crowded(source.depth, rounds) ==> source.overflowed)
    && (AtRest(rounds) ==> source.captured == Kept(source.depth, start, rounds))
  }

  lemma {:induction false} PunctualNext(settle: nat, start: int, rounds: seq<Round>, r: Round)
    ensures Punctual(settle, start, rounds + [r]) <==>
              && Punctual(settle, start, rounds)
              && RoundEnd(EndOf(start, rounds), r) - Greatest(start, NowAfter(start, rounds) - settle) < HALF
  {
    var all := rounds + [r];
    forall i | 0 <= i < |rounds| ensures Reach(settle, start, all, i) == Reach(settle, start, rounds, i) {
      assert all[..i + 1] == rounds[..i + 1] && all[..i] == rounds[..i];
    }
    assert all[..|rounds| + 1] == all && all[..|rounds|] == rounds;
    assert Reach(settle, start, all, |rounds|)
        == RoundEnd(EndOf(start, rounds), r) - Greatest(start, NowAfter(start, rounds) - settle);
    hide Reach;
    if Punctual(settle, start, all) {
      forall i | 0 <= i < |rounds| ensures Reach(settle, start, rounds, i) < HALF {
        assert Reach(settle, start, all, i) < HALF;
      }
    }
  }

  lemma {:induction false} RoomyNext(depth: nat, rounds: seq<Round>, r: Round)
    ensures var left := if rounds == [] then 0 else |rounds[|rounds| - 1].during|;
            Roomy(depth, rounds + [r]) <==> Roomy(depth, rounds) && left + |r.before| + |r.during| < depth
  {
    var all := rounds + [r];
    forall i | 0 <= i < |rounds| ensures Between(all, i) == Between(rounds, i) {
    }
    assert Between(all, |rounds|)
        == (if rounds == [] then 0 else |rounds[|rounds| - 1].during|) + |r.before| + |r.during|;
    hide Between;
    if Roomy(depth, all) {
      forall i | 0 <= i < |rounds| ensures Between(rounds, i) < depth {
        assert Between(all, i) < depth;
      }
    }
  }

  lemma {:induction false} CrowdedNext(depth: nat, rounds: seq<Round>, r: Round)
    ensures Crowded(depth, rounds + [r]) <==> Crowded(depth, rounds) || |r.before| >= depth
  {
    var all := rounds + [r];
    assert all[|rounds|] == r;
    if Crowded(depth, rounds) {
      var i :| 0 <= i < |rounds| && |rounds[i].before| >= depth;
      assert |all[i].before| >= depth;
    }
  }

  lemma {:induction false} AtRestNext(rounds: seq<Round>, r: Round)
    ensures AtRest(rounds + [r]) <==> AtRest(rounds) && r.during == []
    ensures AtRest(rounds) && rounds != [] ==> rounds[|rounds| - 1].during == []
  {
    var all := rounds + [r];
    if AtRest(all) {
      assert all[|rounds|].during == [];
      forall i | 0 <= i < |rounds| ensures rounds[i].during == [] {
        assert all[i].during == [];
      }
    }
  }

  lemma {:induction false} NextRound(depth: nat, start: int, rounds: seq<Round>, r: Round)
    requires depth >= 1
    ensures var all := rounds + [r];
            && EndOf(start, all) == RoundEnd(EndOf(start, rounds), r)
            && Struck(start, all) == Struck(start, rounds) + RoundEdges(EndOf(start, rounds), r)
            && NowAfter(start, all) == Greatest(NowAfter(start, rounds), r.requested)
            && Nows(start, all) == Nows(start, rounds) + [NowAfter(start, all)]
            && Kept(depth, start, all)
               == Kept(depth, start, rounds) + First(depth - 1, Timed(EndOf(start, rounds), r.before))
  {
    assert (rounds + [r])[..|rounds|] == rounds;
  }

  // ----- Clean presses -----------------------------------------------------------------------------

  /** An edge is old enough at a poll to be reported. */
  predicate Ripe(settle: nat, edges: seq<Edge>, i: nat, now: int) {
    i < |edges| && edges[i].at + settle <= now && edges[i].at < now
  }

  /** A press or a release per edge, in order, as far as reported, and those old enough are. */
  predicate Reported(k: nat, released: nat, settle: nat, edges: seq<Edge>, at: seq<nat>, now: int, seen: seq<Event>)
    requires Clean(k, released, settle, edges, at)
  {
    && seen <= Presses(k, edges, at)
    && forall j :: 0 <= j < |at| && Ripe(settle, edges, at[j], now) ==> j < |seen|
  }

  lemma {:induction false} Untouched(k: nat, released: nat, settle: nat, edges: seq<Edge>)
    requires forall i :: 0 <= i < |edges| ==> edges[i].key != k
    ensures Clean(k, released, settle, edges, [])
  {
  }

  lemma {:induction false} NoPresses(k: nat, released: nat, settle: nat, edges: seq<Edge>, now: int, seen: seq<Event>)
    requires Clean(k, released, settle, edges, []) && Reported(k, released, settle, edges, [], now, seen)
    ensures seen == []
  {
  }

  /** What the run comes to for a key that starts at its released level, said in pin levels: nothing is reported if it
      is never struck; if it is pressed and released cleanly, its presses and releases. */
  ghost predicate Faithful(settle: nat, released: nat, start: int, rounds: seq<Round>, k: nat, seen: seq<Event>) {
    var edges := Struck(start, rounds);
    && ((forall i :: 0 <= i < |edges| ==> edges[i].key != k) ==> seen == [])
    && forall at :: Clean(k, released, settle, edges, at) ==>
                      Reported(k, released, settle, edges, at, NowAfter(start, rounds), seen)
  }

  lemma {:induction false} CleanDue(settle: nat, activeLow: bool, start: int, edges: seq<Edge>, k: nat, at: seq<nat>,
                                    now: int)
    requires Clean(k, if activeLow then 1 else 0, settle, edges, at)
    ensures var es := EdgesOf(k, PressedLevel(activeLow), Before(edges, now));
            forall j :: 0 <= j < |at| && Ripe(settle, edges, at[j], now) ==>
                          j < |Due(settle, Runs(Run(0, start), es), now)|
  {
    hide Clean, EdgesOf, PressedLevel, Before, Runs, Settled;
    BeforeIsPrefix(edges, now);
    var n := |Before(edges, now)|;
    var m := CleanPrefix(k, if activeLow then 1 else 0, settle, edges, at, n);
    CleanRuns(k, activeLow, settle, start, edges[..n], at[..m]);
    forall j | 0 <= j < |at| && Ripe(settle, edges, at[j], now) ensures j < m {
      assert edges[at[j]].at < now;
    }
  }

  /** One round more of a source being watched. */
  method WatchRound(source: MpButtonSource, start: int, ghost rounds: seq<Round>, r: Round, ghost before: seq<Event>)
    returns (events: seq<Event>)
    requires source.Resting() && source.pulses == [] && source.wasLate == source.late && source.Told(before)
    requires source.depth >= 1 && Stands(source, start, rounds) && Fills(source, start, rounds)
    requires RoundFits(source.keyCount, r)
    modifies source, source.codes, source.times, source.believed, source.pending, source.changeMs
    ensures source.Resting() && source.pulses == [] && source.wasLate == source.late && source.Told(before + events)
    ensures Stands(source, start, rounds + [r]) && Fills(source, start, rounds + [r])
    ensures source.initial == old(source.initial)
  {
    hide MpButtonSource.Resting, Punctual, Roomy, Crowded, AtRest, EndOf, Struck, NowAfter, Nows, Kept;
    hide ToldBy, RoundEnd, RoundEdges, First, Timed;
    PunctualNext(source.settle, start, rounds, r);
    RoomyNext(source.depth, rounds, r);
    CrowdedNext(source.depth, rounds, r);
    AtRestNext(rounds, r);
    NextRound(source.depth, start, rounds, r);
    events := source.RunRound(r, before);
  }

  /**
   A source watched over any number of rounds, with interrupts arriving before each poll, at any step of the check and
   after it.  Unless the ring overflowed or a round took too long, the events of each key are a prefix of what the
   reference debouncer makes of the edges that struck it; they include every report due at the last poll, and are all of
   it once those edges are older than that poll by the settling time.  Nothing else depends on when the source was
   polled or preempted.  The ring does not overflow when it has a slot for every pulse between two complete drains; it
   does when a round brings more than that before its check; and if nothing strikes during a check these are the only
   two cases.  Whatever happened, the events of a key alternate, pressed first, and are stamped with the time of an edge
   captured for the key, of a poll or of the start.
   */
  method Watch(settle: nat, activeLow: bool, depth: nat, levels: seq<nat>, start: int, rounds: seq<Round>)
    returns (events: seq<Event>, captured: seq<Edge>, overflowed: bool)
    requires depth >= 1 && forall k :: 0 <= k < |levels| ==> levels[k] <= 1
    requires forall i :: 0 <= i < |rounds| ==> RoundFits(|levels|, rounds[i])
    ensures overflowed <==> captured != Struck(start, rounds)
    ensures Thins(captured, Struck(start, rounds)) && InOrder(Struck(start, rounds), start)
    ensures Roomy(depth, rounds) ==> !overflowed
    ensures Crowded(depth, rounds) ==> overflowed
    ensures AtRest(rounds) ==>
              (overflowed <==> !Roomy(depth, rounds)) && captured == Kept(depth, start, rounds)
    ensures forall k :: 0 <= k < |levels| ==>
              Verdict(settle, PressedLevel(activeLow), levels[k], start, rounds, k, EventsOf(k, events), captured,
                      overflowed)
    ensures var released := if activeLow then 1 else 0;
            !overflowed && Punctual(settle, start, rounds) ==>
              forall k :: 0 <= k < |levels| && levels[k] == released ==>
                Faithful(settle, released, start, rounds, k, EventsOf(k, events))
  {
    hide MpButtonSource.Resting, ToldBy, Verdict, Stands, Fills, Faithful;
    var source := new MpButtonSource(settle, activeLow, depth, levels, start);
    events := [];
    NothingTold(source.keyCount, source.reports);
    Started(source, start);
    assert rounds[..0] == [];
    for p := 0 to |rounds|
      invariant fresh(source) && fresh(source.codes) && fresh(source.times) && fresh(source.believed)
      invariant fresh(source.pending) && fresh(source.changeMs)
      invariant source.Resting() && source.pulses == [] && source.wasLate == source.late && source.Told(events)
      invariant Stands(source, start, rounds[..p]) && Fills(source, start, rounds[..p])
      invariant source.initial == FirstRuns(source.pressedLevel, levels, start)
    {
      assert RoundFits(source.keyCount, rounds[p]);
      var more := WatchRound(source, start, rounds[..p], rounds[p], events);
      events := events + more;
      assert rounds[..p] + [rounds[p]] == rounds[..p + 1];
    }
    assert rounds[..|rounds|] == rounds;
    captured, overflowed := source.captured, source.overflowed;
    RingVerdict(source, start, rounds);
    forall k | 0 <= k < |levels|
      ensures Verdict(settle, PressedLevel(activeLow), levels[k], start, rounds, k, EventsOf(k, events), captured,
                      overflowed)
    {
      KeyVerdict(source, levels, start, rounds, k, events);
    }
    if !overflowed && Punctual(settle, start, rounds) {
      forall k | 0 <= k < |levels| && levels[k] == (if activeLow then 1 else 0)
        ensures Faithful(settle, if activeLow then 1 else 0, start, rounds, k, EventsOf(k, events))
      {
        InLevels(settle, activeLow, start, rounds, k, EventsOf(k, events), captured);
      }
    }
  }

  lemma {:induction false} Started(source: MpButtonSource, start: int)
    requires source.depth >= 1 && source.captured == source.struck == [] && source.consumed == 0 && source.pulses == []
    requires source.clock == source.now == source.floor == start && source.nows == [start]
    requires !source.late && !source.overflowed
    ensures Stands(source, start, []) && Fills(source, start, [])
  {
  }

  /** For a key that starts released the verdict comes to this, in pin levels. */
  lemma {:induction false} InLevels(settle: nat, activeLow: bool, start: int, rounds: seq<Round>, k: nat,
                                    seen: seq<Event>, captured: seq<Edge>)
    requires var released := if activeLow then 1 else 0;
             Verdict(settle, PressedLevel(activeLow), released, start, rounds, k, seen, captured, false)
    requires Punctual(settle, start, rounds)
    ensures Faithful(settle, if activeLow then 1 else 0, start, rounds, k, seen)
  {
    hide Verdict, Struck, NowAfter, Punctual, Reported, Clean, PressedLevel;
    var released := if activeLow then 1 else 0;
    var edges, now := Struck(start, rounds), NowAfter(start, rounds);
    if forall i :: 0 <= i < |edges| ==> edges[i].key != k {
      Untouched(k, released, settle, edges);
      CleanVerdict(settle, activeLow, start, rounds, k, seen, captured, []);
      NoPresses(k, released, settle, edges, now, seen);
    }
    forall at | Clean(k, released, settle, edges, at)
      ensures Reported(k, released, settle, edges, at, now, seen)
    {
      CleanVerdict(settle, activeLow, start, rounds, k, seen, captured, at);
    }
  }

  lemma {:induction false} CleanVerdict(settle: nat, activeLow: bool, start: int, rounds: seq<Round>, k: nat,
                                        seen: seq<Event>, captured: seq<Edge>, at: seq<nat>)
    requires var released := if activeLow then 1 else 0;
             Verdict(settle, PressedLevel(activeLow), released, start, rounds, k, seen, captured, false)
    requires Punctual(settle, start, rounds)
    requires Clean(k, if activeLow then 1 else 0, settle, Struck(start, rounds), at)
    ensures Reported(k, if activeLow then 1 else 0, settle, Struck(start, rounds), at, NowAfter(start, rounds), seen)
  {
    var edges, now := Struck(start, rounds), NowAfter(start, rounds);
    SampleIsPressedIff(activeLow, if activeLow then 1 else 0);
    CleanReports(k, activeLow, settle, start, edges, at);
    CleanDue(settle, activeLow, start, edges, k, at, now);
    hide Clean, EdgesOf, Before, Runs, Settled, Final, Due, Struck, NowAfter, Punctual, Quiet, Origin, Nows, Ripe;
    hide Alternating, Apart, Presses;
  }

  /** What a run comes to for one key. */
  ghost predicate Verdict(settle: nat, pressedLevel: nat, level: nat, start: int, rounds: seq<Round>, k: nat,
                          seen: seq<Event>, captured: seq<Edge>, overflowed: bool)
  {
    var edges := Struck(start, rounds);
    var now := NowAfter(start, rounds);
    var first := Run(Sample(pressedLevel, level), start);
    var reference := Reference(settle, pressedLevel, first, k, edges);
    var all := Shown(k, reference);
    var due := Due(settle, Runs(first, EdgesOf(k, pressedLevel, Before(edges, now))), now);
    && Alternating(reference) && Apart(settle, reference)
    && (!overflowed && Punctual(settle, start, rounds) ==>
          Shown(k, due) <= seen <= all && (Quiet(settle, start, edges, now) ==> seen == all))
    && (forall i :: 0 <= i < |seen| ==> (seen[i].pressed <==> i % 2 == 0))
    && (forall i :: 0 <= i < |seen| ==> Origin(k, seen[i].ms, Nows(start, rounds), captured))
  }

  lemma {:induction false} RingVerdict(source: MpButtonSource, start: int, rounds: seq<Round>)
    requires source.Resting() && source.depth >= 1 && Stands(source, start, rounds) && Fills(source, start, rounds)
    ensures source.overflowed <==> source.captured != Struck(start, rounds)
    ensures Thins(source.captured, Struck(start, rounds)) && InOrder(Struck(start, rounds), start)
    ensures Roomy(source.depth, rounds) ==> !source.overflowed
    ensures Crowded(source.depth, rounds) ==> source.overflowed
    ensures AtRest(rounds) ==>
              && (source.overflowed <==> !Roomy(source.depth, rounds))
              && source.captured == Kept(source.depth, start, rounds)
  {
    hide MpButtonSource.Core, Roomy, Crowded, AtRest, Kept, Struck, Thins, InOrder;
    StruckInOrder(start, rounds);
    if AtRest(rounds) {
      RestingIsRoomyUnlessCrowded(source.depth, rounds);
    }
    source.Reckoned();
  }

  lemma {:induction false} KeyVerdict(source: MpButtonSource, levels: seq<nat>, start: int, rounds: seq<Round>, k: nat,
                                      events: seq<Event>)
    requires source.Resting() && source.depth >= 1 && Stands(source, start, rounds)
    requires k < |levels| == source.keyCount && source.Told(events)
    requires source.initial == FirstRuns(source.pressedLevel, levels, start)
    ensures Verdict(source.settle, source.pressedLevel, levels[k], start, rounds, k, EventsOf(k, events),
                    source.captured, source.overflowed)
  {
    hide KeyState, Reference, Struck, Nows, NowAfter, Punctual, Quiet, Thins, Origin, EventsOf, InOrder, Due, Before,
      Runs, EdgesOf;
    source.KeyFacts(k);
    source.Reckoned();
    StruckInOrder(start, rounds);
    ReferenceShape(source.settle, source.pressedLevel, levels[k], start, k, Struck(start, rounds));
    if source.Sound() {
      SoFar(source, k);
      AllDue(source, k);
      if Quiet(source.settle, start, source.captured, source.now) {
        Caught(source, k, start);
      }
    }
    AllOfThem(source, k);
  }

  lemma {:induction false} AllOfThem(source: MpButtonSource, k: nat)
    requires source.Valid() && k < source.keyCount
    ensures var seen := Shown(k, source.reports[k]);
            forall i :: 0 <= i < |seen| ==> Origin(k, seen[i].ms, source.nows, source.captured)
  {
    hide KeyState, Origin;
    source.KeyFacts(k);
    source.Reckoned();
  }

  const TWO_PRESSES: seq<Round> :=
    [Round([Pulse(0, 0, 5), Pulse(1, 0, 2)], 100, [], []), Round([], 200, [], [])]

  /** A ring of two slots holds one edge: of two keys pressed before a poll the second is missed, and whatever the
      source makes of that key, it is not the press that happened. */
  method OverflowMovesTheStamp() returns (events: seq<Event>)
    ensures Punctual(20, 0, TWO_PRESSES) && Quiet(20, 0, Struck(0, TWO_PRESSES), NowAfter(0, TWO_PRESSES))
    ensures Shown(1, Reference(20, 0, Run(0, 0), 1, Struck(0, TWO_PRESSES))) == [Event(1, true, 7)]
    ensures EventsOf(1, events) != [Event(1, true, 7)]
  {
    hide Punctual, Quiet, Reference, Struck, NowAfter, Kept, Nows, Roomy, Crowded, AtRest, EventsOf, Thins, InOrder;
    TwoPressesTimed();
    var captured, overflowed;
    events, captured, overflowed := Watch(20, true, 2, [1, 1], 0, TWO_PRESSES);
    assert Verdict(20, 0, 1, 0, TWO_PRESSES, 1, EventsOf(1, events), captured, overflowed);
    if EventsOf(1, events) != [] {
      assert Origin(1, EventsOf(1, events)[0].ms, Nows(0, TWO_PRESSES), captured);
    }
  }

  lemma {:induction false} TwoPressesTimed()
    ensures Punctual(20, 0, TWO_PRESSES) && AtRest(TWO_PRESSES)
    ensures Quiet(20, 0, Struck(0, TWO_PRESSES), 200)
    ensures Nows(0, TWO_PRESSES) == [0, 100, 200] && NowAfter(0, TWO_PRESSES) == 200
    ensures Struck(0, TWO_PRESSES) == [Edge(0, 0, 5), Edge(1, 0, 7)]
    ensures Kept(2, 0, TWO_PRESSES) == [Edge(0, 0, 5)]
    ensures Shown(1, Reference(20, 0, Run(0, 0), 1, Struck(0, TWO_PRESSES))) == [Event(1, true, 7)]
  {
    hide Runs, Settled, EdgesOf, Final, Struck, Kept, Nows, NowAfter, EndOf, Reach;
    TwoPressesStruck();
    var first, second := TWO_PRESSES[0], TWO_PRESSES[1];
    PunctualNext(20, 0, [], first);
    PunctualNext(20, 0, [first], second);
    TwoPressesRead();
  }

  lemma {:induction false} TwoPressesStruck()
    ensures var first, second := TWO_PRESSES[0], TWO_PRESSES[1];
            && [] + [first] == [first] && [first] + [second] == TWO_PRESSES
            && EndOf(0, []) == 0 && RoundEnd(0, first) == EndOf(0, [first]) == 100 && RoundEnd(100, second) == 200
            && NowAfter(0, []) == 0 && NowAfter(0, [first]) == 100 && NowAfter(0, TWO_PRESSES) == 200
    ensures Nows(0, TWO_PRESSES) == [0, 100, 200]
    ensures Struck(0, TWO_PRESSES) == [Edge(0, 0, 5), Edge(1, 0, 7)]
    ensures Kept(2, 0, TWO_PRESSES) == [Edge(0, 0, 5)]
  {
    var first, second := TWO_PRESSES[0], TWO_PRESSES[1];
    FirstPresses();
    SecondRound();
    NothingYet();
    QuietRound([first], second);
    TwoRounds();
    hide *;
  }

  lemma {:induction false} TwoRounds()
    ensures var first, second := TWO_PRESSES[0], TWO_PRESSES[1];
            [] + [first] == [first] && [first] + [second] == TWO_PRESSES
  {
    assert TWO_PRESSES == [TWO_PRESSES[0], TWO_PRESSES[1]];
  }

  /** A round without edges, whose poll comes 100 ms after the one before. */
  lemma {:induction false} QuietRound(rounds: seq<Round>, r: Round)
    requires EndOf(0, rounds) == NowAfter(0, rounds) == 100 && r.requested == 200
    requires RoundEdges(100, r) == [] && First(1, Timed(100, r.before)) == []
    ensures var all := rounds + [r];
            && NowAfter(0, all) == 200 && Nows(0, all) == Nows(0, rounds) + [200]
            && Struck(0, all) == Struck(0, rounds) && Kept(2, 0, all) == Kept(2, 0, rounds)
  {
    hide Timed, After, Struck, EndOf, NowAfter, Nows, Kept, RoundEnd, RoundEdges;
    NextRound(2, 0, rounds, r);
    assert Struck(0, rounds) + [] == Struck(0, rounds);
    assert Kept(2, 0, rounds) + [] == Kept(2, 0, rounds);
  }

  lemma {:induction false} SecondRound()
    ensures var second := TWO_PRESSES[1];
            && RoundEnd(100, second) == second.requested == 200
            && RoundEdges(100, second) == First(1, Timed(100, second.before)) == []
  {
  }

  lemma {:induction false} FirstRound()
    ensures var first := TWO_PRESSES[0];
            && RoundEnd(0, first) == 100 && RoundEdges(0, first) == [Edge(0, 0, 5), Edge(1, 0, 7)]
            && First(1, Timed(0, first.before)) == [Edge(0, 0, 5)]
  {
    PulsesTimed();
    hide Timed, After;
  }

  lemma {:induction false} FirstPresses()
    ensures var all := [TWO_PRESSES[0]];
            && RoundEnd(0, TWO_PRESSES[0]) == EndOf(0, all) == NowAfter(0, all) == 100 && Nows(0, all) == [0, 100]
            && Struck(0, all) == [Edge(0, 0, 5), Edge(1, 0, 7)] && Kept(2, 0, all) == [Edge(0, 0, 5)]
  {
    var first := TWO_PRESSES[0];
    NothingYet();
    FirstRound();
    hide Timed, After, Struck, EndOf, NowAfter, Nows, Kept, RoundEnd, RoundEdges;
    NextRound(2, 0, [], first);
    assert [] + [first] == [first];
  }

  lemma {:induction false} NothingYet()
    ensures Struck(0, []) == [] && EndOf(0, []) == NowAfter(0, []) == 0 && Nows(0, []) == [0] && Kept(2, 0, []) == []
  {
  }

  lemma {:induction false} PulsesTimed()
    ensures var pulses := TWO_PRESSES[0].before;
            Timed(0, pulses) == [Edge(0, 0, 5), Edge(1, 0, 7)] && After(0, pulses) == 7
    ensures forall t :: Timed(t, []) == [] && After(t, []) == t
  {
    var pulses := TWO_PRESSES[0].before;
    var rest := pulses[1..];
    assert rest == [Pulse(1, 0, 2)] && rest[1..] == [];
    TimedHead(0, pulses);
    TimedHead(5, rest);
  }

  lemma {:induction false} TwoPressesRead()
    ensures Reference(20, 0, Run(0, 0), 1, [Edge(0, 0, 5), Edge(1, 0, 7)]) == [Run(1, 7)]
  {
    var a, b := Edge(0, 0, 5), Edge(1, 0, 7);
    EdgesOfAppend(1, 0, [], a);
    EdgesOfAppend(1, 0, [a], b);
    assert [] + [a] == [a] && [a] + [b] == [a, b];
    RunsAppend(Run(0, 0), [], KeyEdge(1, 7));
    assert [] + [KeyEdge(1, 7)] == [KeyEdge(1, 7)];
    SettledAppend(20, [Run(0, 0)], Run(1, 7));
    assert [Run(0, 0)] + [Run(1, 7)] == [Run(0, 0), Run(1, 7)];
  }
}
