/** The reference debouncer: what a key's presses and releases are, given the edges captured for it. */
module DebounceSpec {

  /** A level held from `start` until the next run begins. */
  datatype Run = Run(level: nat, start: int)

  datatype KeyEdge = KeyEdge(level: nat, at: int)

  /** The runs of a key that showed `first` and then the edges; an edge to the level already held is no change. */
  function Runs(first: Run, edges: seq<KeyEdge>): (r: seq<Run>)
    ensures r != [] && r[0] == first
  {
    if edges == [] then [first]
    else
      var r := Runs(first, edges[..|edges| - 1]);
      var e := edges[|edges| - 1];
      if e.level == r[|r| - 1].level then r else r + [Run(e.level, e.at)]
  }

  /** The level believed after some reported runs; keys start out released. */
  function Believed(reported: seq<Run>): nat {
    if reported == [] then 0 else reported[|reported| - 1].level
  }

  /** The reports due from the runs that have ended: those that lasted `settle` and changed the believed level. */
  function Settled(settle: int, runs: seq<Run>): seq<Run>
    requires runs != []
  {
    if |runs| == 1 then []
    else
      var before := Settled(settle, runs[..|runs| - 1]);
      var ended := runs[|runs| - 2];
      if ended.level != Believed(before) && runs[|runs| - 1].start - ended.start >= settle then before + [ended]
      else before
  }

  /** All reports the runs will lead to if nothing more happens: the last run lasts for ever. */
  function Final(settle: int, runs: seq<Run>): seq<Run>
    requires runs != []
  {
    var s := Settled(settle, runs);
    var last := runs[|runs| - 1];
    if last.level != Believed(s) then s + [last] else s
  }

  // ----- The same reports, said declaratively ------------------------------------------

  /** The ended runs that lasted at least `settle`. */
  function LongRuns(settle: int, runs: seq<Run>): seq<Run>
    requires runs != []
  {
    if |runs| == 1 then []
    else
      var before := LongRuns(settle, runs[..|runs| - 1]);
      if runs[|runs| - 1].start - runs[|runs| - 2].start >= settle then before + [runs[|runs| - 2]] else before
  }

  /** The runs whose level differs from the one before, the first being compared with released. */
  function Changes(runs: seq<Run>): seq<Run> {
    if runs == [] then []
    else
      var before := Changes(runs[..|runs| - 1]);
      if runs[|runs| - 1].level != Believed(before) then before + [runs[|runs| - 1]] else before
  }

  /** A report is made for each change of level among the runs that lasted long enough, and for nothing else. */
  lemma {:induction false} SettledIsChangesOfLongRuns(settle: int, runs: seq<Run>)
    requires runs != []
    ensures Settled(settle, runs) == Changes(LongRuns(settle, runs))
    decreases |runs|
  {
    if |runs| > 1 {
      SettledIsChangesOfLongRuns(settle, runs[..|runs| - 1]);
      var before := LongRuns(settle, runs[..|runs| - 1]);
      var ended := runs[|runs| - 2];
      assert (before + [ended])[..|before|] == before;
    }
  }

  /** Runs in time order. */
  predicate Ordered(runs: seq<Run>) {
    forall i, j :: 0 <= i < j < |runs| ==> runs[i].start <= runs[j].start
  }

  /** Reports alternate, pressed first. */
  predicate Alternating(reports: seq<Run>) {
    forall i :: 0 <= i < |reports| ==> reports[i].level == (i + 1) % 2
  }

  predicate Binary(runs: seq<Run>) {
    forall i :: 0 <= i < |runs| ==> runs[i].level <= 1
  }

  predicate Apart(settle: int, reports: seq<Run>) {
    forall i :: 0 <= i < |reports| - 1 ==> reports[i].start + settle <= reports[i + 1].start
  }

  lemma {:induction false} SettledShape(settle: int, runs: seq<Run>)
    requires runs != [] && Ordered(runs) && Binary(runs) && settle >= 0
    ensures var s := Settled(settle, runs);
            && Alternating(s) && Apart(settle, s) && Binary(s)
            && (forall i :: 0 <= i < |s| ==> s[i].start + settle <= runs[|runs| - 1].start)
    decreases |runs|
  {
    if |runs| > 1 {
      var head := runs[..|runs| - 1];
      SettledShape(settle, head);
      assert head[|head| - 1] == runs[|runs| - 2];
    }
  }

  /** Reports alternate starting with pressed, and their times are at least `settle` apart. */
  lemma {:induction false} FinalShape(settle: int, runs: seq<Run>)
    requires runs != [] && Ordered(runs) && Binary(runs) && settle >= 0
    ensures Alternating(Final(settle, runs)) && Apart(settle, Final(settle, runs))
  {
    hide Settled;
    SettledShape(settle, runs);
  }

  lemma {:induction false} RunsOrdered(first: Run, edges: seq<KeyEdge>)
    requires forall i :: 0 <= i < |edges| ==> first.start <= edges[i].at && edges[i].level <= 1
    requires forall i, j :: 0 <= i < j < |edges| ==> edges[i].at <= edges[j].at
    requires first.level <= 1
    ensures Ordered(Runs(first, edges)) && Binary(Runs(first, edges))
    ensures var r := Runs(first, edges);
            r[|r| - 1].start <= if edges == [] then first.start else edges[|edges| - 1].at
  {
    if edges != [] {
      RunsOrdered(first, edges[..|edges| - 1]);
    }
  }

  // ----- One edge, one sweep ----------------------------------------------------------------

  lemma {:induction false} RunsAppend(first: Run, edges: seq<KeyEdge>, e: KeyEdge)
    ensures var r := Runs(first, edges);
            Runs(first, edges + [e]) == if e.level == r[|r| - 1].level then r else r + [Run(e.level, e.at)]
  {
    assert (edges + [e])[..|edges|] == edges;
  }

  lemma {:induction false} SettledAppend(settle: int, runs: seq<Run>, next: Run)
    requires runs != []
    ensures var s := Settled(settle, runs);
            var last := runs[|runs| - 1];
            Settled(settle, runs + [next])
            == if last.level != Believed(s) && next.start - last.start >= settle then s + [last] else s
  {
    assert (runs + [next])[..|runs|] == runs;
  }

  /** Later runs only add reports, after those due already. */
  lemma {:induction false} SettledGrows(settle: int, runs: seq<Run>, more: seq<Run>)
    requires runs != []
    ensures Settled(settle, runs) <= Settled(settle, runs + more)
    decreases |more|
  {
    if more == [] {
      assert runs + more == runs;
    } else {
      var init := more[..|more| - 1];
      SettledGrows(settle, runs, init);
      assert runs + more == (runs + init) + [more[|more| - 1]];
      SettledAppend(settle, runs + init, more[|more| - 1]);
    }
  }

  /** A report already due from the last run, which has lasted long enough, stays due whatever follows. */
  lemma {:induction false} SettledKeepsLast(settle: int, runs: seq<Run>, more: seq<Run>)
    requires runs != []
    requires runs[|runs| - 1].level != Believed(Settled(settle, runs))
    requires more != [] ==> more[0].start - runs[|runs| - 1].start >= settle
    ensures Settled(settle, runs) + [runs[|runs| - 1]] <= Final(settle, runs + more)
  {
    if more == [] {
      assert runs + more == runs;
    } else {
      SettledAppend(settle, runs, more[0]);
      assert runs + more == (runs + [more[0]]) + more[1..];
      SettledGrows(settle, runs + [more[0]], more[1..]);
    }
  }

  /** More edges extend the runs. */
  lemma {:induction false} RunsGrow(first: Run, edges: seq<KeyEdge>, more: seq<KeyEdge>)
    ensures Runs(first, edges) <= Runs(first, edges + more)
    ensures var a, b := Runs(first, edges), Runs(first, edges + more);
            |a| < |b| ==> exists i :: 0 <= i < |more| && more[i].at == b[|a|].start
    decreases |more|
  {
    if more == [] {
      assert edges + more == edges;
    } else {
      var init := more[..|more| - 1];
      RunsGrow(first, edges, init);
      assert edges + more == (edges + init) + [more[|more| - 1]];
      RunsAppend(first, edges + init, more[|more| - 1]);
      var a, b, c := Runs(first, edges), Runs(first, edges + init), Runs(first, edges + more);
      if |a| < |b| {
        var i :| 0 <= i < |init| && init[i].at == b[|a|].start;
        assert more[i].at == c[|a|].start;
      } else if |a| < |c| {
        assert more[|more| - 1].at == c[|a|].start;
      }
    }
  }
}
