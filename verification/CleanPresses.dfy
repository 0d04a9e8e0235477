/** Presses in terms of pin levels: what a key reports whose pin leaves its released level and returns to it cleanly. */
module CleanPresses {
  import opened DebounceSpec
  import opened Debounce

  /** A sample counts as pressed exactly when the pin is low on an active-low key and high on any other. */
  lemma {:induction false} SampleIsPressedIff(activeLow: bool, level: nat)
    requires level <= 1
    ensures Sample(PressedLevel(activeLow), level) == 1 <==> (activeLow <==> level == 0)
    ensures Sample(PressedLevel(activeLow), level) == 0 <==> (activeLow <==> level == 1)
  {
  }

  /** The edges of the key are those at the positions `at`, in this order: the pin leaves its released level and returns
      to it in turn, and holds every level for `settle` at least. */
  predicate Clean(key: nat, released: nat, settle: nat, edges: seq<Edge>, at: seq<nat>) {
    && (forall j :: 0 <= j < |at| ==> at[j] < |edges|)
    && (forall j :: 0 <= j < |at| ==> Step(key, released, edges, at, j))
    && (forall j :: 0 < j < |at| ==> Later(settle, edges, at, j))
    && (forall i :: 0 <= i < |edges| && edges[i].key == key ==> i in at)
  }

  predicate Step(key: nat, released: nat, edges: seq<Edge>, at: seq<nat>, j: nat)
    requires j < |at| && at[j] < |edges|
  {
    && edges[at[j]].key == key
    && edges[at[j]].level == (if j % 2 == 0 then 1 - released else released)
  }

  predicate Later(settle: nat, edges: seq<Edge>, at: seq<nat>, j: nat)
    requires 0 < j < |at|
  {
    && at[j - 1] < at[j] < |edges|
    && edges[at[j - 1]].at + settle <= edges[at[j]].at
  }

  /** A press for every edge away from the released level and a release for every return, each stamped with the tick of
      its edge. */
  function Presses(key: nat, edges: seq<Edge>, at: seq<nat>): (r: seq<Event>)
    requires forall j :: 0 <= j < |at| ==> at[j] < |edges|
    ensures |r| == |at|
    ensures forall j :: 0 <= j < |r| ==> r[j] == Event(key, j % 2 == 0, edges[at[j]].at % 0x2000_0000)
  {
    seq(|at|, j requires 0 <= j < |at| => Event(key, j % 2 == 0, edges[at[j]].at % 0x2000_0000))
  }

  /** The same as levels pressed and released. */
  function Turns(edges: seq<Edge>, at: seq<nat>): (r: seq<KeyEdge>)
    requires forall j :: 0 <= j < |at| ==> at[j] < |edges|
    ensures |r| == |at|
    ensures forall j :: 0 <= j < |r| ==> r[j] == KeyEdge((j + 1) % 2, edges[at[j]].at)
  {
    seq(|at|, j requires 0 <= j < |at| => KeyEdge((j + 1) % 2, edges[at[j]].at))
  }

  lemma {:induction false} PositionsRise(settle: nat, edges: seq<Edge>, at: seq<nat>, k: nat)
    requires k < |at| && forall j :: 0 < j < |at| ==> Later(settle, edges, at, j)
    ensures forall j :: 0 <= j < k ==> at[j] < at[k]
  {
    if k > 0 {
      PositionsRise(settle, edges, at, k - 1);
      assert Later(settle, edges, at, k);
    }
  }

  /** A key's last edge is the last of its positions; the rest are the positions of the edges before. */
  lemma {:induction false} CleanFront(key: nat, released: nat, settle: nat, edges: seq<Edge>, at: seq<nat>)
    requires edges != [] && released <= 1 && Clean(key, released, settle, edges, at)
    ensures var init := edges[..|edges| - 1];
            if edges[|edges| - 1].key == key then
              && at != [] && at[|at| - 1] == |edges| - 1
              && Clean(key, released, settle, init, at[..|at| - 1])
            else Clean(key, released, settle, init, at)
  {
    var last := |edges| - 1;
    var init, e := edges[..last], edges[last];
    var front := if e.key == key then at[..|at| - 1] else at;
    if e.key == key {
      assert last in at;
      var k :| 0 <= k < |at| && at[k] == last;
      PositionsRise(settle, edges, at, |at| - 1);
    } else {
      forall j | 0 <= j < |at| ensures at[j] < last {
        assert Step(key, released, edges, at, j);
      }
    }
    forall j | 0 <= j < |front| ensures Step(key, released, init, front, j) {
      assert Step(key, released, edges, at, j);
    }
    forall j | 0 < j < |front| ensures Later(settle, init, front, j) {
      assert Later(settle, edges, at, j);
    }
    forall i | 0 <= i < |init| && init[i].key == key ensures i in front {
      assert edges[i].key == key;
      var j :| 0 <= j < |at| && at[j] == i;
      assert front[j] == i;
    }
  }

  /** Of the first n edges, the key's are at the first of its positions. */
  lemma {:induction false} CleanPrefix(key: nat, released: nat, settle: nat, edges: seq<Edge>, at: seq<nat>, n: nat)
    returns (m: nat)
    requires released <= 1 && Clean(key, released, settle, edges, at) && n <= |edges|
    ensures m <= |at| && Clean(key, released, settle, edges[..n], at[..m])
    ensures forall j :: m <= j < |at| ==> n <= at[j]
    decreases |edges|
  {
    if n == |edges| {
      m := |at|;
      assert edges[..n] == edges && at[..m] == at;
    } else {
      hide Clean;
      CleanFront(key, released, settle, edges, at);
      var last := |edges| - 1;
      var init := edges[..last];
      assert init[..n] == edges[..n];
      if edges[last].key == key {
        var front := at[..|at| - 1];
        m := CleanPrefix(key, released, settle, init, front, n);
        assert front[..m] == at[..m];
        forall j | m <= j < |at| ensures n <= at[j] {
          assert j < |front| ==> at[j] == front[j];
        }
      } else {
        m := CleanPrefix(key, released, settle, init, at, n);
      }
    }
  }

  lemma {:induction false} TurnsNext(edges: seq<Edge>, at: seq<nat>)
    requires edges != [] && forall j :: 0 <= j < |at| ==> at[j] < |edges|
    requires at != [] ==> forall j :: 0 <= j < |at| - 1 ==> at[j] < |edges| - 1
    ensures at != [] && at[|at| - 1] == |edges| - 1 ==>
              Turns(edges, at)
              == Turns(edges[..|edges| - 1], at[..|at| - 1]) + [KeyEdge(|at| % 2, edges[|edges| - 1].at)]
    ensures (forall j :: 0 <= j < |at| ==> at[j] < |edges| - 1) ==> Turns(edges, at) == Turns(edges[..|edges| - 1], at)
  {
  }

  lemma {:induction false} Within(key: nat, released: nat, settle: nat, edges: seq<Edge>, at: seq<nat>)
    requires Clean(key, released, settle, edges, at)
    ensures forall j :: 0 <= j < |at| ==> at[j] < |edges|
    ensures at != [] ==> Step(key, released, edges, at, |at| - 1)
  {
  }

  /** The levels the debouncer sees alternate, pressed first. */
  lemma {:induction false} CleanEdges(key: nat, activeLow: bool, settle: nat, edges: seq<Edge>,
                                      at: seq<nat>)
    requires Clean(key, if activeLow then 1 else 0, settle, edges, at)
    ensures EdgesOf(key, PressedLevel(activeLow), edges) == Turns(edges, at)
    decreases |edges|
  {
    var released := if activeLow then 1 else 0;
    Within(key, released, settle, edges, at);
    if edges != [] {
      CleanFront(key, released, settle, edges, at);
      var last := |edges| - 1;
      var init := edges[..last];
      assert edges == init + [edges[last]];
      EdgesOfAppend(key, PressedLevel(activeLow), init, edges[last]);
      if edges[last].key == key {
        var front := at[..|at| - 1];
        Within(key, released, settle, init, front);
        TurnLevel(key, activeLow, edges, at);
        hide Clean, Turns, EdgesOf, Step;
        assert forall j :: 0 <= j < |front| ==> at[j] == front[j];
        CleanEdges(key, activeLow, settle, init, front);
      } else {
        Within(key, released, settle, init, at);
        hide Clean, Turns, EdgesOf, Step;
        CleanEdges(key, activeLow, settle, init, at);
      }
      TurnsNext(edges, at);
    }
  }

  /** A key's last edge, as the debouncer samples it. */
  lemma {:induction false} TurnLevel(key: nat, activeLow: bool, edges: seq<Edge>, at: seq<nat>)
    requires edges != [] && at != [] && at[|at| - 1] == |edges| - 1
    requires Step(key, if activeLow then 1 else 0, edges, at, |at| - 1)
    ensures Sample(PressedLevel(activeLow), edges[|edges| - 1].level) == |at| % 2
  {
  }

  /** As reports. */
  function AsRuns(es: seq<KeyEdge>): (r: seq<Run>)
    ensures |r| == |es|
    ensures forall j :: 0 <= j < |r| ==> r[j] == Run(es[j].level, es[j].at)
  {
    seq(|es|, j requires 0 <= j < |es| => Run(es[j].level, es[j].at))
  }

  predicate Spaced(settle: nat, es: seq<KeyEdge>) {
    && (forall j :: 0 <= j < |es| ==> es[j].level == (j + 1) % 2)
    && (forall j :: 0 < j < |es| ==> es[j - 1].at + settle <= es[j].at)
  }

  lemma {:induction false} AsRunsNext(es: seq<KeyEdge>)
    requires es != []
    ensures var n := |es| - 1;
            AsRuns(es) == AsRuns(es[..n]) + [Run(es[n].level, es[n].at)]
  {
  }

  lemma {:induction false} SpacedRuns(start: int, es: seq<KeyEdge>)
    requires forall j :: 0 <= j < |es| ==> es[j].level == (j + 1) % 2
    ensures Runs(Run(0, start), es) == [Run(0, start)] + AsRuns(es)
  {
    if es != [] {
      SpacedRuns(start, es[..|es| - 1]);
      AsRunsNext(es);
    }
  }

  /** With one more edge the one before it is reported. */
  lemma {:induction false} SpacedNext(settle: nat, start: int, es: seq<KeyEdge>)
    requires Spaced(settle, es) && |es| >= 2
    requires Settled(settle, [Run(0, start)] + AsRuns(es[..|es| - 1])) == AsRuns(es[..|es| - 2])
    ensures Settled(settle, [Run(0, start)] + AsRuns(es)) == AsRuns(es[..|es| - 1])
  {
    hide Settled;
    var n := |es| - 1;
    var init := es[..n];
    var runs, next := [Run(0, start)] + AsRuns(init), Run(es[n].level, es[n].at);
    SettledAppend(settle, runs, next);
    AsRunsNext(es);
    AsRunsNext(init);
    assert init[..n - 1] == es[..n - 1];
    assert [Run(0, start)] + AsRuns(es) == runs + [next];
  }

  /** Alternating edges spaced by the settling time are reported, every one but the last as soon as the next comes. */
  lemma {:induction false} SpacedSettled(settle: nat, start: int, es: seq<KeyEdge>)
    requires Spaced(settle, es)
    ensures Settled(settle, [Run(0, start)] + AsRuns(es)) == if es == [] then [] else AsRuns(es[..|es| - 1])
    decreases |es|
  {
    if |es| >= 2 {
      SpacedSettled(settle, start, es[..|es| - 1]);
      assert es[..|es| - 1][..|es| - 2] == es[..|es| - 2];
      SpacedNext(settle, start, es);
    } else if |es| == 1 {
      SettledAppend(settle, [Run(0, start)], Run(1, es[0].at));
      assert [Run(0, start)] + AsRuns(es) == [Run(0, start)] + [Run(1, es[0].at)];
    } else {
      assert [Run(0, start)] + AsRuns(es) == [Run(0, start)];
    }
  }

  lemma {:induction false} BelievedLast(es: seq<KeyEdge>)
    ensures Believed(AsRuns(es)) == if es == [] then 0 else es[|es| - 1].level
  {
  }

  lemma {:induction false} SpacedReports(settle: nat, start: int, es: seq<KeyEdge>)
    requires Spaced(settle, es)
    ensures var runs := Runs(Run(0, start), es);
            && runs == [Run(0, start)] + AsRuns(es)
            && Settled(settle, runs) == (if es == [] then [] else AsRuns(es[..|es| - 1]))
            && Final(settle, runs) == AsRuns(es)
  {
    SpacedRuns(start, es);
    SpacedSettled(settle, start, es);
    if es == [] {
      assert AsRuns(es) == [];
      hide Runs, Settled;
    } else {
      LastReports(settle, start, es);
      hide *;
    }
  }

  lemma {:induction false} LastReports(settle: nat, start: int, es: seq<KeyEdge>)
    requires Spaced(settle, es) && es != []
    requires Settled(settle, [Run(0, start)] + AsRuns(es)) == AsRuns(es[..|es| - 1])
    ensures Final(settle, [Run(0, start)] + AsRuns(es)) == AsRuns(es)
  {
    var n := |es| - 1;
    AsRunsNext(es);
    BelievedLast(es[..n]);
    assert es[n].level != if n == 0 then 0 else es[n - 1].level;
    hide Settled, Believed, AsRuns, Spaced;
    var runs := [Run(0, start)] + AsRuns(es);
    assert runs[|runs| - 1] == Run(es[n].level, es[n].at);
  }

  /** The runs of a clean key are its turns, all reported but the last, which is once it has lasted. */
  lemma {:induction false} CleanRuns(key: nat, activeLow: bool, settle: nat, start: int, edges: seq<Edge>,
                                     at: seq<nat>)
    requires Clean(key, if activeLow then 1 else 0, settle, edges, at)
    ensures var es := Turns(edges, at);
            var runs := Runs(Run(0, start), EdgesOf(key, PressedLevel(activeLow), edges));
            && runs == [Run(0, start)] + AsRuns(es)
            && Settled(settle, runs) == (if es == [] then [] else AsRuns(es[..|es| - 1]))
            && Final(settle, runs) == AsRuns(es)
  {
    hide Runs, Settled, Final, EdgesOf, PressedLevel;
    CleanEdges(key, activeLow, settle, edges, at);
    var es := Turns(edges, at);
    forall j | 0 < j < |es| ensures es[j - 1].at + settle <= es[j].at {
      assert Later(settle, edges, at, j);
    }
    SpacedReports(settle, start, es);
  }

  /** What the debouncer makes of a clean key is its presses and releases, one for one. */
  lemma {:induction false} CleanReports(key: nat, activeLow: bool, settle: nat, start: int, edges: seq<Edge>,
                                        at: seq<nat>)
    requires Clean(key, if activeLow then 1 else 0, settle, edges, at)
    ensures var es := EdgesOf(key, PressedLevel(activeLow), edges);
            Shown(key, Final(settle, Runs(Run(0, start), es))) == Presses(key, edges, at)
  {
    hide Runs, Settled, Final, EdgesOf, PressedLevel;
    CleanRuns(key, activeLow, settle, start, edges, at);
  }
}
