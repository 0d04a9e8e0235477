/** Presses, as the checks of a run see them: when a held button reports a long press and repeats, and when releases are
    clicks and are reported as such. */
module ButtonPresses {
  import opened Basics
  import opened Buttons

  /** The n-th beat of a period. */
  function Beat(first: int, period: int, n: nat): int { first + n * period }

  lemma {:induction false} BeatsRise(first: int, period: int, m: nat, n: nat)
    requires period > 0 && m <= n
    ensures Beat(first, period, m) <= Beat(first, period, n)
    ensures m < n ==> Beat(first, period, m) <= Beat(first, period, n) - period
    decreases n
  {
    if m < n {
      BeatsRise(first, period, m, n - 1);
      assert n * period == (n - 1) * period + period;
    }
  }

  /** The moment lies after the check before, if there was one, and not after this one. */
  predicate Passed(before: Option<int>, due: int, now: int) {
    (before.None? || before.value < due) && due <= now
  }

  /** The last edges of the i-th check pressed the button at `since`, and nothing has happened to it up to the k-th. */
  predicate HeldFrom(c: Config, checks: seq<Check>, i: nat, k: nat, since: int) {
    && i <= k < |checks| && checks[i].edges != []
    && (var n := |checks[i].edges| - 1;
        && checks[i].edges[n] == Edge(true, since)
        && !EdgesTimers(c, TimersAfter(c, checks[..i]), checks[i].edges[..n]).pressed)
    && forall j :: i < j <= k ==> checks[j].edges == [] && checks[j - 1].at <= checks[j].at
  }

  /** The check before the k-th since the press. */
  function Last(checks: seq<Check>, i: nat, k: nat): Option<int>
    requires i <= k < |checks|
  {
    if k == i then None else Some(checks[k - 1].at)
  }

  /** The clicks waiting to be reported when the i-th check pressed the button. */
  function Earlier(c: Config, checks: seq<Check>, i: nat): nat
    requires i < |checks| && checks[i].edges != []
  {
    EdgesTimers(c, TimersAfter(c, checks[..i]), checks[i].edges[..|checks[i].edges| - 1]).pending
  }

  /** A button held since a moment, at a check whose edges have been seen but not its time. */
  ghost predicate Held(c: Config, m: Timers, since: int, before: Option<int>, pending: nat) {
    && m.pressed && m.since == since && !m.closing && (c.click > 0 && m.isClick ==> m.pending == pending)
    && (c.longPress > 0 ==> (m.longFired <==> before.Some? && since + c.longPress <= before.value))
    && (c.click > 0 ==> (!m.isClick <==> before.Some? && since + c.click <= before.value))
    && (c.repeat > 0 ==> NextBeat(since + c.repeatDelay, c.repeat, before, m.repeatAt))
  }

  /** The first beat after `before`. */
  ghost predicate NextBeat(first: int, period: int, before: Option<int>, at: int) {
    exists n: nat :: at == Beat(first, period, n) && (before.Some? ==> before.value < at)
                     && (n > 0 ==> before.Some? && at - period <= before.value)
  }

  /** A repeat that was missed moves to the first beat after the check. */
  lemma {:induction false} BeatMoves(c: Config, first: int, before: Option<int>, at: int, t: int)
    requires c.repeat > 0 && NextBeat(first, c.repeat, before, at) && (before.Some? ==> before.value <= t)
    ensures NextBeat(first, c.repeat, Some(t), NextRepeat(c, true, at, t))
  {
    var n: nat :| at == Beat(first, c.repeat, n) && (before.Some? ==> before.value < at)
                  && (n > 0 ==> before.Some? && at - c.repeat <= before.value);
    if at <= t {
      var missed := (t - at) / c.repeat + 1;
      var r := NextRepeat(c, true, at, t);
      assert r == at + missed * c.repeat;
      assert n * c.repeat + missed * c.repeat == (n + missed) * c.repeat;
      assert r == Beat(first, c.repeat, n + missed);
      Periods(t - at, c.repeat);
    } else {
      assert NextRepeat(c, true, at, t) == at == Beat(first, c.repeat, n);
    }
  }

  lemma {:induction false} Periods(behind: nat, period: int)
    requires period > 0
    ensures var whole := (behind / period + 1) * period;
            behind < whole && whole - period <= behind
  {
    assert (behind / period + 1) * period == behind / period * period + period;
  }

  /** A beat has come since the check before. */
  ghost predicate BeatPassed(first: int, period: int, before: Option<int>, now: int) {
    exists n: nat :: Passed(before, Beat(first, period, n), now)
  }

  /** A beat was reached exactly when the next one was. */
  lemma {:induction false} BeatReached(first: int, period: int, before: Option<int>, at: int, t: int)
    requires period > 0 && NextBeat(first, period, before, at)
    ensures at <= t <==> BeatPassed(first, period, before, t)
  {
    var n: nat :| at == Beat(first, period, n) && (before.Some? ==> before.value < at)
                  && (n > 0 ==> before.Some? && at - period <= before.value);
    if at <= t {
      assert Passed(before, Beat(first, period, n), t);
    }
    if m: nat :| Passed(before, Beat(first, period, m), t) {
      if m < n {
        BeatsRise(first, period, m, n);
      } else {
        BeatsRise(first, period, n, m);
      }
    }
  }

  lemma {:induction false} LookHeld(c: Config, m: Timers, since: int, before: Option<int>, pending: nat, t: int)
    requires Held(c, m, since, before, pending) && (before.Some? ==> before.value <= t)
    ensures Held(c, LookTimers(c, m, t), since, Some(t), pending)
  {
    if c.repeat > 0 {
      BeatMoves(c, since + c.repeatDelay, before, m.repeatAt, t);
    }
    hide NextBeat, NextRepeat;
  }

  lemma {:induction false} Pressed(c: Config, m: Timers, since: int)
    requires !m.pressed
    ensures Held(c, EdgeTimers(c, m, Edge(true, since)), since, None, m.pending)
  {
    assert since + c.repeatDelay == Beat(since + c.repeatDelay, c.repeat, 0);
  }

  /** A button held since a moment stays so from check to check. */
  lemma {:induction false} StaysHeld(c: Config, checks: seq<Check>, i: nat, k: nat, since: int)
    requires HeldFrom(c, checks, i, k, since)
    ensures Held(c, EdgesTimers(c, TimersAfter(c, checks[..k]), checks[k].edges), since, Last(checks, i, k),
                 Earlier(c, checks, i))
    decreases k
  {
    hide Held, LookTimers, EdgeTimers, TimersAfter;
    var n := |checks[i].edges| - 1;
    if k == i {
      Pressed(c, EdgesTimers(c, TimersAfter(c, checks[..i]), checks[i].edges[..n]), since);
    } else {
      StaysHeld(c, checks, i, k - 1, since);
      NextCheck(c, checks, k - 1);
      var m := EdgesTimers(c, TimersAfter(c, checks[..k - 1]), checks[k - 1].edges);
      LookHeld(c, m, since, Last(checks, i, k - 1), Earlier(c, checks, i), checks[k - 1].at);
      assert EdgesTimers(c, LookTimers(c, m, checks[k - 1].at), []) == LookTimers(c, m, checks[k - 1].at);
    }
  }

  /** While a button is held, the long press is reported by the first check that comes when it is due, and a repeat by
      every check since whose predecessor a beat has passed: the beats begin after the delay and keep their period,
      however late or rare the checks.  Clicks from before are reported once the press is too long to be one more. */
  lemma {:induction false} HeldReports(c: Config, checks: seq<Check>, i: nat, k: nat, since: int)
    requires HeldFrom(c, checks, i, k, since)
    ensures var r, before, now := ReportAt(c, checks, k), Last(checks, i, k), checks[k].at;
            && (r.longPress <==> c.longPress > 0 && Passed(before, since + c.longPress, now))
            && (r.repeated <==> c.repeat > 0 && BeatPassed(since + c.repeatDelay, c.repeat, before, now))
            && r.clicks == if c.click > 0 && Passed(before, since + c.click, now) && Earlier(c, checks, i) > 0 then
                             Some(Earlier(c, checks, i))
                           else None
  {
    hide NextBeat, BeatPassed, EdgesTimers, TimersAfter;
    StaysHeld(c, checks, i, k, since);
    if c.repeat > 0 {
      var m := EdgesTimers(c, TimersAfter(c, checks[..k]), checks[k].edges);
      BeatReached(since + c.repeatDelay, c.repeat, Last(checks, i, k), m.repeatAt, checks[k].at);
    }
  }

  // ----- Releases ---------------------------------------------------------------------------------------

  /** A click that may have more after it, at a check whose edges have been seen but not its time. */
  predicate Clicked(c: Config, m: Timers, since: int, before: Option<int>, pending: nat) {
    && !m.pressed && (m.closing <==> before.None? || before.value < since + c.click)
    && (m.closing ==> m.closeAt == since + c.click)
    && m.pending == if m.closing then pending else 0
  }

  /** No edges after the i-th check. */
  predicate LeftAlone(checks: seq<Check>, i: nat, k: nat) {
    i <= k < |checks| && forall j :: i < j <= k ==> checks[j].edges == [] && checks[j - 1].at <= checks[j].at
  }

  lemma {:induction false} StaysClicked(c: Config, checks: seq<Check>, i: nat, k: nat, since: int, pending: nat)
    requires LeftAlone(checks, i, k)
    requires Clicked(c, EdgesTimers(c, TimersAfter(c, checks[..i]), checks[i].edges), since, None, pending)
    ensures Clicked(c, EdgesTimers(c, TimersAfter(c, checks[..k]), checks[k].edges), since, Last(checks, i, k), pending)
    decreases k
  {
    hide TimersAfter;
    if k > i {
      StaysClicked(c, checks, i, k - 1, since, pending);
      NextCheck(c, checks, k - 1);
      var m := EdgesTimers(c, TimersAfter(c, checks[..k - 1]), checks[k - 1].edges);
      assert EdgesTimers(c, LookTimers(c, m, checks[k - 1].at), []) == LookTimers(c, m, checks[k - 1].at);
    }
  }

  /** From a click on, the clicks of the series are reported by the first check that comes once its window has
      closed. */
  lemma {:induction false} ClickedReports(c: Config, checks: seq<Check>, i: nat, k: nat, since: int, pending: nat)
    requires LeftAlone(checks, i, k)
    requires Clicked(c, EdgesTimers(c, TimersAfter(c, checks[..i]), checks[i].edges), since, None, pending)
    ensures var r, before, now := ReportAt(c, checks, k), Last(checks, i, k), checks[k].at;
            && r.clicks == (if Passed(before, since + c.click, now) then Some(pending) else None)
            && !r.longPress && !r.repeated
            && TimersAfter(c, checks[..k + 1]).pending == if since + c.click <= now then 0 else pending
  {
    hide TimersAfter, EdgesTimers;
    StaysClicked(c, checks, i, k, since, pending);
    NextCheck(c, checks, k);
  }

  /** Pressed and released between two checks: always a click. */
  lemma {:induction false} TapReports(c: Config, checks: seq<Check>, i: nat, k: nat, front: seq<Edge>, down: int,
                                      up: int)
    requires LeftAlone(checks, i, k) && checks[i].edges == front + [Edge(true, down), Edge(false, up)]
    requires !EdgesTimers(c, TimersAfter(c, checks[..i]), front).pressed && c.click > 0
    ensures var pending := EdgesTimers(c, TimersAfter(c, checks[..i]), front).pending + 1;
            && ReportAt(c, checks, k).clicks
               == (if Passed(Last(checks, i, k), up + c.click, checks[k].at) then Some(pending) else None)
            && TimersAfter(c, checks[..k + 1]).pending == if up + c.click <= checks[k].at then 0 else pending
  {
    hide TimersAfter;
    var edges := checks[i].edges;
    var n := |front|;
    assert edges[..n + 1][..n] == front && edges[..n + 1][n] == Edge(true, down) && edges[n + 1] == Edge(false, up);
    var m := EdgesTimers(c, TimersAfter(c, checks[..i]), front);
    ClickedReports(c, checks, i, k, up, m.pending + 1);
  }

  /** Held over some checks and released before a later one: a click unless one of those checks came after the click
      time of the press. */
  lemma {:induction false} ReleaseReports(c: Config, checks: seq<Check>, h: nat, i: nat, k: nat, down: int, up: int)
    requires i > 0 && HeldFrom(c, checks, h, i - 1, down) && LeftAlone(checks, i, k)
    requires checks[i].edges == [Edge(false, up)] && checks[i - 1].at <= checks[i].at && c.click > 0
    ensures if checks[i - 1].at < down + c.click then
              var pending := Earlier(c, checks, h) + 1;
              && ReportAt(c, checks, k).clicks
                 == (if Passed(Last(checks, i, k), up + c.click, checks[k].at) then Some(pending) else None)
              && TimersAfter(c, checks[..k + 1]).pending == if up + c.click <= checks[k].at then 0 else pending
            else ReportAt(c, checks, k).clicks == None
  {
    hide TimersAfter, EdgesTimers, Held, NextBeat, Earlier;
    StaysHeld(c, checks, h, i - 1, down);
    NextCheck(c, checks, i - 1);
    var m := EdgesTimers(c, TimersAfter(c, checks[..i - 1]), checks[i - 1].edges);
    LookHeld(c, m, down, Last(checks, h, i - 1), Earlier(c, checks, h), checks[i - 1].at);
    var before := LookTimers(c, m, checks[i - 1].at);
    var after := EdgesTimers(c, before, checks[i].edges);
    OneEdge(c, before, Edge(false, up));
    HeldReleased(c, before, down, checks[i - 1].at, Earlier(c, checks, h), up);
    if checks[i - 1].at < down + c.click {
      ClickedReports(c, checks, i, k, up, Earlier(c, checks, h) + 1);
    } else {
      StaysQuiet(c, checks, i, k);
    }
  }

  lemma {:induction false} OneEdge(c: Config, m: Timers, e: Edge)
    ensures EdgesTimers(c, m, [e]) == EdgeTimers(c, m, e)
  {
    assert [e][..0] == [];
  }

  lemma {:induction false} HeldReleased(c: Config, m: Timers, down: int, seen: int, pending: nat, up: int)
    requires Held(c, m, down, Some(seen), pending) && c.click > 0
    ensures var r := EdgeTimers(c, m, Edge(false, up));
            if seen < down + c.click then Clicked(c, r, up, None, pending + 1) else !r.pressed && !r.closing
  {
    hide NextBeat;
  }

  lemma {:induction false} StaysQuiet(c: Config, checks: seq<Check>, i: nat, k: nat)
    requires LeftAlone(checks, i, k)
    requires var m := EdgesTimers(c, TimersAfter(c, checks[..i]), checks[i].edges); !m.pressed && !m.closing
    ensures var m := EdgesTimers(c, TimersAfter(c, checks[..k]), checks[k].edges); !m.pressed && !m.closing
    ensures ReportAt(c, checks, k) == SILENT
    decreases k
  {
    hide TimersAfter;
    if k > i {
      StaysQuiet(c, checks, i, k - 1);
      NextCheck(c, checks, k - 1);
      var m := EdgesTimers(c, TimersAfter(c, checks[..k - 1]), checks[k - 1].edges);
      assert EdgesTimers(c, LookTimers(c, m, checks[k - 1].at), []) == LookTimers(c, m, checks[k - 1].at);
    }
  }
}
