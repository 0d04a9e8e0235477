/** A button's long presses, repeats and clicks, timed on the wrapping tick and understood in unwrapped time. */
module Buttons {
  import opened Basics
  import opened Ticks
  import opened Timing

  /** Times in milliseconds; 0 turns long presses, repeats or clicks off. */
  datatype Config = Config(longPress: int, repeat: int, repeatDelay: int, click: int)

  predicate Usable(c: Config) {
    0 <= c.longPress < HALF && 0 <= c.repeat < HALF && 0 <= c.repeatDelay < HALF && 0 <= c.click < HALF
  }

  function Nearest(a: Option<int>, b: Option<int>): Option<int> {
    if a.None? then b else if b.None? || a.value <= b.value then a else b
  }

  /** No deadline, or a strictly later one. */
  predicate Later(due: Option<int>, t: int) { due.None? || t < due.value }

  // ----- Reference: which releases count as clicks -------------------------------------------------------

  /** A debounced edge, and a check at `at` that is given the edges seen since the last one. */
  datatype Edge = Edge(pressed: bool, at: int)
  datatype Check = Check(at: int, edges: seq<Edge>)

  /** The key is up, or down since some time; a press is stale once a check has seen it held for the click time. */
  datatype Press = Up | Down(since: int, stale: bool)

  function AfterEdge(p: Press, e: Edge): Press {
    if e.pressed == p.Down? then p else if e.pressed then Down(e.at, false) else Up
  }

  /** A release of a press that is not stale. */
  function IsClick(click: int, p: Press, e: Edge): bool { !e.pressed && p.Down? && click > 0 && !p.stale }

  function AfterEdges(p: Press, edges: seq<Edge>): Press {
    if edges == [] then p else AfterEdge(AfterEdges(p, edges[..|edges| - 1]), edges[|edges| - 1])
  }

  function ClicksInEdges(click: int, p: Press, edges: seq<Edge>): nat {
    if edges == [] then 0
    else
      var front := edges[..|edges| - 1];
      ClicksInEdges(click, p, front) + if IsClick(click, AfterEdges(p, front), edges[|edges| - 1]) then 1 else 0
  }

  function AfterLook(click: int, p: Press, at: int): Press {
    if p.Down? && click > 0 && at - p.since >= click then Down(p.since, true) else p
  }

  function AfterChecks(click: int, checks: seq<Check>): Press {
    if checks == [] then Up
    else
      var c := checks[|checks| - 1];
      AfterLook(click, AfterEdges(AfterChecks(click, checks[..|checks| - 1]), c.edges), c.at)
  }

  /** The click-qualified releases of a run. */
  function ClickReleases(click: int, checks: seq<Check>): nat {
    if checks == [] then 0
    else
      var front, c := checks[..|checks| - 1], checks[|checks| - 1];
      ClickReleases(click, front) + ClicksInEdges(click, AfterChecks(click, front), c.edges)
  }

  lemma {:induction false} LaterOfAll(a: Option<int>, b: Option<int>, c: Option<int>, d: Option<int>, t: int)
    ensures Later(Nearest(Nearest(Nearest(a, b), c), d), t)
            <==> Later(a, t) && Later(b, t) && Later(c, t) && Later(d, t)
  {
  }

  // ----- Reference: the timers in unwrapped time -------------------------------------------------------------

  datatype Timers = Timers(pressed: bool, since: int, isClick: bool, longFired: bool, repeatAt: int,
                           pending: nat, closing: bool, closeAt: int)

  /** What one check reports besides the edges themselves. */
  datatype Report = Report(longPress: bool, repeated: bool, clicks: Option<nat>)

  const SILENT := Report(false, false, None)

  const IDLE := Timers(false, 0, false, false, 0, 0, false, 0)

  function LongAt(c: Config, m: Timers): Option<int> {
    if m.pressed && c.longPress > 0 && !m.longFired then Some(m.since + c.longPress) else None
  }

  function RepeatAt(c: Config, m: Timers): Option<int> {
    if m.pressed && c.repeat > 0 then Some(m.repeatAt) else None
  }

  function StaleAt(c: Config, m: Timers): Option<int> {
    if m.pressed && c.click > 0 && m.isClick then Some(m.since + c.click) else None
  }

  function CloseAt(m: Timers): Option<int> { if m.closing then Some(m.closeAt) else None }

  /** The press has its long press or its click time still to come. */
  predicate Timed(c: Config, m: Timers) { LongAt(c, m).Some? || StaleAt(c, m).Some? }

  /** The next moment of the press under way. */
  function PressNext(c: Config, m: Timers): Option<int> {
    Nearest(Nearest(LongAt(c, m), RepeatAt(c, m)), StaleAt(c, m))
  }

  /** The next moment anything can happen without an edge. */
  function NextAt(c: Config, m: Timers): Option<int> { Nearest(PressNext(c, m), CloseAt(m)) }

  /** A moment as the tick that shows it. */
  function Shown(due: Option<int>): Option<int> { if due.None? then None else Some(Wrap(due.value)) }

  /** Of two ticks within half the ring of each other, the one that comes first. */
  method Nearer(nearest: Option<int>, candidate: int, ghost a: Option<int>, ghost b: int) returns (r: Option<int>)
    requires nearest == Shown(a) && candidate == Wrap(b) && (a.Some? ==> -HALF <= b - a.value < HALF)
    ensures r == Shown(Nearest(a, Some(b)))
  {
    hide Wrap, TicksDiff;
    if a.Some? {
      DiffUnwraps(b, a.value);
    }
    r := if nearest.None? || TicksDiff(candidate, nearest.value) < 0 then Some(candidate) else nearest;
  }

  function EdgeTimers(c: Config, m: Timers, e: Edge): Timers {
    if e.pressed == m.pressed then m
    else if e.pressed then
      m.(pressed := true, since := e.at, isClick := true, longFired := false, repeatAt := e.at + c.repeatDelay,
         closing := false)
    else if c.click > 0 && m.isClick then
      m.(pressed := false, pending := m.pending + 1, closing := true, closeAt := e.at + c.click)
    else m.(pressed := false)
  }

  function Reached(due: Option<int>, t: int): bool { due.Some? && due.value <= t }

  /** The repeat moves on by whole periods to the first one after `t`. */
  function NextRepeat(c: Config, pressed: bool, at: int, t: int): int {
    if pressed && c.repeat > 0 && at <= t then at + ((t - at) / c.repeat + 1) * c.repeat else at
  }

  /** What a look at `t` reports. */
  function LookReport(c: Config, m: Timers, t: int): Report {
    Report(Reached(LongAt(c, m), t), Reached(RepeatAt(c, m), t),
           if Reached(CloseAt(m), t) || (Reached(StaleAt(c, m), t) && m.pending > 0) then Some(m.pending) else None)
  }

  function LookTimers(c: Config, m: Timers, t: int): Timers {
    Timers(m.pressed, m.since, m.isClick && !Reached(StaleAt(c, m), t), m.longFired || Reached(LongAt(c, m), t),
           NextRepeat(c, m.pressed, m.repeatAt, t), if LookReport(c, m, t).clicks.Some? then 0 else m.pending,
           m.closing && !Reached(CloseAt(m), t), m.closeAt)
  }

  function EdgesTimers(c: Config, m: Timers, edges: seq<Edge>): Timers {
    if edges == [] then m else EdgeTimers(c, EdgesTimers(c, m, edges[..|edges| - 1]), edges[|edges| - 1])
  }

  /** The timers after some checks. */
  function TimersAfter(c: Config, checks: seq<Check>): Timers {
    if checks == [] then IDLE
    else
      var k := checks[|checks| - 1];
      LookTimers(c, EdgesTimers(c, TimersAfter(c, checks[..|checks| - 1]), k.edges), k.at)
  }

  /** What the i-th check of a run reports. */
  function ReportAt(c: Config, checks: seq<Check>, i: nat): Report
    requires i < |checks|
  {
    LookReport(c, EdgesTimers(c, TimersAfter(c, checks[..i]), checks[i].edges), checks[i].at)
  }

  /** A look before the next moment reports nothing and changes nothing; after any look the next moment is later. */
  lemma {:induction false} SilentBeforeNext(c: Config, m: Timers, t: int)
    requires Usable(c) && (m.pressed ==> !m.closing)
    ensures Later(NextAt(c, m), t) ==> LookReport(c, m, t) == SILENT && LookTimers(c, m, t) == m
    ensures Later(NextAt(c, LookTimers(c, m, t)), t)
  {
    hide Nearest;
    var r := LookTimers(c, m, t);
    LaterOfAll(LongAt(c, m), RepeatAt(c, m), StaleAt(c, m), CloseAt(m), t);
    LaterOfAll(LongAt(c, r), RepeatAt(c, r), StaleAt(c, r), CloseAt(r), t);
    if Reached(RepeatAt(c, m), t) {
      MissedPeriods(t - m.repeatAt, c.repeat);
    }
  }

  /** A look at the next moment is not in vain: it reports something, or finds the press too long to be a click. */
  lemma {:induction false} NextIsNeeded(c: Config, m: Timers)
    requires NextAt(c, m).Some?
    ensures var t := NextAt(c, m).value;
            LookReport(c, m, t) != SILENT || (m.pressed && m.isClick && !LookTimers(c, m, t).isClick)
  {
  }

  // ----- The button ---------------------------------------------------------------------------------------

  class Button {
    const c: Config
    var pressed: bool
    var justPressed: bool
    var justReleased: bool
    var justLongPressed: bool
    var justRepeated: bool
    var justClicked: bool
    var heldMs: int
    var clickCount: nat
    var pressMs: int
    var longFired: bool
    var repeatNextMs: int
    var pendingClicks: nat
    var clickDeadlineMs: int
    var clickPending: bool
    var pressIsClick: bool

    /** The unwrapped times behind the ticks. */
    ghost var pressT: int
    ghost var repeatT: int
    ghost var clickT: int

    ghost predicate Clocks()
      reads this`pressMs, this`repeatNextMs, this`clickDeadlineMs, this`pressT, this`repeatT, this`clickT
    {
      pressMs == Wrap(pressT) && repeatNextMs == Wrap(repeatT) && clickDeadlineMs == Wrap(clickT)
    }

    ghost predicate Valid()
      reads this
    {
      && Usable(c) && Clocks()
      && (pressed ==> !clickPending && pressT <= repeatT)
      && (clickPending ==> pendingClicks >= 1)
    }

    /** The fields as the reference's timers. */
    ghost function Now(): Timers
      reads this
    {
      Timers(pressed, pressT, pressIsClick, longFired, repeatT, pendingClicks, clickPending, clickT)
    }

    /** What the last check reported. */
    function Reported(): Report
      reads this`justLongPressed, this`justRepeated, this`justClicked, this`clickCount
    {
      Report(justLongPressed, justRepeated, if justClicked then Some(clickCount) else None)
    }

    /** The reference's view of the press. */
    ghost function Seen(): Press
      reads this`pressed, this`pressT, this`pressIsClick
    {
      if pressed then Down(pressT, !pressIsClick) else Up
    }

    constructor (c: Config)
      requires Usable(c)
      ensures Valid() && this.c == c && Now() == IDLE
    {
      this.c := c;
      pressed, justPressed, justReleased, justLongPressed, justRepeated, justClicked :=
          false, false, false, false, false, false;
      heldMs, clickCount, pressMs, longFired, repeatNextMs := 0, 0, 0, false, 0;
      pendingClicks, clickDeadlineMs, clickPending, pressIsClick := 0, 0, false, false;
      pressT, repeatT, clickT := 0, 0, 0;
    }

    method BeginTick()
      modifies this`justPressed, this`justReleased, this`justLongPressed, this`justRepeated, this`justClicked
      ensures !justPressed && !justReleased && !justLongPressed && !justRepeated && !justClicked
    {
      justPressed, justReleased, justLongPressed, justRepeated, justClicked := false, false, false, false, false;
    }

    /** _apply_edge */
    method ApplyEdge(isPressed: bool, eventMs: int, ghost at: int)
      requires Valid() && eventMs == Wrap(at)
      modifies this`pressed, this`pressMs, this`longFired, this`repeatNextMs, this`clickPending, this`pressIsClick,
        this`justPressed, this`justReleased, this`heldMs, this`pendingClicks, this`clickDeadlineMs,
        this`pressT, this`repeatT, this`clickT
      ensures Valid() && Now() == EdgeTimers(c, old(Now()), Edge(isPressed, at))
      ensures Seen() == AfterEdge(old(Seen()), Edge(isPressed, at))
      ensures pendingClicks == old(pendingClicks) + if IsClick(c.click, old(Seen()), Edge(isPressed, at)) then 1 else 0
      ensures justPressed == (old(justPressed) || (isPressed && !old(pressed)))
      ensures justReleased == (old(justReleased) || (!isPressed && old(pressed)))
      ensures !isPressed && old(pressed) && -HALF <= at - old(pressT) < HALF ==>
                heldMs == if at > old(pressT) then at - old(pressT) else 0
    {
      if isPressed == pressed {
        return;
      }
      pressed := isPressed;
      if isPressed {
        Pressing(eventMs, at);
      } else {
        Releasing(eventMs, at);
      }
    }

    method Pressing(eventMs: int, ghost at: int)
      requires Usable(c) && Clocks() && eventMs == Wrap(at)
      modifies this`pressMs, this`longFired, this`repeatNextMs, this`clickPending, this`pressIsClick, this`justPressed,
        this`pressT, this`repeatT
      ensures Clocks() && pressT == at && repeatT == at + c.repeatDelay
      ensures !longFired && !clickPending && pressIsClick && justPressed
    {
      AddUnwraps(at, c.repeatDelay);
      pressMs, pressT := eventMs, at;
      longFired := false;
      repeatNextMs, repeatT := TicksAdd(eventMs, c.repeatDelay).value, at + c.repeatDelay;
      clickPending := false;
      pressIsClick := true;
      justPressed := true;
    }

    method Releasing(eventMs: int, ghost at: int)
      requires Usable(c) && Clocks() && eventMs == Wrap(at)
      modifies this`clickPending, this`justReleased, this`heldMs, this`pendingClicks, this`clickDeadlineMs, this`clickT
      ensures Clocks() && justReleased
      ensures -HALF <= at - pressT < HALF ==> heldMs == if at > pressT then at - pressT else 0
      ensures if c.click > 0 && pressIsClick then
                pendingClicks == old(pendingClicks) + 1 && clickPending && clickT == at + c.click
              else pendingClicks == old(pendingClicks) && clickPending == old(clickPending) && clickT == old(clickT)
    {
      DiffUnwraps(at, pressT);
      var held := TicksDiff(eventMs, pressMs);
      heldMs := if held > 0 then held else 0;
      justReleased := true;
      if c.click > 0 && pressIsClick {
        AddUnwraps(at, c.click);
        pendingClicks := pendingClicks + 1;
        clickDeadlineMs, clickT := TicksAdd(eventMs, c.click).value, at + c.click;
        clickPending := true;
      }
    }

    // ----- Deadlines -----------------------------------------------------------------------------------------

    /** A press with moments of its own to come began, and the next repeat lies, less than half the ring away. */
    ghost predicate InReach(t: int)
      reads this
    {
      && (Timed(c, Now()) ==> -HALF <= t - pressT < HALF)
      && (pressed && c.repeat > 0 ==> -HALF <= t - repeatT && t - repeatT + c.repeat < HALF)
      && (clickPending ==> -HALF <= t - clickT < HALF)
    }

    /** The deadlines lie within half the ring of each other. (A press and a pending click never meet in a valid
        button.) */
    ghost predicate Comparable()
      reads this
    {
      && (Timed(c, Now()) && c.repeat > 0 ==> 0 <= repeatT - pressT < HALF)
      && (clickPending ==>
            var d := PressNext(c, Now());
            d.Some? ==> -HALF <= clickT - d.value < HALF)
    }

    /** next_deadline: the tick of the nearest pending deadline. */
    method NextDeadline() returns (nearest: Option<int>)
      requires Usable(c) && Clocks() && Comparable()
      ensures nearest == Shown(NextAt(c, Now()))
    {
      hide Wrap, TicksAdd, TicksDiff;
      nearest := None;
      if pressed {
        if c.longPress > 0 && !longFired {
          AddUnwraps(pressT, c.longPress);
          nearest := TicksAdd(pressMs, c.longPress);
        }
        if c.repeat > 0 {
          nearest := Nearer(nearest, repeatNextMs, LongAt(c, Now()), repeatT);
        }
        if c.click > 0 && pressIsClick {
          AddUnwraps(pressT, c.click);
          var candidate := TicksAdd(pressMs, c.click).value;
          nearest := Nearer(nearest, candidate, Nearest(LongAt(c, Now()), RepeatAt(c, Now())), pressT + c.click);
        }
      }
      if clickPending {
        nearest := Nearer(nearest, clickDeadlineMs, PressNext(c, Now()), clickT);
      }
    }

    /** The press, the next repeat and the click window as they stand at a check at `t`. */
    ghost predicate Near(t: int)
      reads this
    {
      && (pressed ==> pressT <= t && (repeatT == pressT + c.repeatDelay || repeatT <= t + c.repeat))
      && (clickPending ==> clickT <= t + c.click)
    }

    // ----- Advancing ---------------------------------------------------------------------------------------------

    /** _advance: long presses, repeats and clicks fire when and only when their time has come; before the nearest
        deadline nothing fires and nothing changes, and what remains due is strictly later. */
    method Advance(now: int, ghost t: int) returns (fired: bool)
      requires Valid() && now == Wrap(t) && InReach(t)
      requires !justLongPressed && !justRepeated && !justClicked
      modifies this`heldMs, this`longFired, this`justLongPressed, this`repeatNextMs, this`repeatT, this`justRepeated,
        this`pressIsClick, this`clickCount, this`pendingClicks, this`justClicked, this`clickPending
      ensures Valid() && Later(NextAt(c, Now()), t)
      ensures Now() == LookTimers(c, old(Now()), t) && Reported() == LookReport(c, old(Now()), t)
      ensures Seen() == AfterLook(c.click, old(Seen()), t)
      ensures fired <==> justPressed || justReleased || Reported() != SILENT
      ensures Reported().clicks.Some? ==> clickCount >= 1
      ensures Later(NextAt(c, old(Now())), t) ==> Reported() == SILENT && Now() == old(Now())
    {
      hide Nearest, AfterLook, NextRepeat;
      SilentBeforeNext(c, Now(), t);
      fired := justPressed || justReleased;
      if pressed {
        var some := AdvancePress(now, t);
        fired := fired || some;
      } else {
        NothingSeen(t);
      }
      var done := AdvanceClicks(now, t);
      fired := fired || done;
    }

    lemma {:induction false} NothingSeen(t: int)
      requires !pressed
      ensures AfterLook(c.click, Seen(), t) == Seen() && NextRepeat(c, pressed, repeatT, t) == repeatT
    {
    }

    /** The part of _advance for a key that is down. */
    method AdvancePress(now: int, ghost t: int) returns (fired: bool)
      requires pressed && Usable(c) && Clocks() && pressT <= repeatT && now == Wrap(t) && InReach(t)
      requires !justLongPressed && !justRepeated && !justClicked
      modifies this`heldMs, this`longFired, this`justLongPressed, this`repeatNextMs, this`repeatT, this`justRepeated,
        this`pressIsClick, this`clickCount, this`pendingClicks, this`justClicked
      ensures Clocks() && pressT <= repeatT && Seen() == AfterLook(c.click, old(Seen()), t)
      ensures justLongPressed == Reached(LongAt(c, old(Now())), t) && longFired == (old(longFired) || justLongPressed)
      ensures justRepeated == Reached(RepeatAt(c, old(Now())), t) && repeatT == NextRepeat(c, pressed, old(repeatT), t)
      ensures pressIsClick == (old(pressIsClick) && !Reached(StaleAt(c, old(Now())), t))
      ensures justClicked == (Reached(StaleAt(c, old(Now())), t) && old(pendingClicks) > 0)
      ensures if justClicked then clickCount == old(pendingClicks) && pendingClicks == 0
              else pendingClicks == old(pendingClicks)
      ensures fired <==> justLongPressed || justRepeated || justClicked
    {
      hide NextRepeat, AfterLook;
      DiffUnwraps(t, pressT);
      var held := TicksDiff(now, pressMs);
      heldMs := if held > 0 then held else 0;
      var long := AdvanceLong(t);
      var again := AdvanceRepeat(now, t);
      var clicked := AdvanceStale(t);
      fired := long || again || clicked;
    }

    method AdvanceLong(ghost t: int) returns (fired: bool)
      requires pressed && !justLongPressed
      requires LongAt(c, Now()).Some? ==> heldMs == if t > pressT then t - pressT else 0
      modifies this`longFired, this`justLongPressed
      ensures fired == justLongPressed == Reached(LongAt(c, old(Now())), t)
      ensures longFired == (old(longFired) || fired)
    {
      if c.longPress > 0 && !longFired && heldMs >= c.longPress {
        longFired := true;
        justLongPressed := true;
        return true;
      }
      fired := false;
    }

    method AdvanceRepeat(now: int, ghost t: int) returns (fired: bool)
      requires pressed && Usable(c) && Clocks() && pressT <= repeatT && now == Wrap(t) && !justRepeated
      requires c.repeat > 0 ==> -HALF <= t - repeatT && t - repeatT + c.repeat < HALF
      modifies this`repeatNextMs, this`repeatT, this`justRepeated
      ensures Clocks() && pressT <= repeatT && repeatT == NextRepeat(c, pressed, old(repeatT), t)
      ensures fired == justRepeated == Reached(RepeatAt(c, old(Now())), t)
    {
      if c.repeat > 0 {
        DiffUnwraps(t, repeatT);
        var behind := TicksDiff(now, repeatNextMs);
        if behind >= 0 {
          var missed := behind / c.repeat + 1;
          MissedPeriods(behind, c.repeat);
          AddUnwraps(repeatT, missed * c.repeat);
          repeatNextMs := TicksAdd(repeatNextMs, missed * c.repeat).value;
          repeatT := repeatT + missed * c.repeat;
          justRepeated := true;
          return true;
        }
      }
      fired := false;
    }

    /** A press held for the click time is no click, and ends the series before it. */
    method AdvanceStale(ghost t: int) returns (fired: bool)
      requires pressed && !justClicked
      requires StaleAt(c, Now()).Some? ==> heldMs == if t > pressT then t - pressT else 0
      modifies this`pressIsClick, this`clickCount, this`pendingClicks, this`justClicked
      ensures Seen() == AfterLook(c.click, old(Seen()), t)
      ensures pressIsClick == (old(pressIsClick) && !Reached(StaleAt(c, old(Now())), t))
      ensures fired == justClicked == (Reached(StaleAt(c, old(Now())), t) && old(pendingClicks) > 0)
      ensures if fired then clickCount == old(pendingClicks) && pendingClicks == 0
              else pendingClicks == old(pendingClicks)
    {
      fired := false;
      if c.click > 0 && pressIsClick && heldMs >= c.click {
        pressIsClick := false;
        if pendingClicks > 0 {
          clickCount := pendingClicks;
          pendingClicks := 0;
          justClicked := true;
          fired := true;
        }
      }
    }

    /** The click window after a release has closed. */
    method AdvanceClicks(now: int, ghost t: int) returns (fired: bool)
      requires Clocks() && now == Wrap(t) && (clickPending ==> -HALF <= t - clickT < HALF && !justClicked)
      modifies this`clickPending, this`clickCount, this`pendingClicks, this`justClicked
      ensures fired == Reached(CloseAt(old(Now())), t) && clickPending == (old(clickPending) && !fired)
      ensures if fired then clickCount == old(pendingClicks) && pendingClicks == 0 && justClicked
              else pendingClicks == old(pendingClicks) && justClicked == old(justClicked)
                   && clickCount == old(clickCount)
    {
      DiffUnwraps(t, clickT);
      if clickPending && TicksDiff(now, clickDeadlineMs) >= 0 {
        clickPending := false;
        clickCount := pendingClicks;
        pendingClicks := 0;
        justClicked := true;
        return true;
      }
      fired := false;
    }
  }

  // ----- Whole runs ----------------------------------------------------------------------------------------------

  /** Checks come in order, with edges no later than the check, and in time for what is still to come. */
  predicate OnTime(c: Config, checks: seq<Check>, i: nat)
    requires i < |checks|
  {
    && (i > 0 ==> checks[i - 1].at <= checks[i].at)
    && (forall k :: 0 <= k < |checks[i].edges| ==> checks[i].edges[k].at <= checks[i].at)
    && InTime(c, EdgesTimers(c, TimersAfter(c, checks[..i]), checks[i].edges), checks[i].at)
  }

  /** A press is looked at within half the ring while its long press or click time is still to come, and so are a repeat
      and a click window.  A key may be held, or left alone, for as long as one likes. */
  predicate InTime(c: Config, m: Timers, t: int) {
    && (m.closing ==> t - m.closeAt < HALF)
    && (Timed(c, m) ==> t - m.since + c.repeat < HALF)
    && (m.pressed && c.repeat > 0 ==> t - m.repeatAt + c.repeat < HALF)
  }

  /** One edge seen before a check at `t`. */
  method Give(b: Button, e: Edge, ghost t: int)
    requires b.Valid() && b.Near(t) && e.at <= t
    modifies b
    ensures b.Valid() && b.Near(t) && b.Seen() == AfterEdge(old(b.Seen()), e)
    ensures b.Now() == EdgeTimers(b.c, old(b.Now()), e)
    ensures b.pendingClicks == old(b.pendingClicks) + if IsClick(b.c.click, old(b.Seen()), e) then 1 else 0
    ensures b.justLongPressed == old(b.justLongPressed) && b.justRepeated == old(b.justRepeated)
    ensures b.justClicked == old(b.justClicked)
  {
    b.ApplyEdge(e.pressed, Wrap(e.at), e.at);
    assert Edge(e.pressed, e.at) == e;
  }

  /** check(): the edges, then the deadlines; and next_deadline after it. */
  method Look(b: Button, check: Check) returns (report: Report, nearest: Option<int>)
    requires b.Valid() && b.Near(check.at)
    requires forall k :: 0 <= k < |check.edges| ==> check.edges[k].at <= check.at
    requires InTime(b.c, EdgesTimers(b.c, b.Now(), check.edges), check.at)
    modifies b
    ensures b.Valid() && b.Near(check.at) && Later(NextAt(b.c, b.Now()), check.at)
    ensures b.Seen() == AfterLook(b.c.click, AfterEdges(old(b.Seen()), check.edges), check.at)
    ensures b.Now() == LookTimers(b.c, EdgesTimers(b.c, old(b.Now()), check.edges), check.at)
    ensures report == LookReport(b.c, EdgesTimers(b.c, old(b.Now()), check.edges), check.at)
    ensures nearest == Shown(NextAt(b.c, b.Now()))
    ensures old(b.pendingClicks) + ClicksInEdges(b.c.click, old(b.Seen()), check.edges)
            == b.pendingClicks + Count(report)
    ensures report.clicks.Some? ==> report.clicks.value >= 1
  {
    hide AfterLook, Nearest, EdgeTimers, LookTimers, LookReport, IsClick;
    b.BeginTick();
    ghost var p, m, had := b.Seen(), b.Now(), b.pendingClicks;
    assert check.edges[..0] == [];
    for i := 0 to |check.edges|
      invariant b.Valid() && b.Near(check.at) && !b.justLongPressed && !b.justRepeated && !b.justClicked
      invariant b.Seen() == AfterEdges(p, check.edges[..i]) && b.Now() == EdgesTimers(b.c, m, check.edges[..i])
      invariant b.pendingClicks == had + ClicksInEdges(b.c.click, p, check.edges[..i])
    {
      assert check.edges[..i + 1][..i] == check.edges[..i];
      Give(b, check.edges[i], check.at);
    }
    assert check.edges[..|check.edges|] == check.edges;
    report, nearest := Act(b, check.at);
  }

  function Count(r: Report): nat { if r.clicks.Some? then r.clicks.value else 0 }

  /** The deadlines of a check, and next_deadline after it. */
  method Act(b: Button, t: int) returns (report: Report, nearest: Option<int>)
    requires b.Valid() && b.Near(t) && InTime(b.c, b.Now(), t)
    requires !b.justLongPressed && !b.justRepeated && !b.justClicked
    modifies b
    ensures b.Valid() && b.Near(t) && Later(NextAt(b.c, b.Now()), t)
    ensures b.Seen() == AfterLook(b.c.click, old(b.Seen()), t)
    ensures b.Now() == LookTimers(b.c, old(b.Now()), t) && report == LookReport(b.c, old(b.Now()), t)
    ensures nearest == Shown(NextAt(b.c, b.Now()))
    ensures old(b.pendingClicks) == b.pendingClicks + Count(report)
    ensures report.clicks.Some? ==> report.clicks.value >= 1
  {
    hide AfterLook;
    if b.pressed && b.c.repeat > 0 && b.repeatT <= t {
      MissedPeriods(t - b.repeatT, b.c.repeat);
    }
    var _ := b.Advance(Wrap(t), t);
    nearest := b.NextDeadline();
    report := b.Reported();
  }

  function Clicks(reports: seq<Report>): nat {
    if reports == [] then 0 else Clicks(reports[..|reports| - 1]) + Count(reports[|reports| - 1])
  }

  lemma {:induction false} ClicksAppend(reports: seq<Report>, r: Report)
    ensures Clicks(reports + [r]) == Clicks(reports) + Count(r)
  {
    assert (reports + [r])[..|reports|] == reports;
  }

  lemma {:induction false} NoChecks(c: Config, checks: seq<Check>)
    ensures AfterChecks(c.click, checks[..0]) == Up && ClickReleases(c.click, checks[..0]) == 0
    ensures TimersAfter(c, checks[..0]) == IDLE && Clicks([]) == 0
  {
  }

  lemma {:induction false} NextCheck(c: Config, checks: seq<Check>, i: nat)
    requires i < |checks|
    ensures var p, m := AfterChecks(c.click, checks[..i]), EdgesTimers(c, TimersAfter(c, checks[..i]), checks[i].edges);
            && AfterChecks(c.click, checks[..i + 1]) == AfterLook(c.click, AfterEdges(p, checks[i].edges), checks[i].at)
            && ClickReleases(c.click, checks[..i + 1])
               == ClickReleases(c.click, checks[..i]) + ClicksInEdges(c.click, p, checks[i].edges)
            && TimersAfter(c, checks[..i + 1]) == LookTimers(c, m, checks[i].at)
  {
    hide AfterEdges, ClicksInEdges, AfterLook, EdgesTimers, LookTimers;
    assert checks[..i + 1][..i] == checks[..i];
  }

  /** The tick next_deadline shows after the i-th check. */
  function DeadlineAfter(c: Config, checks: seq<Check>, i: nat): Option<int>
    requires i < |checks|
  {
    Shown(NextAt(c, TimersAfter(c, checks[..i + 1])))
  }

  /** The i-th check has no edges and comes before the next moment as it stood after the check before. */
  predicate Early(c: Config, checks: seq<Check>, i: nat)
    requires i < |checks|
  {
    checks[i].edges == [] && Later(NextAt(c, TimersAfter(c, checks[..i])), checks[i].at)
  }

  /** Over any run that is on time: every check reports what the reference's timers say, and next_deadline after it is
      their next moment, strictly later; the click counts reported, plus the clicks still pending, are exactly the
      click-qualified releases; and a check that has no edges and comes before that moment reports nothing. */
  method Drive(c: Config, checks: seq<Check>) returns (reports: seq<Report>, deadlines: seq<Option<int>>, pending: nat)
    requires Usable(c) && forall i :: 0 <= i < |checks| ==> OnTime(c, checks, i)
    ensures |reports| == |deadlines| == |checks|
    ensures forall i :: 0 <= i < |checks| ==> reports[i] == ReportAt(c, checks, i)
    ensures forall i :: 0 <= i < |checks| ==> deadlines[i] == DeadlineAfter(c, checks, i)
    ensures forall i :: 0 <= i < |checks| ==> Later(NextAt(c, TimersAfter(c, checks[..i + 1])), checks[i].at)
    ensures forall i :: 0 < i < |checks| && Early(c, checks, i) ==>
              reports[i] == SILENT && deadlines[i] == deadlines[i - 1]
    ensures Clicks(reports) + pending == ClickReleases(c.click, checks)
    ensures forall i :: 0 <= i < |reports| && reports[i].clicks.Some? ==> reports[i].clicks.value >= 1
  {
    hide AfterEdges, ClicksInEdges, AfterLook, Nearest, AfterChecks, ClickReleases, Clicks,
      EdgesTimers, LookTimers, LookReport, TimersAfter, NextAt;
    var b := new Button(c);
    reports, deadlines := [], [];
    NoChecks(c, checks);
    for i := 0 to |checks|
      invariant fresh(b) && b.c == c && b.Valid() && |reports| == |deadlines| == i
      invariant b.Seen() == AfterChecks(c.click, checks[..i]) && b.Now() == TimersAfter(c, checks[..i])
      invariant i == 0 ==> !b.pressed && !b.clickPending
      invariant i > 0 ==> b.Near(checks[i - 1].at) && Later(CloseAt(b.Now()), checks[i - 1].at)
      invariant Clicks(reports) + b.pendingClicks == ClickReleases(c.click, checks[..i])
      invariant forall k :: 0 <= k < i ==> reports[k] == ReportAt(c, checks, k)
      invariant forall k :: 0 <= k < i ==> deadlines[k] == DeadlineAfter(c, checks, k)
      invariant forall k :: 0 <= k < i ==> Later(NextAt(c, TimersAfter(c, checks[..k + 1])), checks[k].at)
      invariant forall k :: 0 <= k < i && reports[k].clicks.Some? ==> reports[k].clicks.value >= 1
    {
      assert OnTime(c, checks, i);
      NextCheck(c, checks, i);
      var report, nearest := Look(b, checks[i]);
      ClosesLater(c, b.Now(), checks[i].at);
      ClicksAppend(reports, report);
      reports, deadlines := reports + [report], deadlines + [nearest];
    }
    assert checks[..|checks|] == checks;
    pending := b.pendingClicks;
    forall i | 0 < i < |checks| && Early(c, checks, i)
      ensures reports[i] == SILENT && deadlines[i] == deadlines[i - 1]
    {
      SilentCheck(c, checks, i - 1);
    }
  }

  lemma {:induction false} ClosesLater(c: Config, m: Timers, t: int)
    requires Later(NextAt(c, m), t)
    ensures Later(CloseAt(m), t)
  {
    hide Nearest;
    LaterOfAll(LongAt(c, m), RepeatAt(c, m), StaleAt(c, m), CloseAt(m), t);
  }

  /** A press ends the wait for further clicks. */
  lemma {:induction false} PressCloses(c: Config, checks: seq<Check>)
    ensures TimersAfter(c, checks).pressed ==> !TimersAfter(c, checks).closing
  {
    if checks != [] {
      var k := checks[|checks| - 1];
      PressCloses(c, checks[..|checks| - 1]);
      EdgesClose(c, TimersAfter(c, checks[..|checks| - 1]), k.edges);
    }
  }

  lemma {:induction false} EdgesClose(c: Config, m: Timers, edges: seq<Edge>)
    requires m.pressed ==> !m.closing
    ensures var r := EdgesTimers(c, m, edges); r.pressed ==> !r.closing
  {
    if edges != [] {
      EdgesClose(c, m, edges[..|edges| - 1]);
    }
  }

  lemma {:induction false} SilentCheck(c: Config, checks: seq<Check>, i: nat)
    requires Usable(c) && i + 1 < |checks| && checks[i + 1].edges == []
    requires Later(NextAt(c, TimersAfter(c, checks[..i + 1])), checks[i + 1].at)
    ensures ReportAt(c, checks, i + 1) == SILENT && DeadlineAfter(c, checks, i + 1) == DeadlineAfter(c, checks, i)
  {
    hide LookTimers, LookReport, NextAt, TimersAfter;
    var m := TimersAfter(c, checks[..i + 1]);
    NextCheck(c, checks, i + 1);
    PressCloses(c, checks[..i + 1]);
    SilentBeforeNext(c, m, checks[i + 1].at);
    assert EdgesTimers(c, m, []) == m;
  }
}
