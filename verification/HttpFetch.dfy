/** The client's receive loop: ticks that receive within their bounds, and reads of a streamed body. */
module HttpFetch {
  import opened Basics
  import opened Bytes
  import opened Resumable
  import opened HttpWire
  import opened HttpEnds
  import opened HttpParser
  import opened HttpClient

  // ----- The socket ---------------------------------------------------------------------------------

  /** What the socket offers next: bytes (none of them meaning the peer closed), nothing yet, or an error. */
  datatype Arrival = Data(data: bytes) | Quiet | Broken

  datatype Verdict = Pending | Completed | Failed | SocketError

  /** The bytes the peer sends before it closes. */
  function Content(script: seq<Arrival>): bytes {
    if script == [] then []
    else match script[0]
         case Data(data) => if data == [] then [] else data + Content(script[1..])
         case Quiet => Content(script[1..])
         case Broken => []
  }

  /** The socket fails before the peer closes. */
  predicate Breaks(script: seq<Arrival>) {
    script != []
    && match script[0]
       case Data(data) => data != [] && Breaks(script[1..])
       case Quiet => Breaks(script[1..])
       case Broken => true
  }

  /** How often the socket has nothing yet. */
  function Quiets(script: seq<Arrival>): nat {
    if script == [] then 0 else Quiets(script[1..]) + if script[0].Quiet? then 1 else 0
  }

  /** socket.recv_into: at most `capacity` bytes of what is there, and what is left for later. */
  function Received(script: seq<Arrival>, capacity: nat): (r: (Arrival, seq<Arrival>))
    requires capacity > 0
    ensures r.0.Data? ==> |r.0.data| <= capacity
  {
    if script == [] then (Quiet, [])
    else if script[0].Data? && |script[0].data| > capacity then
      (Data(script[0].data[..capacity]), [Data(script[0].data[capacity..])] + script[1..])
    else (script[0], script[1..])
  }

  /** Receiving loses nothing of what the peer sends. */
  lemma {:induction false} ReceivedKeeps(script: seq<Arrival>, capacity: nat)
    requires capacity > 0
    ensures var (got, rest) := Received(script, capacity);
            && (got.Data? && got.data != [] ==> Content(script) == got.data + Content(rest))
            && (got.Broken? || (got.Data? && got.data == []) ==> Content(script) == [])
            && (got.Quiet? ==> Content(rest) == Content(script))
            && (got.Broken? ==> Breaks(script))
            && (got.Quiet? || (got.Data? && got.data != []) ==> Breaks(rest) == Breaks(script))
            && Quiets(rest) == Quiets(script) - if got.Quiet? && script != [] then 1 else 0
  {
    if script != [] && script[0].Data? && |script[0].data| > capacity {
      var data, rest := script[0].data, Received(script, capacity).1;
      assert rest[1..] == script[1..];
      assert data[..capacity] + (data[capacity..] + Content(script[1..])) == data + Content(script[1..]);
    }
  }

  /** What the reading of the received bytes, and possibly their end, makes of the response. */
  function PhaseNow(cfg: Config, got: bytes, eof: bool): Phase {
    if eof then AtEof(Reading(cfg, got).state) else Reading(cfg, got).state.phase
  }

  /** A feed was refused: the bytes before it and the feed itself pass the cap on unparsed bytes. */
  ghost predicate Refused(cfg: Config, got: bytes) {
    exists n :: 0 <= n <= |got| && !WithinCap(cfg, got[..n], got[n..])
  }

  lemma {:induction false} RefusedBy(cfg: Config, got: bytes, chunk: bytes)
    requires !WithinCap(cfg, got, chunk)
    ensures Refused(cfg, got + chunk)
  {
    hide WithinCap;
    var all := got + chunk;
    assert all[..|got|] == got && all[|got|..] == chunk;
  }

  // ----- Ticks and reads, on values -----------------------------------------------------------------

  /** A fetch between two turns: the bytes received, how much of the body was handed out, where the staging buffer is
      written next, what the socket has still to offer, and whether the peer closed. */
  datatype Fetching = Fetching(got: bytes, handed: nat, write: nat, script: seq<Arrival>, verdict: Verdict, eof: bool)

  function Unfetched(script: seq<Arrival>): Fetching { Fetching([], 0, 0, script, Pending, false) }

  function VerdictOf(phase: Phase): Verdict {
    if phase == Error then Failed else if phase == Done then Completed else Pending
  }

  /** What the application is told at the end. */
  function PhaseOf(verdict: Verdict): Phase { if verdict == Completed then Done else Error }

  /** The bounds of a fetch: the scratch buffer, the budget of a tick and the staging buffer. */
  datatype Bounds = Bounds(scratch: nat, budget: nat, capacity: nat)

  /** How much one receive may bring. */
  function Share(cfg: Config, b: Bounds, budget: nat, write: nat): nat {
    var room := Least(b.scratch, budget);
    if cfg.streaming then Least(room, if write <= b.capacity then b.capacity - write else 0) else room
  }

  lemma {:induction false} OutGrows(cfg: Config, a: bytes, b: bytes)
    requires a <= b
    ensures Reading(cfg, a).out <= Reading(cfg, b).out
  {
    hide ParseStep, Stable, Run;
    ParseStepStable(cfg);
    RunPrefix(ParseStep(cfg), START, a, b[|a|..]);
    assert a + b[|a|..] == b;
  }

  /** A fetch that took in `data`; a refused feed is a failure. */
  function Fed(cfg: Config, f: Fetching, data: bytes): Fetching {
    var got := f.got + data;
    if !WithinCap(cfg, f.got, data) || Reading(cfg, got).state.phase == Error then
      f.(got := got, write := 0, verdict := Failed)
    else
      OutGrows(cfg, f.got, got);
      f.(got := got, write := f.write + |Reading(cfg, got).out| - |Reading(cfg, f.got).out|,
         verdict := VerdictOf(Reading(cfg, got).state.phase))
  }

  /** The peer closed. */
  function Closed(cfg: Config, f: Fetching): Fetching {
    var failed := AtEof(Reading(cfg, f.got).state) == Error;
    f.(script := [], eof := true, write := if failed then 0 else f.write,
       verdict := if failed then Failed else Completed)
  }

  /** One tick, with `budget` bytes of it left. */
  function TickFrom(cfg: Config, b: Bounds, f: Fetching, budget: nat): Fetching
    requires b.scratch > 0
    decreases budget
  {
    if budget == 0 || f.verdict != Pending then f
    else
      var share := Share(cfg, b, budget, f.write);
      if share == 0 then f
      else
        var (got, rest) := Received(f.script, share);
        match got
        case Quiet => f.(script := rest)
        case Broken => f.(script := rest, verdict := SocketError)
        case Data(data) =>
          if data == [] then Closed(cfg, f)
          else TickFrom(cfg, b, Fed(cfg, f.(script := rest), data), budget - |data|)
  }

  datatype Turn = Tick | Read(room: nat)

  /** The application reads from what is staged. */
  function HandedOut(cfg: Config, f: Fetching, room: nat): Fetching {
    var staged := |Reading(cfg, f.got).out| - f.handed;
    if !cfg.streaming || staged <= 0 then f
    else f.(handed := f.handed + Least(room, staged), write := if room >= staged then 0 else f.write)
  }

  function Turned(cfg: Config, b: Bounds, f: Fetching, turn: Turn): Fetching
    requires b.scratch > 0
  {
    if f.verdict == Failed || f.verdict == SocketError then f
    else match turn
         case Tick => TickFrom(cfg, b, f, b.budget)
         case Read(room) => HandedOut(cfg, f, room)
  }

  /** Where a fetch stands after some turns. */
  function Fetched(cfg: Config, b: Bounds, script: seq<Arrival>, turns: seq<Turn>): Fetching
    requires b.scratch > 0
  {
    if turns == [] then Unfetched(script)
    else Turned(cfg, b, Fetched(cfg, b, script, turns[..|turns| - 1]), turns[|turns| - 1])
  }

  // ----- What a fetch comes to ----------------------------------------------------------------------

  /** The verdict is what the bytes received, and possibly their end, make of the response. */
  ghost predicate Says(cfg: Config, f: Fetching) {
    match f.verdict
    case Failed => PhaseNow(cfg, f.got, f.eof) == Error || (!f.eof && Refused(cfg, f.got))
    case Completed => PhaseNow(cfg, f.got, f.eof) == Done
    case _ => !f.eof && PhaseNow(cfg, f.got, false) != Done && PhaseNow(cfg, f.got, false) != Error
  }

  /** No byte is lost or made up between `f` and `r`, and a socket error is the socket's. */
  predicate Follows(f: Fetching, r: Fetching) {
    && f.got <= r.got <= f.got + Content(f.script) && Quiets(r.script) <= Quiets(f.script)
    && (if r.verdict == SocketError then Breaks(f.script) && r.got == f.got + Content(f.script)
        else r.got + Content(r.script) == f.got + Content(f.script))
    && (r.verdict == Pending ==> Breaks(r.script) == Breaks(f.script))
    && (r.eof ==> Content(r.script) == [] && r.verdict != SocketError)
  }

  /** What can keep a tick that leaves the fetch pending from receiving its whole budget. */
  predicate Spent(cfg: Config, b: Bounds, f: Fetching, r: Fetching, budget: nat) {
    || |r.got| >= |f.got| + budget
    || Quiets(r.script) < Quiets(f.script)
    || Content(r.script) == []
    || Full(cfg, b, r)
  }

  /** The staging buffer has no room. */
  predicate Full(cfg: Config, b: Bounds, f: Fetching) { cfg.streaming && f.write >= b.capacity }

  lemma {:induction false} NothingLeft()
    ensures Content([]) == [] && Quiets([]) == 0
  {
  }

  lemma {:induction false} FollowsItself(f: Fetching)
    requires f.verdict == Pending && !f.eof
    ensures Follows(f, f)
  {
    assert f.got + [] == f.got;
  }

  lemma {:induction false} FollowsOn(f: Fetching, g: Fetching, r: Fetching)
    requires Follows(f, g) && Follows(g, r) && g.verdict == Pending
    ensures Follows(f, r)
  {
  }

  lemma {:induction false} FedFollows(cfg: Config, f: Fetching, capacity: nat)
    requires capacity > 0 && !f.eof
    requires var (got, _) := Received(f.script, capacity); got.Data? && got.data != []
    ensures var (got, rest) := Received(f.script, capacity);
            var g := Fed(cfg, f.(script := rest), got.data);
            Follows(f, g) && Says(cfg, g) && g.verdict != SocketError && !g.eof && |g.got| == |f.got| + |got.data|
  {
    hide Reading, Content, Quiets, Breaks, WithinCap, Refused;
    var (got, rest) := Received(f.script, capacity);
    ReceivedKeeps(f.script, capacity);
    assert (f.got + got.data) + Content(rest) == f.got + (got.data + Content(rest));
    if !WithinCap(cfg, f.got, got.data) {
      RefusedBy(cfg, f.got, got.data);
    }
  }

  /** One tick keeps the account of bytes, ends as they say, and is cut short only for a reason. */
  lemma {:induction false} TickFacts(cfg: Config, b: Bounds, f: Fetching, budget: nat)
    requires b.scratch > 0 && f.verdict == Pending && !f.eof && Says(cfg, f)
    ensures var r := TickFrom(cfg, b, f, budget);
            && Follows(f, r) && Says(cfg, r) && r.handed == f.handed
            && (r.verdict == Pending ==> Spent(cfg, b, f, r, budget))
    decreases budget
  {
    hide Reading, Content, Quiets, Breaks, Received, Follows, Fed, Says;
    FollowsItself(f);
    if budget > 0 {
      var share := Share(cfg, b, budget, f.write);
      if share > 0 {
        var (got, rest) := Received(f.script, share);
        ReceivedKeeps(f.script, share);
        if got.Data? && got.data != [] {
          var g := Fed(cfg, f.(script := rest), got.data);
          FedFollows(cfg, f, share);
          FedKeeps(cfg, f.(script := rest), got.data);
          if g.verdict == Pending {
            TickFacts(cfg, b, g, budget - |got.data|);
            FollowsOn(f, g, TickFrom(cfg, b, g, budget - |got.data|));
            QuietsFall(f, g);
          }
        } else {
          TickEnds(cfg, f, share);
        }
      }
    }
  }

  lemma {:induction false} QuietsFall(f: Fetching, g: Fetching)
    requires Follows(f, g)
    ensures Quiets(g.script) <= Quiets(f.script)
  {
  }

  lemma {:induction false} FedKeeps(cfg: Config, f: Fetching, data: bytes)
    ensures var g := Fed(cfg, f, data);
            g.handed == f.handed && g.got == f.got + data && g.script == f.script && g.eof == f.eof
  {
  }

  /** A tick ends when the socket has nothing, fails, or has closed. */
  lemma {:induction false} TickEnds(cfg: Config, f: Fetching, capacity: nat)
    requires capacity > 0 && f.verdict == Pending && !f.eof && Says(cfg, f)
    ensures var (got, rest) := Received(f.script, capacity);
            && (got.Quiet? ==>
                  var r := f.(script := rest);
                  && Follows(f, r) && Says(cfg, r) && (Quiets(rest) < Quiets(f.script) || Content(rest) == []))
            && (got.Broken? ==>
                  var r := f.(script := rest, verdict := SocketError);
                  Follows(f, r) && Says(cfg, r))
            && (got.Data? && got.data == [] ==>
                  var r := Closed(cfg, f);
                  Follows(f, r) && Says(cfg, r) && r.handed == f.handed && r.verdict != Pending)
  {
    hide Reading, Received;
    var (got, rest) := Received(f.script, capacity);
    ReceivedKeeps(f.script, capacity);
    NothingLeft();
    assert f.got + [] == f.got;
    if got.Quiet? {
      QuietAtTheEnd(f.script, capacity);
    }
  }

  lemma {:induction false} QuietAtTheEnd(script: seq<Arrival>, capacity: nat)
    requires capacity > 0
    ensures script == [] ==> Received(script, capacity) == (Quiet, [])
  {
  }

  // ----- Whole fetches, on values -------------------------------------------------------------------

  function Ticks(turns: seq<Turn>): nat {
    if turns == [] then 0 else Ticks(turns[..|turns| - 1]) + if turns[|turns| - 1].Tick? then 1 else 0
  }

  /** The ticks that ended with the staging buffer full. */
  function Fulls(cfg: Config, b: Bounds, script: seq<Arrival>, turns: seq<Turn>): nat
    requires b.scratch > 0
  {
    if turns == [] then 0
    else
      var f := Fetched(cfg, b, script, turns);
      Fulls(cfg, b, script, turns[..|turns| - 1])
      + if turns[|turns| - 1].Tick? && f.verdict == Pending && Full(cfg, b, f) then 1 else 0
  }

  function Times(n: int, budget: nat): int { n * budget }

  lemma {:induction false} TimesNext(n: int, budget: nat)
    ensures Times(0, budget) == 0 && Times(n + 1, budget) == Times(n, budget) + budget
  {
  }

  lemma {:induction false} TimesGrow(a: int, b: int, budget: nat)
    requires a <= b
    ensures Times(a, budget) <= Times(b, budget)
  {
    assert Times(b, budget) == Times(a, budget) + (b - a) * budget;
  }

  lemma {:induction false} NothingSaid(cfg: Config, script: seq<Arrival>)
    ensures Says(cfg, Unfetched(script)) && Follows(Unfetched(script), Unfetched(script))
    ensures Reading(cfg, []) == Progress(START, [], [])
  {
    hide NextStep;
    FollowsItself(Unfetched(script));
    EmptyWaits(cfg, START);
    StepIs(cfg, START, []);
  }

  /** The budgets received so far, unless there was nothing left to receive. */
  ghost predicate OnSchedule(cfg: Config, b: Bounds, script: seq<Arrival>, turns: seq<Turn>)
    requires b.scratch > 0
  {
    var f := Fetched(cfg, b, script, turns);
    f.verdict == Pending && Content(f.script) != [] ==>
      Times(Ticks(turns) - (Quiets(script) - Quiets(f.script)) - Fulls(cfg, b, script, turns), b.budget) <= |f.got|
  }

  /** After any turns the account of bytes holds, the verdict is what they say, and a fetch still pending is on
      schedule: every tick received its budget, or met a socket with nothing to offer, or ended with the staging buffer
      full. */
  lemma {:induction false} FetchedFacts(cfg: Config, b: Bounds, script: seq<Arrival>, turns: seq<Turn>)
    requires b.scratch > 0
    ensures var f := Fetched(cfg, b, script, turns);
            Follows(Unfetched(script), f) && Says(cfg, f) && OnSchedule(cfg, b, script, turns)
    decreases |turns|
  {
    hide Content, Quiets, Breaks, Reading, Follows, Says, TickFrom, HandedOut, OnSchedule;
    if turns == [] {
      NothingSaid(cfg, script);
      NoTurnsOnSchedule(cfg, b, script);
    } else {
      var init, turn := turns[..|turns| - 1], turns[|turns| - 1];
      FetchedFacts(cfg, b, script, init);
      var f := Fetched(cfg, b, script, init);
      if turn.Tick? && f.verdict == Pending {
        PendingIsOpen(cfg, f);
        TickFacts(cfg, b, f, b.budget);
        FollowsOn(Unfetched(script), f, TickFrom(cfg, b, f, b.budget));
        TickOnSchedule(cfg, b, script, turns);
      } else {
        OtherTurn(cfg, b, script, turns);
      }
    }
  }

  lemma {:induction false} PendingIsOpen(cfg: Config, f: Fetching)
    requires Says(cfg, f) && f.verdict == Pending
    ensures !f.eof
  {
  }

  lemma {:induction false} NoTurnsOnSchedule(cfg: Config, b: Bounds, script: seq<Arrival>)
    requires b.scratch > 0
    ensures OnSchedule(cfg, b, script, [])
  {
    hide Content, Quiets;
    TimesNext(0, b.budget);
  }

  lemma {:induction false} TickOnSchedule(cfg: Config, b: Bounds, script: seq<Arrival>, turns: seq<Turn>)
    requires b.scratch > 0 && turns != [] && turns[|turns| - 1].Tick?
    requires OnSchedule(cfg, b, script, turns[..|turns| - 1])
    requires var f := Fetched(cfg, b, script, turns[..|turns| - 1]);
             var r := TickFrom(cfg, b, f, b.budget);
             f.verdict == Pending && Follows(f, r) && (r.verdict == Pending ==> Spent(cfg, b, f, r, b.budget))
    ensures OnSchedule(cfg, b, script, turns)
  {
    hide Content, Quiets, Breaks, Reading, TickFrom, Times;
    var init := turns[..|turns| - 1];
    var f, r := Fetched(cfg, b, script, init), Fetched(cfg, b, script, turns);
    if r.verdict == Pending && Content(r.script) != [] {
      var before := Ticks(init) - (Quiets(script) - Quiets(f.script)) - Fulls(cfg, b, script, init);
      var after := Ticks(turns) - (Quiets(script) - Quiets(r.script)) - Fulls(cfg, b, script, turns);
      assert |r.got| + |Content(r.script)| == |f.got| + |Content(f.script)|;
      if |r.got| >= |f.got| + b.budget {
        TimesNext(before, b.budget);
        TimesGrow(after, before + 1, b.budget);
      } else {
        TimesGrow(after, before, b.budget);
      }
    }
  }

  /** A read, and a tick of a fetch that has ended, move no byte between the socket and the parser. */
  lemma {:induction false} OtherTurn(cfg: Config, b: Bounds, script: seq<Arrival>, turns: seq<Turn>)
    requires b.scratch > 0 && turns != []
    requires var f := Fetched(cfg, b, script, turns[..|turns| - 1]);
             && (turns[|turns| - 1].Read? || f.verdict != Pending)
             && Follows(Unfetched(script), f) && Says(cfg, f) && OnSchedule(cfg, b, script, turns[..|turns| - 1])
    ensures var r := Fetched(cfg, b, script, turns);
            Follows(Unfetched(script), r) && Says(cfg, r) && OnSchedule(cfg, b, script, turns)
  {
    hide Content, Quiets, Breaks, Reading, Times, Refused;
  }

  // ----- The client's parser and its buffers --------------------------------------------------------

  /** The parser is in service: nothing failed, and the bytes handed out and staged are the body so far. */
  ghost predicate InService(parser: ResponseParser, eof: bool)
    reads parser, parser.body
  {
    && parser.InBody() && parser.Clean() && parser.Staged()
    && parser.state == PhaseNow(parser.cfg, parser.received, eof)
    && parser.decoded == Reading(parser.cfg, parser.received).out
  }

  /** The parser is where the fetch is. */
  ghost predicate Shows(parser: ResponseParser, b: Bounds, f: Fetching)
    reads parser, parser.body
  {
    && parser.received == f.got && |parser.delivered| == f.handed && !parser.overflowed
    && (parser.cfg.streaming ==> parser.body.Length == b.capacity)
    && parser.InBody() && parser.delivered <= Reading(parser.cfg, f.got).out
    && (if f.verdict == Failed then parser.state == Error
        else InService(parser, f.eof) && parser.bodyWrite == f.write && f.write <= parser.body.Length)
    && (!f.eof && f.verdict != Failed ==> parser.Valid() && parser.Settled())
    && (f.verdict == Completed <==> parser.state == Done)
  }

  /** A parser that was fed is where its fetch is. */
  lemma {:induction false} FedShows(parser: ResponseParser, b: Bounds, f: Fetching, data: bytes, decoded: bytes)
    requires parser.Valid() && parser.Settled() && !parser.overflowed && parser.received == f.got + data
    requires parser.tripped <==> !WithinCap(parser.cfg, f.got, data)
    requires |parser.delivered| == f.handed && parser.delivered <= Reading(parser.cfg, f.got).out
    requires parser.cfg.streaming ==> parser.body.Length == b.capacity
    requires Reading(parser.cfg, f.got).out == decoded && |decoded| == f.handed + f.write - parser.bodyRead
    requires !f.eof
    ensures Shows(parser, b, Fed(parser.cfg, f, data)) && Fed(parser.cfg, f, data).verdict != SocketError
  {
    hide Reading, OnCourse, NextStep, WithinCap, ResponseParser.Bounded, ResponseParser.Settled;
    OutGrows(parser.cfg, f.got, parser.received);
    if !parser.tripped {
      parser.Agrees();
    }
  }

  /** What can be read off a parser that is still receiving. */
  lemma {:induction false} Receiving(parser: ResponseParser, b: Bounds, f: Fetching)
    requires Shows(parser, b, f) && f.verdict == Pending && !f.eof
    ensures parser.Valid() && parser.Settled() && parser.Clean() && !parser.tripped
    ensures parser.state != Done && (Reading(parser.cfg, f.got).state.phase != Error ==> parser.state != Error)
    ensures |Reading(parser.cfg, f.got).out| == f.handed + f.write - parser.bodyRead
  {
    hide Reading, OnCourse, NextStep, ResponseParser.Bounded, ResponseParser.Settled;
  }

  /** Feed what was received. */
  method Take(parser: ResponseParser, chunk: bytes, ghost b: Bounds, ghost f: Fetching)
    requires Shows(parser, b, f) && f.verdict == Pending && !f.eof
    requires parser.cfg.streaming ==> |chunk| <= parser.BodyFree()
    modifies parser, parser.body
    ensures (parser.body == old(parser.body) || fresh(parser.body)) && parser.delivered == old(parser.delivered)
    ensures Shows(parser, b, Fed(parser.cfg, f, chunk)) && Fed(parser.cfg, f, chunk).verdict != SocketError
  {
    hide Reading, OnCourse, NextStep, WithinCap, Fed, ResponseParser.Bounded, ResponseParser.Settled;
    Receiving(parser, b, f);
    TripsBeyondCap(parser, chunk);
    ghost var decoded := Reading(parser.cfg, f.got).out;
    parser.Feed(chunk);
    FedShows(parser, b, f, chunk, decoded);
  }

  /** The peer closed. */
  method Ended(parser: ResponseParser, ghost b: Bounds, ghost f: Fetching) returns (verdict: Verdict)
    requires Shows(parser, b, f) && f.verdict == Pending && !f.eof && Says(parser.cfg, f)
    modifies parser`state
    ensures Shows(parser, b, Closed(parser.cfg, f)) && verdict == Closed(parser.cfg, f).verdict
  {
    hide Reading, OnCourse, NextStep, ResponseParser.Bounded;
    parser.Agrees();
    parser.FeedEof();
    verdict := if parser.state == Error then Failed else Completed;
  }

  /** One step of the receive loop. */
  lemma {:induction false} TickStep(cfg: Config, b: Bounds, f: Fetching, budget: nat)
    requires b.scratch > 0
    ensures budget == 0 || f.verdict != Pending || Share(cfg, b, budget, f.write) == 0 ==>
              TickFrom(cfg, b, f, budget) == f
    ensures budget > 0 && f.verdict == Pending && Share(cfg, b, budget, f.write) > 0 ==>
              var (got, rest) := Received(f.script, Share(cfg, b, budget, f.write));
              TickFrom(cfg, b, f, budget)
              == match got
                 case Quiet => f.(script := rest)
                 case Broken => f.(script := rest, verdict := SocketError)
                 case Data(data) =>
                   if data == [] then Closed(cfg, f)
                   else TickFrom(cfg, b, Fed(cfg, f.(script := rest), data), budget - |data|)
  {
    hide Reading, Fed, Closed, Received, Share;
  }

  /** The state of the parser says how the fetch stands. */
  lemma {:induction false} VerdictShown(parser: ResponseParser, b: Bounds, f: Fetching)
    requires Shows(parser, b, f) && f.verdict != SocketError && Says(parser.cfg, f)
    ensures f.verdict == if parser.state == Error then Failed else if parser.state == Done then Completed else Pending
    ensures parser.InBody() && (f.verdict != Failed ==> f.write == parser.bodyWrite <= parser.body.Length)
    ensures parser.cfg.streaming ==> parser.body.Length == b.capacity
  {
    hide Reading, OnCourse, NextStep, ResponseParser.Bounded, ResponseParser.Settled, ResponseParser.Staged;
  }

  /** Only what the socket still offers has changed. */
  lemma {:induction false} ScriptMoves(parser: ResponseParser, b: Bounds, f: Fetching, rest: seq<Arrival>)
    requires Shows(parser, b, f)
    ensures Shows(parser, b, f.(script := rest))
    ensures f.verdict == Pending && Says(parser.cfg, f) ==> Says(parser.cfg, f.(script := rest))
    ensures f.verdict == Pending && Says(parser.cfg, f) ==> Shows(parser, b, f.(script := rest, verdict := SocketError))
  {
    hide Reading, OnCourse, NextStep, ResponseParser.Bounded, ResponseParser.Settled, ResponseParser.Staged;
  }

  lemma {:induction false} ClosedForGood(cfg: Config, f: Fetching)
    ensures Closed(cfg, f).script == []
  {
  }

  /** _drive_recv: one tick of receiving, bounded by the budget, the scratch buffer and the staging room. */
  method DriveRecv(parser: ResponseParser, script: seq<Arrival>, scratch: nat, budget: nat, ghost b: Bounds,
                   ghost f: Fetching)
    returns (rest: seq<Arrival>, verdict: Verdict, ghost r: Fetching)
    requires b.scratch == scratch > 0 && b.budget == budget
    requires f.verdict == Pending && !f.eof && f.script == script && Says(parser.cfg, f) && Shows(parser, b, f)
    modifies parser, parser.body
    ensures (parser.body == old(parser.body) || fresh(parser.body)) && parser.delivered == old(parser.delivered)
    ensures r == TickFrom(parser.cfg, b, f, budget) && Shows(parser, b, r)
    ensures rest == r.script && verdict == r.verdict
  {
    hide Reading, Content, Received, Shows, Says, TickFrom, Fed, Closed, ResponseParser.Valid;
    var consumed := 0;
    rest, r := script, f;
    VerdictShown(parser, b, r);
    while consumed < budget && parser.state != Done && parser.state != Error
      invariant consumed <= budget && parser.delivered == old(parser.delivered)
      invariant parser.body == old(parser.body) || fresh(parser.body)
      invariant Shows(parser, b, r) && Says(parser.cfg, r) && r.script == rest && !r.eof && r.verdict != SocketError
      invariant r.verdict == if parser.state == Error then Failed
                             else if parser.state == Done then Completed else Pending
      invariant TickFrom(parser.cfg, b, r, budget - consumed) == TickFrom(parser.cfg, b, f, budget)
      decreases budget - consumed
    {
      TickStep(parser.cfg, b, r, budget - consumed);
      VerdictShown(parser, b, r);
      var share := Least(scratch, budget - consumed);
      if parser.cfg.streaming {
        share := Least(share, parser.BodyFree());
        if share == 0 {
          return rest, Pending, r;
        }
      }
      var (got, rest') := Received(rest, share);
      rest := rest';
      ScriptMoves(parser, b, r, rest');
      if got.Quiet? {
        r := r.(script := rest');
        return rest, Pending, r;
      }
      if got.Broken? {
        r := r.(script := rest', verdict := SocketError);
        return rest, SocketError, r;
      }
      if got.data == [] {
        verdict := Ended(parser, b, r);
        ClosedForGood(parser.cfg, r);
        r := Closed(parser.cfg, r);
        return [], verdict, r;
      }
      FedFollows(parser.cfg, r, share);
      FedKeeps(parser.cfg, r.(script := rest'), got.data);
      Take(parser, got.data, b, r.(script := rest'));
      r := Fed(parser.cfg, r.(script := rest'), got.data);
      VerdictShown(parser, b, r);
      consumed := consumed + |got.data|;
    }
    TickStep(parser.cfg, b, r, budget - consumed);
    verdict := if parser.state == Error then Failed else if parser.state == Done then Completed else Pending;
  }

  /** The application reads: which bytes are handed out and which stay staged is all that changes. */
  method Handed(parser: ResponseParser, room: nat, ghost b: Bounds, ghost f: Fetching) returns (part: bytes)
    requires Shows(parser, b, f) && f.verdict != Failed && parser.cfg.streaming
    modifies parser`bodyRead, parser`bodyWrite, parser`delivered
    ensures Shows(parser, b, HandedOut(parser.cfg, f, room)) && parser.delivered == old(parser.delivered) + part
  {
    hide Reading, OnCourse, NextStep, ResponseParser.Bounded;
    part := parser.ReadBodyInto(room);
  }

  lemma {:induction false} FreshShows(parser: ResponseParser, b: Bounds, script: seq<Arrival>)
    requires parser.Valid() && parser.Settled() && parser.Clean() && parser.state == Status && parser.received == []
    requires parser.delivered == [] && parser.bodyWrite == parser.bodyRead == 0 && parser.body.Length == b.capacity
    ensures Shows(parser, b, Unfetched(script))
  {
    hide OnCourse, NextStep, Reading, ResponseParser.Bounded, ResponseParser.Settled;
    parser.Agrees();
  }

  /** A whole fetch: ticks of the client and reads of the application in any order, over any arrival of bytes.  It
      ends where the fold of the turns says.  What was handed out is always the beginning of the body the received
      bytes encode; while nothing failed the rest of it is staged; nothing overflows; the request ends in DONE or in an
      error as those bytes say, and in a socket error only after all the bytes the socket brought before it failed.
      When the peer closes, a response that is cut short has failed: a body is complete only as its fields announced it,
      or when they announced neither a transfer coding nor a length.  A fetch still pending has received everything, or
      its full budget at every tick but those when the socket had nothing or the staging buffer was full at the end. */
  method Fetch(cfg: Config, capacity: nat, scratch: nat, budget: nat, turns: seq<Turn>, script: seq<Arrival>)
    returns (output: bytes, staged: bytes, verdict: Verdict, overflowed: bool, ghost last: Fetching)
    requires scratch > 0
    ensures last == Fetched(cfg, Bounds(scratch, budget, capacity), script, turns)
    ensures verdict == last.verdict && !overflowed
    ensures last.got <= Content(script) && (last.eof ==> last.got == Content(script))
    ensures output <= Reading(cfg, last.got).out && |output| == last.handed
    ensures verdict != Failed ==>
              output + staged == Reading(cfg, last.got).out
              && (PhaseNow(cfg, last.got, last.eof) == Done <==> verdict == Completed)
    ensures verdict == Failed ==> PhaseNow(cfg, last.got, last.eof) == Error || (!last.eof && Refused(cfg, last.got))
    ensures last.eof ==>
              (verdict == Completed || verdict == Failed) && EndsAs(cfg, last.got, PhaseOf(verdict))
    ensures verdict == Completed ==>
              var p := Reading(cfg, last.got).state;
              && (!last.eof ==> p.phase == Done)
              && Entire(cfg, p.status, p.fields, |output + staged|, last.eof)
    ensures verdict == SocketError ==> Breaks(script) && last.got == Content(script)
    ensures verdict == Pending ==>
              || last.got == Content(script)
              || Times(Ticks(turns) - Quiets(script) - Fulls(cfg, Bounds(scratch, budget, capacity), script, turns),
                       budget) <= |last.got|
    ensures !cfg.streaming ==> Fulls(cfg, Bounds(scratch, budget, capacity), script, turns) == 0
  {
    hide Reading, Content, Quiets, Breaks, Shows, Says, Follows, OnSchedule, TickFrom, HandedOut, Fulls, Ticks, Times,
      Refused, EndsAs, Entire, ResponseParser.Settled, ResponseParser.Bounded;
    var parser := new ResponseParser(cfg, capacity);
    ghost var b := Bounds(scratch, budget, capacity);
    var rest, i := script, 0;
    verdict, output, last := Pending, [], Unfetched(script);
    FreshShows(parser, b, script);
    assert turns[..0] == [];
    while i < |turns|
      invariant 0 <= i <= |turns| && fresh(parser) && fresh(parser.body) && parser.cfg == cfg
      invariant last == Fetched(cfg, b, script, turns[..i]) && Shows(parser, b, last)
      invariant rest == last.script && verdict == last.verdict && output == parser.delivered
    {
      NextTurn(cfg, b, script, turns, i);
      FetchedFacts(cfg, b, script, turns[..i]);
      if turns[i].Tick? {
        if verdict == Pending {
          PendingIsOpen(cfg, last);
          rest, verdict, last := DriveRecv(parser, rest, scratch, budget, b, last);
        }
      } else if cfg.streaming && verdict != Failed && verdict != SocketError {
        var part := Handed(parser, turns[i].room, b, last);
        HandedKeeps(cfg, last, turns[i].room);
        last := HandedOut(cfg, last, turns[i].room);
        output := output + part;
      }
      i := i + 1;
    }
    assert turns[..|turns|] == turns;
    BodyShown(parser, b, last);
    overflowed, staged := parser.overflowed, parser.body[parser.bodyRead..parser.bodyWrite];
    FetchEnds(cfg, b, script, turns);
  }

  lemma {:induction false} NextTurn(cfg: Config, b: Bounds, script: seq<Arrival>, turns: seq<Turn>, i: nat)
    requires b.scratch > 0 && i < |turns|
    ensures var f, r := Fetched(cfg, b, script, turns[..i]), Fetched(cfg, b, script, turns[..i + 1]);
            && (turns[i].Tick? && f.verdict == Pending ==> r == TickFrom(cfg, b, f, b.budget))
            && (turns[i].Tick? && f.verdict != Pending ==> r == f)
            && (turns[i].Read? && cfg.streaming && f.verdict != Failed && f.verdict != SocketError ==>
                  r == HandedOut(cfg, f, turns[i].room))
            && (turns[i].Read? && (!cfg.streaming || f.verdict == Failed || f.verdict == SocketError) ==> r == f)
  {
    hide Reading;
    assert turns[..i + 1][..i] == turns[..i];
    TickStep(cfg, b, Fetched(cfg, b, script, turns[..i]), b.budget);
    hide TickFrom;
  }

  lemma {:induction false} HandedKeeps(cfg: Config, f: Fetching, room: nat)
    ensures HandedOut(cfg, f, room).script == f.script && HandedOut(cfg, f, room).verdict == f.verdict
  {
  }

  lemma {:induction false} BodyShown(parser: ResponseParser, b: Bounds, f: Fetching)
    requires Shows(parser, b, f)
    ensures parser.InBody() && !parser.overflowed && |parser.delivered| == f.handed
    ensures parser.delivered <= Reading(parser.cfg, f.got).out
    ensures f.verdict != Failed ==>
              parser.delivered + parser.body[parser.bodyRead..parser.bodyWrite] == Reading(parser.cfg, f.got).out
  {
    hide Reading, OnCourse, NextStep, ResponseParser.Bounded, ResponseParser.Settled;
  }

  lemma {:induction false} NeverFull(cfg: Config, b: Bounds, script: seq<Arrival>, turns: seq<Turn>)
    requires b.scratch > 0 && !cfg.streaming
    ensures Fulls(cfg, b, script, turns) == 0
    decreases |turns|
  {
    hide Fetched;
    if turns != [] {
      NeverFull(cfg, b, script, turns[..|turns| - 1]);
    }
  }

  /** What the account of bytes comes to at the end. */
  lemma {:induction false} FetchEnds(cfg: Config, b: Bounds, script: seq<Arrival>, turns: seq<Turn>)
    requires b.scratch > 0
    ensures var f := Fetched(cfg, b, script, turns);
            && f.got <= Content(script) && (f.eof ==> f.got == Content(script))
            && (f.verdict == Failed ==> PhaseNow(cfg, f.got, f.eof) == Error || (!f.eof && Refused(cfg, f.got)))
            && (f.eof ==>
                  (f.verdict == Completed || f.verdict == Failed) && EndsAs(cfg, f.got, PhaseOf(f.verdict)))
            && (f.verdict == Completed ==>
                  var r := Reading(cfg, f.got);
                  && (!f.eof ==> r.state.phase == Done)
                  && Entire(cfg, r.state.status, r.state.fields, |r.out|, f.eof))
            && (f.verdict != Failed ==> (PhaseNow(cfg, f.got, f.eof) == Done <==> f.verdict == Completed))
            && (f.verdict == SocketError ==> Breaks(script) && f.got == Content(script))
            && (f.verdict == Pending ==>
                  || f.got == Content(script)
                  || Times(Ticks(turns) - Quiets(script) - Fulls(cfg, b, script, turns), b.budget) <= |f.got|)
            && (!cfg.streaming ==> Fulls(cfg, b, script, turns) == 0)
  {
    hide Content, Quiets, Breaks, Reading, Fetched, Times, Ticks, Fulls, Refused, EndsAs, Entire;
    FetchedFacts(cfg, b, script, turns);
    var f := Fetched(cfg, b, script, turns);
    EndOfStream(cfg, f.got);
    DoneIsEntire(cfg, f.got, f.eof);
    assert [] + Content(script) == Content(script) && f.got + [] == f.got;
    TimesGrow(Ticks(turns) - Quiets(script) - Fulls(cfg, b, script, turns),
              Ticks(turns) - (Quiets(script) - Quiets(f.script)) - Fulls(cfg, b, script, turns), b.budget);
    if !cfg.streaming {
      NeverFull(cfg, b, script, turns);
    }
  }
}
