/** A streamed response from the server's body source to the client's body: head, framing and parsing together. */
module HttpExchange {
  import opened Basics
  import opened Bytes
  import opened Resumable
  import opened HttpWire
  import opened HttpEnds
  import opened HttpStream
  import opened HttpHead
  import opened HttpBody
  import opened HttpClient

  // ----- Bodies -----------------------------------------------------------------------------------------

  /** The state of a parser that has just read a head announcing a body. */
  lemma {:induction false} BodyEntered(cfg: Config, p: Parse, contentLength: Option<int>)
    requires p.status.Some? && !(100 <= p.status.value < 200 && p.status.value != 101)
    requires p.status.value != 204 && p.status.value != 304 && Announces(cfg, p.fields, contentLength)
    requires contentLength.Some? ==> 0 <= contentLength.value && (cfg.streaming || contentLength.value <= cfg.maxBody)
    ensures EnterBody(cfg, p)
         == var q := p.(complete := true);
            if contentLength.None? then q.(phase := ChunkSize)
            else q.(remaining := contentLength.value, phase := if contentLength.value == 0 then Done else Body)
  {
    hide Value, Lower, WithoutSpaces, Strip;
    ChunkedFolds();
  }

  /** Any response the server streams is read as its status, reason, fields and exactly the source's bytes. */
  lemma {:induction false} StreamedReads(cfg: Config, code: bytes, reason: bytes, status: int, fields: seq<Field>,
                                         contentLength: Option<int>, parts: seq<bytes>)
    requires Plain(code) && Plain(reason) && Find(code, SPACE) == |code| && cfg.intOf(code) == Some(status)
    requires AllSendable(fields) && Distinct(fields)
    requires Announces(cfg, Kept(fields), contentLength) && PlainHex(cfg)
    requires !(100 <= status < 200 && status != 101) && status != 204 && status != 304
    requires forall i :: 0 <= i < |parts| ==> parts[i] != []
    requires cfg.streaming || |Flatten(parts)| <= cfg.maxBody
    requires contentLength.Some? ==> contentLength.value == |Flatten(parts)|
    ensures var r := Reading(cfg, Head(code, reason, fields) + Wire(contentLength, parts, true));
            && r.state.phase == Done && r.state.status == Some(status) && r.state.version == VERSION
            && r.state.reason == reason && r.state.fields == Kept(fields)
            && r.out == Flatten(parts) && r.rest == []
  {
    hide ParseStep, Run, Kept, Distinct, EnterBody, Sendable, Plain, Find, Head, Chunks, Flatten, PlainHex, Announces;
    var p := START.(status := Some(status), version := VERSION, reason := reason, fields := Kept(fields),
                    phase := Headers);
    var body := Wire(contentLength, parts, true);
    HeadReads(cfg, code, reason, status, fields, body);
    BodyEntered(cfg, p, contentLength);
    if contentLength.None? {
      ChunkedRoundTrip(cfg, p.(complete := true, phase := ChunkSize), parts, []);
      assert body + [] == body;
    } else {
      var q := p.(complete := true, remaining := |body|);
      if body == [] {
        StoppedRuns(cfg, q.(phase := Done), body);
      } else {
        SizedReads(cfg, q.(phase := Body), body);
      }
    }
  }

  // ----- Whole exchanges -----------------------------------------------------------------------------------

  /** Room for the source's bytes in a staging buffer of `total` bytes; below 1 the server refuses to chunk. */
  function FillCapacity(contentLength: Option<int>, total: nat): int {
    if contentLength.Some? then total else total - (|Hex(total)| + 2) - 2
  }

  predicate Framable(contentLength: Option<int>, total: nat) {
    contentLength.Some? || FillCapacity(contentLength, total) >= 1
  }

  function FramerOf(contentLength: Option<int>, total: nat): Framer
    requires Framable(contentLength, total)
  {
    Framer(contentLength, FillCapacity(contentLength, total))
  }

  /** Where a response stands after so many ticks. */
  function Delivered(contentLength: Option<int>, total: nat, budget: nat, ticks: nat, sends: seq<Send>,
                     answers: seq<Answer>): Standing
    requires Framable(contentLength, total) && FitsView(answers, FillCapacity(contentLength, total))
  {
    Served(FramerOf(contentLength, total), Standing(UNSENT, InProgress, sends, answers), ticks, budget)
  }

  /** A source that keeps to its contract up to the end of the body, a socket that is not lost and takes something often
      enough, and a tick for every budget's worth of bytes and every time one of the two has nothing. */
  predicate Timely(contentLength: Option<int>, total: nat, budget: nat, ticks: nat, sends: seq<Send>,
                   answers: seq<Answer>)
    requires Framable(contentLength, total) && FitsView(answers, FillCapacity(contentLength, total))
  {
    var size := |Wire(contentLength, Supplied(answers, FillCapacity(contentLength, total)), true)|;
    && budget > 0 && Reliable(sends) && Takings(sends) >= size
    && Sane(FramerOf(contentLength, total), 0, answers) && Closes(answers)
    && ticks > size / budget + Idle(sends) + Stalls(answers)
  }

  /** What can be said of any response before it is served. */
  lemma {:induction false} DeliveredSound(contentLength: Option<int>, total: nat, budget: nat, ticks: nat,
                                          sends: seq<Send>, answers: seq<Answer>)
    requires Framable(contentLength, total) && FitsView(answers, FillCapacity(contentLength, total))
    ensures var t := Delivered(contentLength, total, budget, ticks, sends, answers);
            var all := Supplied(answers, FillCapacity(contentLength, total));
            && t.st.fills <= all && t.st.emitted <= Wire(contentLength, t.st.fills, true)
            && (forall i :: 0 <= i < |t.st.fills| ==> t.st.fills[i] != [])
            && (t.verdict == AllSent ==>
                  && t.st.fills == all && t.st.emitted == Wire(contentLength, all, true)
                  && (contentLength.Some? ==> contentLength.value == |Flatten(all)|))
            && (t.verdict == GivenUp ==> !Reliable(sends) || !Sane(FramerOf(contentLength, total), 0, answers))
            && (Timely(contentLength, total, budget, ticks, sends, answers) ==> t.verdict == AllSent)
  {
    hide Served, Wire, Supplied, FillCapacity, Sane, Reliable, Takings, Idle, Stalls, Closes, Flatten;
    var f, turn := FramerOf(contentLength, total), Standing(UNSENT, InProgress, sends, answers);
    UnsentSound(f);
    NothingAhead(f, answers);
    ServedSound(f, turn, ticks, budget);
    if Reliable(sends) && Sane(f, 0, answers) {
      ServedGivenUp(f, turn, ticks, budget);
    }
    if Timely(contentLength, total, budget, ticks, sends, answers) {
      ServedFinishes(f, turn, ticks, budget);
    }
    var t := Served(f, turn, ticks, budget);
    if t.verdict == AllSent {
      assert t.st.emitted + [] == t.st.emitted && t.st.fills + [] == t.st.fills;
    }
  }

  lemma {:induction false} UnsentSound(f: Framer)
    ensures Sound(f, UNSENT) && |Flatten(UNSENT.fills)| == 0
  {
    assert Chunks([]) == [];
  }

  lemma {:induction false} NothingAhead(f: Framer, answers: seq<Answer>)
    requires FitsView(answers, f.capacity)
    ensures Ahead(f, UNSENT, answers) == Supplied(answers, f.capacity)
    ensures Left(f, UNSENT, answers) == |Wire(f.contentLength, Supplied(answers, f.capacity), true)|
  {
    hide Wire, Supplied;
    assert [] + Supplied(answers, f.capacity) == Supplied(answers, f.capacity);
  }

  lemma {:induction false} DeliveredFrom(contentLength: Option<int>, total: nat, budget: nat, ticks: nat,
                                         sends: seq<Send>, answers: seq<Answer>)
    requires Framable(contentLength, total) ==> FitsView(answers, FillCapacity(contentLength, total))
    ensures Framable(contentLength, total) ==>
              Delivered(contentLength, total, budget, ticks, sends, answers)
              == Served(FramerOf(contentLength, total), Standing(UNSENT, InProgress, sends, answers), ticks, budget)
  {
    hide Served, FitsView, FillCapacity;
  }

  /** The server's side of a response over any number of ticks: refused when the buffer cannot frame a chunk; otherwise
      the socket has accepted what the fold of the ticks over its answers and the source's says: a beginning of the
      framed pieces, all of them once it finished, which it does in time with a source and a socket to rely on.  Only a
      lost socket or a source that misbehaves makes the server give up. */
  method Serve(contentLength: Option<int>, total: nat, budget: nat, ticks: nat, sends: seq<Send>, answers: seq<Answer>)
    returns (sent: bytes, verdict: Option<Sending>, ghost fills: seq<bytes>)
    requires Framable(contentLength, total) ==> FitsView(answers, FillCapacity(contentLength, total))
    ensures verdict.Some? <==> Framable(contentLength, total)
    ensures verdict.Some? ==>
              var t := Delivered(contentLength, total, budget, ticks, sends, answers);
              verdict == Some(t.verdict) && sent == t.st.emitted && fills == t.st.fills
    ensures verdict.Some? ==>
              fills <= Supplied(answers, FillCapacity(contentLength, total)) && sent <= Wire(contentLength, fills, true)
    ensures forall i :: 0 <= i < |fills| ==> fills[i] != []
    ensures verdict == Some(AllSent) ==>
              && fills == Supplied(answers, FillCapacity(contentLength, total))
              && sent == Wire(contentLength, fills, true)
              && (contentLength.Some? ==> contentLength.value == |Flatten(fills)|)
    ensures verdict == Some(GivenUp) ==> !Reliable(sends) || !Sane(FramerOf(contentLength, total), 0, answers)
    ensures verdict.Some? && Timely(contentLength, total, budget, ticks, sends, answers) ==> verdict == Some(AllSent)
  {
    hide Flatten, Wire, Supplied, Served, Ticked, Sane, Reliable, Timely, Delivered, Framable, FillCapacity;
    var stream := NewStream(contentLength, total);
    if stream == null {
      return [], None, [];
    }
    DeliveredFrom(contentLength, total, budget, ticks, sends, answers);
    var outcome := ServeTicks(stream, budget, ticks, sends, answers);
    DeliveredSound(contentLength, total, budget, ticks, sends, answers);
    sent, verdict, fills := stream.emitted, Some(outcome), stream.fills;
  }

  /** A stream over a buffer of its own, of which the framing takes its part; null when that leaves no room. */
  method NewStream(contentLength: Option<int>, total: nat) returns (stream: StreamState?)
    ensures stream == null <==> !Framable(contentLength, total)
    ensures stream != null ==>
              && fresh(stream) && fresh(stream.buffer) && stream.Valid() && stream.Now() == UNSENT
              && stream.contentLength == contentLength && stream.capacity == FillCapacity(contentLength, total)
  {
    hide Hex, Flatten, Wire;
    var buffer := new byte[total](_ => 0);
    var reserve := 0;
    if contentLength.None? {
      var digits := HexLength(total);
      reserve := digits + 2;
      if total - reserve - 2 < 1 {
        return null;
      }
    }
    var capacity := if contentLength.None? then total - reserve - 2 else total;
    stream := new StreamState(contentLength, buffer, reserve, capacity);
  }

  method ServeTicks(stream: StreamState, budget: nat, ticks: nat, sends: seq<Send>, answers: seq<Answer>)
    returns (outcome: Sending)
    requires stream.Valid() && FitsView(answers, stream.capacity)
    modifies stream, stream.buffer
    ensures stream.Shape()
    ensures var t := Served(stream.By(), Standing(old(stream.Now()), InProgress, sends, answers), ticks, budget);
            outcome == t.verdict && stream.Now() == t.st
  {
    hide Served, Ticked, FitsView, StreamState.Now;
    var sends', answers', i := sends, answers, 0;
    outcome := InProgress;
    ghost var f, start := stream.By(), Standing(stream.Now(), InProgress, sends, answers);
    ServedStep(f, start, 0, budget);
    while i < ticks && outcome == InProgress
      invariant 0 <= i <= ticks && stream.Shape() && FitsView(answers', stream.capacity)
      invariant outcome != GivenUp ==> stream.Valid()
      invariant Standing(stream.Now(), outcome, sends', answers') == Served(f, start, i, budget)
    {
      ServedMore(f, start, i, budget);
      outcome, sends', answers' := DriveStreamBody(stream, budget, sends', answers');
      TickLeavesFitting(f, start, i + 1, budget);
      i := i + 1;
    }
    ServedMore(f, start, i, budget);
  }

  lemma {:induction false} TickLeavesFitting(f: Framer, turn: Standing, ticks: nat, budget: nat)
    requires FitsView(turn.answers, f.capacity)
    ensures FitsView(Served(f, turn, ticks, budget).answers, f.capacity)
  {
    hide Served;
    ServedMore(f, turn, ticks, budget);
  }

  /** Cut a stream where the network happens to cut it. */
  function Cut(s: bytes, sizes: seq<nat>): (chunks: seq<bytes>)
    ensures Flatten(chunks) == s
  {
    if sizes == [] || |s| <= sizes[0] then
      assert Flatten([s]) == s + Flatten([]);
      [s]
    else
      assert s[..sizes[0]] + s[sizes[0]..] == s;
      [s[..sizes[0]]] + Cut(s[sizes[0]..], sizes[1..])
  }

  /** From the server's body source to the client's response: the server has sent everything when the fold of its ticks
      says so, in particular in time with a source and a socket to rely on; and then a client that is fed the bytes in
      any segmentation within its cap has the status, the fields the server and the application set, and exactly the
      body source's bytes. */
  method Exchange(cfg: Config, code: bytes, reason: bytes, status: int, own: seq<Field>, contentLength: Option<int>,
                  lengthText: bytes, total: nat, budget: nat, ticks: nat, sends: seq<Send>, answers: seq<Answer>,
                  capacity: nat, sizes: seq<nat>)
    returns (done: bool, response: Option<Response>, ghost fills: seq<bytes>)
    requires !cfg.streaming && PlainHex(cfg)
    requires Plain(code) && Plain(reason) && Find(code, SPACE) == |code| && cfg.intOf(code) == Some(status)
    requires AllSendable(own) && LeavesFraming(cfg, contentLength, own)
    requires contentLength.Some? ==> Plain(lengthText) && cfg.intOf(Strip(lengthText)) == contentLength
    requires !(100 <= status < 200 && status != 101) && status != 204 && status != 304
    requires Framable(contentLength, total)
    requires FitsView(answers, FillCapacity(contentLength, total))
    requires |Flatten(Supplied(answers, FillCapacity(contentLength, total)))| <= cfg.maxBody
    ensures done <==> Delivered(contentLength, total, budget, ticks, sends, answers).verdict == AllSent
    ensures Timely(contentLength, total, budget, ticks, sends, answers) ==> done
    ensures done && response.Some? ==>
              response.value == Response(Done, Some(status), VERSION, reason,
                                         Kept(StreamFields(contentLength, lengthText, own)),
                                         Flatten(Supplied(answers, FillCapacity(contentLength, total))))
    ensures done ==> (response.Some? <==>
              AllWithinCap(cfg, Cut(Head(code, reason, StreamFields(contentLength, lengthText, own))
                + Wire(contentLength, Supplied(answers, FillCapacity(contentLength, total)), true), sizes)))
  {
    hide Hex, Flatten, Wire, Supplied, Reading, Head, Kept, Announces, PlainHex, Distinct, Find, Plain, Sendable,
      FitsView, AllWithinCap, FillCapacity, Cut, StreamFields, LeavesFraming, AllSendable, Strip, Served, Timely;
    var sent, verdict;
    sent, verdict, fills := Serve(contentLength, total, budget, ticks, sends, answers);
    done, response := verdict == Some(AllSent), None;
    if done {
      var fields := StreamFields(contentLength, lengthText, own);
      var stream := Head(code, reason, fields) + sent;
      StreamFieldsAreSendable(contentLength, lengthText, own);
      FramingAnnouncesIff(cfg, contentLength, lengthText, own);
      StreamedReads(cfg, code, reason, status, fields, contentLength, fills);
      response := Feeding(cfg, capacity, Cut(stream, sizes), false);
    }
  }

  /** The connection is lost after some bytes of a streamed response, be it in the head or in the body: a client that
      was fed them in any segmentation within its cap, and then the end, ends in an error. */
  method Interrupted(cfg: Config, code: bytes, reason: bytes, status: int, fields: seq<Field>,
                     contentLength: Option<int>, parts: seq<bytes>, capacity: nat, cut: nat, sizes: seq<nat>)
    returns (response: Option<Response>)
    requires !cfg.streaming && PlainHex(cfg)
    requires Plain(code) && Plain(reason) && Find(code, SPACE) == |code| && cfg.intOf(code) == Some(status)
    requires AllSendable(fields) && Distinct(fields) && Announces(cfg, Kept(fields), contentLength)
    requires !(100 <= status < 200 && status != 101) && status != 204 && status != 304
    requires forall i :: 0 <= i < |parts| ==> parts[i] != []
    requires |Flatten(parts)| <= cfg.maxBody && (contentLength.Some? ==> contentLength.value == |Flatten(parts)|)
    requires cut < |Head(code, reason, fields) + Wire(contentLength, parts, true)|
    ensures response.Some? ==> response.value.phase == Error
    ensures var stream := Head(code, reason, fields) + Wire(contentLength, parts, true);
            response.Some? <==> AllWithinCap(cfg, Cut(stream[..cut], sizes))
  {
    hide Hex, Flatten, Wire, Reading, Head, Kept, Announces, PlainHex, Distinct, Find, Plain, Sendable, AllWithinCap,
      Cut, AllSendable, Unannounced, Entire;
    var stream := Head(code, reason, fields) + Wire(contentLength, parts, true);
    StreamedReads(cfg, code, reason, status, fields, contentLength, parts);
    assert Whole(cfg, stream) && stream[..cut] < stream;
    response := Feeding(cfg, capacity, Cut(stream[..cut], sizes), true);
  }
}
