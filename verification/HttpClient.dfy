/** Whole buffered responses, fed in any segmentation of their stream. */
module HttpClient {
  import opened Basics
  import opened Bytes
  import opened Resumable
  import opened HttpWire
  import opened HttpEnds
  import opened HttpParser

  datatype Response = Response(phase: Phase, status: Option<int>, version: bytes, reason: bytes,
                               fields: seq<Field>, body: bytes)

  /** What a stream says, read in one piece; a response that failed has no body to speak of. */
  function Outcome(cfg: Config, stream: bytes, eof: bool): Response {
    var r := Reading(cfg, stream);
    var phase := if eof then AtEof(r.state) else r.state.phase;
    Response(phase, r.state.status, r.state.version, r.state.reason, r.state.fields,
             if phase == Error then [] else r.out)
  }

  /** After `got`, a feed of `chunk` stays within the cap on unparsed bytes. */
  predicate WithinCap(cfg: Config, got: bytes, chunk: bytes) {
    var r := Reading(cfg, got);
    Stopped(r.state) || r.state.phase == Body || chunk == [] || |r.rest| + |chunk| <= cfg.maxHeader
  }

  /** The cap is respected by each of the chunks. */
  predicate AllWithinCap(cfg: Config, chunks: seq<bytes>) {
    forall k :: 0 <= k < |chunks| ==> WithinCap(cfg, Flatten(chunks[..k]), chunks[k])
  }

  /** What is fed first, before any line is complete, may be as long as the cap and no longer. */
  lemma {:induction false} FirstWithinCapIff(cfg: Config, got: bytes, chunk: bytes)
    requires FindLine(got) == |got|
    ensures WithinCap(cfg, got, chunk) <==> chunk == [] || |got| + |chunk| <= cfg.maxHeader
  {
    hide ParseStep, NextStep, FindLine;
    StepIs(cfg, START, got);
    LineTaken(cfg, START, got);
    assert Reading(cfg, got).rest == got && Reading(cfg, got).state == START;
  }

  /** A buffered response fed in any segmentation: refused exactly when a feed passes the cap on unparsed bytes,
      and otherwise what the whole stream says.  When the connection is closed a response is over only if it was whole,
      or if its fields announced neither a transfer coding nor a length; one cut short anywhere is an error. */
  method Feeding(cfg: Config, capacity: nat, chunks: seq<bytes>, eof: bool) returns (result: Option<Response>)
    requires !cfg.streaming
    ensures result.Some? == AllWithinCap(cfg, chunks)
    ensures result.Some? ==> result.value == Outcome(cfg, Flatten(chunks), eof)
    ensures result.Some? && eof ==> EndsAs(cfg, Flatten(chunks), result.value.phase)
    ensures result.Some? && result.value.phase == Done ==>
              Entire(cfg, result.value.status, result.value.fields, |result.value.body|, eof)
  {
    hide Outcome, WithinCap, AllWithinCap, Flatten, OnCourse, EndsAs, Entire, AtEof, ResponseParser.Settled;
    var parser := new ResponseParser(cfg, capacity);
    var i := 0;
    NoneYet(cfg, chunks);
    while i < |chunks|
      invariant 0 <= i <= |chunks| && fresh(parser) && fresh(parser.body) && parser.cfg == cfg
      invariant parser.Valid() && parser.Settled() && parser.delivered == []
      invariant parser.received == Flatten(chunks[..i])
      invariant parser.tripped == !AllWithinCap(cfg, chunks[..i])
    {
      TripsBeyondCap(parser, chunks[i]);
      NextWithinCap(cfg, chunks, i);
      parser.Feed(chunks[i]);
      i := i + 1;
    }
    assert chunks[..|chunks|] == chunks;
    if parser.tripped {
      return None;
    }
    EndOfStream(cfg, Flatten(chunks));
    OutcomeEnds(cfg, Flatten(chunks), eof);
    var response := Report(parser, eof);
    result := Some(response);
  }

  lemma {:induction false} OutcomeEnds(cfg: Config, stream: bytes, eof: bool)
    ensures Outcome(cfg, stream, true).phase == AtEof(Reading(cfg, stream).state)
    ensures var o := Outcome(cfg, stream, eof);
            o.phase == Done ==> Entire(cfg, o.status, o.fields, |o.body|, eof)
  {
    hide Reading, AtEof, Entire;
    DoneIsEntire(cfg, stream, eof);
  }

  method Report(parser: ResponseParser, eof: bool) returns (response: Response)
    requires parser.Valid() && parser.Settled() && !parser.tripped && !parser.cfg.streaming
    modifies parser`state
    ensures response == Outcome(parser.cfg, parser.received, eof)
  {
    hide Reading, OnCourse, NextStep, ResponseParser.Bounded;
    parser.Buffered();
    parser.Agrees();
    if eof {
      parser.FeedEof();
    }
    var content := if parser.state == Error then [] else parser.body[parser.bodyRead..parser.bodyWrite];
    response := Response(parser.state, parser.statusCode, parser.version, parser.reason, parser.fields, content);
    assert [] + content == content;
  }

  lemma {:induction false} NoneYet(cfg: Config, chunks: seq<bytes>)
    ensures Flatten(chunks[..0]) == [] && AllWithinCap(cfg, chunks[..0])
  {
  }

  lemma {:induction false} TripsBeyondCap(parser: ResponseParser, chunk: bytes)
    requires parser.Valid() && parser.Settled() && !parser.overflowed
    ensures parser.readOffset <= |parser.buffer|
    ensures !parser.tripped ==> parser.Trips(chunk) == !WithinCap(parser.cfg, parser.received, chunk)
    ensures parser.tripped ==> !parser.Trips(chunk)
  {
    hide Reading, OnCourse, NextStep, ResponseParser.Bounded;
    if !parser.tripped {
      parser.Agrees();
    }
  }

  lemma {:induction false} NextWithinCap(cfg: Config, chunks: seq<bytes>, i: nat)
    requires i < |chunks|
    ensures AllWithinCap(cfg, chunks[..i + 1])
         == (AllWithinCap(cfg, chunks[..i]) && WithinCap(cfg, Flatten(chunks[..i]), chunks[i]))
    ensures Flatten(chunks[..i + 1]) == Flatten(chunks[..i]) + chunks[i]
  {
    hide WithinCap, Flatten;
    assert chunks[..i + 1] == chunks[..i] + [chunks[i]];
    FlattenAppend(chunks[..i], chunks[i]);
    var a, b := chunks[..i], chunks[..i + 1];
    assert forall k :: 0 <= k <= i ==> a[..k] == b[..k];
    assert a[..i] == a;
    assert b[i] == chunks[i];
    if AllWithinCap(cfg, b) {
      forall k | 0 <= k < i ensures WithinCap(cfg, Flatten(a[..k]), a[k]) {
        assert WithinCap(cfg, Flatten(b[..k]), b[k]);
      }
    }
    if AllWithinCap(cfg, a) && WithinCap(cfg, Flatten(a), chunks[i]) {
      forall k | 0 <= k <= i ensures WithinCap(cfg, Flatten(b[..k]), b[k]) {
        if k < i {
          assert WithinCap(cfg, Flatten(a[..k]), a[k]);
        }
      }
    }
  }
}
