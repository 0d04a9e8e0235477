/** Where responses end: what the fields of a response say about a body that is over, and what is left of one that was
    cut short. */
module HttpEnds {
  import opened Basics
  import opened Bytes
  import opened Resumable
  import opened HttpWire

  // ----- The framing a parser stands in ---------------------------------------------------------------

  /** The fields name a transfer coding, which is "chunked". */
  predicate Chunked(fields: seq<Field>) {
    && Value(fields, TRANSFER_ENCODING).Some?
    && Lower(WithoutSpaces(Value(fields, TRANSFER_ENCODING).value)) == CHUNKED
  }

  /** The fields announce this length, and no transfer coding. */
  predicate Announced(cfg: Config, fields: seq<Field>, length: int) {
    && Value(fields, TRANSFER_ENCODING).None? && Value(fields, CONTENT_LENGTH).Some?
    && cfg.intOf(Value(fields, CONTENT_LENGTH).value) == Some(length)
  }

  /** The fields announce neither: the body lasts until the connection is closed. */
  predicate Unannounced(fields: seq<Field>) {
    Value(fields, TRANSFER_ENCODING).None? && Value(fields, CONTENT_LENGTH).None?
  }

  predicate Bodiless(status: Option<int>) { status == Some(204) || status == Some(304) }

  /** What a parser's fields say, by the phase it is in. */
  predicate Framed(cfg: Config, p: Parse) {
    match p.phase
    case Status => p.remaining == -1 && p.chunk == p.size == 0
    case Headers => p.remaining == -1 && p.chunk == p.size == 0
    case Body =>
      if p.remaining < 0 then Unannounced(p.fields)
      else p.remaining > 0 && Announced(cfg, p.fields, p.size + p.remaining)
    case Done => (Bodiless(p.status) && p.size == 0) || Chunked(p.fields) || Announced(cfg, p.fields, p.size)
    case Error => true
    case ChunkData => Chunked(p.fields)
    case _ => Chunked(p.fields) && p.chunk == 0
  }

  lemma {:induction false} BodyFramed(cfg: Config, p: Parse)
    requires p.remaining == -1 && p.chunk == p.size == 0
    ensures Framed(cfg, EnterBody(cfg, p)) && (EnterBody(cfg, p).phase != Error ==> EnterBody(cfg, p).size == 0)
  {
    hide Value, Lower, WithoutSpaces;
  }

  lemma {:induction false} LineFramed(cfg: Config, p: Parse, line: bytes)
    requires Framed(cfg, p) && TakesLines(p)
    ensures var q := LineStep(cfg, p, line);
            Framed(cfg, q) && (q.phase != Error ==> q.size == p.size)
  {
    if p.phase == Headers && line == [] {
      BodyFramed(cfg, p);
    }
    hide Value, Lower, WithoutSpaces, EnterBody, Strip, AddField, Find;
  }

  lemma {:induction false} StepFramed(cfg: Config, p: Parse, s: bytes)
    requires Framed(cfg, p) && NextStep(cfg, p, s).Take?
    ensures var t := NextStep(cfg, p, s);
            Framed(cfg, t.next) && (t.next.phase != Error ==> t.next.size == p.size + |t.out|)
  {
    if TakesLines(p) {
      LineFramed(cfg, p, s[..FindLine(s)]);
    }
    hide LineStep, FindLine, Value, Lower, WithoutSpaces;
  }

  /** However far a response is read, its fields say how the body read so far ends, and how long it is. */
  lemma {:induction false} RunFramed(cfg: Config, p: Parse, s: bytes)
    requires Framed(cfg, p)
    ensures var r := Run(ParseStep(cfg), p, s);
            Framed(cfg, r.state) && (r.state.phase != Error ==> r.state.size == p.size + |r.out|)
    decreases |s|
  {
    hide NextStep, Framed;
    StepIs(cfg, p, s);
    if Enabled(ParseStep(cfg), p, s) {
      var t := NextStep(cfg, p, s);
      StepFramed(cfg, p, s);
      RunTakes(ParseStep(cfg), p, s);
      RunFramed(cfg, t.next, s[t.count..]);
      if t.next.phase == Error {
        StoppedRuns(cfg, t.next, s[t.count..]);
      }
    }
  }

  // ----- Streams cut short -------------------------------------------------------------------------------

  /** A stream that is one response with nothing after it. */
  predicate Whole(cfg: Config, stream: bytes) {
    var r := Reading(cfg, stream);
    r.state.phase == Done && r.rest == []
  }

  /** A body that lasts until the connection is closed is never over before. */
  lemma {:induction false} NeverDone(cfg: Config, p: Parse, s: bytes)
    requires p.phase == Body && p.remaining < 0
    ensures Run(ParseStep(cfg), p, s).state.phase != Done
    decreases |s|
  {
    hide ParseStep, Run;
    if s == [] {
      StepIs(cfg, p, s);
      BytesWait(cfg, p);
      StoppedRun(ParseStep(cfg), p, s);
    } else {
      OneByte(cfg, p, s);
      var q := BodyByte(cfg, p);
      if q.phase == Error {
        StoppedRuns(cfg, q, s[1..]);
      } else {
        NeverDone(cfg, q, s[1..]);
      }
    }
  }

  /** Of a response cut short nothing has gone wrong yet, but it is not over, and does not last until the connection is
      closed either: when that is closed it has failed. */
  lemma {:induction false} CutShort(cfg: Config, part: bytes, whole: bytes)
    requires Whole(cfg, whole) && part < whole
    ensures var p := Reading(cfg, part).state;
            !Stopped(p) && !(p.phase == Body && p.remaining < 0) && AtEof(p) == Error
  {
    hide ParseStep, Run, Stable;
    var more := whole[|part|..];
    assert whole == part + more;
    ParseStepStable(cfg);
    RunResumes(ParseStep(cfg), START, part, more);
    var r := Reading(cfg, part);
    if Stopped(r.state) {
      StoppedRuns(cfg, r.state, r.rest + more);
    } else if r.state.phase == Body && r.state.remaining < 0 {
      NeverDone(cfg, r.state, r.rest + more);
    }
  }

  /** Of a stream that is over when the connection is closed, the response is whole, or its body lasted until then. */
  lemma {:induction false} OverAtEof(cfg: Config, stream: bytes)
    ensures var p := Reading(cfg, stream).state;
            && (AtEof(p) == Done <==> p.phase == Done || (p.phase == Body && Unannounced(p.fields)))
            && (AtEof(p) == Done || AtEof(p) == Error)
  {
    hide ParseStep, Run, Value, Lower, WithoutSpaces;
    RunFramed(cfg, START, stream);
  }

  /** What the end of the connection makes of a stream: the response is over if it was whole, or if its fields announced
      neither a transfer coding nor a length; it has failed otherwise, in particular if it was cut short. */
  ghost predicate EndsAs(cfg: Config, stream: bytes, phase: Phase) {
    var p := Reading(cfg, stream).state;
    && (phase == Done || phase == Error)
    && (phase == Done <==> p.phase == Done || (p.phase == Body && Unannounced(p.fields)))
    && forall whole :: Whole(cfg, whole) && stream < whole ==> phase == Error
  }

  /** What the fields say of a body of `size` bytes that is over: there is none, or it came in chunks, or as announced,
      or it lasted until the connection was closed. */
  predicate Entire(cfg: Config, status: Option<int>, fields: seq<Field>, size: nat, closed: bool) {
    Bodiless(status) || Chunked(fields) || Announced(cfg, fields, size) || (closed && Unannounced(fields))
  }

  lemma {:induction false} DoneIsEntire(cfg: Config, stream: bytes, closed: bool)
    ensures var r := Reading(cfg, stream);
            (if closed then AtEof(r.state) else r.state.phase) == Done ==>
              Entire(cfg, r.state.status, r.state.fields, |r.out|, closed)
  {
    hide ParseStep, Run, Value, Lower, WithoutSpaces;
    RunFramed(cfg, START, stream);
  }

  lemma {:induction false} EndOfStream(cfg: Config, stream: bytes)
    ensures EndsAs(cfg, stream, AtEof(Reading(cfg, stream).state))
  {
    hide Reading, Unannounced, Whole;
    OverAtEof(cfg, stream);
    forall whole | Whole(cfg, whole) && stream < whole ensures AtEof(Reading(cfg, stream).state) == Error {
      CutShort(cfg, stream, whole);
    }
  }

  /** A head that announces a length, followed by less than that: every such stream is cut short. */
  lemma {:induction false} ShortOfLength(cfg: Config, head: bytes, part: bytes, length: int)
    requires var r := Reading(cfg, head);
             && r.rest == r.out == [] && r.state.phase == Body && Announced(cfg, r.state.fields, length)
    requires |part| < length
    ensures AtEof(Reading(cfg, head + part).state) == Error
  {
    hide ParseStep, Run, Value, Lower, WithoutSpaces, Stable;
    var r := Reading(cfg, head);
    RunFramed(cfg, START, head);
    var body := part + seq(length - |part|, i => 0 as byte);
    ParseStepStable(cfg);
    RunResumes(ParseStep(cfg), START, head, body);
    assert [] + body == body;
    SizedReads(cfg, r.state, body);
    CutShort(cfg, head + part, head + body);
  }
}
