/** HTTP/1.1 responses as the client reads them: lines, header fields and the reference step of the parser. */
module HttpWire {
  import opened Basics
  import opened Bytes
  import opened Resumable

  const CR: byte := 13
  const LF: byte := 10
  const SPACE: byte := 32
  const COLON: byte := 58
  const SEMICOLON: byte := 59

  // ----- Text -------------------------------------------------------------------------

  /** Position of the first occurrence of `b`, or the length. */
  function Find(s: bytes, b: byte): (i: nat)
    ensures i <= |s| && (i < |s| ==> s[i] == b)
    ensures forall j :: 0 <= j < i ==> s[j] != b
  {
    if s == [] || s[0] == b then 0 else Find(s[1..], b) + 1
  }

  /** Position of the first CRLF, or the length when there is none. */
  function FindLine(s: bytes): (i: nat)
    ensures i <= |s| && (i < |s| ==> i + 1 < |s| && s[i] == CR && s[i + 1] == LF)
  {
    if |s| < 2 then |s|
    else if s[0] == CR && s[1] == LF then 0
    else FindLine(s[1..]) + 1
  }

  lemma {:induction false} FindLineStable(s: bytes, more: bytes)
    requires FindLine(s) < |s|
    ensures FindLine(s + more) == FindLine(s)
  {
    if !(s[0] == CR && s[1] == LF) {
      assert (s + more)[1..] == s[1..] + more;
      FindLineStable(s[1..], more);
    }
  }

  /** A line completed by later bytes ends among them. */
  lemma {:induction false} FindLineLate(s: bytes, more: bytes)
    requires FindLine(s) == |s|
    ensures |s| <= FindLine(s + more) + 2
  {
    if |s| >= 2 {
      assert (s + more)[1..] == s[1..] + more;
      FindLineLate(s[1..], more);
    }
  }

  /** A line without CRLF inside is found where it ends. */
  lemma {:induction false} FindLineAfter(line: bytes, rest: bytes)
    requires forall i :: 0 <= i < |line| ==> line[i] != CR
    ensures FindLine(line + [CR, LF] + rest) == |line|
  {
    var s := line + [CR, LF] + rest;
    if line != [] {
      assert s[1..] == line[1..] + [CR, LF] + rest;
      FindLineAfter(line[1..], rest);
    }
  }

  predicate Ascii(s: bytes) { forall i :: 0 <= i < |s| ==> s[i] < 128 }

  /** The characters Python's str.strip removes from ASCII text. */
  predicate IsSpace(b: byte) { 9 <= b <= 13 || 28 <= b <= 32 }

  function Strip(s: bytes): bytes {
    if s != [] && IsSpace(s[0]) then Strip(s[1..])
    else if s != [] && IsSpace(s[|s| - 1]) then Strip(s[..|s| - 1])
    else s
  }

  function LowerByte(b: byte): byte { if 65 <= b <= 90 then b + 32 else b }

  function Lower(s: bytes): bytes { seq(|s|, i requires 0 <= i < |s| => LowerByte(s[i])) }

  function WithoutSpaces(s: bytes): bytes {
    if s == [] then []
    else if s[0] == SPACE then WithoutSpaces(s[1..])
    else [s[0]] + WithoutSpaces(s[1..])
  }

  // ----- Header fields -------------------------------------------------------------------

  datatype Field = Field(name: bytes, value: bytes)

  /** CaseInsensitiveDict.add: a repeated name joins its values with a comma and a space. */
  function AddField(fields: seq<Field>, name: bytes, value: bytes): (r: seq<Field>)
    ensures Value(r, name).Some?
  {
    if fields == [] then [Field(name, value)]
    else if Lower(fields[0].name) == Lower(name) then
      [Field(fields[0].name, fields[0].value + [44, SPACE] + value)] + fields[1..]
    else [fields[0]] + AddField(fields[1..], name, value)
  }

  function Value(fields: seq<Field>, name: bytes): Option<bytes> {
    if fields == [] then None
    else if Lower(fields[0].name) == Lower(name) then Some(fields[0].value)
    else Value(fields[1..], name)
  }

  /** "transfer-encoding" */
  const TRANSFER_ENCODING: bytes :=
    [116, 114, 97, 110, 115, 102, 101, 114, 45, 101, 110, 99, 111, 100, 105, 110, 103]

  /** "content-length" */
  const CONTENT_LENGTH: bytes := [99, 111, 110, 116, 101, 110, 116, 45, 108, 101, 110, 103, 116, 104]

  /** "chunked" */
  const CHUNKED: bytes := [99, 104, 117, 110, 107, 101, 100]

  /** "HTTP/" */
  const HTTP_SLASH: bytes := [72, 84, 84, 80, 47]

  // ----- The parser's state and step ---------------------------------------------------------

  datatype Phase = Status | Headers | Body | ChunkSize | ChunkData | ChunkTrailer | Done | Error

  /** The limits a parser is built with, and the runtime's conversions of decimal and hexadecimal text. */
  datatype Config = Config(maxBody: nat, maxHeader: nat, streaming: bool,
                           intOf: bytes -> Option<int>, hexOf: bytes -> Option<int>)

  /** `remaining` counts a Content-Length down and is -1 otherwise; `size` is the length of the body decoded so far. */
  datatype Parse = Parse(phase: Phase, status: Option<int>, reason: bytes, version: bytes, fields: seq<Field>,
                         complete: bool, remaining: int, chunk: nat, size: nat)

  const START: Parse := Parse(Status, None, [], [], [], false, -1, 0, 0)

  /** On failure only what the response said so far is kept; counters mean nothing any more. */
  function Failed(p: Parse): Parse { p.(phase := Error, remaining := -1, chunk := 0, size := 0) }

  function StatusLine(cfg: Config, p: Parse, line: bytes): Parse {
    if !Ascii(line) || Find(line, SPACE) == |line| then Failed(p)
    else
      var version := line[..Find(line, SPACE)];
      var tail := line[Find(line, SPACE) + 1..];
      var code := tail[..Find(tail, SPACE)];
      var reason := if Find(tail, SPACE) < |tail| then tail[Find(tail, SPACE) + 1..] else [];
      if !(HTTP_SLASH <= version) then Failed(p)
      else match cfg.intOf(code)
           case None => Failed(p)
           case Some(status) => p.(status := Some(status), version := version, reason := reason, phase := Headers)
  }

  function HeaderLine(cfg: Config, p: Parse, line: bytes): Parse {
    if !Ascii(line) then Failed(p)
    else if line == [] then EnterBody(cfg, p)
    else
      var colon := Find(line, COLON);
      if colon == |line| || colon == 0 then Failed(p)
      else p.(fields := AddField(p.fields, line[..colon], Strip(line[colon + 1..])))
  }

  function SizedBody(cfg: Config, p: Parse, announced: bytes): Parse {
    match cfg.intOf(announced)
    case None => Failed(p)
    case Some(length) =>
      if length < 0 || (length > cfg.maxBody && !cfg.streaming) then Failed(p)
      else p.(remaining := length, phase := if length == 0 then Done else Body)
  }

  function EnterBody(cfg: Config, p: Parse): Parse {
    var status := if p.status.Some? then p.status.value else 0;
    if 100 <= status < 200 && status != 101 then
      p.(status := None, reason := [], version := [], fields := [], phase := Status)
    else
      var q := p.(complete := true);
      if status == 204 || status == 304 then q.(phase := Done)
      else FramedBody(cfg, q)
  }

  /** The framing the fields announce. */
  function FramedBody(cfg: Config, p: Parse): Parse {
    if Value(p.fields, TRANSFER_ENCODING).Some? then
      if Lower(WithoutSpaces(Value(p.fields, TRANSFER_ENCODING).value)) != CHUNKED then Failed(p)
      else p.(phase := ChunkSize)
    else if Value(p.fields, CONTENT_LENGTH).Some? then
      SizedBody(cfg, p, Value(p.fields, CONTENT_LENGTH).value)
    else p.(remaining := -1, phase := Body)
  }

  function SizeLine(cfg: Config, p: Parse, line: bytes): Parse {
    if !Ascii(line) then Failed(p)
    else
      var text := Strip(line[..Find(line, SEMICOLON)]);
      if text == [] then Failed(p)
      else match cfg.hexOf(text)
           case None => Failed(p)
           case Some(n) =>
             if n < 0 || (!cfg.streaming && p.size + n > cfg.maxBody) then Failed(p)
             else if n == 0 then p.(phase := ChunkTrailer)
             else p.(chunk := n, phase := ChunkData)
  }

  predicate TakesBytes(p: Parse) {
    (p.phase == Body && p.remaining != 0) || (p.phase == ChunkData && p.chunk > 0)
  }

  /** One byte of body arrives. */
  function BodyByte(cfg: Config, p: Parse): Parse
    requires TakesBytes(p)
  {
    if p.phase == ChunkData then p.(chunk := p.chunk - 1, size := p.size + 1)
    else if p.remaining > 0 then
      p.(remaining := p.remaining - 1, size := p.size + 1, phase := if p.remaining == 1 then Done else Body)
    else if !cfg.streaming && p.size + 1 > cfg.maxBody then Failed(p)
    else p.(size := p.size + 1)
  }

  function ChunkEnd(p: Parse, a: byte, b: byte): Parse {
    if a == CR && b == LF then p.(phase := ChunkSize) else Failed(p)
  }

  function LineStep(cfg: Config, p: Parse, line: bytes): Parse {
    match p.phase
    case Status => StatusLine(cfg, p, line)
    case Headers => HeaderLine(cfg, p, line)
    case ChunkSize => SizeLine(cfg, p, line)
    case _ => if line == [] then p.(phase := Done) else p
  }

  predicate TakesLines(p: Parse) {
    p.phase == Status || p.phase == Headers || p.phase == ChunkSize || p.phase == ChunkTrailer
  }

  /** The reference parser: lines whole, body one byte at a time. */
  function NextStep(cfg: Config, p: Parse, s: bytes): Step<Parse, byte> {
    if TakesLines(p) then
      if FindLine(s) == |s| then Wait
      else Take(LineStep(cfg, p, s[..FindLine(s)]), FindLine(s) + 2, [])
    else if TakesBytes(p) then
      if s == [] then Wait
      else
        var q := BodyByte(cfg, p);
        Take(q, 1, if q.phase == Error then [] else [s[0]])
    else if p.phase == ChunkData then
      if |s| < 2 then Wait else Take(ChunkEnd(p, s[0], s[1]), 2, [])
    else Wait
  }

  function ParseStep(cfg: Config): Stepper<Parse, byte> {
    (p: Parse, s: bytes) => NextStep(cfg, p, s)
  }

  lemma {:induction false} ParseStepStable(cfg: Config)
    ensures Stable(ParseStep(cfg))
  {
    var step := ParseStep(cfg);
    forall p: Parse, s: bytes, more: bytes | Enabled(step, p, s)
      ensures step(p, s + more) == step(p, s)
    {
      if TakesLines(p) {
        FindLineStable(s, more);
        assert (s + more)[..FindLine(s)] == s[..FindLine(s)];
      }
    }
  }

  /** The whole-stream reading of a response. */
  function Reading(cfg: Config, s: bytes): Progress<Parse, byte> {
    Run(ParseStep(cfg), START, s)
  }

  /** feed_eof: what the end of the connection makes of the parser's state. */
  function AtEof(p: Parse): Phase {
    if p.phase == Done then Done
    else if p.phase == Body && p.remaining < 0 then Done
    else Error
  }

  // ----- Taking many body bytes at once -----------------------------------------------------------

  /** The state after `n` more bytes of body, as the parser computes it in one go. */
  function BodyBytes(cfg: Config, p: Parse, n: nat): Parse
    requires TakesBytes(p) && n > 0
    requires p.phase == ChunkData ==> n <= p.chunk
    requires p.phase == Body && p.remaining > 0 ==> n <= p.remaining
  {
    if p.phase == ChunkData then p.(chunk := p.chunk - n, size := p.size + n)
    else if p.remaining > 0 then
      p.(remaining := p.remaining - n, size := p.size + n, phase := if p.remaining == n then Done else Body)
    else if !cfg.streaming && p.size + n > cfg.maxBody then Failed(p)
    else p.(size := p.size + n)
  }

  lemma {:induction false} StepIs(cfg: Config, p: Parse, s: bytes)
    ensures ParseStep(cfg)(p, s) == NextStep(cfg, p, s)
  {
    hide NextStep;
  }

  lemma {:induction false} StopWaits(cfg: Config, p: Parse, s: bytes)
    requires p.phase == Done || p.phase == Error
    ensures NextStep(cfg, p, s) == Wait
  {
    hide LineStep, BodyByte, ChunkEnd, FindLine;
  }

  lemma {:induction false} ByteTaken(cfg: Config, p: Parse, s: bytes)
    requires TakesBytes(p) && s != []
    ensures var q := BodyByte(cfg, p);
            NextStep(cfg, p, s) == Take(q, 1, if q.phase == Error then [] else [s[0]])
  {
    hide LineStep, BodyByte, ChunkEnd, FindLine;
  }

  lemma {:induction false} OneByte(cfg: Config, p: Parse, s: bytes)
    requires TakesBytes(p) && s != []
    ensures var q := BodyByte(cfg, p);
            Run(ParseStep(cfg), p, s)
            == Prepend(if q.phase == Error then [] else s[..1], Run(ParseStep(cfg), q, s[1..]))
  {
    hide Run, ParseStep, NextStep, BodyByte;
    assert s[..1] == [s[0]];
    StepIs(cfg, p, s);
    ByteTaken(cfg, p, s);
    RunTakes(ParseStep(cfg), p, s);
  }

  lemma {:induction false} BytesSplit(cfg: Config, p: Parse, n: nat)
    requires TakesBytes(p) && n > 1
    requires p.phase == ChunkData ==> n <= p.chunk
    requires p.phase == Body && p.remaining > 0 ==> n <= p.remaining
    requires BodyBytes(cfg, p, n).phase != Error
    ensures var q := BodyByte(cfg, p);
            && q.phase == p.phase && TakesBytes(q)
            && (q.phase == ChunkData ==> n - 1 <= q.chunk)
            && (q.phase == Body && q.remaining > 0 ==> n - 1 <= q.remaining)
            && BodyBytes(cfg, q, n - 1) == BodyBytes(cfg, p, n)
  {
  }

  /** Taking bytes one by one and taking them at once lead to the same place. */
  lemma {:induction false} BytesAtOnce(cfg: Config, p: Parse, s: bytes, n: nat)
    requires TakesBytes(p) && 0 < n <= |s|
    requires p.phase == ChunkData ==> n <= p.chunk
    requires p.phase == Body && p.remaining > 0 ==> n <= p.remaining
    requires BodyBytes(cfg, p, n).phase != Error
    ensures Run(ParseStep(cfg), p, s) == Prepend(s[..n], Run(ParseStep(cfg), BodyBytes(cfg, p, n), s[n..]))
    decreases n
  {
    hide Run, ParseStep;
    OneByte(cfg, p, s);
    if n > 1 {
      var q := BodyByte(cfg, p);
      BytesSplit(cfg, p, n);
      BytesAtOnce(cfg, q, s[1..], n - 1);
      hide BodyBytes, BodyByte, TakesBytes;
      PrependTwice(s[..1], s[1..][..n - 1], Run(ParseStep(cfg), BodyBytes(cfg, p, n), s[n..]));
      assert s[..1] + s[1..][..n - 1] == s[..n];
      assert s[1..][n - 1..] == s[n..];
    }
  }

  /** A read-to-close body that passes the cap ends in ERROR wherever the cap was passed. */
  lemma {:induction false} OverCapFails(cfg: Config, p: Parse, s: bytes)
    requires p.phase == Body && p.remaining < 0 && !cfg.streaming && p.size + |s| > cfg.maxBody && s != []
    ensures Run(ParseStep(cfg), p, s).state == Failed(p)
    decreases |s|
  {
    hide ParseStep, Run;
    OneByte(cfg, p, s);
    var q := BodyByte(cfg, p);
    if p.size + 1 <= cfg.maxBody {
      OverCapFails(cfg, q, s[1..]);
    } else {
      StoppedRuns(cfg, q, s[1..]);
    }
  }

  /** Nothing is parsed after DONE or ERROR. */
  lemma {:induction false} StoppedRuns(cfg: Config, p: Parse, s: bytes)
    requires p.phase == Done || p.phase == Error
    ensures Run(ParseStep(cfg), p, s) == Progress(p, s, [])
  {
    hide ParseStep, NextStep;
    StepIs(cfg, p, s);
    StopWaits(cfg, p, s);
  }

  lemma {:induction false} WholeBody(cfg: Config, q: Parse, n: nat)
    requires q.phase == Body && q.remaining == n > 0
    ensures BodyBytes(cfg, q, n) == q.(remaining := 0, size := q.size + n, phase := Done)
  {
  }

  /** A body of announced length is read to its end. */
  lemma {:induction false} SizedReads(cfg: Config, q: Parse, body: bytes)
    requires q.phase == Body && q.remaining == |body| > 0
    ensures Run(ParseStep(cfg), q, body)
         == Progress(q.(remaining := 0, size := q.size + |body|, phase := Done), [], body)
  {
    hide ParseStep, NextStep, Run, BodyBytes;
    var done, rest := BodyBytes(cfg, q, |body|), body[|body|..];
    WholeBody(cfg, q, |body|);
    BytesAtOnce(cfg, q, body, |body|);
    StoppedRuns(cfg, done, rest);
    assert body[..|body|] == body && rest == [];
    assert body + [] == body;
  }

  // ----- Following the parser ---------------------------------------------------------------------

  predicate Stopped(p: Parse) { p.phase == Done || p.phase == Error }

  /** A parser in state `p` with `live` bytes unparsed, having decoded `out`, will agree with the whole-stream
      reading of everything received. */
  ghost predicate OnCourse(cfg: Config, received: bytes, out: bytes, p: Parse, live: bytes) {
    if Stopped(p) then
      Reading(cfg, received).state == p && (p.phase == Done ==> Reading(cfg, received).out == out)
    else
      Tracks(ParseStep(cfg), START, received, out, p, live)
  }

  lemma {:induction false} CourseFromTracks(cfg: Config, received: bytes, out: bytes, p: Parse, live: bytes)
    requires Tracks(ParseStep(cfg), START, received, out, p, live)
    ensures OnCourse(cfg, received, out, p, live)
  {
    hide Run, ParseStep;
    if Stopped(p) {
      StoppedRuns(cfg, p, live);
      assert out + [] == out;
    }
  }

  lemma {:induction false} LineTaken(cfg: Config, p: Parse, s: bytes)
    requires TakesLines(p)
    ensures NextStep(cfg, p, s) == if FindLine(s) == |s| then Wait
                                   else Take(LineStep(cfg, p, s[..FindLine(s)]), FindLine(s) + 2, [])
  {
    hide LineStep, BodyByte, ChunkEnd;
  }

  lemma {:induction false} EndTaken(cfg: Config, p: Parse, s: bytes)
    requires p.phase == ChunkData && p.chunk == 0
    ensures NextStep(cfg, p, s) == if |s| < 2 then Wait else Take(ChunkEnd(p, s[0], s[1]), 2, [])
  {
    hide LineStep, BodyByte, ChunkEnd;
  }

  /** What a waiting parser may have at hand. */
  lemma {:induction false} WaitingFor(cfg: Config, p: Parse, s: bytes)
    requires NextStep(cfg, p, s).Wait?
    ensures TakesLines(p) ==> FindLine(s) == |s|
    ensures TakesBytes(p) ==> s == []
    ensures p.phase == ChunkData && p.chunk == 0 ==> |s| < 2
  {
    hide LineStep, BodyByte, ChunkEnd, FindLine;
  }

  lemma {:induction false} BytesWait(cfg: Config, p: Parse)
    requires TakesBytes(p)
    ensures NextStep(cfg, p, []) == Wait
  {
    hide LineStep, BodyByte, ChunkEnd, FindLine;
  }

  lemma {:induction false} BlankLine(cfg: Config, p: Parse)
    requires p.phase == Headers
    ensures LineStep(cfg, p, []) == EnterBody(cfg, p)
  {
    hide EnterBody;
  }

  lemma {:induction false} LineCourse(cfg: Config, received: bytes, out: bytes, p: Parse, live: bytes)
    requires OnCourse(cfg, received, out, p, live) && TakesLines(p) && FindLine(live) < |live|
    ensures var i := FindLine(live);
            OnCourse(cfg, received, out, LineStep(cfg, p, live[..i]), live[i + 2..])
  {
    hide Run, ParseStep, NextStep, LineStep, Tracks;
    StepIs(cfg, p, live);
    LineTaken(cfg, p, live);
    TracksTake(ParseStep(cfg), START, received, out, p, live);
    assert out + [] == out;
    CourseFromTracks(cfg, received, out, LineStep(cfg, p, live[..FindLine(live)]), live[FindLine(live) + 2..]);
  }

  lemma {:induction false} EndCourse(cfg: Config, received: bytes, out: bytes, p: Parse, live: bytes)
    requires OnCourse(cfg, received, out, p, live) && p.phase == ChunkData && p.chunk == 0 && |live| >= 2
    ensures OnCourse(cfg, received, out, ChunkEnd(p, live[0], live[1]), live[2..])
  {
    hide Run, ParseStep, NextStep, ChunkEnd, Tracks;
    StepIs(cfg, p, live);
    EndTaken(cfg, p, live);
    TracksTake(ParseStep(cfg), START, received, out, p, live);
    assert out + [] == out;
    CourseFromTracks(cfg, received, out, ChunkEnd(p, live[0], live[1]), live[2..]);
  }

  lemma {:induction false} BytesCourse(cfg: Config, received: bytes, out: bytes, p: Parse, live: bytes, n: nat)
    requires OnCourse(cfg, received, out, p, live) && TakesBytes(p) && 0 < n <= |live|
    requires p.phase == ChunkData ==> n <= p.chunk
    requires p.phase == Body && p.remaining > 0 ==> n <= p.remaining
    requires BodyBytes(cfg, p, n).phase != Error
    ensures OnCourse(cfg, received, out + live[..n], BodyBytes(cfg, p, n), live[n..])
  {
    hide Run, ParseStep, BodyBytes;
    BytesAtOnce(cfg, p, live, n);
    PrependTwice(out, live[..n], Run(ParseStep(cfg), BodyBytes(cfg, p, n), live[n..]));
    CourseFromTracks(cfg, received, out + live[..n], BodyBytes(cfg, p, n), live[n..]);
  }

  /** A body of announced length: the bytes that belong to it are taken, the others are ignored. */
  lemma {:induction false} SizedCourse(cfg: Config, received: bytes, out: bytes, p: Parse, live: bytes, n: nat)
    requires OnCourse(cfg, received, out, p, live) && p.phase == Body && 0 < p.remaining
    requires 0 < n <= |live| && n <= p.remaining && (n < |live| ==> n == p.remaining)
    ensures OnCourse(cfg, received, out + live[..n],
                     p.(remaining := p.remaining - n, size := p.size + n,
                        phase := if p.remaining == n then Done else Body), [])
  {
    hide OnCourse, Stopped;
    var q := p.(remaining := p.remaining - n, size := p.size + n, phase := if p.remaining == n then Done else Body);
    BytesCourse(cfg, received, out, p, live, n);
    assert q == BodyBytes(cfg, p, n);
    if p.remaining == n {
      assert Stopped(q) by { SizedStops(q); }
      RestIgnored(cfg, received, out + live[..n], q, live[n..], []);
    } else {
      assert live[n..] == [];
    }
  }

  /** A piece of chunk data is taken. */
  lemma {:induction false} ChunkCourse(cfg: Config, received: bytes, out: bytes, p: Parse, live: bytes, n: nat)
    requires OnCourse(cfg, received, out, p, live) && p.phase == ChunkData
    requires 0 < n <= |live| && n <= p.chunk
    ensures OnCourse(cfg, received, out + live[..n], p.(chunk := p.chunk - n, size := p.size + n), live[n..])
  {
    hide OnCourse;
    BytesCourse(cfg, received, out, p, live, n);
    assert BodyBytes(cfg, p, n) == p.(chunk := p.chunk - n, size := p.size + n);
  }

  lemma {:induction false} SizedStops(p: Parse)
    requires p.phase == Done
    ensures Stopped(p)
  {
  }

  lemma {:induction false} CapCourse(cfg: Config, received: bytes, out: bytes, p: Parse, live: bytes)
    requires OnCourse(cfg, received, out, p, live)
    requires p.phase == Body && p.remaining < 0 && !cfg.streaming && p.size + |live| > cfg.maxBody && live != []
    ensures OnCourse(cfg, received, out, Failed(p), [])
  {
    hide Run, ParseStep;
    OverCapFails(cfg, p, live);
  }

  /** Bytes received while parsing go behind the unparsed ones; after DONE or ERROR they change nothing. */
  lemma {:induction false} ReceiveCourse(cfg: Config, received: bytes, out: bytes, p: Parse, live: bytes, more: bytes,
                                         live': bytes)
    requires OnCourse(cfg, received, out, p, live)
    requires !Stopped(p) ==> live' == live + more
    ensures OnCourse(cfg, received + more, out, p, live')
  {
    hide Run, ParseStep, Stable;
    var step := ParseStep(cfg);
    ParseStepStable(cfg);
    if Stopped(p) {
      var q := Reading(cfg, received);
      RunResumes(step, START, received, more);
      StoppedRuns(cfg, p, q.rest + more);
      assert q.out + [] == q.out;
    } else {
      TracksReceive(step, START, received, out, p, live, more);
    }
  }

  lemma {:induction false} RestIgnored(cfg: Config, received: bytes, out: bytes, p: Parse, live: bytes, live': bytes)
    requires OnCourse(cfg, received, out, p, live) && Stopped(p)
    ensures OnCourse(cfg, received, out, p, live')
  {
  }

  lemma {:induction false} EmptyWaits(cfg: Config, p: Parse)
    requires TakesLines(p)
    ensures NextStep(cfg, p, []) == Wait
  {
    hide LineStep;
  }

  lemma {:induction false} StartCourse(cfg: Config, p: Parse)
    requires p == START
    ensures OnCourse(cfg, [], [], p, [])
    ensures NextStep(cfg, p, []) == Wait
  {
    hide ParseStep, NextStep, Run;
    EmptyWaits(cfg, p);
    var r := Run(ParseStep(cfg), p, []);
    assert [] + r.out == r.out;
  }

  /** A parser with no step left to take stands where the whole-stream reading ends. */
  lemma {:induction false} RestCourse(cfg: Config, received: bytes, out: bytes, p: Parse, live: bytes)
    requires OnCourse(cfg, received, out, p, live) && (Stopped(p) || NextStep(cfg, p, live).Wait?)
    ensures Reading(cfg, received).state == p
    ensures p.phase != Error ==> Reading(cfg, received).out == out
    ensures !Stopped(p) ==> Reading(cfg, received).rest == live
  {
    hide ParseStep, NextStep;
    StepIs(cfg, p, live);
    if !Stopped(p) {
      TracksWaiting(ParseStep(cfg), START, received, out, p, live);
    }
  }
}
