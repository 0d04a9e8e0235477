/** The incremental response parser with its staged body, proved to follow the whole-stream reading. */
module HttpParser {
  import opened Basics
  import opened Bytes
  import opened Resumable
  import opened HttpWire
  import opened HttpEnds
  import opened HttpStaging

  class ResponseParser {
    const cfg: Config
    var buffer: bytes
    var readOffset: nat
    var state: Phase
    var statusCode: Option<int>
    var reason: bytes
    var version: bytes
    var fields: seq<Field>
    var headersComplete: bool
    var bodyRemaining: int
    var chunkRemaining: nat
    var body: array<byte>
    var bodyWrite: nat
    var bodyRead: nat

    /** A feed was refused because it passed the cap on unparsed bytes. */
    var tripped: bool
    /** A streamed feed did not fit the staging buffer. */
    var overflowed: bool

    /** The ERROR of a piece of body that was dropped has not been overwritten. */
    ghost var stuck: bool

    ghost var received: bytes
    /** The body so far, with the pieces that were dropped. */
    ghost var decoded: bytes
    ghost var delivered: bytes

    /** The bytes not yet parsed. */
    function Live(): bytes
      requires readOffset <= |buffer|
      reads this`buffer, this`readOffset
    {
      buffer[readOffset..]
    }

    /** The parser's fields as a state of the reference machine. */
    ghost function Abs(): Parse
      reads this`state, this`statusCode, this`reason, this`version, this`fields, this`headersComplete
      reads this`bodyRemaining, this`chunkRemaining, this`decoded
    {
      As(state, |decoded|)
    }

    /** The same in another phase, after `size` bytes of body. */
    ghost function As(phase: Phase, size: nat): Parse
      reads this`statusCode, this`reason, this`version, this`fields, this`headersComplete
      reads this`bodyRemaining, this`chunkRemaining
    {
      if phase == Error then Parse(Error, statusCode, reason, version, fields, headersComplete, -1, 0, 0)
      else Parse(phase, statusCode, reason, version, fields, headersComplete, bodyRemaining, chunkRemaining, size)
    }

    /** What will become of the staging buffer. */
    ghost function Fated(pending: bytes): Fate
      requires InBody()
      reads this`state, this`statusCode, this`reason, this`version, this`fields, this`headersComplete
      reads this`bodyRemaining, this`chunkRemaining, this`decoded
      reads this`bodyRead, this`bodyWrite, this`body, this`overflowed, this`stuck
    {
      FateOf(Abs(), pending)
    }

    /** The same from another state. */
    ghost function FateOf(p: Parse, pending: bytes): Fate
      requires InBody()
      reads this`bodyRead, this`bodyWrite, this`body, this`overflowed, this`stuck
    {
      Sum(if cfg.streaming then Staging(cfg, p, pending, BodyFree()) else UNHARMED)
    }

    /** Added to what has become of it already. */
    ghost function Sum(f: Fate): Fate
      reads this`overflowed, this`stuck
    {
      Fate(overflowed || f.dropped, stuck || f.stuck)
    }

    predicate Clean()
      reads this`tripped, this`overflowed
    {
      !tripped && !overflowed
    }

    ghost predicate InBody()
      reads this`bodyRead, this`bodyWrite, this`body
    {
      bodyRead <= bodyWrite <= body.Length
    }

    ghost predicate Indices()
      reads this`buffer, this`readOffset, this`bodyRead, this`bodyWrite, this`body
    {
      readOffset <= |buffer| && InBody()
    }

    /** What was delivered and what is staged is the body decoded so far. */
    ghost predicate Staged()
      requires InBody()
      reads this`bodyRead, this`bodyWrite, this`body, this`decoded, this`delivered, body
    {
      && decoded == delivered + body[bodyRead..bodyWrite]
      && (bodyRead == bodyWrite ==> bodyWrite == 0)
      && (!cfg.streaming ==> bodyRead == 0 && delivered == [])
    }

    /** The announced length of a buffered body respects the cap and the buffer. */
    ghost predicate Bounded()
      reads this`state, this`bodyRemaining, this`chunkRemaining, this`decoded, this`body, this`statusCode
      reads this`overflowed
    {
      && (state == Status || state == Headers ==> decoded == [] && !overflowed)
      && (state == Headers ==> statusCode.Some?)
      && (state == Body ==> bodyRemaining != 0)
      && (state == Body && bodyRemaining > 0 && !cfg.streaming ==> |decoded| + bodyRemaining <= body.Length)
      && (state == ChunkData && !cfg.streaming ==> |decoded| + chunkRemaining <= cfg.maxBody)
    }

    ghost predicate Valid()
      reads this, body
    {
      && Indices()
      && (tripped ==> state == Error) && Marks() && (Clean() ==> Staged())
      && (!tripped && !stuck ==> Bounded() && OnCourse(cfg, received, decoded, Abs(), Live()))
    }

    /** Only a streamed body overflows, and a parser is stuck in ERROR because it did. */
    ghost predicate Marks()
      reads this`overflowed, this`stuck, this`state, this`decoded
    {
      && (overflowed ==> cfg.streaming && decoded != [])
      && (stuck ==> overflowed && state == Error)
    }

    /** No step is left to take on the bytes at hand. */
    ghost predicate Settled()
      requires Indices()
      reads this
    {
      !Stopped(Abs()) ==> NextStep(cfg, Abs(), Live()).Wait?
    }

    constructor (cfg: Config, capacity: nat)
      ensures Valid() && Settled() && Clean() && this.cfg == cfg && state == Status
      ensures received == [] && delivered == [] && decoded == [] && buffer == [] && readOffset == 0
      ensures fresh(body) && body.Length == capacity && bodyWrite == bodyRead == 0
    {
      hide OnCourse, NextStep;
      this.cfg := cfg;
      buffer, readOffset := [], 0;
      state := Status;
      statusCode, reason, version, fields := None, [], [], [];
      headersComplete, bodyRemaining, chunkRemaining := false, -1, 0;
      body := new byte[capacity](_ => 0);
      bodyWrite, bodyRead := 0, 0;
      tripped, overflowed, stuck := false, false, false;
      received, decoded, delivered := [], [], [];
      new;
      StartCourse(cfg, Abs());
    }

    // ----- The staging buffer ------------------------------------------------------------

    function BodyFree(): nat
      requires InBody()
      reads this`bodyRead, this`bodyWrite, this`body
    {
      body.Length - bodyWrite
    }

    /** read_body_into: hand out the oldest staged bytes. */
    method ReadBodyInto(room: nat) returns (part: bytes)
      requires InBody() && cfg.streaming && (Clean() ==> Staged())
      modifies this`bodyRead, this`bodyWrite, this`delivered
      ensures InBody() && (Clean() ==> Staged()) && BodyFree() >= old(BodyFree())
      ensures delivered == old(delivered) + part && |part| == Least(room, old(bodyWrite - bodyRead))
      ensures part == old(body[bodyRead..bodyRead + |part|])
      ensures old(bodyRead < bodyWrite) ==>
                bodyWrite == if |part| == old(bodyWrite - bodyRead) then 0 else old(bodyWrite)
      ensures old(bodyRead == bodyWrite) ==> part == [] && bodyWrite == old(bodyWrite)
    {
      var available := bodyWrite - bodyRead;
      if available <= 0 {
        return [];
      }
      var count := Least(room, available);
      var end := bodyRead + count;
      part := body[bodyRead..end];
      assert body[bodyRead..bodyWrite] == part + body[end..bodyWrite];
      delivered := delivered + part;
      if end == bodyWrite {
        bodyRead, bodyWrite := 0, 0;
        assert body[0..0] == [] && body[end..end] == [];
      } else {
        bodyRead := end;
      }
    }

    /** _absorb_body_chunk: append to the staging buffer, growing it when the body is not streamed. */
    method AbsorbChunk(chunk: bytes)
      requires Indices() && (Clean() ==> Staged())
      requires !cfg.streaming ==> Clean() && Fits(|decoded| + |chunk|)
      modifies this`state, this`body, this`bodyWrite, this`overflowed, this`stuck, this`decoded, body
      ensures Indices() && (Clean() ==> Staged()) && decoded == old(decoded) + chunk
      ensures var lost := cfg.streaming && |chunk| > old(BodyFree());
              && overflowed == (old(overflowed) || lost) && stuck == (old(stuck) || lost)
              && state == (if lost then Error else old(state))
              && bodyWrite == old(bodyWrite) + (if lost then 0 else |chunk|)
      ensures body == old(body) || (!cfg.streaming && fresh(body))
      ensures body.Length >= old(body.Length)
    {
      var end := bodyWrite + |chunk|;
      if end <= body.Length {
        Stage(chunk);
      } else if cfg.streaming {
        state := Error;
        overflowed := true;
        stuck := true;
        decoded := decoded + chunk;
      } else {
        Grow(chunk);
      }
    }

    method Stage(chunk: bytes)
      requires InBody() && bodyWrite + |chunk| <= body.Length && (Clean() ==> Staged())
      modifies this`bodyWrite, this`decoded, body
      ensures bodyWrite == old(bodyWrite) + |chunk| && InBody() && (Clean() ==> Staged())
      ensures decoded == old(decoded) + chunk
    {
      var at, end := bodyWrite, bodyWrite + |chunk|;
      Write(at, chunk);
      assert body[bodyRead..at] == old(body[bodyRead..at]);
      Slices(body[..], bodyRead, at, end);
      assert body[bodyRead..at] == body[..][bodyRead..at] && body[at..end] == body[..][at..end];
      assert body[bodyRead..end] == body[..][bodyRead..end];
      bodyWrite := end;
      decoded := decoded + chunk;
    }

    lemma {:induction false} Slices(s: bytes, a: nat, b: nat, c: nat)
      requires a <= b <= c <= |s|
      ensures s[a..c] == s[a..b] + s[b..c]
    {
    }

    /** A body of `total` bytes may be buffered. */
    predicate Fits(total: nat)
      reads this`body
    {
      total <= cfg.maxBody || total <= body.Length
    }

    method Write(at: nat, chunk: bytes)
      requires at + |chunk| <= body.Length
      modifies body
      ensures body[..at] == old(body[..at]) && body[at..at + |chunk|] == chunk
      ensures forall lo :: 0 <= lo <= at ==> body[lo..at] == old(body[lo..at])
    {
      forall i | 0 <= i < |chunk| {
        body[at + i] := chunk[i];
      }
    }

    method Grow(chunk: bytes)
      requires Indices() && !cfg.streaming && Clean() && Staged()
      requires bodyWrite + |chunk| > body.Length && Fits(|decoded| + |chunk|)
      modifies this`body, this`bodyWrite, this`decoded
      ensures Indices() && Staged()
      ensures decoded == old(decoded) + chunk && bodyWrite == old(bodyWrite) + |chunk|
      ensures fresh(body) && body.Length >= old(body.Length)
    {
      var end := bodyWrite + |chunk|;
      var capacity := 2 * body.Length;
      if capacity < end {
        capacity := end;
      }
      if capacity > cfg.maxBody {
        capacity := cfg.maxBody;
      }
      var all := body[..bodyWrite] + chunk;
      body := new byte[capacity](i => if 0 <= i < |all| then all[i] else 0);
      bodyWrite := end;
      decoded := decoded + chunk;
      assert |all| == end && forall i :: 0 <= i < end ==> body[i] == all[i];
      assert body[0..end] == all;
    }

    // ----- Lines --------------------------------------------------------------------------------

    /** _consume: move past parsed bytes, dropping them once they are half the buffer. */
    method Consume(count: nat)
      requires readOffset + count <= |buffer|
      modifies this`buffer, this`readOffset
      ensures readOffset <= |buffer| && Live() == old(Live())[count..]
    {
      readOffset := readOffset + count;
      if readOffset > 0 && readOffset * 2 >= |buffer| {
        buffer := buffer[readOffset..];
        readOffset := 0;
      }
    }

    method Fail()
      modifies this`state
      ensures Abs() == Failed(old(Abs()))
    {
      state := Error;
    }

    method TakeStatusLine(line: bytes)
      requires state == Status
      modifies this`state, this`statusCode, this`reason, this`version
      ensures Abs() == StatusLine(cfg, old(Abs()), line)
      ensures state == Error || (state == Headers && statusCode.Some?)
    {
      hide Ascii, Find;
      if !Ascii(line) {
        Fail();
        return;
      }
      var first := Find(line, SPACE);
      if first == |line| {
        Fail();
        return;
      }
      var versionText := line[..first];
      var rest := line[first + 1..];
      var second := Find(rest, SPACE);
      var codeText := rest[..second];
      if !(HTTP_SLASH <= versionText) {
        Fail();
        return;
      }
      var code := cfg.intOf(codeText);
      if code.None? {
        Fail();
        return;
      }
      statusCode := Some(code.value);
      version := versionText;
      reason := if second < |rest| then rest[second + 1..] else [];
      state := Headers;
    }

    method TakeSizeLine(line: bytes)
      requires state == ChunkSize && Indices() && (!cfg.streaming ==> Staged())
      modifies this`state, this`chunkRemaining
      ensures Abs() == SizeLine(cfg, old(Abs()), line)
      ensures state == Error || state == ChunkTrailer || state == ChunkData
      ensures state == ChunkData && !cfg.streaming ==> |decoded| + chunkRemaining <= cfg.maxBody
    {
      if !Ascii(line) {
        Fail();
        return;
      }
      var text := Strip(line[..Find(line, SEMICOLON)]);
      if text == [] {
        Fail();
        return;
      }
      var size := cfg.hexOf(text);
      if size.None? {
        Fail();
        return;
      }
      if size.value < 0 {
        Fail();
        return;
      }
      if !cfg.streaming && bodyWrite + size.value > cfg.maxBody {
        Fail();
        return;
      }
      if size.value == 0 {
        state := ChunkTrailer;
        return;
      }
      chunkRemaining := size.value;
      state := ChunkData;
    }

    method TakeHeaderLine(line: bytes)
      requires state == Headers && line != []
      modifies this`state, this`fields
      ensures Abs() == HeaderLine(cfg, old(Abs()), line)
      ensures state == Error || state == Headers
    {
      if !Ascii(line) {
        Fail();
        return;
      }
      var colon := Find(line, COLON);
      if colon == |line| || colon == 0 {
        Fail();
        return;
      }
      fields := AddField(fields, line[..colon], Strip(line[colon + 1..]));
    }

    /** _enter_body_state, up to the absorption of the bytes that came with the headers. */
    method EnterBodyState()
      requires state == Headers && statusCode.Some? && Indices() && bodyWrite == 0 && bodyRead == 0
      modifies this`state, this`statusCode, this`reason, this`version, this`fields, this`headersComplete
      modifies this`bodyRemaining, this`bodyWrite, this`body
      ensures Abs() == EnterBody(cfg, old(Abs()))
      ensures Indices() && bodyWrite == 0 && (body == old(body) || (!cfg.streaming && fresh(body)))
              && body.Length >= old(body.Length)
      ensures state == Status || state == Done || state == Error || state == ChunkSize || state == Body
      ensures state == Body ==> bodyRemaining != 0 && (cfg.streaming || bodyRemaining <= body.Length)
    {
      hide FramedBody;
      var status := statusCode.value;
      if 100 <= status < 200 && status != 101 {
        statusCode := None;
        reason, version, fields := [], [], [];
        state := Status;
        return;
      }
      headersComplete := true;
      if status == 204 || status == 304 {
        state := Done;
        return;
      }
      FrameBody();
    }

    /** The framing the fields announce. */
    method FrameBody()
      requires state == Headers && Indices() && bodyWrite == 0 && bodyRead == 0
      modifies this`state, this`bodyRemaining, this`bodyWrite, this`body
      ensures Abs() == FramedBody(cfg, old(Abs()))
      ensures Indices() && bodyWrite == 0 && (body == old(body) || (!cfg.streaming && fresh(body)))
              && body.Length >= old(body.Length)
      ensures state == Done || state == Error || state == ChunkSize || state == Body
      ensures state == Body ==> bodyRemaining != 0 && (cfg.streaming || bodyRemaining <= body.Length)
    {
      hide Lower, WithoutSpaces, Value, SizedBody;
      var coding := Value(fields, TRANSFER_ENCODING);
      if coding.Some? {
        if Lower(WithoutSpaces(coding.value)) != CHUNKED {
          Fail();
          return;
        }
        state := ChunkSize;
        return;
      }
      var announced := Value(fields, CONTENT_LENGTH);
      if announced.Some? {
        EnterSizedBody(announced.value);
        return;
      }
      bodyRemaining := -1;
      state := Body;
    }

    method EnterSizedBody(announced: bytes)
      requires state == Headers && Indices() && bodyWrite == 0 && bodyRead == 0
      modifies this`state, this`bodyRemaining, this`bodyWrite, this`body
      ensures Abs() == SizedBody(cfg, old(Abs()), announced)
      ensures Indices() && bodyWrite == 0 && (body == old(body) || (!cfg.streaming && fresh(body)))
              && body.Length >= old(body.Length)
      ensures state == Body ==> bodyRemaining > 0 && (cfg.streaming || bodyRemaining <= body.Length)
      ensures state == Error || state == Done || state == Body
    {
      var length := cfg.intOf(announced);
      if length.None? || length.value < 0 || (length.value > cfg.maxBody && !cfg.streaming) {
        Fail();
        return;
      }
      bodyRemaining := length.value;
      if length.value == 0 {
        state := Done;
        return;
      }
      state := Body;
      bodyWrite := 0;
      if length.value > body.Length && !cfg.streaming {
        body := new byte[length.value](_ => 0);
      }
    }

    // ----- The step functions ---------------------------------------------------------------------

    /** Everything a step needs: the invariant, with `pending` still to be parsed. */
    ghost predicate Parsing(pending: bytes)
      reads this, body
    {
      && Indices()
      && !tripped && Marks() && (Clean() ==> Staged())
      && (!stuck ==> Bounded() && OnCourse(cfg, received, decoded, Abs(), pending))
    }

    /** _absorb_body_bytes: body bytes that need no further framing. */
    method AbsorbBodyBytes(chunk: bytes)
      requires state == Body && chunk != [] && Parsing(chunk)
      modifies this`state, this`body, this`bodyWrite, this`overflowed, this`stuck, this`decoded, this`bodyRemaining
      modifies body
      ensures Parsing([]) && (state == Body || Stopped(Abs()))
      ensures body == old(body) || (!cfg.streaming && fresh(body))
      ensures Fated([]) == old(Fated(chunk))
    {
      hide OnCourse, Staging, BodyBytes, TakesBytes;
      BodyStaged(cfg, Abs(), chunk, BodyFree());
      if bodyRemaining == 0 {
        return;
      }
      if bodyRemaining > 0 {
        AbsorbSized(chunk);
        return;
      }
      if !cfg.streaming && bodyWrite + |chunk| > cfg.maxBody {
        CapCourse(cfg, received, decoded, Abs(), chunk);
        Fail();
        NothingPending();
        return;
      }
      AbsorbToClose(chunk);
    }

    /** A body that ends with the connection, within the cap. */
    method AbsorbToClose(chunk: bytes)
      requires state == Body && bodyRemaining < 0 && chunk != [] && Parsing(chunk)
      requires !cfg.streaming ==> |decoded| + |chunk| <= cfg.maxBody
      modifies this`state, this`body, this`bodyWrite, this`overflowed, this`stuck, this`decoded, body
      ensures Parsing([]) && (state == Body || Stopped(Abs()))
      ensures body == old(body) || (!cfg.streaming && fresh(body))
      ensures Fated([]) == old(Fated(chunk))
    {
      hide OnCourse, Staging, ResponseParser.Staged;
      BodyStaged(cfg, Abs(), chunk, BodyFree());
      BytesCourse(cfg, received, decoded, Abs(), chunk, |chunk|);
      assert chunk[|chunk|..] == [] && chunk[..|chunk|] == chunk;
      AbsorbChunk(chunk);
      NothingPending();
    }

    /** With nothing left to parse, nothing more becomes of the staging buffer. */
    lemma {:induction false} NothingPending()
      requires InBody() && (state == Body || Stopped(Abs()))
      ensures Fated([]) == Fate(overflowed, stuck)
    {
      hide Staging;
      if state == Body {
        BodyStaged(cfg, Abs(), [], BodyFree());
      } else {
        StoppedStaged(cfg, Abs(), [], BodyFree());
      }
    }

    /** The Content-Length part: bytes beyond the announced length are dropped. */
    method AbsorbSized(chunk: bytes)
      requires state == Body && bodyRemaining > 0 && chunk != [] && Parsing(chunk)
      modifies this`state, this`body, this`bodyWrite, this`overflowed, this`stuck, this`decoded, this`bodyRemaining
      modifies body
      ensures Parsing([]) && (state == Body || Stopped(Abs()))
      ensures body == old(body) || (!cfg.streaming && fresh(body))
      ensures Fated([]) == old(Fated(chunk))
    {
      hide OnCourse, BodyBytes, TakesBytes, Staging, ResponseParser.Staged;
      BodyStaged(cfg, Abs(), chunk, BodyFree());
      var take := Least(bodyRemaining, |chunk|);
      ghost var p := Abs();
      SizedCourse(cfg, received, decoded, p, chunk, take);
      AbsorbChunk(chunk[..take]);
      CountDown(take, p);
      NothingPending();
    }

    /** The end of an announced body is DONE, even if its last piece was dropped. */
    method CountDown(take: nat, ghost p: Parse)
      requires 0 < take <= bodyRemaining && !tripped && Marks()
      requires state == (if stuck then Error else Body)
      requires p == As(Body, p.size) && p.size + take == |decoded|
      requires cfg.streaming || p.size + bodyRemaining <= body.Length
      modifies this`state, this`bodyRemaining, this`stuck
      ensures Marks() && stuck == (old(stuck) && p.remaining != take)
      ensures stuck ==> state == Error
      ensures !stuck ==> && (state == Body || state == Done) && Bounded()
                         && Abs() == p.(remaining := p.remaining - take, size := p.size + take,
                                        phase := if p.remaining == take then Done else Body)
    {
      bodyRemaining := bodyRemaining - take;
      if bodyRemaining == 0 {
        state := Done;
        stuck := false;
      }
    }

    /** _take_ascii_line: the next complete line, if there is one. */
    method TakeLine() returns (taken: bool, line: bytes)
      requires Indices()
      modifies this`buffer, this`readOffset
      ensures Indices()
      ensures taken == (FindLine(old(Live())) < |old(Live())|)
      ensures !taken ==> Live() == old(Live())
      ensures taken ==> line == old(Live())[..FindLine(old(Live()))]
      ensures taken ==> Live() == old(Live())[FindLine(old(Live())) + 2..]
    {
      var live := Live();
      var i := FindLine(live);
      if i == |live| {
        return false, [];
      }
      taken, line := true, live[..i];
      Consume(i + 2);
    }

    /** A line was taken that leads to the state `next`. */
    ghost predicate Leads(next: Parse)
      reads this, body
    {
      && Indices() && !tripped && Marks() && (Clean() ==> Staged()) && Bounded()
      && OnCourse(cfg, received, decoded, next, Live())
    }

    /** What taking a line means for the course of the parser. */
    method NextLine() returns (taken: bool, line: bytes)
      requires TakesLines(Abs()) && Indices() && Parsing(Live())
      modifies this`buffer, this`readOffset
      ensures Indices()
      ensures !taken ==> Parsing(Live()) && Settled() && Live() == old(Live())
      ensures taken ==> |Live()| < old(|Live()|) && Leads(LineStep(cfg, Abs(), line))
      ensures taken ==> FateOf(LineStep(cfg, Abs(), line), Live()) == old(Fated(Live()))
    {
      hide OnCourse, LineStep, NextStep, Staging, FindLine, ResponseParser.Staged, ResponseParser.Bounded;
      ghost var p, live := Abs(), Live();
      LineTaken(cfg, p, live);
      taken, line := TakeLine();
      if taken {
        LineCourse(cfg, received, decoded, p, live);
        LineStaged(cfg, p, live, BodyFree());
      }
    }

    method TryStatusLine() returns (progressed: bool)
      requires state == Status && Indices() && Parsing(Live())
      modifies this`buffer, this`readOffset, this`state, this`statusCode, this`reason, this`version
      ensures Indices() && Parsing(Live())
      ensures if progressed then |Live()| < old(|Live()|) else Settled() && Live() == old(Live())
      ensures state != Body && Fated(Live()) == old(Fated(Live()))
    {
      hide OnCourse, StatusLine, NextStep, Staging, FindLine, ResponseParser.Staged;
      var line;
      progressed, line := NextLine();
      if progressed {
        TakeStatusLine(line);
      }
    }

    /** A header line, or the blank one, after which the bytes that came along belong to the body. */
    method TryHeaders() returns (progressed: bool)
      requires state == Headers && Indices() && Parsing(Live())
      modifies this`buffer, this`readOffset, this`state, this`statusCode, this`reason, this`version, this`fields
      modifies this`headersComplete, this`bodyRemaining, this`bodyWrite, this`body
      modifies this`overflowed, this`stuck, this`decoded, body
      ensures Indices() && Parsing(Live()) && (body == old(body) || (!cfg.streaming && fresh(body)))
      ensures if progressed then |Live()| < old(|Live()|) else Settled() && Live() == old(Live())
      ensures state == Body ==> Live() == []
      ensures Fated(Live()) == old(Fated(Live()))
    {
      hide OnCourse, HeaderLine, EnterBody, NextStep, Staging, FindLine, ResponseParser.Staged;
      ghost var p := Abs();
      var line;
      progressed, line := NextLine();
      if progressed {
        if line == [] {
          BlankLine(cfg, p);
          FinishHeaders();
        } else {
          TakeHeaderLine(line);
        }
      }
    }

    method FinishHeaders()
      requires state == Headers && Leads(EnterBody(cfg, Abs()))
      modifies this`buffer, this`readOffset, this`state, this`statusCode, this`reason, this`version, this`fields
      modifies this`headersComplete, this`bodyRemaining, this`bodyWrite, this`body
      modifies this`overflowed, this`stuck, this`decoded, body
      ensures Indices() && Parsing(Live()) && (body == old(body) || (!cfg.streaming && fresh(body)))
      ensures |Live()| <= old(|Live()|)
      ensures state == Body ==> Live() == []
      ensures Fated(Live()) == old(FateOf(EnterBody(cfg, Abs()), Live()))
    {
      hide OnCourse, EnterBody, NextStep, Staging;
      EnterBodyState();
      assert body[0..0] == [];
      if state == Body {
        AbsorbTrailing();
      }
    }

    /** _absorb_trailing_bytes */
    method AbsorbTrailing()
      requires state == Body && Indices() && Parsing(Live())
      modifies this`buffer, this`readOffset, this`state
      modifies this`bodyRemaining, this`bodyWrite, this`body, this`overflowed, this`stuck, this`decoded, body
      ensures Indices() && Parsing(Live()) && (body == old(body) || (!cfg.streaming && fresh(body)))
      ensures Live() == [] && Fated(Live()) == old(Fated(Live()))
    {
      hide OnCourse, NextStep, Staging;
      if |buffer| - readOffset == 0 {
        return;
      }
      var tail := Live();
      buffer, readOffset := [], 0;
      AbsorbBodyBytes(tail);
    }

    method TryChunkSize() returns (progressed: bool)
      requires state == ChunkSize && Indices() && Parsing(Live())
      modifies this`buffer, this`readOffset, this`state, this`chunkRemaining
      ensures Indices() && Parsing(Live())
      ensures if progressed then |Live()| < old(|Live()|) else Settled() && Live() == old(Live())
      ensures state != Body && Fated(Live()) == old(Fated(Live()))
    {
      hide OnCourse, SizeLine, NextStep, Staging, FindLine, ResponseParser.Staged;
      var line;
      progressed, line := NextLine();
      if progressed {
        TakeSizeLine(line);
      }
    }

    method TryChunkTrailer() returns (progressed: bool)
      requires state == ChunkTrailer && Indices() && Parsing(Live())
      modifies this`buffer, this`readOffset, this`state
      ensures Indices() && Parsing(Live())
      ensures if progressed then |Live()| < old(|Live()|) else Settled() && Live() == old(Live())
      ensures state != Body && Fated(Live()) == old(Fated(Live()))
    {
      hide OnCourse, SizeLine, NextStep, Staging, FindLine, ResponseParser.Staged;
      var line;
      progressed, line := NextLine();
      if progressed {
        if line == [] {
          state := Done;
        }
      }
    }

    /** _try_consume_chunk_data */
    method TryChunkData() returns (progressed: bool)
      requires state == ChunkData && Indices() && Parsing(Live())
      modifies this`buffer, this`readOffset, this`state, this`chunkRemaining
      modifies this`bodyWrite, this`body, this`overflowed, this`stuck, this`decoded, body
      ensures Indices() && Parsing(Live()) && (body == old(body) || (!cfg.streaming && fresh(body))) && state != Body
      ensures if progressed then |Live()| < old(|Live()|) || state == Error else Settled()
      ensures |Live()| <= old(|Live()|)
      ensures Fated(Live()) == old(Fated(Live()))
    {
      hide OnCourse, NextStep, Staging, EndStaging, ResponseParser.Staged, ResponseParser.Parsing,
          ResponseParser.InChunk;
      Inside();
      ChunkStaged(cfg, Abs(), Live(), BodyFree());
      if chunkRemaining > 0 {
        var available := Least(chunkRemaining, |buffer| - readOffset);
        if available == 0 {
          BytesWait(cfg, Abs());
          return false;
        }
        TakeChunkBytes(available);
        if chunkRemaining > 0 {
          PieceOnly();
          return false;
        }
      }
      progressed := TryChunkEnd();
    }

    /** Within a chunk, whether or not a piece of it was just dropped. */
    ghost predicate InChunk()
      requires Indices()
      reads this, body
    {
      && !tripped && Marks() && (Clean() ==> Staged())
      && state == (if stuck then Error else ChunkData)
      && (cfg.streaming || |decoded| + chunkRemaining <= cfg.maxBody)
      && OnCourse(cfg, received, decoded, As(ChunkData, |decoded|), Live())
    }

    lemma {:induction false} Inside()
      requires state == ChunkData && Indices() && Parsing(Live())
      ensures InChunk() && !stuck && (overflowed ==> cfg.streaming)
    {
    }

    method TakeChunkBytes(n: nat)
      requires state == ChunkData && Indices() && 0 < n <= chunkRemaining && n <= |Live()| && Parsing(Live())
      modifies this`buffer, this`readOffset, this`state, this`chunkRemaining
      modifies this`bodyWrite, this`body, this`overflowed, this`stuck, this`decoded, body
      ensures Indices() && InChunk() && (body == old(body) || (!cfg.streaming && fresh(body)))
      ensures Live() == old(Live())[n..] && chunkRemaining == old(chunkRemaining) - n
      ensures stuck == (cfg.streaming && n > old(BodyFree())) && overflowed == (old(overflowed) || stuck)
      ensures cfg.streaming ==> BodyFree() == (if stuck then old(BodyFree()) else old(BodyFree()) - n)
      ensures |decoded| == |old(decoded)| + n
    {
      hide OnCourse, Staging, ResponseParser.Staged, ResponseParser.Bounded, ResponseParser.Parsing;
      ChunkGoesOn(n);
      AbsorbChunk(Live()[..n]);
      PassChunkBytes(n);
    }

    lemma {:induction false} ChunkGoesOn(n: nat)
      requires state == ChunkData && Indices() && 0 < n <= chunkRemaining && n <= |Live()| && Parsing(Live())
      ensures var p := Parse(ChunkData, statusCode, reason, version, fields, headersComplete, bodyRemaining,
                             chunkRemaining - n, |decoded| + n);
              OnCourse(cfg, received, decoded + Live()[..n], p, Live()[n..])
      ensures !tripped && Marks() && (Clean() ==> Staged()) && !stuck
      ensures cfg.streaming || |decoded| + chunkRemaining <= cfg.maxBody
    {
      hide OnCourse, ResponseParser.Staged;
      ChunkCourse(cfg, received, decoded, Abs(), Live(), n);
    }

    method PassChunkBytes(n: nat)
      requires readOffset + n <= |buffer| && n <= chunkRemaining
      modifies this`buffer, this`readOffset, this`chunkRemaining
      ensures readOffset <= |buffer| && Live() == old(Live())[n..] && chunkRemaining == old(chunkRemaining) - n
    {
      hide ResponseParser.Live;
      Consume(n);
      chunkRemaining := chunkRemaining - n;
    }

    /** Part of a chunk was all there was. */
    lemma {:induction false} PieceOnly()
      requires Indices() && InChunk() && chunkRemaining > 0 && Live() == []
      ensures Parsing(Live()) && Settled() && Fated(Live()) == Fate(overflowed, stuck) && state != Body
    {
      hide OnCourse, NextStep, ResponseParser.Staged;
      if !stuck {
        BytesWait(cfg, Abs());
      }
    }

    method TryChunkEnd() returns (progressed: bool)
      requires chunkRemaining == 0 && Indices() && InChunk()
      modifies this`buffer, this`readOffset, this`state, this`stuck
      ensures Indices() && Parsing(Live()) && state != Body
      ensures if progressed then |Live()| < old(|Live()|) || state == Error else Settled()
      ensures |Live()| <= old(|Live()|)
      ensures Fated(Live()) == old(Ending())
    {
      if |buffer| - readOffset < 2 {
        NoEndYet();
        return false;
      }
      progressed := true;
      TakeChunkEnd();
    }

    /** What will become of the staging buffer from the end of a chunk on. */
    ghost function Ending(): Fate
      requires Indices()
      reads this
    {
      var f := if cfg.streaming then EndStaging(cfg, As(ChunkData, |decoded|), Live(), BodyFree(), stuck) else UNHARMED;
      Fate(overflowed || f.dropped, f.stuck)
    }

    /** The two bytes behind a chunk; either way they overwrite the ERROR of a dropped piece. */
    method TakeChunkEnd()
      requires chunkRemaining == 0 && Indices() && InChunk() && |Live()| >= 2
      modifies this`buffer, this`readOffset, this`state, this`stuck
      ensures Indices() && Parsing(Live()) && state != Body
      ensures |Live()| < old(|Live()|) || (state == Error && Live() == old(Live()))
      ensures Fated(Live()) == old(Ending())
    {
      hide OnCourse, NextStep, Staging, EndStaging;
      hide ResponseParser.Staged, ResponseParser.Parsing, ResponseParser.InChunk, ResponseParser.Fated,
        ResponseParser.Ending;
      assert Live()[..2] == [Live()[0], Live()[1]];
      if Live()[..2] == [CR, LF] {
        EndChunk();
      } else {
        BreakChunk();
      }
    }

    method EndChunk()
      requires chunkRemaining == 0 && Indices() && InChunk() && |Live()| >= 2 && Live()[0] == CR && Live()[1] == LF
      modifies this`buffer, this`readOffset, this`state, this`stuck
      ensures Indices() && Parsing(Live()) && state == ChunkSize && |Live()| < old(|Live()|)
      ensures Fated(Live()) == old(Ending())
    {
      hide OnCourse, NextStep, Staging, ResponseParser.Staged;
      ghost var live := Live();
      EndCourse(cfg, received, decoded, As(ChunkData, |decoded|), live);
      Consume(2);
      state := ChunkSize;
      stuck := false;
    }

    method BreakChunk()
      requires chunkRemaining == 0 && Indices() && InChunk() && |Live()| >= 2 && !(Live()[0] == CR && Live()[1] == LF)
      modifies this`state, this`stuck
      ensures Parsing(Live()) && state == Error && Fated(Live()) == old(Ending())
    {
      hide OnCourse, NextStep, Staging, ResponseParser.Staged;
      EndCourse(cfg, received, decoded, As(ChunkData, |decoded|), Live());
      Fail();
      stuck := false;
      RestIgnored(cfg, received, decoded, Abs(), Live()[2..], Live());
      StoppedStaged(cfg, Abs(), Live(), BodyFree());
    }

    lemma {:induction false} NoEndYet()
      requires Indices() && InChunk() && chunkRemaining == 0 && |Live()| < 2
      ensures Parsing(Live()) && Settled() && Fated(Live()) == Fate(overflowed, stuck) == Ending()
    {
      hide OnCourse, NextStep, Staging, ResponseParser.Staged;
      EndTaken(cfg, As(ChunkData, |decoded|), Live());
      ChunkStaged(cfg, As(ChunkData, |decoded|), Live(), BodyFree());
      if stuck {
        StoppedStaged(cfg, Abs(), Live(), BodyFree());
      }
    }

    /** _advance: take steps until one has to wait. */
    method Advance()
      requires Indices() && Parsing(Live()) && (state == Body ==> Live() == [])
      modifies this`buffer, this`readOffset, this`state, this`statusCode, this`reason, this`version, this`fields
      modifies this`headersComplete, this`bodyRemaining, this`chunkRemaining
      modifies this`bodyWrite, this`body, this`overflowed, this`stuck, this`decoded, body
      ensures Indices() && Parsing(Live()) && Settled() && (body == old(body) || (!cfg.streaming && fresh(body)))
      ensures Fate(overflowed, stuck) == old(Fated(Live()))
    {
      hide OnCourse, NextStep, Staging, ResponseParser.Staged, ResponseParser.Bounded;
      var progressed := true;
      while progressed && state != Done && state != Error && state != Body
        invariant Indices() && Parsing(Live()) && (state == Body ==> Live() == [])
        invariant body == old(body) || (!cfg.streaming && fresh(body))
        invariant progressed || Settled()
        invariant Fated(Live()) == old(Fated(Live()))
        decreases |Live()|, if state == Error then 0 else 1, if progressed then 1 else 0
      {
        match state
        case Status => progressed := TryStatusLine();
        case Headers => progressed := TryHeaders();
        case ChunkSize => progressed := TryChunkSize();
        case ChunkData => progressed := TryChunkData();
        case ChunkTrailer => progressed := TryChunkTrailer();
      }
      Rests();
    }

    lemma {:induction false} Rests()
      requires Indices() && Parsing(Live()) && (Settled() || Stopped(Abs()) || state == Body)
      requires state == Body ==> Live() == []
      ensures Settled() && Fated(Live()) == Fate(overflowed, stuck)
    {
      hide OnCourse, NextStep, Staging, ResponseParser.Staged;
      if Stopped(Abs()) {
        StoppedStaged(cfg, Abs(), Live(), BodyFree());
      } else {
        if state == Body {
          BytesWait(cfg, Abs());
        }
        WaitStaged(cfg, Abs(), Live(), BodyFree());
      }
    }

    // ----- Feeding --------------------------------------------------------------------------------

    /** The chunk would bring the unparsed bytes over the cap. */
    predicate Trips(chunk: bytes)
      requires readOffset <= |buffer|
      reads this`state, this`buffer, this`readOffset
    {
      state != Done && state != Error && state != Body && chunk != [] && |Live()| + |chunk| > cfg.maxHeader
    }

    /** A settled parser stays on course when a chunk arrives behind what it holds. */
    lemma {:induction false} Arrives(chunk: bytes)
      requires Valid() && Settled() && !tripped && !stuck
      ensures Stopped(Abs()) ==> OnCourse(cfg, received + chunk, decoded, Abs(), Live())
      ensures !Stopped(Abs()) ==> OnCourse(cfg, received + chunk, decoded, Abs(), Live() + chunk)
      ensures state == Body ==> Live() == []
    {
      hide OnCourse, NextStep;
      var p, live := Abs(), Live();
      ReceiveCourse(cfg, received, decoded, p, live, chunk, if Stopped(p) then live else live + chunk);
      if !Stopped(p) {
        WaitingFor(cfg, p, live);
      }
    }

    /** A chunk that fits the staging room is not dropped, whatever the parser is waiting for. */
    lemma {:induction false} RoomSuffices(chunk: bytes)
      requires Valid() && Settled() && |chunk| <= BodyFree()
      ensures Staging(cfg, Abs(), Live() + chunk, BodyFree()) == UNHARMED
    {
      hide OnCourse, NextStep, Staging, ResponseParser.Staged;
      var p, live := Abs(), Live();
      if Stopped(p) {
        StoppedStaged(cfg, p, live + chunk, BodyFree());
      } else {
        WaitingFor(cfg, p, live);
        if TakesLines(p) {
          FindLineLate(live, chunk);
        }
        RoomKeeps(cfg, p, live + chunk, BodyFree());
      }
    }

    /** What a feed makes of the staging buffer. */
    ghost function FeedFate(chunk: bytes): Fate
      requires Indices()
      reads this
    {
      if cfg.streaming && !Trips(chunk) then Staging(cfg, Abs(), Live() + chunk, BodyFree()) else UNHARMED
    }

    /** A feed overflows, and leaves the parser stuck in ERROR, exactly when its fate says so. */
    method Feed(chunk: bytes)
      requires Valid() && Settled()
      modifies this, body
      ensures Valid() && Settled() && (body == old(body) || (!cfg.streaming && fresh(body)))
      ensures received == old(received) + chunk && delivered == old(delivered) && bodyRead == old(bodyRead)
      ensures tripped == (old(tripped) || old(Trips(chunk)))
      ensures Fate(overflowed, stuck) == old(Sum(FeedFate(chunk)))
      ensures cfg.streaming && |chunk| <= old(BodyFree()) && !old(overflowed) ==> !overflowed
    {
      hide OnCourse, NextStep, Staging, ResponseParser.Staged, ResponseParser.Bounded;
      if |chunk| <= BodyFree() {
        RoomSuffices(chunk);
      }
      FeedOn(chunk);
    }

    method FeedOn(chunk: bytes)
      requires Valid() && Settled()
      modifies this, body
      ensures Valid() && Settled() && (body == old(body) || (!cfg.streaming && fresh(body)))
      ensures received == old(received) + chunk && delivered == old(delivered) && bodyRead == old(bodyRead)
      ensures tripped == (old(tripped) || old(Trips(chunk)))
      ensures Fate(overflowed, stuck) == old(Sum(FeedFate(chunk)))
    {
      hide OnCourse, NextStep, Staging, ResponseParser.Staged, ResponseParser.Bounded;
      if state == Done || state == Error {
        StoppedStaged(cfg, Abs(), Live() + chunk, BodyFree());
        if !tripped && !stuck {
          Arrives(chunk);
        }
        received := received + chunk;
        return;
      }
      Arrives(chunk);
      if chunk != [] && state != Body && |buffer| - readOffset + |chunk| > cfg.maxHeader {
        received := received + chunk;
        tripped := true;
        Fail();
        return;
      }
      TakeIn(chunk);
    }

    /** A feed that is not refused. */
    method TakeIn(chunk: bytes)
      requires Indices() && !tripped && Marks() && (Clean() ==> Staged()) && Bounded() && !Stopped(Abs())
      requires OnCourse(cfg, received + chunk, decoded, Abs(), Live() + chunk) && (state == Body ==> Live() == [])
      modifies this, body
      ensures Indices() && Parsing(Live()) && Settled() && (body == old(body) || (!cfg.streaming && fresh(body)))
      ensures received == old(received) + chunk && delivered == old(delivered) && bodyRead == old(bodyRead) && !tripped
      ensures Fate(overflowed, stuck) == old(Fated(Live() + chunk))
    {
      hide OnCourse, NextStep, Staging, ResponseParser.Staged, ResponseParser.Bounded;
      received := received + chunk;
      if state == Body && chunk != [] {
        assert Live() + chunk == chunk;
        AbsorbBodyBytes(chunk);
      } else {
        AppendLive(chunk);
      }
      Advance();
    }

    method AppendLive(chunk: bytes)
      requires Indices()
      modifies this`buffer
      ensures Indices() && Live() == old(Live()) + chunk
    {
      buffer := buffer + chunk;
    }

    /** The parser ends in ERROR exactly when the whole-stream reading does or it got stuck; if it did not get
        stuck it stands where that reading ends, whatever was dropped. */
    lemma {:induction false} EndsInErrorIff()
      requires Valid() && Settled() && !tripped
      ensures state == Error <==> stuck || Reading(cfg, received).state.phase == Error
      ensures !stuck ==> Reading(cfg, received).state == Abs()
    {
      hide OnCourse, NextStep, Reading;
      if !stuck {
        RestCourse(cfg, received, decoded, Abs(), Live());
      }
    }

    /** feed_eof */
    method FeedEof()
      requires Valid() && Settled()
      modifies this`state
      ensures Clean() ==> state == AtEof(old(Abs())) && InBody() && EndsAs(cfg, received, state)
      ensures !Clean() ==> state == Done || state == Error
    {
      hide OnCourse, NextStep, Reading, EndsAs;
      if Clean() {
        Agrees();
        EndOfStream(cfg, received);
      }
      if state == Done || state == Error {
        return;
      }
      if state == Body && bodyRemaining < 0 {
        state := Done;
      } else {
        state := Error;
      }
    }

    lemma {:induction false} Buffered()
      requires Valid() && !tripped && !cfg.streaming
      ensures Clean() && delivered == [] && bodyRead == 0
    {
      hide OnCourse;
    }

    /** A settled parser stands where the whole-stream reading of what it received ends. */
    lemma {:induction false} Agrees()
      requires Valid() && Settled() && Clean()
      ensures InBody()
      ensures var r := Reading(cfg, received);
              && r.state == Abs()
              && (state != Error ==> r.out == decoded == delivered + body[bodyRead..bodyWrite])
              && (!Stopped(Abs()) ==> r.rest == Live())
    {
      hide OnCourse, NextStep, Reading;
      RestCourse(cfg, received, decoded, Abs(), Live());
    }
  }
}
