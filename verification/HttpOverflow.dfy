/** Chunked bodies that arrive faster than they are read: they overflow the staging buffer and still end in DONE. */
module HttpOverflow {
  import opened Basics
  import opened Bytes
  import opened Resumable
  import opened HttpWire
  import opened HttpStaging
  import opened HttpParser
  import opened HttpStream
  import opened HttpHead

  /** One whole chunk is kept or dropped, and either way the parser goes on behind it. */
  lemma {:induction false} ChunkStages(cfg: Config, p: Parse, data: bytes, rest: bytes, free: nat)
    requires cfg.streaming && PlainHex(cfg) && p.phase == ChunkSize && p.chunk == 0 && data != []
    ensures var lost := |data| > free;
            var f := Staging(cfg, p.(size := p.size + |data|), rest, if lost then free else free - |data|);
            Staging(cfg, p, Chunk(data) + rest, free) == Fate(lost || f.dropped, f.stuck)
  {
    hide Staging, LineStep, Hex, PlainHex, FindLine;
    var n, s := |data|, data + ([CR, LF] + rest);
    var line, q := Hex(n) + [CR, LF] + s, LineStep(cfg, p, Hex(n));
    assert Chunk(data) + rest == line;
    SizeIsPlain(n);
    FindLineAfter(Hex(n), s);
    assert line[..|Hex(n)|] == Hex(n) && line[|Hex(n)| + 2..] == s;
    LineStaged(cfg, p, line, free);
    ChunkStates(cfg, p, n);
    AcrossChunk(cfg, q, s, free);
    assert s[n + 2..] == rest;
  }

  lemma {:induction false} TerminatorStages(cfg: Config, p: Parse, free: nat)
    requires cfg.streaming && PlainHex(cfg) && p.phase == ChunkSize
    ensures Staging(cfg, p, TERMINATOR, free) == UNHARMED
  {
    hide Staging, LineStep, Hex, PlainHex, FindLine;
    var blank: bytes := [] + [CR, LF] + [];
    var q := LineStep(cfg, p, Hex(0));
    TerminatorLines([]);
    assert TERMINATOR + [] == TERMINATOR;
    SizeIsPlain(0);
    LastLines(cfg, p);
    FindLineAfter(Hex(0), blank);
    assert TERMINATOR[..|Hex(0)|] == Hex(0) && TERMINATOR[|Hex(0)| + 2..] == blank;
    LineStaged(cfg, p, TERMINATOR, free);
    FindLineAfter([], []);
    assert blank[..0] == [] && blank[2..] == [];
    LineStaged(cfg, q, blank, free);
    StoppedStaged(cfg, LineStep(cfg, q, []), [], free);
  }

  lemma {:induction false} ChunksFromFront(parts: seq<bytes>)
    requires parts != []
    ensures Chunks(parts) == Chunk(parts[0]) + Chunks(parts[1..])
    ensures |Flatten(parts)| == |parts[0]| + |Flatten(parts[1..])|
    decreases |parts|
  {
    hide Chunk;
    if |parts| == 1 {
      assert parts == [parts[0]];
    } else {
      var front, last := parts[..|parts| - 1], parts[|parts| - 1];
      ChunksFromFront(front);
      assert front[1..] + [last] == parts[1..] && front + [last] == parts;
      ChunksAppend(front[1..], last);
      FlattenAppend(front, last);
      FlattenAppend(front[1..], last);
    }
  }

  /** A whole chunked body at hand overflows the buffer exactly when it is larger than the room; the parser is
      never stuck. */
  lemma {:induction false} WholeBodyStages(cfg: Config, p: Parse, parts: seq<bytes>, free: nat)
    requires cfg.streaming && PlainHex(cfg) && p.phase == ChunkSize && p.chunk == 0
    requires forall i :: 0 <= i < |parts| ==> parts[i] != []
    ensures Staging(cfg, p, Chunks(parts) + TERMINATOR, free) == Fate(|Flatten(parts)| > free, false)
    decreases |parts|
  {
    hide Staging, Chunk, PlainHex, Flatten;
    if parts == [] {
      assert Chunks(parts) + TERMINATOR == TERMINATOR;
      NothingFlat();
      TerminatorStages(cfg, p, free);
    } else {
      var data, rest := parts[0], Chunks(parts[1..]) + TERMINATOR;
      ChunksFromFront(parts);
      assert Chunks(parts) + TERMINATOR == Chunk(data) + rest;
      ChunkStages(cfg, p, data, rest, free);
      var lost := |data| > free;
      WholeBodyStages(cfg, p.(size := p.size + |data|), parts[1..], if lost then free else free - |data|);
    }
  }

  lemma {:induction false} NothingFlat()
    ensures Flatten([]) == []
  {
  }

  /** A head, and a whole chunked body in one feed: the parser is DONE, and it overflowed exactly when the body is
      larger than its staging buffer. */
  method FeedWhole(cfg: Config, head: bytes, parts: seq<bytes>, capacity: nat)
    returns (state: Phase, overflowed: bool, failed: bool)
    requires cfg.streaming && PlainHex(cfg) && forall i :: 0 <= i < |parts| ==> parts[i] != []
    requires var r := Reading(cfg, head); r.state.phase == ChunkSize && r.state.chunk == 0 && r.out == r.rest == []
    requires |head| <= capacity && |head| <= cfg.maxHeader && |Chunks(parts) + TERMINATOR| <= cfg.maxHeader
    ensures state == Done && !failed && overflowed == (|Flatten(parts)| > capacity)
  {
    hide OnCourse, NextStep, Staging, Chunks, PlainHex, Flatten, Reading;
    hide ResponseParser.Bounded, ResponseParser.Settled;
    var parser := new ResponseParser(cfg, capacity);
    parser.Feed(head);
    assert [] + head == head;
    parser.Agrees();
    var rest := Chunks(parts) + TERMINATOR;
    WholeBodyStages(cfg, parser.Abs(), parts, parser.BodyFree());
    assert parser.Live() == [];
    assert [] + rest == rest;
    parser.Feed(rest);
    WholeBodyReads(cfg, head, parts);
    parser.EndsInErrorIff();
    state, overflowed, failed := parser.state, parser.overflowed, parser.tripped;
  }

  lemma {:induction false} WholeBodyReads(cfg: Config, head: bytes, parts: seq<bytes>)
    requires cfg.streaming && PlainHex(cfg) && forall i :: 0 <= i < |parts| ==> parts[i] != []
    requires var r := Reading(cfg, head); r.state.phase == ChunkSize && r.state.chunk == 0 && r.rest == []
    ensures Reading(cfg, head + (Chunks(parts) + TERMINATOR)).state.phase == Done
  {
    hide Stable, ParseStep, Run, Chunks, PlainHex, Flatten;
    var rest := Chunks(parts) + TERMINATOR;
    ParseStepStable(cfg);
    RunResumes(ParseStep(cfg), START, head, rest);
    ChunkedRoundTrip(cfg, Reading(cfg, head).state, parts, []);
    assert rest + [] == rest && [] + rest == rest;
  }

  // ----- A concrete response ---------------------------------------------------------------------------------

  /** "200" */
  const CODE: bytes := [50, 48, 48]

  /** "HTTP/1.1 200 OK" and "Transfer-Encoding: chunked", 47 bytes. */
  const SMALL_HEAD: bytes := Head(CODE, [79, 75], [Field(TRANSFER_ENCODING_NAME, CHUNKED)])

  /** 64 bytes of body */
  const LARGE_PART: bytes := seq(64, i => 120)

  /** A streaming client with a header cap of 4096 bytes. */
  const CLIENT: Config :=
    Config(0, 4096, true, text => if text == CODE then Some(200) else None,
           text => match FromHex(text) { case None => None case Some(n) => Some(n as int) })

  /** The staging buffer has 48 bytes; the response's single chunk has 64, is dropped, and the parser says DONE. */
  method DroppedYetDone() returns (state: Phase, overflowed: bool, failed: bool)
    ensures state == Done && overflowed && !failed
  {
    hide Chunks, Flatten, Reading, Head, PlainHex;
    SmallHeadReads();
    LargePartFits();
    DigitsReadPlain(CLIENT);
    state, overflowed, failed := FeedWhole(CLIENT, SMALL_HEAD, [LARGE_PART], 48);
  }

  lemma {:induction false} LargePartFits()
    ensures |Flatten([LARGE_PART])| == 64 && |Chunks([LARGE_PART]) + TERMINATOR| <= 4096
  {
    NothingFlat();
    ChunksFromFront([LARGE_PART]);
    assert Chunks([]) == [];
    assert |Hex(64)| == 2 by {
      assert |Hex(4)| == 1;
    }
  }

  lemma {:induction false} SmallHeadReads()
    ensures |SMALL_HEAD| == 47
    ensures var r := Reading(CLIENT, SMALL_HEAD);
            r.state.phase == ChunkSize && r.state.chunk == 0 && r.out == r.rest == []
  {
    hide Run, ParseStep, EnterBody, Find, Lower, Strip, FieldLines;
    var f := Field(TRANSFER_ENCODING_NAME, CHUNKED);
    CodingSendable();
    CodeIsOneWord();
    HeadReads(CLIENT, CODE, [79, 75], 200, [f], []);
    assert SMALL_HEAD + [] == SMALL_HEAD;
    ChunkedHead(START.(status := Some(200), version := VERSION, reason := [79, 75], fields := Kept([f]),
                       phase := Headers));
    SmallHeadLength();
  }

  lemma {:induction false} SmallHeadLength()
    ensures |SMALL_HEAD| == 47
  {
    var f := Field(TRANSFER_ENCODING_NAME, CHUNKED);
    assert |FieldLine(f)| == 26;
    assert FieldLines([f]) == FieldLine(f) + [CR, LF] + FieldLines([]);
  }

  lemma {:induction false} CodeIsOneWord()
    ensures Find(CODE, SPACE) == |CODE|
  {
    assert CODE[1..] == [48, 48] && CODE[1..][1..] == [48] && CODE[1..][1..][1..] == [];
  }

  /** Having read the head, the client waits for the first size line. */
  lemma {:induction false} ChunkedHead(p: Parse)
    requires p.fields == Kept([Field(TRANSFER_ENCODING_NAME, CHUNKED)]) && p.status == Some(200) && p.chunk == 0
    ensures var r := Run(ParseStep(CLIENT), EnterBody(CLIENT, p), []);
            r.state.phase == ChunkSize && r.state.chunk == 0 && r.out == r.rest == []
  {
    TransferEncodingFolds();
    ChunkedFolds();
    hide Lower, WithoutSpaces, Strip, LineStep;
    var q := EnterBody(CLIENT, p);
    assert q.phase == ChunkSize && q.chunk == 0;
    hide EnterBody, NextStep, Run, ParseStep;
    EmptyWaits(CLIENT, q);
    StepIs(CLIENT, q, []);
    StoppedRun(ParseStep(CLIENT), q, []);
  }
}
