/** The server's side of a streamed response: pulling from the source, framing in place, partial sends. */
module HttpBody {
  import opened Basics
  import opened Bytes
  import opened HttpWire
  import opened HttpStream

  /** What the body source does when asked: fill the view it is given and return a count, or raise. */
  datatype Answer = Supply(count: int, view: bytes) | Raise

  const SOURCE_EOF := -1

  datatype Pulled = Progressed | Stalled | StreamError

  /** What the socket does with the bytes offered to it. */
  datatype Send = Accept(count: nat) | WouldBlock | Lost

  datatype Sending = InProgress | AllSent | GivenUp

  /** The bytes on the wire for the pieces framed so far. */
  function Wire(contentLength: Option<int>, fills: seq<bytes>, eof: bool): bytes {
    if contentLength.Some? then Flatten(fills)
    else Chunks(fills) + if eof then TERMINATOR else []
  }

  lemma {:induction false} WireGrows(contentLength: Option<int>, fills: seq<bytes>, data: bytes)
    ensures Wire(contentLength, fills + [data], false)
         == Wire(contentLength, fills, false) + if contentLength.Some? then data else Chunk(data)
    ensures |Flatten(fills + [data])| == |Flatten(fills)| + |data|
  {
    hide Flatten, Chunks, Chunk;
    FlattenAppend(fills, data);
    ChunksAppend(fills, data);
  }

  lemma {:induction false} WireEnds(contentLength: Option<int>, fills: seq<bytes>)
    ensures Wire(contentLength, fills, true)
         == Wire(contentLength, fills, false) + if contentLength.Some? then [] else TERMINATOR
  {
    hide Flatten, Chunks;
  }

  /** The pieces a source hands over before it ends or misbehaves. */
  function Supplied(answers: seq<Answer>, capacity: nat): seq<bytes>
    requires forall i :: 0 <= i < |answers| && answers[i].Supply? ==> |answers[i].view| == capacity
  {
    if answers == [] || answers[0].Raise? then []
    else
      var count := answers[0].count;
      if count == 0 then Supplied(answers[1..], capacity)
      else if count < 0 || count > capacity then []
      else [answers[0].view[..count]] + Supplied(answers[1..], capacity)
  }

  lemma {:induction false} Parted(front: bytes, s: bytes, n: nat)
    requires n <= |s|
    ensures front + s == (front + s[..n]) + s[n..]
  {
    assert s == s[..n] + s[n..];
  }

  // ----- One step, one tick and any number of ticks, on values ----------------------------------------

  /** How a body is framed, and how much the source may supply at once. */
  datatype Framer = Framer(contentLength: Option<int>, capacity: nat)

  /** A stream between two steps: the bytes still to be sent, the pieces framed and the bytes accepted so far. */
  datatype Streamed = Streamed(eof: bool, out: bytes, fills: seq<bytes>, emitted: bytes)

  const UNSENT: Streamed := Streamed(false, [], [], [])

  /** The socket accepts `n` of the bytes offered. */
  function Sent(st: Streamed, n: nat): Streamed
    requires n <= |st.out|
  {
    st.(out := st.out[n..], emitted := st.emitted + st.out[..n])
  }

  /** What a pull comes to. */
  function Outcome(f: Framer, st: Streamed, a: Answer): Pulled {
    if a.Raise? then StreamError
    else if a.count == SOURCE_EOF then
      if f.contentLength.Some? && |Flatten(st.fills)| != f.contentLength.value then StreamError else Progressed
    else if a.count == 0 then Stalled
    else if a.count < 0 || a.count > f.capacity then StreamError
    else if f.contentLength.Some? && |Flatten(st.fills)| + a.count > f.contentLength.value then StreamError
    else Progressed
  }

  /** What a pull leaves behind. */
  function AfterPull(f: Framer, st: Streamed, a: Answer): Streamed
    requires a.Supply? ==> |a.view| == f.capacity
  {
    if a.Supply? && a.count == SOURCE_EOF then
      st.(eof := true, out := if f.contentLength.None? then TERMINATOR else [])
    else if a.Supply? && Outcome(f, st, a) == Progressed then
      var data := a.view[..a.count];
      st.(fills := st.fills + [data], out := if f.contentLength.None? then Chunk(data) else data)
    else st
  }

  /** Where a tick ends: the stream, the verdict, and what the socket and the source have still to say. */
  datatype Standing = Standing(st: Streamed, verdict: Sending, sends: seq<Send>, answers: seq<Answer>)

  /** One tick: sending goes before pulling, and both stop with the budget. */
  function Ticked(f: Framer, st: Streamed, budget: nat, sends: seq<Send>, answers: seq<Answer>): Standing
    requires FitsView(answers, f.capacity)
    decreases budget, |answers|
  {
    if budget == 0 then Standing(st, InProgress, sends, answers)
    else if st.out != [] then
      if sends == [] then Standing(st, InProgress, [], answers)
      else if sends[0].Lost? then Standing(st, GivenUp, sends, answers)
      else if !Taking(sends[0]) then Standing(st, InProgress, sends[1..], answers)
      else
        var sent := Least(sends[0].count, Least(|st.out|, budget));
        Ticked(f, Sent(st, sent), budget - sent, sends[1..], answers)
    else if st.eof then Standing(st, AllSent, sends, answers)
    else if answers == [] then Standing(st, InProgress, sends, [])
    else
      var next := AfterPull(f, st, answers[0]);
      match Outcome(f, st, answers[0])
      case StreamError => Standing(next, GivenUp, sends, answers[1..])
      case Stalled => Standing(next, InProgress, sends, answers[1..])
      case Progressed => Ticked(f, next, budget, sends, answers[1..])
  }

  /** Tick after tick until the response is sent or given up. */
  function Served(f: Framer, turn: Standing, ticks: nat, budget: nat): Standing
    requires FitsView(turn.answers, f.capacity)
    decreases ticks
  {
    if ticks == 0 || turn.verdict != InProgress then turn
    else
      TickedFits(f, turn.st, budget, turn.sends, turn.answers);
      Served(f, Ticked(f, turn.st, budget, turn.sends, turn.answers), ticks - 1, budget)
  }

  /** An answer of the socket that takes at least one byte. */
  predicate Taking(s: Send) { s.Accept? && s.count > 0 }

  predicate FitsView(answers: seq<Answer>, capacity: nat) {
    forall i :: 0 <= i < |answers| && answers[i].Supply? ==> |answers[i].view| == capacity
  }

  lemma {:induction false} TickedFits(f: Framer, st: Streamed, budget: nat, sends: seq<Send>, answers: seq<Answer>)
    requires FitsView(answers, f.capacity)
    ensures FitsView(Ticked(f, st, budget, sends, answers).answers, f.capacity)
    decreases budget, |answers|
  {
    hide AfterPull, Outcome;
    if budget > 0 {
      if st.out != [] {
        if sends != [] && Taking(sends[0]) {
          var sent := Least(sends[0].count, Least(|st.out|, budget));
          TickedFits(f, Sent(st, sent), budget - sent, sends[1..], answers);
        }
      } else if !st.eof && answers != [] && Outcome(f, st, answers[0]) == Progressed {
        TickedFits(f, AfterPull(f, st, answers[0]), budget, sends, answers[1..]);
      }
    }
  }

  class StreamState {
    const contentLength: Option<int>
    const buffer: array<byte>
    const reserve: nat
    const capacity: nat
    var bodyBytesSent: nat
    var eof: bool
    /** The output view is the terminator instead of the buffer. */
    var terminator: bool
    var outPos: nat
    var outEnd: nat

    /** What the socket has accepted so far: the peer's view of the response body. */
    var emitted: bytes
    ghost var fills: seq<bytes>

    ghost predicate Shape()
      reads this
    {
      && (contentLength.None? ==>
            reserve == |Hex(buffer.Length)| + 2 && capacity == buffer.Length - reserve - 2 && capacity >= 1)
      && (contentLength.Some? ==> reserve == 0 && capacity == buffer.Length)
      && outPos <= outEnd <= (if terminator then |TERMINATOR| else buffer.Length)
    }

    /** The framed bytes not yet accepted by the socket. */
    function Out(): (r: bytes)
      requires outPos <= outEnd <= (if terminator then |TERMINATOR| else buffer.Length)
      reads this, buffer
      ensures |r| == outEnd - outPos
    {
      if terminator then TERMINATOR[outPos..outEnd] else buffer[outPos..outEnd]
    }

    ghost predicate Pieces()
      reads this`bodyBytesSent, this`fills, this`eof
    {
      && bodyBytesSent == |Flatten(fills)|
      && (forall i :: 0 <= i < |fills| ==> 1 <= |fills[i]| <= capacity)
      && (contentLength.Some? ==> fills == [] || bodyBytesSent <= contentLength.value)
      && (contentLength.Some? && eof ==> bodyBytesSent == contentLength.value)
    }

    ghost predicate Valid()
      reads this, buffer
    {
      && Shape()
      && Pieces()
      && emitted + Out() == Wire(contentLength, fills, eof)
    }

    function By(): Framer { Framer(contentLength, capacity) }

    /** The stream as a value. */
    ghost function Now(): Streamed
      requires outPos <= outEnd <= (if terminator then |TERMINATOR| else buffer.Length)
      reads this, buffer
    {
      Streamed(eof, Out(), fills, emitted)
    }

    constructor (contentLength: Option<int>, buffer: array<byte>, reserve: nat, capacity: nat)
      requires contentLength.None? ==>
                 reserve == |Hex(buffer.Length)| + 2 && capacity == buffer.Length - reserve - 2 && capacity >= 1
      requires contentLength.Some? ==> reserve == 0 && capacity == buffer.Length
      ensures Valid() && Now() == UNSENT
      ensures this.contentLength == contentLength && this.buffer == buffer && this.capacity == capacity
    {
      this.contentLength, this.buffer, this.reserve, this.capacity := contentLength, buffer, reserve, capacity;
      bodyBytesSent, eof, terminator, outPos, outEnd := 0, false, false, 0, 0;
      fills, emitted := [], [];
    }

    predicate Pending()
      reads this`outPos, this`outEnd
    {
      outPos < outEnd
    }

    predicate IsFinished()
      reads this`eof, this`outPos, this`outEnd
    {
      eof && outPos >= outEnd
    }

    method AdvanceSent(count: nat)
      requires Valid() && count <= outEnd - outPos
      modifies this`outPos, this`emitted
      ensures Valid() && Now() == Sent(old(Now()), count)
    {
      hide Wire, Hex, Flatten, StreamState.Pieces;
      var out := Out();
      Parted(emitted, out, count);
      emitted := emitted + out[..count];
      outPos := outPos + count;
      assert Out() == out[count..];
    }

    /** pull: never called while output is pending, so the buffer is free to be refilled. */
    method Pull(answer: Answer) returns (r: Pulled)
      requires Valid() && !Pending() && !eof
      requires answer.Supply? ==> |answer.view| == capacity
      modifies this, buffer
      ensures Shape() && (r != StreamError ==> Valid())
      ensures r == Outcome(By(), old(Now()), answer) && Now() == AfterPull(By(), old(Now()), answer)
    {
      hide Wire, Hex, Flatten, Chunk;
      if answer.Raise? {
        return StreamError;
      }
      assert Out() == [];
      FillView(answer.view);
      if answer.count == SOURCE_EOF {
        r := OnEof();
        return;
      }
      if answer.count == 0 {
        return Stalled;
      }
      if answer.count < 0 || answer.count > capacity {
        return StreamError;
      }
      assert buffer[reserve..reserve + answer.count] == answer.view[..answer.count];
      r := FrameData(answer.count);
    }

    /** What the source leaves in the view it was given. */
    method FillView(view: bytes)
      requires |view| == capacity && reserve + capacity <= buffer.Length
      modifies buffer
      ensures buffer[reserve..reserve + capacity] == view
    {
      forall i | 0 <= i < |view| {
        buffer[reserve + i] := view[i];
      }
    }

    method OnEof() returns (r: Pulled)
      requires Shape() && Pieces() && !Pending() && !eof && emitted == Wire(contentLength, fills, false)
      modifies this`eof, this`terminator, this`outPos, this`outEnd
      ensures r == if contentLength.Some? && |Flatten(fills)| != contentLength.value then StreamError else Progressed
      ensures Shape() && (r == Progressed ==> Valid())
      ensures Now() == old(Now()).(eof := true, out := if contentLength.None? then TERMINATOR else [])
    {
      hide Wire, Hex, Flatten;
      WireEnds(contentLength, fills);
      eof := true;
      if contentLength.None? {
        terminator := true;
        outPos, outEnd := 0, |TERMINATOR|;
      } else if bodyBytesSent != contentLength.value {
        return StreamError;
      }
      r := Progressed;
    }

    method FrameData(count: nat) returns (r: Pulled)
      requires Shape() && Pieces() && !Pending() && !eof && emitted == Wire(contentLength, fills, false)
      requires 1 <= count <= capacity
      modifies this`terminator, this`outPos, this`outEnd, this`bodyBytesSent, this`fills, buffer
      ensures r == if contentLength.Some? && |Flatten(old(fills))| + count > contentLength.value then StreamError
                   else Progressed
      ensures Shape() && (r == Progressed ==> Valid())
      ensures var data := old(buffer[reserve..reserve + count]);
              Now() == if r == StreamError then old(Now())
                       else old(Now()).(fills := old(fills) + [data],
                                        out := if contentLength.None? then Chunk(data) else data)
    {
      hide Wire, Hex, Flatten, Chunk;
      ghost var data := buffer[reserve..reserve + count];
      WireGrows(contentLength, fills, data);
      if contentLength.None? {
        FrameChunk(count);
      } else {
        if count > contentLength.value - bodyBytesSent {
          return StreamError;
        }
        terminator, outPos, outEnd := false, 0, count;
      }
      bodyBytesSent := bodyBytesSent + count;
      fills := fills + [data];
      r := Progressed;
    }

    /** The size line goes in front of the data, flush with it, and CRLF behind. */
    method FrameChunk(count: nat)
      requires Shape() && contentLength.None? && 1 <= count <= capacity
      modifies this`terminator, this`outPos, this`outEnd, buffer
      ensures Shape() && !terminator && Out() == Chunk(old(buffer[reserve..reserve + count]))
    {
      hide Hex;
      ghost var data := buffer[reserve..reserve + count];
      HexGrows(count, buffer.Length);
      var headerLength := WriteChunkHeader(buffer, reserve, count);
      assert buffer[reserve..][..count] == data;
      var bodyEnd := reserve + count;
      ghost var head := buffer[reserve - headerLength..reserve];
      buffer[bodyEnd], buffer[bodyEnd + 1] := CR, LF;
      assert buffer[reserve - headerLength..reserve] == head;
      assert buffer[reserve..bodyEnd] == data;
      terminator, outPos, outEnd := false, reserve - headerLength, bodyEnd + 2;
      assert buffer[outPos..outEnd] == buffer[outPos..reserve] + buffer[reserve..bodyEnd] + [CR, LF];
    }
  }

  // ----- Whole responses ------------------------------------------------------------------------------

  /** drive_stream_body: one tick of sending and pulling, within the budget. */
  method DriveStreamBody(stream: StreamState, budget: nat, sends: seq<Send>, answers: seq<Answer>)
    returns (verdict: Sending, sends': seq<Send>, answers': seq<Answer>)
    requires stream.Valid() && FitsView(answers, stream.capacity)
    modifies stream, stream.buffer
    ensures stream.Shape() && (verdict != GivenUp ==> stream.Valid())
    ensures Standing(stream.Now(), verdict, sends', answers')
         == Ticked(stream.By(), old(stream.Now()), budget, sends, answers)
  {
    hide Wire, Hex, Flatten, StreamState.Pieces, StreamState.Out, Outcome, AfterPull, Ticked;
    var consumed := 0;
    sends', answers' := sends, answers;
    ghost var f := stream.By();
    while consumed < budget
      invariant stream.Valid() && FitsView(answers', stream.capacity) && consumed <= budget
      invariant Ticked(f, stream.Now(), budget - consumed, sends', answers')
             == Ticked(f, old(stream.Now()), budget, sends, answers)
      decreases budget - consumed, |answers'|
    {
      StepOf(f, stream.Now(), budget - consumed, sends', answers');
      if stream.Pending() {
        var room := budget - consumed;
        var available := stream.outEnd - stream.outPos;
        var offered := if available <= room then available else room;
        if sends' == [] || sends'[0].WouldBlock? {
          sends' := if sends' == [] then [] else sends'[1..];
          return InProgress, sends', answers';
        }
        if sends'[0].Lost? {
          return GivenUp, sends', answers';
        }
        var sent := if sends'[0].count <= offered then sends'[0].count else offered;
        sends' := sends'[1..];
        if sent <= 0 {
          return InProgress, sends', answers';
        }
        stream.AdvanceSent(sent);
        consumed := consumed + sent;
      } else if stream.IsFinished() {
        return AllSent, sends', answers';
      } else {
        if answers' == [] {
          return InProgress, sends', answers';
        }
        var answer := answers'[0];
        answers' := answers'[1..];
        var r := stream.Pull(answer);
        if r == StreamError {
          return GivenUp, sends', answers';
        }
        if r == Stalled {
          return InProgress, sends', answers';
        }
      }
    }
    StepOf(f, stream.Now(), 0, sends', answers');
    verdict := InProgress;
  }

  /** One turn of the loop, whatever else there is to say about the stream. */
  lemma {:induction false} StepOf(f: Framer, st: Streamed, budget: nat, sends: seq<Send>, answers: seq<Answer>)
    requires FitsView(answers, f.capacity)
    ensures budget == 0 ==> Ticked(f, st, budget, sends, answers) == Standing(st, InProgress, sends, answers)
    ensures budget > 0 && st.out != [] ==>
              Ticked(f, st, budget, sends, answers)
              == if sends == [] then Standing(st, InProgress, [], answers)
                 else if sends[0].Lost? then Standing(st, GivenUp, sends, answers)
                 else if !Taking(sends[0]) then Standing(st, InProgress, sends[1..], answers)
                 else
                   var sent := Least(sends[0].count, Least(|st.out|, budget));
                   Ticked(f, Sent(st, sent), budget - sent, sends[1..], answers)
    ensures budget > 0 && st.out == [] && st.eof ==>
              Ticked(f, st, budget, sends, answers) == Standing(st, AllSent, sends, answers)
    ensures budget > 0 && st.out == [] && !st.eof && answers == [] ==>
              Ticked(f, st, budget, sends, answers) == Standing(st, InProgress, sends, [])
    ensures budget > 0 && st.out == [] && !st.eof && answers != [] ==>
              Ticked(f, st, budget, sends, answers)
              == match Outcome(f, st, answers[0])
                 case StreamError => Standing(AfterPull(f, st, answers[0]), GivenUp, sends, answers[1..])
                 case Stalled => Standing(AfterPull(f, st, answers[0]), InProgress, sends, answers[1..])
                 case Progressed => Ticked(f, AfterPull(f, st, answers[0]), budget, sends, answers[1..])
  {
    hide Outcome, AfterPull;
  }

  // ----- What every tick keeps ------------------------------------------------------------------------

  /** What is on the wire and what is pending are the framing of the pieces, within the declared length. */
  ghost predicate Sound(f: Framer, st: Streamed) {
    && st.emitted + st.out == Wire(f.contentLength, st.fills, st.eof)
    && (forall i :: 0 <= i < |st.fills| ==> 1 <= |st.fills[i]| <= f.capacity)
    && (f.contentLength.Some? ==> st.fills == [] || |Flatten(st.fills)| <= f.contentLength.value)
    && (f.contentLength.Some? && st.eof ==> |Flatten(st.fills)| == f.contentLength.value)
  }

  /** The pieces framed and those the source has still to supply. */
  function Ahead(f: Framer, st: Streamed, answers: seq<Answer>): seq<bytes>
    requires FitsView(answers, f.capacity)
  {
    st.fills + if st.eof then [] else Supplied(answers, f.capacity)
  }

  lemma {:induction false} SuppliedNext(answers: seq<Answer>, capacity: nat)
    requires FitsView(answers, capacity) && answers != []
    ensures FitsView(answers[1..], capacity)
    ensures var a := answers[0];
            Supplied(answers, capacity)
            == if a.Raise? then []
               else if a.count == 0 then Supplied(answers[1..], capacity)
               else if a.count < 0 || a.count > capacity then []
               else [a.view[..a.count]] + Supplied(answers[1..], capacity)
  {
  }

  lemma {:induction false} SentSound(f: Framer, st: Streamed, n: nat)
    requires Sound(f, st) && n <= |st.out|
    ensures Sound(f, Sent(st, n))
  {
    hide Wire, Flatten;
    Parted(st.emitted, st.out, n);
  }

  lemma {:induction false} PullSound(f: Framer, st: Streamed, answers: seq<Answer>)
    requires Sound(f, st) && st.out == [] && !st.eof && answers != [] && FitsView(answers, f.capacity)
    ensures var next, rest := AfterPull(f, st, answers[0]), answers[1..];
            && FitsView(rest, f.capacity) && next.emitted == st.emitted
            && if Outcome(f, st, answers[0]) == StreamError then next.fills == st.fills
               else Sound(f, next) && Ahead(f, next, rest) == Ahead(f, st, answers)
  {
    hide Wire, Flatten, Chunk, Supplied;
    SuppliedNext(answers, f.capacity);
    WireEnds(f.contentLength, st.fills);
    assert st.emitted + [] == st.emitted;
    var a := answers[0];
    if a.Supply? && 1 <= a.count <= f.capacity {
      WireGrows(f.contentLength, st.fills, a.view[..a.count]);
      assert st.fills + ([a.view[..a.count]] + Supplied(answers[1..], f.capacity))
          == st.fills + [a.view[..a.count]] + Supplied(answers[1..], f.capacity);
    }
  }

  lemma {:induction false} WirePrefix(contentLength: Option<int>, a: seq<bytes>, b: seq<bytes>, eof: bool)
    ensures Wire(contentLength, a, false) <= Wire(contentLength, a + b, eof)
    ensures Wire(contentLength, a, eof) <= Wire(contentLength, a, true)
    decreases |b|
  {
    hide Wire, Flatten, Chunks, Chunk;
    WireEnds(contentLength, a);
    WireEnds(contentLength, a + b);
    if b == [] {
      assert a + b == a;
    } else {
      var init := b[..|b| - 1];
      WirePrefix(contentLength, a, init, false);
      assert a + b == (a + init) + [b[|b| - 1]];
      WireGrows(contentLength, a + init, b[|b| - 1]);
    }
  }

  /** What a tick ends with, unless the response is given up. */
  ghost predicate Goes(f: Framer, t: Standing) {
    t.verdict != GivenUp ==> Sound(f, t.st) && (t.verdict == AllSent ==> t.st.eof && t.st.out == [])
  }

  /** A tick keeps the framing, and no piece is lost or made up. */
  lemma {:induction false} TickedSound(f: Framer, st: Streamed, budget: nat, sends: seq<Send>, answers: seq<Answer>)
    requires Sound(f, st) && FitsView(answers, f.capacity)
    ensures var t := Ticked(f, st, budget, sends, answers);
            && FitsView(t.answers, f.capacity) && Goes(f, t)
            && t.st.emitted <= Wire(f.contentLength, t.st.fills, true)
            && t.st.fills <= Ahead(f, st, answers)
            && (forall i :: 0 <= i < |t.st.fills| ==> t.st.fills[i] != [])
            && (t.verdict != GivenUp ==> Ahead(f, t.st, t.answers) == Ahead(f, st, answers))
    decreases budget, |answers|
  {
    hide AfterPull, Outcome, Wire, Flatten, Supplied, Ticked;
    StepOf(f, st, budget, sends, answers);
    WirePrefix(f.contentLength, st.fills, [], st.eof);
    assert st.fills + [] == st.fills;
    if budget > 0 {
      if st.out != [] {
        if sends != [] && Taking(sends[0]) {
          var sent := Least(sends[0].count, Least(|st.out|, budget));
          SentSound(f, st, sent);
          TickedSound(f, Sent(st, sent), budget - sent, sends[1..], answers);
        }
      } else if !st.eof && answers != [] {
        PullSound(f, st, answers);
        var next := AfterPull(f, st, answers[0]);
        if Outcome(f, st, answers[0]) == Progressed {
          TickedSound(f, next, budget, sends, answers[1..]);
        } else if Outcome(f, st, answers[0]) == Stalled {
          WirePrefix(f.contentLength, next.fills, [], next.eof);
        }
      }
    }
  }

  // ----- What it takes to finish ----------------------------------------------------------------------

  /** Answers a source may give after `total` bytes, up to the end of the body. */
  predicate Sane(f: Framer, total: nat, answers: seq<Answer>)
    decreases |answers|
  {
    answers == []
    || var a := answers[0];
       && a.Supply?
       && if a.count == SOURCE_EOF then f.contentLength.Some? ==> total == f.contentLength.value
          else if a.count == 0 then Sane(f, total, answers[1..])
          else
            && 0 < a.count <= f.capacity && (f.contentLength.Some? ==> total + a.count <= f.contentLength.value)
            && Sane(f, total + a.count, answers[1..])
  }

  /** The source comes to the end of the body. */
  predicate Closes(answers: seq<Answer>) {
    exists i :: 0 <= i < |answers| && answers[i].Supply? && answers[i].count == SOURCE_EOF
  }

  predicate Reliable(sends: seq<Send>) { forall i :: 0 <= i < |sends| ==> !sends[i].Lost? }

  /** Answers of the socket that take something, and those that do not. */
  function Takings(sends: seq<Send>): nat {
    if sends == [] then 0 else Takings(sends[1..]) + if Taking(sends[0]) then 1 else 0
  }

  function Idle(sends: seq<Send>): nat {
    if sends == [] then 0 else Idle(sends[1..]) + if Taking(sends[0]) then 0 else 1
  }

  /** How often the source has nothing yet. */
  function Stalls(answers: seq<Answer>): nat {
    if answers == [] then 0
    else Stalls(answers[1..]) + if answers[0].Supply? && answers[0].count == 0 then 1 else 0
  }

  /** The bytes of the response still to be accepted. */
  ghost function Left(f: Framer, st: Streamed, answers: seq<Answer>): int
    requires FitsView(answers, f.capacity)
  {
    |Wire(f.contentLength, Ahead(f, st, answers), true)| - |st.emitted|
  }

  /** The socket and the source can be relied on for the rest of the response. */
  ghost predicate Willing(f: Framer, st: Streamed, sends: seq<Send>, answers: seq<Answer>)
    requires FitsView(answers, f.capacity)
  {
    && Sound(f, st) && Reliable(sends) && Takings(sends) >= Left(f, st, answers)
    && (!st.eof ==> Sane(f, |Flatten(st.fills)|, answers) && Closes(answers))
  }

  lemma {:induction false} LeftCovers(f: Framer, st: Streamed, answers: seq<Answer>)
    requires Sound(f, st) && FitsView(answers, f.capacity)
    ensures Left(f, st, answers) >= |st.out|
  {
    hide Wire, Flatten, Supplied;
    if st.eof {
      assert st.fills + [] == st.fills;
    } else {
      WirePrefix(f.contentLength, st.fills, Supplied(answers, f.capacity), true);
    }
  }

  lemma {:induction false} SanePull(f: Framer, st: Streamed, answers: seq<Answer>)
    requires answers != [] && FitsView(answers, f.capacity)
    requires Sane(f, |Flatten(st.fills)|, answers)
    ensures Outcome(f, st, answers[0]) != StreamError
    ensures var next := AfterPull(f, st, answers[0]);
            !next.eof && !st.eof ==> Sane(f, |Flatten(next.fills)|, answers[1..])
    ensures var next := AfterPull(f, st, answers[0]);
            !next.eof && !st.eof && Closes(answers) ==> Closes(answers[1..])
  {
    hide Flatten, Chunk;
    var a := answers[0];
    if 1 <= a.count <= f.capacity {
      WireGrows(f.contentLength, st.fills, a.view[..a.count]);
    }
    if Closes(answers) && a.count != SOURCE_EOF {
      var i :| 0 <= i < |answers| && answers[i].Supply? && answers[i].count == SOURCE_EOF;
      assert answers[1..][i - 1] == answers[i];
    }
  }

  /** A tick is given up only over a lost socket or a source that misbehaves. */
  lemma {:induction false} GivenUpOnlyThen(f: Framer, st: Streamed, budget: nat, sends: seq<Send>, answers: seq<Answer>)
    requires FitsView(answers, f.capacity) && Reliable(sends)
    requires !st.eof ==> Sane(f, |Flatten(st.fills)|, answers)
    ensures var t := Ticked(f, st, budget, sends, answers);
            && t.verdict != GivenUp && Reliable(t.sends) && FitsView(t.answers, f.capacity)
            && (!t.st.eof ==> Sane(f, |Flatten(t.st.fills)|, t.answers))
    decreases budget, |answers|
  {
    hide AfterPull, Outcome, Flatten, Sane, Ticked;
    StepOf(f, st, budget, sends, answers);
    if budget > 0 {
      if st.out != [] {
        if sends != [] && Taking(sends[0]) {
          var sent := Least(sends[0].count, Least(|st.out|, budget));
          GivenUpOnlyThen(f, Sent(st, sent), budget - sent, sends[1..], answers);
        }
      } else if !st.eof && answers != [] {
        SanePull(f, st, answers);
        if Outcome(f, st, answers[0]) == Progressed {
          GivenUpOnlyThen(f, AfterPull(f, st, answers[0]), budget, sends, answers[1..]);
        }
      }
    }
  }

  lemma {:induction false} SendCounts(sends: seq<Send>)
    requires sends != []
    ensures Reliable(sends) ==> Reliable(sends[1..])
    ensures Takings(sends) == Takings(sends[1..]) + if Taking(sends[0]) then 1 else 0
    ensures Idle(sends) == Idle(sends[1..]) + if Taking(sends[0]) then 0 else 1
  {
  }

  lemma {:induction false} PullCounts(f: Framer, st: Streamed, answers: seq<Answer>)
    requires answers != [] && FitsView(answers, f.capacity)
    ensures Stalls(answers)
         == Stalls(answers[1..]) + if answers[0].Supply? && answers[0].count == 0 then 1 else 0
    ensures Outcome(f, st, answers[0]) == Stalled ==> answers[0].Supply? && answers[0].count == 0
    ensures Outcome(f, st, answers[0]) == Stalled ==> AfterPull(f, st, answers[0]) == st
    ensures AfterPull(f, st, answers[0]).emitted == st.emitted
  {
    hide Flatten, Chunk;
  }

  lemma {:induction false} WillingSent(f: Framer, st: Streamed, n: nat, sends: seq<Send>, answers: seq<Answer>)
    requires FitsView(answers, f.capacity) && Willing(f, st, sends, answers)
    requires sends != [] && Taking(sends[0]) && 1 <= n <= |st.out|
    ensures Willing(f, Sent(st, n), sends[1..], answers) && Ahead(f, Sent(st, n), answers) == Ahead(f, st, answers)
  {
    hide Wire, Flatten, Supplied, Sane, Closes, Sound;
    SentSound(f, st, n);
    SendCounts(sends);
  }

  lemma {:induction false} WillingIdle(f: Framer, st: Streamed, sends: seq<Send>, answers: seq<Answer>)
    requires FitsView(answers, f.capacity) && Willing(f, st, sends, answers) && st.out != []
    ensures sends != [] && !sends[0].Lost?
    ensures !Taking(sends[0]) ==> Willing(f, st, sends[1..], answers)
  {
    hide Wire, Flatten, Supplied, Sane, Closes, Sound;
    LeftCovers(f, st, answers);
    NobodyTakes(sends);
    SendCounts(sends);
  }

  lemma {:induction false} NobodyTakes(sends: seq<Send>)
    ensures sends == [] ==> Takings(sends) == 0
  {
  }

  lemma {:induction false} WillingPull(f: Framer, st: Streamed, sends: seq<Send>, answers: seq<Answer>)
    requires FitsView(answers, f.capacity) && Willing(f, st, sends, answers) && st.out == [] && !st.eof
    ensures answers != [] && Outcome(f, st, answers[0]) != StreamError
    ensures FitsView(answers[1..], f.capacity) && Willing(f, AfterPull(f, st, answers[0]), sends, answers[1..])
    ensures Ahead(f, AfterPull(f, st, answers[0]), answers[1..]) == Ahead(f, st, answers)
  {
    hide Wire, Flatten, Supplied, Sane, Sound, Outcome, AfterPull;
    assert answers != [];
    PullSound(f, st, answers);
    SanePull(f, st, answers);
  }

  /** With a willing socket and source a tick that does not finish the response sends its whole budget, or has met a
      socket that takes nothing, or a source that has nothing yet. */
  lemma {:induction false} TickProgresses(f: Framer, st: Streamed, budget: nat, sends: seq<Send>, answers: seq<Answer>)
    requires FitsView(answers, f.capacity) && Willing(f, st, sends, answers)
    ensures var t := Ticked(f, st, budget, sends, answers);
            && FitsView(t.answers, f.capacity) && Willing(f, t.st, t.sends, t.answers) && t.verdict != GivenUp
            && Idle(t.sends) <= Idle(sends) && Stalls(t.answers) <= Stalls(answers)
            && Ahead(f, t.st, t.answers) == Ahead(f, st, answers)
            && (t.verdict == InProgress ==>
                  || |t.st.emitted| >= |st.emitted| + budget
                  || Idle(t.sends) < Idle(sends) || Stalls(t.answers) < Stalls(answers))
    decreases budget, |answers|
  {
    hide AfterPull, Outcome, Ticked, Stalls, Idle, Ahead, Taking, Willing;
    StepOf(f, st, budget, sends, answers);
    if budget > 0 {
      if st.out != [] {
        WillingIdle(f, st, sends, answers);
        SendCounts(sends);
        if Taking(sends[0]) {
          TakingTakes(sends[0]);
          var sent := Least(sends[0].count, Least(|st.out|, budget));
          WillingSent(f, st, sent, sends, answers);
          TickProgresses(f, Sent(st, sent), budget - sent, sends[1..], answers);
        }
      } else if !st.eof {
        WillingPull(f, st, sends, answers);
        PullCounts(f, st, answers);
        if Outcome(f, st, answers[0]) == Progressed {
          TickProgresses(f, AfterPull(f, st, answers[0]), budget, sends, answers[1..]);
        }
      }
    }
  }

  lemma {:induction false} TakingTakes(s: Send)
    requires Taking(s)
    ensures s.Accept? && s.count > 0
  {
  }

  // ----- Any number of ticks --------------------------------------------------------------------------

  lemma {:induction false} ServedStep(f: Framer, turn: Standing, ticks: nat, budget: nat)
    requires FitsView(turn.answers, f.capacity)
    ensures ticks == 0 || turn.verdict != InProgress ==> Served(f, turn, ticks, budget) == turn
    ensures ticks > 0 && turn.verdict == InProgress ==>
              var t := Ticked(f, turn.st, budget, turn.sends, turn.answers);
              FitsView(t.answers, f.capacity) && Served(f, turn, ticks, budget) == Served(f, t, ticks - 1, budget)
  {
    hide Ticked;
    if ticks > 0 && turn.verdict == InProgress {
      TickedFits(f, turn.st, budget, turn.sends, turn.answers);
    }
  }

  /** One tick more at the end. */
  lemma {:induction false} ServedMore(f: Framer, turn: Standing, ticks: nat, budget: nat)
    requires FitsView(turn.answers, f.capacity)
    ensures var t := Served(f, turn, ticks, budget);
            && FitsView(t.answers, f.capacity)
            && Served(f, turn, ticks + 1, budget)
               == if t.verdict != InProgress then t else Ticked(f, t.st, budget, t.sends, t.answers)
    ensures Served(f, turn, ticks, budget).verdict != InProgress ==>
              forall more: nat :: more >= ticks ==> Served(f, turn, more, budget) == Served(f, turn, ticks, budget)
    decreases ticks
  {
    hide Served, Ticked;
    ServedStep(f, turn, ticks, budget);
    ServedStep(f, turn, ticks + 1, budget);
    if turn.verdict == InProgress {
      var next := Ticked(f, turn.st, budget, turn.sends, turn.answers);
      if ticks == 0 {
        ServedStep(f, next, 0, budget);
      } else {
        ServedMore(f, next, ticks - 1, budget);
        forall more: nat | more >= ticks && Served(f, turn, ticks, budget).verdict != InProgress
          ensures Served(f, turn, more, budget) == Served(f, turn, ticks, budget)
        {
          ServedStep(f, turn, more, budget);
        }
      }
    } else {
      forall more: nat | more >= ticks ensures Served(f, turn, more, budget) == turn {
        ServedStep(f, turn, more, budget);
      }
    }
  }

  /** However often the server is ticked, what is on the wire begins the framing of pieces the source supplied. */
  lemma {:induction false} ServedSound(f: Framer, turn: Standing, ticks: nat, budget: nat)
    requires FitsView(turn.answers, f.capacity) && Goes(f, turn) && turn.verdict != GivenUp
    ensures var t := Served(f, turn, ticks, budget);
            && Goes(f, t) && t.st.emitted <= Wire(f.contentLength, t.st.fills, true)
            && t.st.fills <= Ahead(f, turn.st, turn.answers)
            && (forall i :: 0 <= i < |t.st.fills| ==> t.st.fills[i] != [])
            && FitsView(t.answers, f.capacity)
            && (t.verdict != GivenUp ==> Ahead(f, t.st, t.answers) == Ahead(f, turn.st, turn.answers))
    decreases ticks
  {
    hide Served, Ticked, Wire, Flatten, Supplied;
    ServedStep(f, turn, ticks, budget);
    WirePrefix(f.contentLength, turn.st.fills, [], turn.st.eof);
    assert turn.st.fills + [] == turn.st.fills;
    if ticks > 0 && turn.verdict == InProgress {
      var t := Ticked(f, turn.st, budget, turn.sends, turn.answers);
      TickedSound(f, turn.st, budget, turn.sends, turn.answers);
      if t.verdict == GivenUp {
        ServedStep(f, t, ticks - 1, budget);
      } else {
        ServedSound(f, t, ticks - 1, budget);
      }
    }
  }

  /** A response is given up only over a lost socket or a source that misbehaves. */
  lemma {:induction false} ServedGivenUp(f: Framer, turn: Standing, ticks: nat, budget: nat)
    requires FitsView(turn.answers, f.capacity) && Reliable(turn.sends) && turn.verdict != GivenUp
    requires !turn.st.eof ==> Sane(f, |Flatten(turn.st.fills)|, turn.answers)
    ensures Served(f, turn, ticks, budget).verdict != GivenUp
    decreases ticks
  {
    hide Served, Ticked, Flatten, Sane, Reliable;
    ServedStep(f, turn, ticks, budget);
    if ticks > 0 && turn.verdict == InProgress {
      GivenUpOnlyThen(f, turn.st, budget, turn.sends, turn.answers);
      ServedGivenUp(f, Ticked(f, turn.st, budget, turn.sends, turn.answers), ticks - 1, budget);
    }
  }

  /** Ticks that are certain to suffice: one for every budget's worth of bytes, and one for every time the socket takes
      nothing or the source has nothing. */
  ghost function Enough(f: Framer, turn: Standing, budget: nat): int
    requires FitsView(turn.answers, f.capacity) && budget > 0
  {
    Left(f, turn.st, turn.answers) / budget + Idle(turn.sends) + Stalls(turn.answers)
  }

  lemma {:induction false} ProductGrows(k: nat, a: int, b: int)
    requires a < b
    ensures k * a + k <= k * b
    decreases b - a
  {
    if a + 1 < b {
      ProductGrows(k, a, b - 1);
    }
    assert k * (b - 1) + k == k * b;
  }

  /** A budget's worth of bytes less is one tick less, and no more bytes are no more ticks. */
  lemma {:induction false} Quotients(a: nat, b: nat, budget: nat)
    requires budget > 0
    ensures b + budget <= a ==> b / budget + 1 <= a / budget
    ensures b <= a ==> b / budget <= a / budget
  {
    var p, q := a / budget, b / budget;
    assert a == budget * p + a % budget && b == budget * q + b % budget;
    assert budget * (q + 1) == budget * q + budget;
    if p < q + 1 {
      ProductGrows(budget, p, q + 1);
    }
    if p < q {
      ProductGrows(budget, p, q);
    }
  }

  /** With a willing socket and source the response is sent once the server has been ticked often enough. */
  lemma {:induction false} ServedFinishes(f: Framer, turn: Standing, ticks: nat, budget: nat)
    requires FitsView(turn.answers, f.capacity) && budget > 0 && turn.verdict != GivenUp
    requires Willing(f, turn.st, turn.sends, turn.answers) && ticks > Enough(f, turn, budget)
    ensures Served(f, turn, ticks, budget).verdict == AllSent
    decreases ticks
  {
    hide *;
    ServedStep(f, turn, ticks, budget);
    EnoughTicks(f, turn, budget);
    if turn.verdict == InProgress {
      var t := Ticked(f, turn.st, budget, turn.sends, turn.answers);
      FewerTicks(f, turn, budget);
      if t.verdict == InProgress {
        ServedFinishes(f, t, ticks - 1, budget);
      } else {
        ServedStep(f, t, ticks - 1, budget);
      }
    }
  }

  lemma {:induction false} EnoughTicks(f: Framer, turn: Standing, budget: nat)
    requires FitsView(turn.answers, f.capacity) && budget > 0
    requires Willing(f, turn.st, turn.sends, turn.answers)
    ensures Enough(f, turn, budget) >= 0
  {
    hide Willing, Wire, Ahead;
    Covered(f, turn);
  }

  /** Every tick that leaves the response unfinished leaves one tick less to wait for. */
  lemma {:induction false} FewerTicks(f: Framer, turn: Standing, budget: nat)
    requires FitsView(turn.answers, f.capacity) && budget > 0
    requires Willing(f, turn.st, turn.sends, turn.answers)
    ensures var t := Ticked(f, turn.st, budget, turn.sends, turn.answers);
            && t.verdict != GivenUp && FitsView(t.answers, f.capacity) && Willing(f, t.st, t.sends, t.answers)
            && (t.verdict == InProgress ==> Enough(f, t, budget) < Enough(f, turn, budget))
  {
    hide Ticked, Willing, Wire, Ahead, Idle, Stalls;
    var t := Ticked(f, turn.st, budget, turn.sends, turn.answers);
    TickProgresses(f, turn.st, budget, turn.sends, turn.answers);
    Emits(f, turn.st, budget, turn.sends, turn.answers);
    Covered(f, turn);
    Covered(f, t);
    Quotients(Left(f, turn.st, turn.answers), Left(f, t.st, t.answers), budget);
  }

  lemma {:induction false} Covered(f: Framer, turn: Standing)
    requires FitsView(turn.answers, f.capacity) && Willing(f, turn.st, turn.sends, turn.answers)
    ensures Left(f, turn.st, turn.answers) >= 0
  {
    LeftCovers(f, turn.st, turn.answers);
  }

  lemma {:induction false} Emits(f: Framer, st: Streamed, budget: nat, sends: seq<Send>, answers: seq<Answer>)
    requires FitsView(answers, f.capacity)
    ensures st.emitted <= Ticked(f, st, budget, sends, answers).st.emitted
    decreases budget, |answers|
  {
    hide Outcome, AfterPull, Ticked;
    StepOf(f, st, budget, sends, answers);
    if budget > 0 {
      if st.out != [] {
        if sends != [] && Taking(sends[0]) {
          var sent := Least(sends[0].count, Least(|st.out|, budget));
          Emits(f, Sent(st, sent), budget - sent, sends[1..], answers);
        }
      } else if !st.eof && answers != [] {
        PullCounts(f, st, answers);
        Emits(f, AfterPull(f, st, answers[0]), budget, sends, answers[1..]);
      }
    }
  }
}
