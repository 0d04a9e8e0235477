/** Heads as any server may write them: repeated fields, interim responses, responses without a body, and the heads and
    chunks that are refused. */
module HttpLaws {
  import opened Basics
  import opened Bytes
  import opened Resumable
  import opened HttpWire
  import opened HttpEnds
  import opened HttpStream
  import opened HttpHead

  // ----- White space around a value ---------------------------------------------------------------------

  /** Tabs, line breaks, the separators 28 to 31 and spaces. */
  predicate IsBlank(b: byte) { b in {9, 10, 11, 12, 13, 28, 29, 30, 31, 32} }

  lemma {:induction false} BlankIsSpace(b: byte)
    ensures IsBlank(b) <==> IsSpace(b)
  {
  }

  predicate Blank(s: bytes) { forall i :: 0 <= i < |s| ==> IsBlank(s[i]) }

  /** Text that neither begins nor ends with white space. */
  predicate Trimmed(s: bytes) { s != [] ==> !IsBlank(s[0]) && !IsBlank(s[|s| - 1]) }

  lemma {:induction false} StripsFront(b: byte, s: bytes)
    requires IsBlank(b)
    ensures Strip([b] + s) == Strip(s)
  {
    BlankIsSpace(b);
    assert ([b] + s)[1..] == s;
  }

  lemma {:induction false} StripsBack(s: bytes, b: byte)
    requires IsBlank(b) && s != [] && !IsBlank(s[0])
    ensures Strip(s + [b]) == Strip(s)
  {
    BlankIsSpace(b);
    BlankIsSpace(s[0]);
    assert (s + [b])[..|s|] == s;
  }

  lemma {:induction false} StripsNothing(s: bytes)
    requires Trimmed(s)
    ensures Strip(s) == s
  {
    if s != [] {
      BlankIsSpace(s[0]);
      BlankIsSpace(s[|s| - 1]);
    }
  }

  /** Exactly the white space around a text is removed. */
  lemma {:induction false} StripsBlanks(front: bytes, text: bytes, back: bytes)
    requires Blank(front) && Blank(back) && Trimmed(text)
    ensures Strip(front + text + back) == text
    decreases |front| + |back|
  {
    hide Strip, IsBlank;
    if front != [] {
      assert front + text + back == [front[0]] + (front[1..] + text + back);
      StripsFront(front[0], front[1..] + text + back);
      StripsBlanks(front[1..], text, back);
    } else if back == [] {
      assert front + text + back == text;
      StripsNothing(text);
    } else if text == [] {
      assert front + text + back == [back[0]] + ([] + text + back[1..]);
      StripsFront(back[0], [] + text + back[1..]);
      StripsBlanks([], text, back[1..]);
    } else {
      var n := |back| - 1;
      assert front + text + back == ([] + text + back[..n]) + [back[n]];
      StripsBack([] + text + back[..n], back[n]);
      StripsBlanks([], text, back[..n]);
    }
  }

  /** A field line, with any white space around the value, adds the value under the name. */
  lemma {:induction false} FieldLineAdds(cfg: Config, p: Parse, name: bytes, front: bytes, value: bytes, back: bytes)
    requires Sendable(Field(name, value)) && Blank(front) && Blank(back) && Trimmed(value)
    ensures HeaderLine(cfg, p, name + [COLON] + (front + value + back))
         == p.(fields := AddField(p.fields, name, value))
  {
    hide EnterBody, Lower, AddField, Find, Strip, Trimmed;
    var tail := front + value + back;
    var line := name + [COLON] + tail;
    assert Ascii(line);
    FindFirst(line, name, COLON, tail);
    assert line[..|name|] == name && line[|name| + 1..] == tail;
    StripsBlanks(front, value, back);
  }

  /** The same letter, whatever its case. */
  predicate SameLetter(a: byte, b: byte) {
    || a == b
    || (65 <= a <= 90 && b as int == a as int + 32)
    || (65 <= b <= 90 && a as int == b as int + 32)
  }

  /** Names are the same when they are spelled with the same letters in the same or the other case. */
  lemma {:induction false} SameSpellingIff(a: bytes, b: bytes)
    ensures Lower(a) == Lower(b)
            <==> |a| == |b| && forall i :: 0 <= i < |a| ==> SameLetter(a[i], b[i])
  {
    if Lower(a) == Lower(b) {
      forall i | 0 <= i < |a| ensures SameLetter(a[i], b[i]) {
        assert Lower(a)[i] == Lower(b)[i];
      }
    }
  }

  // ----- Repeated fields ------------------------------------------------------------------------------------

  /** The values given for a name, in order, whatever case it was written in. */
  function Given(fields: seq<Field>, name: bytes): seq<bytes> {
    if fields == [] then []
    else
      var before := Given(fields[..|fields| - 1], name);
      if Lower(fields[|fields| - 1].name) == Lower(name) then before + [Strip(fields[|fields| - 1].value)] else before
  }

  /** Values with a comma and a space between them. */
  function Joined(values: seq<bytes>): bytes
    requires values != []
  {
    if |values| == 1 then values[0]
    else Joined(values[..|values| - 1]) + [44, 32] + values[|values| - 1]
  }

  /** The fields of a head as they come in. */
  function Gathered(fields: seq<Field>): seq<Field> {
    if fields == [] then []
    else
      var f := fields[|fields| - 1];
      AddField(Gathered(fields[..|fields| - 1]), f.name, Strip(f.value))
  }

  lemma {:induction false} AddFieldValue(fields: seq<Field>, name: bytes, value: bytes, other: bytes)
    ensures Value(AddField(fields, name, value), other)
         == if Lower(name) != Lower(other) then Value(fields, other)
            else match Value(fields, name)
                 case None => Some(value)
                 case Some(before) => Some(before + [44, 32] + value)
  {
    hide Lower;
    if fields != [] && Lower(fields[0].name) != Lower(name) {
      AddFieldValue(fields[1..], name, value, other);
    }
  }

  lemma {:induction false} SameName(fields: seq<Field>, a: bytes, b: bytes)
    requires Lower(a) == Lower(b)
    ensures Value(fields, a) == Value(fields, b)
  {
    hide Lower;
    if fields != [] {
      SameName(fields[1..], a, b);
    }
  }

  /** A field given several times has all its values, joined in the order they came. */
  lemma {:induction false} GatheredValue(fields: seq<Field>, name: bytes)
    ensures Value(Gathered(fields), name)
         == if Given(fields, name) == [] then None else Some(Joined(Given(fields, name)))
  {
    hide Lower, AddField, Strip;
    if fields != [] {
      var f, before := fields[|fields| - 1], fields[..|fields| - 1];
      GatheredValue(before, name);
      AddFieldValue(Gathered(before), f.name, Strip(f.value), name);
      if Lower(f.name) == Lower(name) {
        SameName(Gathered(before), f.name, name);
        var given := Given(before, name);
        assert (given + [Strip(f.value)])[..|given|] == given;
      }
    }
  }

  lemma {:induction false} FieldLinesSnoc(fields: seq<Field>)
    requires fields != []
    ensures var n := |fields| - 1;
            FieldLines(fields) == FieldLines(fields[..n]) + (FieldLine(fields[n]) + [CR, LF])
  {
    hide FieldLine;
    if |fields| > 1 {
      var n := |fields| - 1;
      FieldLinesSnoc(fields[1..]);
      assert fields[1..][..n - 1] == fields[..n][1..];
      var first, last := FieldLine(fields[0]) + [CR, LF], FieldLine(fields[n]) + [CR, LF];
      assert first + (FieldLines(fields[..n][1..]) + last) == (first + FieldLines(fields[..n][1..])) + last;
    } else {
      assert FieldLines(fields[1..]) == [] && FieldLines(fields[..0]) == [];
    }
  }

  lemma {:induction false} FieldLineGathers(cfg: Config, p: Parse, f: Field)
    requires Sendable(f)
    ensures HeaderLine(cfg, p, FieldLine(f)) == p.(fields := AddField(p.fields, f.name, Strip(f.value)))
  {
    hide EnterBody, Lower, AddField, Find;
    var line := FieldLine(f);
    assert Ascii(line);
    FindFirst(line, f.name, COLON, [SPACE] + f.value);
    assert line[..|f.name|] == f.name;
    var tail := line[|f.name| + 1..];
    assert tail == [SPACE] + f.value && tail[1..] == f.value;
    assert Strip(tail) == Strip(f.value);
  }

  lemma {:induction false} AnyFieldsRead(cfg: Config, p: Parse, fields: seq<Field>, rest: bytes)
    requires p.phase == Headers && p.fields == [] && AllSendable(fields)
    ensures Run(ParseStep(cfg), p, FieldLines(fields) + rest)
         == Prepend([], Run(ParseStep(cfg), p.(fields := Gathered(fields)), rest))
    decreases |fields|
  {
    hide ParseStep, Run, HeaderLine, FieldLine, Strip, FieldLines, AddField, Sendable;
    if fields == [] {
      assert FieldLines(fields) == [] by { NoLines(); }
      assert [] + rest == rest;
      var r := Run(ParseStep(cfg), p, rest);
      assert [] + r.out == r.out;
    } else {
      var f, before := fields[|fields| - 1], fields[..|fields| - 1];
      var line := FieldLine(f);
      FieldLinesSnoc(fields);
      assert FieldLines(fields) + rest == FieldLines(before) + (line + [CR, LF] + rest);
      AnyFieldsRead(cfg, p, before, line + [CR, LF] + rest);
      var q := p.(fields := Gathered(before));
      LineIsPlain(f);
      RunsLine(cfg, q, line, rest);
      FieldLineGathers(cfg, q, f);
      LineIsHeader(cfg, q, line);
      PrependTwice([], [], Run(ParseStep(cfg), p.(fields := Gathered(fields)), rest));
    }
  }

  lemma {:induction false} NoLines()
    ensures FieldLines([]) == []
  {
  }

  lemma {:induction false} LineIsHeader(cfg: Config, p: Parse, line: bytes)
    requires p.phase == Headers
    ensures LineStep(cfg, p, line) == HeaderLine(cfg, p, line)
  {
    hide HeaderLine;
  }

  /** Any head is read as its status, its reason and its fields, those given several times joined. */
  lemma {:induction false} AnyHeadReads(cfg: Config, code: bytes, reason: bytes, status: int, fields: seq<Field>,
                                        rest: bytes)
    requires Plain(code) && Plain(reason) && Find(code, SPACE) == |code| && cfg.intOf(code) == Some(status)
    requires AllSendable(fields)
    ensures var p := START.(status := Some(status), version := VERSION, reason := reason, fields := Gathered(fields),
                            phase := Headers);
            Reading(cfg, Head(code, reason, fields) + rest) == Prepend([], Run(ParseStep(cfg), EnterBody(cfg, p), rest))
  {
    hide ParseStep, Run, StatusLine, FieldLines, StatusText, Gathered, EnterBody, Sendable, Plain, Find;
    var line, blank := StatusText(code, reason), [] + [CR, LF] + rest;
    var p := START.(status := Some(status), version := VERSION, reason := reason, phase := Headers);
    var q := p.(fields := Gathered(fields));
    assert Head(code, reason, fields) + rest == line + [CR, LF] + (FieldLines(fields) + blank);
    StatusReads(cfg, code, reason, status);
    RunsLine(cfg, START, line, FieldLines(fields) + blank);
    AnyFieldsRead(cfg, p, fields, blank);
    RunsLine(cfg, q, [], rest);
    BlankLine(cfg, q);
    var r := Run(ParseStep(cfg), EnterBody(cfg, q), rest);
    assert [] + r.out == r.out;
  }

  // ----- Interim responses, and responses without a body -------------------------------------------------

  /** An interim response leaves no trace: what follows is read as if it had come first. */
  lemma {:induction false} InterimSkipped(cfg: Config, code: bytes, reason: bytes, status: int, fields: seq<Field>,
                                          rest: bytes)
    requires Plain(code) && Plain(reason) && Find(code, SPACE) == |code| && cfg.intOf(code) == Some(status)
    requires AllSendable(fields) && 100 <= status <= 199 && status != 101
    ensures Reading(cfg, Head(code, reason, fields) + rest) == Reading(cfg, rest)
  {
    hide ParseStep, Run, Gathered, Sendable, Plain, Find, Head;
    AnyHeadReads(cfg, code, reason, status, fields, rest);
    var r := Reading(cfg, rest);
    assert [] + r.out == r.out;
  }

  /** A response that can have no body is over with its head, whatever its fields announce. */
  lemma {:induction false} BodilessReads(cfg: Config, code: bytes, reason: bytes, status: int, fields: seq<Field>,
                                         rest: bytes)
    requires Plain(code) && Plain(reason) && Find(code, SPACE) == |code| && cfg.intOf(code) == Some(status)
    requires AllSendable(fields) && (status == 204 || status == 304)
    ensures Reading(cfg, Head(code, reason, fields) + rest)
         == Progress(Parse(Done, Some(status), reason, VERSION, Gathered(fields), true, -1, 0, 0), rest, [])
  {
    hide ParseStep, Run, Gathered, Sendable, Plain, Find, Head;
    AnyHeadReads(cfg, code, reason, status, fields, rest);
    StoppedRuns(cfg, Parse(Done, Some(status), reason, VERSION, Gathered(fields), true, -1, 0, 0), rest);
  }

  /** A body that no field announces is everything up to the end of the connection. */
  lemma {:induction false} ReadToClose(cfg: Config, code: bytes, reason: bytes, status: int, fields: seq<Field>,
                                       body: bytes)
    requires Plain(code) && Plain(reason) && Find(code, SPACE) == |code| && cfg.intOf(code) == Some(status)
    requires AllSendable(fields) && (status == 101 || !(100 <= status <= 199)) && status != 204 && status != 304
    requires Given(fields, TRANSFER_ENCODING) == Given(fields, CONTENT_LENGTH) == []
    ensures var r := Reading(cfg, Head(code, reason, fields) + body);
            if cfg.streaming || |body| <= cfg.maxBody then
              r == Progress(Parse(Body, Some(status), reason, VERSION, Gathered(fields), true, -1, 0, |body|), [], body)
              && AtEof(r.state) == Done
            else r.state.phase == Error
  {
    hide ParseStep, Run, Gathered, Sendable, Plain, Find, Head, Value, Lower;
    AnyHeadReads(cfg, code, reason, status, fields, body);
    GatheredValue(fields, TRANSFER_ENCODING);
    GatheredValue(fields, CONTENT_LENGTH);
    var q := Parse(Body, Some(status), reason, VERSION, Gathered(fields), true, -1, 0, 0);
    OpenReads(cfg, q, body);
    var r := Run(ParseStep(cfg), q, body);
    assert [] + r.out == r.out;
  }

  lemma {:induction false} OpenReads(cfg: Config, q: Parse, body: bytes)
    requires q.phase == Body && q.remaining == -1 && q.size == 0
    ensures var r := Run(ParseStep(cfg), q, body);
            if cfg.streaming || |body| <= cfg.maxBody then r == Progress(q.(size := |body|), [], body)
            else r.state.phase == Error
  {
    hide ParseStep, Run;
    if body == [] {
      StepIs(cfg, q, body);
      BytesWait(cfg, q);
      StoppedRun(ParseStep(cfg), q, body);
    } else if cfg.streaming || |body| <= cfg.maxBody {
      BytesAtOnce(cfg, q, body, |body|);
      var done, rest := q.(size := |body|), body[|body|..];
      assert rest == [] && body[..|body|] == body && body + [] == body;
      StepIs(cfg, done, rest);
      BytesWait(cfg, done);
      StoppedRun(ParseStep(cfg), done, rest);
    } else {
      OverCapFails(cfg, q, body);
    }
  }

  /** A chunked body cut short anywhere before the end of its terminator is no complete response. */
  lemma {:induction false} ShortOfChunks(cfg: Config, head: bytes, parts: seq<bytes>, part: bytes)
    requires var r := Reading(cfg, head);
             r.rest == r.out == [] && r.state.phase == ChunkSize && r.state.size == 0
    requires PlainHex(cfg) && (forall i :: 0 <= i < |parts| ==> parts[i] != [])
    requires cfg.streaming || |Flatten(parts)| <= cfg.maxBody
    requires part < Chunks(parts) + TERMINATOR
    ensures AtEof(Reading(cfg, head + part).state) == Error
  {
    hide ParseStep, Run, Value, Lower, WithoutSpaces, Stable, Chunks, Flatten, PlainHex;
    var r, body := Reading(cfg, head), Chunks(parts) + TERMINATOR;
    RunFramed(cfg, START, head);
    ParseStepStable(cfg);
    RunResumes(ParseStep(cfg), START, head, body);
    assert [] + body == body && body + [] == body;
    ChunkedRoundTrip(cfg, r.state, parts, []);
    assert head + part < head + body;
    CutShort(cfg, head + part, head + body);
  }

  // ----- What is refused --------------------------------------------------------------------------------------

  /** A refused line ends the reading, whatever follows. */
  lemma {:induction false} LineRefused(cfg: Config, p: Parse, line: bytes, rest: bytes)
    requires TakesLines(p) && (forall i :: 0 <= i < |line| ==> line[i] != CR)
    requires LineStep(cfg, p, line).phase == Error
    ensures Run(ParseStep(cfg), p, line + [CR, LF] + rest).state.phase == Error
  {
    hide ParseStep, Run, LineStep;
    RunsLine(cfg, p, line, rest);
    StoppedRuns(cfg, LineStep(cfg, p, line), rest);
  }

  lemma {:induction false} AbsentIff(s: bytes, b: byte)
    ensures Find(s, b) == |s| <==> forall i :: 0 <= i < |s| ==> s[i] != b
  {
  }

  /** Two words and a rest, as a status line has them. */
  predicate Words(line: bytes, version: bytes, code: bytes, tail: bytes) {
    && line == version + [SPACE] + code + tail
    && (forall i :: 0 <= i < |version| ==> version[i] != SPACE) && (forall i :: 0 <= i < |code| ==> code[i] != SPACE)
    && (tail != [] ==> tail[0] == SPACE)
  }

  lemma {:induction false} WordsFound(line: bytes, version: bytes, code: bytes, tail: bytes)
    requires Words(line, version, code, tail)
    ensures var n := Find(line, SPACE);
            && n == |version| < |line| && line[..n] == version
            && var after := line[n + 1..];
               && Find(after, SPACE) == |code| <= |after| && after[..|code|] == code && after[|code|..] == tail
  {
    hide Find;
    FindFirst(line, version, SPACE, code + tail);
    assert line == version + [SPACE] + (code + tail);
    var after := line[|version| + 1..];
    assert after == code + tail;
    if tail == [] {
      assert after == code;
      AbsentIff(code, SPACE);
    } else {
      FindFirst(after, code, SPACE, tail[1..]);
      assert after == code + [SPACE] + tail[1..];
    }
  }

  /** A status line is refused exactly when it is no ASCII text of two words, the first beginning with "HTTP/" and the
      second a number. */
  lemma {:induction false} StatusRefusedIff(cfg: Config, line: bytes, version: bytes, code: bytes, tail: bytes)
    requires Words(line, version, code, tail)
    ensures StatusLine(cfg, START, line).phase == Error
            <==> !Ascii(line) || !([72, 84, 84, 80, 47] <= version) || cfg.intOf(code).None?
    ensures StatusLine(cfg, START, line).phase != Error ==>
              var p := StatusLine(cfg, START, line);
              && p.phase == Headers && p.status == cfg.intOf(code) && p.version == version
              && p.reason == if tail == [] then [] else tail[1..]
  {
    hide Ascii, Find;
    WordsFound(line, version, code, tail);
    hide Words;
  }

  lemma {:induction false} NoWordsRefused(cfg: Config, line: bytes)
    requires forall i :: 0 <= i < |line| ==> line[i] != SPACE
    ensures StatusLine(cfg, START, line).phase == Error
  {
    AbsentIff(line, SPACE);
  }

  /** A field line is refused exactly when it is not ASCII, has no colon, or begins with it. */
  lemma {:induction false} FieldRefusedIff(cfg: Config, p: Parse, line: bytes)
    requires p.phase == Headers && line != []
    ensures HeaderLine(cfg, p, line).phase == Error
            <==> !Ascii(line) || line[0] == COLON || forall i :: 0 <= i < |line| ==> line[i] != COLON
  {
    AbsentIff(line, COLON);
    hide Ascii, AddField, Strip, EnterBody;
  }

  /** The framing of a body is refused exactly when a transfer coding other than "chunked" is announced, or without one
      a length that is no number from 0 to the cap; a streamed body has no cap. */
  lemma {:induction false} FramingRefusedIff(cfg: Config, p: Parse)
    requires p.phase == Headers && (p.status.Some? ==> p.status.value == 101 || !(100 <= p.status.value < 200))
    requires !Bodiless(p.status)
    ensures EnterBody(cfg, p).phase == Error
            <==> if Value(p.fields, TRANSFER_ENCODING).Some? then !Chunked(p.fields)
                 else Value(p.fields, CONTENT_LENGTH).Some?
                      && forall n: nat :: n <= cfg.maxBody || cfg.streaming ==> !Announced(cfg, p.fields, n)
  {
    hide Value, Lower, WithoutSpaces;
    if Value(p.fields, TRANSFER_ENCODING).None? && Value(p.fields, CONTENT_LENGTH).Some? {
      match cfg.intOf(Value(p.fields, CONTENT_LENGTH).value)
      case None =>
      case Some(n) =>
        if n >= 0 {
          assert Announced(cfg, p.fields, n);
        }
    }
  }

  /** A chunk size is refused exactly when it is not ASCII, nothing is left of it before a semicolon and without the
      white space around, it is no number, or the chunk would pass the cap. */
  lemma {:induction false} SizeRefusedIff(cfg: Config, p: Parse, front: bytes, text: bytes, back: bytes, tail: bytes)
    requires p.phase == ChunkSize && Blank(front) && Blank(back) && Trimmed(text)
    requires (forall i :: 0 <= i < |text| ==> text[i] != SEMICOLON) && (tail != [] ==> tail[0] == SEMICOLON)
    ensures var line := front + text + back + tail;
            var q := SizeLine(cfg, p, line);
            && (q.phase == Error
                <==> !Ascii(line) || text == [] || cfg.hexOf(text).None? || cfg.hexOf(text).value < 0
                     || (!cfg.streaming && p.size + cfg.hexOf(text).value > cfg.maxBody))
            && (q.phase != Error ==>
                  var n := cfg.hexOf(text).value;
                  q == if n == 0 then p.(phase := ChunkTrailer) else p.(chunk := n, phase := ChunkData))
  {
    hide Find, Strip, Ascii, Trimmed;
    var plain := front + text + back;
    var line := plain + tail;
    assert forall i :: 0 <= i < |plain| ==> plain[i] != SEMICOLON by {
      forall i | 0 <= i < |plain| ensures plain[i] != SEMICOLON {
        assert i < |front| ==> plain[i] == front[i];
        assert |front| <= i < |front| + |text| ==> plain[i] == text[i - |front|];
        assert |front| + |text| <= i ==> plain[i] == back[i - |front| - |text|];
      }
    }
    if tail == [] {
      assert line == plain;
      AbsentIff(line, SEMICOLON);
    } else {
      assert line == plain + [SEMICOLON] + tail[1..];
      FindFirst(line, plain, SEMICOLON, tail[1..]);
    }
    assert line[..|plain|] == plain;
    StripsBlanks(front, text, back);
  }

  /** The data of a chunk must be followed by CRLF. */
  lemma {:induction false} ChunkEndRefusedIff(cfg: Config, p: Parse, a: byte, b: byte, rest: bytes)
    requires p.phase == ChunkData && p.chunk == 0
    ensures Run(ParseStep(cfg), p, [a, b] + rest)
         == if a == 13 && b == 10 then Run(ParseStep(cfg), p.(phase := ChunkSize), rest)
            else Progress(Failed(p), rest, [])
  {
    hide ParseStep, NextStep, Run;
    var s := [a, b] + rest;
    StepIs(cfg, p, s);
    EndTaken(cfg, p, s);
    assert s[2..] == rest;
    RunTakes(ParseStep(cfg), p, s);
    var r := Run(ParseStep(cfg), ChunkEnd(p, a, b), rest);
    assert [] + r.out == r.out;
    if !(a == 13 && b == 10) {
      StoppedRuns(cfg, Failed(p), rest);
    }
  }

  /** Lines between the last chunk and the blank line are skipped. */
  lemma {:induction false} TrailerSkipped(cfg: Config, p: Parse, line: bytes, rest: bytes)
    requires p.phase == ChunkTrailer && forall i :: 0 <= i < |line| ==> line[i] != CR
    ensures Run(ParseStep(cfg), p, line + [CR, LF] + rest)
         == if line == [] then Progress(p.(phase := Done), rest, []) else Run(ParseStep(cfg), p, rest)
  {
    hide ParseStep, Run;
    RunsLine(cfg, p, line, rest);
    var r := Run(ParseStep(cfg), LineStep(cfg, p, line), rest);
    assert [] + r.out == r.out;
    if line == [] {
      StoppedRuns(cfg, p.(phase := Done), rest);
    }
  }
}
