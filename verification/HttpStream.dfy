/** Streamed response bodies: framed in place inside one staging buffer, and read back by the response parser. */
module HttpStream {
  import opened Basics
  import opened Bytes
  import opened Resumable
  import opened HttpWire

  /** "0", CRLF, CRLF */
  const TERMINATOR: bytes := [48, CR, LF, CR, LF]

  // ----- Hexadecimal sizes ------------------------------------------------------------------------

  function HexDigit(d: nat): byte
    requires d < 16
  {
    if d < 10 then 48 + d else 87 + d
  }

  function Hex(value: nat): (r: bytes)
    ensures |r| >= 1 && (forall i :: 0 <= i < |r| ==> 48 <= r[i] <= 57 || 97 <= r[i] <= 102)
  {
    if value < 16 then [HexDigit(value)] else Hex(value / 16) + [HexDigit(value % 16)]
  }

  function DigitOf(b: byte): Option<nat> {
    if 48 <= b <= 57 then Some(b - 48)
    else if 97 <= b <= 102 then Some(b - 87)
    else if 65 <= b <= 70 then Some(b - 55)
    else None
  }

  /** int(text, 16) on plain digit strings. */
  function FromHex(text: bytes): Option<nat> {
    if text == [] then None
    else
      var last := DigitOf(text[|text| - 1]);
      if last.None? then None
      else if |text| == 1 then last
      else
        var front := FromHex(text[..|text| - 1]);
        if front.None? then None else Some(16 * front.value + last.value)
  }

  lemma {:induction false} DigitRoundTrip(d: nat)
    requires d < 16
    ensures DigitOf(HexDigit(d)) == Some(d)
  {
  }

  lemma {:induction false} HexRoundTrip(value: nat)
    ensures FromHex(Hex(value)) == Some(value)
  {
    hide HexDigit, DigitOf;
    var r := Hex(value);
    DigitRoundTrip(value % 16);
    if value < 16 {
      assert r == [HexDigit(value)];
    } else {
      HexRoundTrip(value / 16);
      assert r[..|r| - 1] == Hex(value / 16);
    }
  }

  /** A longer size never has fewer digits. */
  lemma {:induction false} HexGrows(a: nat, b: nat)
    requires a <= b
    ensures |Hex(a)| <= |Hex(b)|
  {
    if b >= 16 && a >= 16 {
      HexGrows(a / 16, b / 16);
    }
  }

  /** _hex_len */
  method HexLength(value: nat) returns (length: nat)
    ensures length == |Hex(value)|
  {
    length := 1;
    var rest := value;
    while rest >= 16
      invariant length - 1 + |Hex(rest)| == |Hex(value)|
    {
      rest := rest / 16;
      length := length + 1;
    }
  }

  lemma {:induction false} HexLast(value: nat)
    ensures Hex(value) == (if value < 16 then [] else Hex(value / 16)) + [HexDigit(value % 16)]
  {
  }

  /** _write_chunk_header: the size line, written backwards so that it ends where the data begins. */
  method WriteChunkHeader(buffer: array<byte>, end: nat, size: nat) returns (length: nat)
    requires |Hex(size)| + 2 <= end <= buffer.Length
    modifies buffer
    ensures length == |Hex(size)| + 2
    ensures buffer[end - length..end] == Hex(size) + [CR, LF]
    ensures buffer[end..] == old(buffer[end..])
  {
    hide Hex;
    buffer[end - 1] := LF;
    buffer[end - 2] := CR;
    var position := end - 2;
    var value := size;
    assert Hex(size) == Hex(value) + buffer[position..end - 2];
    while true
      invariant |Hex(value)| <= position <= end - 2
      invariant Hex(size) == Hex(value) + buffer[position..end - 2]
      invariant buffer[end - 2] == CR && buffer[end - 1] == LF
      invariant buffer[end..] == old(buffer[end..])
      decreases value
    {
      ghost var written := buffer[position..end - 2];
      HexLast(value);
      position := position - 1;
      buffer[position] := HexDigit(value % 16);
      assert buffer[position..end - 2] == [HexDigit(value % 16)] + written;
      ghost var front := if value < 16 then [] else Hex(value / 16);
      assert Hex(size) == front + [HexDigit(value % 16)] + written == front + ([HexDigit(value % 16)] + written);
      if value / 16 == 0 {
        break;
      }
      value := value / 16;
    }
    assert buffer[position..end] == buffer[position..end - 2] + [CR, LF];
    length := end - position;
  }

  // ----- The chunked coding ---------------------------------------------------------------------------

  /** One chunk of section 7.1 of RFC 9112. */
  function Chunk(data: bytes): bytes {
    Hex(|data|) + [CR, LF] + data + [CR, LF]
  }

  function Chunks(parts: seq<bytes>): bytes {
    if parts == [] then [] else Chunks(parts[..|parts| - 1]) + Chunk(parts[|parts| - 1])
  }

  lemma {:induction false} ChunksAppend(parts: seq<bytes>, last: bytes)
    ensures Chunks(parts + [last]) == Chunks(parts) + Chunk(last)
  {
    assert (parts + [last])[..|parts|] == parts;
  }

  // ----- Reading chunks back ------------------------------------------------------------------------------

  /** The runtime's int(text, 16) agrees with the sender's lower-case digits. */
  ghost predicate PlainHex(cfg: Config) {
    forall n: nat :: cfg.hexOf(Hex(n)) == Some(n)
  }

  /** A runtime that reads plain hexadecimal digit strings does. */
  lemma {:induction false} DigitsReadPlain(cfg: Config)
    requires forall text :: cfg.hexOf(text) == match FromHex(text) { case None => None case Some(n) => Some(n as int) }
    ensures PlainHex(cfg)
  {
    forall n: nat ensures cfg.hexOf(Hex(n)) == Some(n) {
      HexRoundTrip(n);
    }
  }

  /** A size line without extension is the bare number. */
  lemma {:induction false} BareSize(line: bytes)
    requires line != [] && forall i :: 0 <= i < |line| ==> 48 <= line[i] <= 57 || 97 <= line[i] <= 102
    ensures Ascii(line) && Strip(line[..Find(line, SEMICOLON)]) == line
  {
    assert line[..|line|] == line;
    assert !IsSpace(line[0]) && !IsSpace(line[|line| - 1]);
  }

  lemma {:induction false} SizeLineOf(cfg: Config, p: Parse, n: nat)
    requires PlainHex(cfg) && (cfg.streaming || p.size + n <= cfg.maxBody)
    ensures SizeLine(cfg, p, Hex(n)) == if n == 0 then p.(phase := ChunkTrailer) else p.(chunk := n, phase := ChunkData)
  {
    hide Ascii, Strip, Find;
    BareSize(Hex(n));
    assert cfg.hexOf(Hex(n)) == Some(n);
  }

  /** Taking one line of a stream. */
  lemma {:induction false} RunsLine(cfg: Config, p: Parse, line: bytes, rest: bytes)
    requires TakesLines(p) && forall i :: 0 <= i < |line| ==> line[i] != CR
    ensures Run(ParseStep(cfg), p, line + [CR, LF] + rest)
         == Prepend([], Run(ParseStep(cfg), LineStep(cfg, p, line), rest))
  {
    hide ParseStep, NextStep, LineStep, Run;
    var s := line + [CR, LF] + rest;
    FindLineAfter(line, rest);
    StepIs(cfg, p, s);
    LineTaken(cfg, p, s);
    assert s[..|line|] == line && s[|line| + 2..] == rest;
    RunTakes(ParseStep(cfg), p, s);
  }

  lemma {:induction false} RunsEnd(cfg: Config, p: Parse, rest: bytes)
    requires p.phase == ChunkData && p.chunk == 0
    ensures Run(ParseStep(cfg), p, [CR, LF] + rest)
         == Prepend([], Run(ParseStep(cfg), p.(phase := ChunkSize), rest))
  {
    hide ParseStep, NextStep, Run;
    var s := [CR, LF] + rest;
    StepIs(cfg, p, s);
    EndTaken(cfg, p, s);
    assert s[2..] == rest;
    RunTakes(ParseStep(cfg), p, s);
  }

  /** The states a parser goes through over one chunk. */
  lemma {:induction false} ChunkStates(cfg: Config, p: Parse, n: nat)
    requires PlainHex(cfg) && p.phase == ChunkSize && p.chunk == 0 && n > 0
             && (cfg.streaming || p.size + n <= cfg.maxBody)
    ensures var q := LineStep(cfg, p, Hex(n));
            && q.phase == ChunkData && q.chunk == n && TakesBytes(q) && BodyBytes(cfg, q, n).phase == ChunkData
            && BodyBytes(cfg, q, n).chunk == 0
            && BodyBytes(cfg, q, n).(phase := ChunkSize) == p.(size := p.size + n)
  {
    hide Hex, SizeLine, PlainHex;
    SizeLineOf(cfg, p, n);
  }

  /** One chunk brings its data and leaves the parser ready for the next. */
  lemma {:induction false} ChunkDecodes(cfg: Config, p: Parse, data: bytes, rest: bytes)
    requires PlainHex(cfg) && p.phase == ChunkSize && p.chunk == 0 && data != []
    requires cfg.streaming || p.size + |data| <= cfg.maxBody
    ensures Run(ParseStep(cfg), p, Chunk(data) + rest)
         == Prepend(data, Run(ParseStep(cfg), p.(size := p.size + |data|), rest))
  {
    hide ParseStep, NextStep, Run, LineStep, BodyBytes, Hex, PlainHex;
    var n := |data|;
    var q := LineStep(cfg, p, Hex(n));
    var end, s := [CR, LF] + rest, data + ([CR, LF] + rest);
    ChunkStates(cfg, p, n);
    var r := BodyBytes(cfg, q, n);
    assert Chunk(data) + rest == Hex(n) + [CR, LF] + s;
    SizeIsPlain(n);
    RunsLine(cfg, p, Hex(n), s);
    BytesAtOnce(cfg, q, s, n);
    assert s[..n] == data && s[n..] == end;
    RunsEnd(cfg, r, rest);
    var last := Run(ParseStep(cfg), r.(phase := ChunkSize), rest);
    PrependTwice(data, [], last);
    PrependTwice([], data, last);
    assert data + [] == data && [] + data == data;
  }

  lemma {:induction false} HexZero()
    ensures Hex(0) == [48]
  {
  }

  lemma {:induction false} TerminatorLines(rest: bytes)
    ensures TERMINATOR + rest == Hex(0) + [CR, LF] + ([] + [CR, LF] + rest)
  {
    HexZero();
    hide Hex;
  }

  /** The last size line, and the blank line that ends the trailer. */
  lemma {:induction false} LastLines(cfg: Config, p: Parse)
    requires PlainHex(cfg) && p.phase == ChunkSize && (cfg.streaming || p.size <= cfg.maxBody)
    ensures LineStep(cfg, p, Hex(0)) == p.(phase := ChunkTrailer)
    ensures LineStep(cfg, LineStep(cfg, p, Hex(0)), []) == p.(phase := Done)
  {
    hide Hex, PlainHex, SizeLine;
    SizeLineOf(cfg, p, 0);
  }

  lemma {:induction false} TerminatorDecodes(cfg: Config, p: Parse, rest: bytes)
    requires PlainHex(cfg) && p.phase == ChunkSize && (cfg.streaming || p.size <= cfg.maxBody)
    ensures Run(ParseStep(cfg), p, TERMINATOR + rest) == Progress(p.(phase := Done), rest, [])
  {
    hide ParseStep, NextStep, Run, LineStep, PlainHex, Hex;
    var trailer := LineStep(cfg, p, Hex(0));
    var done := LineStep(cfg, trailer, []);
    TerminatorLines(rest);
    SizeIsPlain(0);
    LastLines(cfg, p);
    RunsLine(cfg, p, Hex(0), [] + [CR, LF] + rest);
    RunsLine(cfg, trailer, [], rest);
    StoppedRuns(cfg, done, rest);
  }

  lemma {:induction false} SizeIsPlain(n: nat)
    ensures forall i :: 0 <= i < |Hex(n)| ==> Hex(n)[i] != CR
  {
    hide Hex;
  }

  /** The chunked coding is read back as the source's bytes, whatever follows it. */
  lemma {:induction false} ChunkedRoundTrip(cfg: Config, p: Parse, parts: seq<bytes>, rest: bytes)
    requires PlainHex(cfg) && p.phase == ChunkSize && p.chunk == 0
    requires forall i :: 0 <= i < |parts| ==> parts[i] != []
    requires cfg.streaming || p.size + |Flatten(parts)| <= cfg.maxBody
    ensures Run(ParseStep(cfg), p, Chunks(parts) + TERMINATOR + rest)
         == Progress(p.(phase := Done, size := p.size + |Flatten(parts)|), rest, Flatten(parts))
  {
    hide ParseStep, Run, Chunks, Flatten;
    ChunksDecode(cfg, p, parts, TERMINATOR + rest);
    assert Chunks(parts) + TERMINATOR + rest == Chunks(parts) + (TERMINATOR + rest);
    TerminatorDecodes(cfg, p.(size := p.size + |Flatten(parts)|), rest);
    assert Flatten(parts) + [] == Flatten(parts);
  }

  lemma {:induction false} ChunksDecode(cfg: Config, p: Parse, parts: seq<bytes>, rest: bytes)
    requires PlainHex(cfg) && p.phase == ChunkSize && p.chunk == 0
    requires forall i :: 0 <= i < |parts| ==> parts[i] != []
    requires cfg.streaming || p.size + |Flatten(parts)| <= cfg.maxBody
    ensures Run(ParseStep(cfg), p, Chunks(parts) + rest)
         == Prepend(Flatten(parts), Run(ParseStep(cfg), p.(size := p.size + |Flatten(parts)|), rest))
    decreases |parts|
  {
    hide ParseStep, Run, Chunk;
    var step := ParseStep(cfg);
    if parts == [] {
      assert [] + rest == rest;
      var r := Run(step, p, rest);
      assert [] + r.out == r.out;
    } else {
      var front, last := parts[..|parts| - 1], parts[|parts| - 1];
      assert front + [last] == parts;
      FlattenAppend(front, last);
      assert Chunks(parts) + rest == Chunks(front) + (Chunk(last) + rest);
      ChunksDecode(cfg, p, front, Chunk(last) + rest);
      var q := p.(size := p.size + |Flatten(front)|);
      ChunkDecodes(cfg, q, last, rest);
      PrependTwice(Flatten(front), last, Run(step, q.(size := q.size + |last|), rest));
    }
  }
}
