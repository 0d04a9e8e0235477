/** Response heads: how the server writes them, how the client reads them, and what they announce. */
module HttpHead {
  import opened Basics
  import opened Bytes
  import opened Resumable
  import opened HttpWire
  import opened HttpEnds
  import opened HttpStream

  /** "HTTP/1.1" */
  const VERSION: bytes := [72, 84, 84, 80, 47, 49, 46, 49]

  // ----- Response heads -------------------------------------------------------------------------------

  function FieldLine(f: Field): bytes { f.name + [COLON, SPACE] + f.value }

  function FieldLines(fields: seq<Field>): bytes {
    if fields == [] then [] else FieldLine(fields[0]) + [CR, LF] + FieldLines(fields[1..])
  }

  function StatusText(code: bytes, reason: bytes): bytes { VERSION + [SPACE] + code + [SPACE] + reason }

  /** _encode_head */
  function Head(code: bytes, reason: bytes, fields: seq<Field>): bytes {
    StatusText(code, reason) + [CR, LF] + FieldLines(fields) + [CR, LF]
  }

  predicate Plain(text: bytes) { Ascii(text) && forall i :: 0 <= i < |text| ==> text[i] != CR }

  /** A name the receiver can find the end of, and text without line breaks; the sender checks only the latter. */
  predicate Sendable(f: Field) {
    Plain(f.name) && Plain(f.value) && f.name != [] && forall i :: 0 <= i < |f.name| ==> f.name[i] != COLON
  }

  predicate Distinct(fields: seq<Field>) {
    forall i, j :: 0 <= i < j < |fields| ==> Lower(fields[i].name) != Lower(fields[j].name)
  }

  /** The fields as the receiver keeps them: values lose the white space around them. */
  function Kept(fields: seq<Field>): (r: seq<Field>)
    ensures |r| == |fields|
    ensures forall i :: 0 <= i < |fields| ==> r[i] == Field(fields[i].name, Strip(fields[i].value))
  {
    seq(|fields|, i requires 0 <= i < |fields| => Field(fields[i].name, Strip(fields[i].value)))
  }

  lemma {:induction false} AddNew(fields: seq<Field>, name: bytes, value: bytes)
    requires forall i :: 0 <= i < |fields| ==> Lower(fields[i].name) != Lower(name)
    ensures AddField(fields, name, value) == fields + [Field(name, value)]
  {
    hide Lower;
    if fields != [] {
      AddNew(fields[1..], name, value);
    }
  }

  lemma {:induction false} FindFirst(s: bytes, front: bytes, b: byte, rest: bytes)
    requires s == front + [b] + rest && forall i :: 0 <= i < |front| ==> front[i] != b
    ensures Find(s, b) == |front|
  {
    assert s[|front|] == b;
    assert forall i :: 0 <= i < |front| ==> s[i] == front[i];
  }

  lemma {:induction false} FieldLineReads(cfg: Config, p: Parse, f: Field)
    requires Sendable(f) && forall i :: 0 <= i < |p.fields| ==> Lower(p.fields[i].name) != Lower(f.name)
    ensures HeaderLine(cfg, p, FieldLine(f)) == p.(fields := p.fields + [Field(f.name, Strip(f.value))])
  {
    hide EnterBody, Lower, AddField, Find;
    var line := FieldLine(f);
    assert Ascii(line);
    FindFirst(line, f.name, COLON, [SPACE] + f.value);
    assert line[..|f.name|] == f.name;
    var tail := line[|f.name| + 1..];
    assert tail == [SPACE] + f.value && tail[1..] == f.value;
    assert Strip(tail) == Strip(f.value);
    AddNew(p.fields, f.name, Strip(f.value));
  }

  lemma {:induction false} FieldsRead(cfg: Config, p: Parse, fields: seq<Field>, rest: bytes)
    requires p.phase == Headers && (forall i :: 0 <= i < |fields| ==> Sendable(fields[i])) && Distinct(fields)
    requires forall i, j :: 0 <= i < |p.fields| && 0 <= j < |fields| ==>
               Lower(p.fields[i].name) != Lower(fields[j].name)
    ensures Run(ParseStep(cfg), p, FieldLines(fields) + rest)
         == Prepend([], Run(ParseStep(cfg), p.(fields := p.fields + Kept(fields)), rest))
    decreases |fields|
  {
    hide ParseStep, Run, Lower, HeaderLine, FieldLine, Strip;
    if fields == [] {
      assert [] + rest == rest;
      assert p.fields + Kept(fields) == p.fields;
      var r := Run(ParseStep(cfg), p, rest);
      assert [] + r.out == r.out;
    } else {
      var f, more := fields[0], FieldLines(fields[1..]) + rest;
      var q := p.(fields := p.fields + [Field(f.name, Strip(f.value))]);
      assert FieldLines(fields) + rest == FieldLine(f) + [CR, LF] + more;
      LineIsPlain(f);
      RunsLine(cfg, p, FieldLine(f), more);
      FieldLineReads(cfg, p, f);
      FieldsRead(cfg, q, fields[1..], rest);
      assert q.fields + Kept(fields[1..]) == p.fields + Kept(fields);
    }
  }

  lemma {:induction false} LineIsPlain(f: Field)
    requires Sendable(f)
    ensures forall i :: 0 <= i < |FieldLine(f)| ==> FieldLine(f)[i] != CR
    ensures FieldLine(f) != []
  {
  }

  lemma {:induction false} StatusReads(cfg: Config, code: bytes, reason: bytes, status: int)
    requires Plain(code) && Plain(reason) && Find(code, SPACE) == |code| && cfg.intOf(code) == Some(status)
    ensures var line := StatusText(code, reason);
            && StatusLine(cfg, START, line)
               == START.(status := Some(status), version := VERSION, reason := reason, phase := Headers)
            && forall i :: 0 <= i < |line| ==> line[i] != CR
  {
    hide Find;
    var line := StatusText(code, reason);
    var tail := code + [SPACE] + reason;
    assert Ascii(line);
    assert line == VERSION + [SPACE] + tail;
    FindFirst(line, VERSION, SPACE, tail);
    assert line[..|VERSION|] == VERSION && line[|VERSION| + 1..] == tail;
    FindFirst(tail, code, SPACE, reason);
    assert tail[..|code|] == code && tail[|code| + 1..] == reason;
  }

  /** A head is read back as its status, reason and fields, and the body starts where the head ends. */
  lemma {:induction false} HeadReads(cfg: Config, code: bytes, reason: bytes, status: int, fields: seq<Field>,
                                     rest: bytes)
    requires Plain(code) && Plain(reason) && Find(code, SPACE) == |code| && cfg.intOf(code) == Some(status)
    requires (forall i :: 0 <= i < |fields| ==> Sendable(fields[i])) && Distinct(fields)
    ensures var p := START.(status := Some(status), version := VERSION, reason := reason, fields := Kept(fields),
                            phase := Headers);
            Reading(cfg, Head(code, reason, fields) + rest) == Prepend([], Run(ParseStep(cfg), EnterBody(cfg, p), rest))
  {
    hide ParseStep, Run, StatusLine, FieldLines, StatusText, Kept, Distinct, EnterBody, Sendable, Plain, Find;
    var line, blank := StatusText(code, reason), [] + [CR, LF] + rest;
    var p := START.(status := Some(status), version := VERSION, reason := reason, phase := Headers);
    var q := p.(fields := Kept(fields));
    assert Head(code, reason, fields) + rest == line + [CR, LF] + (FieldLines(fields) + blank);
    StatusReads(cfg, code, reason, status);
    RunsLine(cfg, START, line, FieldLines(fields) + blank);
    FieldsRead(cfg, p, fields, blank);
    assert p.fields + Kept(fields) == Kept(fields);
    RunsLine(cfg, q, [], rest);
    BlankLine(cfg, q);
    var r := Run(ParseStep(cfg), EnterBody(cfg, q), rest);
    assert [] + r.out == r.out;
  }

  // ----- Announcing the body --------------------------------------------------------------------------------

  /** The fields announce the body's framing: chunked, or the given length. */
  predicate Announces(cfg: Config, fields: seq<Field>, contentLength: Option<int>) {
    match contentLength
    case None => Chunked(fields)
    case Some(length) => Announced(cfg, fields, length)
  }

  /** "Transfer-Encoding" and "Content-Length" as the server writes them. */
  const TRANSFER_ENCODING_NAME: bytes :=
    [84, 114, 97, 110, 115, 102, 101, 114, 45, 69, 110, 99, 111, 100, 105, 110, 103]
  const CONTENT_LENGTH_NAME: bytes := [67, 111, 110, 116, 101, 110, 116, 45, 76, 101, 110, 103, 116, 104]

  /** The framing field encode_streaming_headers puts first. */
  function Framing(contentLength: Option<int>, lengthText: bytes): Field {
    if contentLength.None? then Field(TRANSFER_ENCODING_NAME, CHUNKED) else Field(CONTENT_LENGTH_NAME, lengthText)
  }

  lemma {:induction false} TransferEncodingFolds()
    ensures Lower(TRANSFER_ENCODING_NAME) == TRANSFER_ENCODING == Lower(TRANSFER_ENCODING)
  {
  }

  lemma {:induction false} ContentLengthFolds()
    ensures Lower(CONTENT_LENGTH_NAME) == CONTENT_LENGTH == Lower(CONTENT_LENGTH)
    ensures CONTENT_LENGTH != TRANSFER_ENCODING
  {
  }

  lemma {:induction false} ChunkedFolds()
    ensures Strip(CHUNKED) == CHUNKED && Lower(WithoutSpaces(CHUNKED)) == CHUNKED
  {
    Spaceless(CHUNKED);
  }

  lemma {:induction false} Spaceless(s: bytes)
    requires forall i :: 0 <= i < |s| ==> s[i] > 32
    ensures WithoutSpaces(s) == s && Strip(s) == s
  {
    if s != [] {
      Spaceless(s[1..]);
      assert s == [s[0]] + s[1..];
    }
  }

  // ----- The server's own fields, and the application's ----------------------------------------------------

  /** "Connection: close" */
  const CONNECTION_CLOSE: Field :=
    Field([67, 111, 110, 110, 101, 99, 116, 105, 111, 110], [99, 108, 111, 115, 101])

  /** CaseInsensitiveDict.__setitem__: a known name keeps its place but takes the new spelling and value. */
  function SetField(fields: seq<Field>, f: Field): (r: seq<Field>)
    ensures |fields| <= |r| <= |fields| + 1
    ensures forall i :: 0 <= i < |fields| ==>
              Lower(r[i].name) == Lower(fields[i].name) && (r[i] == fields[i] || r[i] == f)
    ensures |r| > |fields| ==>
              r[|fields|] == f && forall i :: 0 <= i < |fields| ==> Lower(fields[i].name) != Lower(f.name)
  {
    if fields == [] then [f]
    else if Lower(fields[0].name) == Lower(f.name) then [f] + fields[1..]
    else [fields[0]] + SetField(fields[1..], f)
  }

  /** _merge_headers */
  function Merged(fields: seq<Field>, more: seq<Field>): seq<Field> {
    if more == [] then fields else SetField(Merged(fields, more[..|more| - 1]), more[|more| - 1])
  }

  /** The fields of a streamed response: the framing, the end of the connection, and what the application sets. */
  function StreamFields(contentLength: Option<int>, lengthText: bytes, own: seq<Field>): seq<Field> {
    Merged(SetField([Framing(contentLength, lengthText)], CONNECTION_CLOSE), own)
  }

  /** The value the application sets last for a name. */
  function LastSet(own: seq<Field>, name: bytes): Option<bytes> {
    if own == [] then None
    else if Lower(own[|own| - 1].name) == Lower(name) then Some(own[|own| - 1].value)
    else LastSet(own[..|own| - 1], name)
  }

  lemma {:induction false} SetFieldValue(fields: seq<Field>, f: Field, name: bytes)
    ensures Value(SetField(fields, f), name)
         == if Lower(f.name) == Lower(name) then Some(f.value) else Value(fields, name)
  {
    hide Lower;
    if fields != [] && Lower(fields[0].name) != Lower(f.name) {
      SetFieldValue(fields[1..], f, name);
    }
  }

  lemma {:induction false} MergedValue(fields: seq<Field>, more: seq<Field>, name: bytes)
    ensures Value(Merged(fields, more), name)
         == if LastSet(more, name).Some? then LastSet(more, name) else Value(fields, name)
  {
    hide Lower, Value, SetField;
    if more != [] {
      MergedValue(fields, more[..|more| - 1], name);
      SetFieldValue(Merged(fields, more[..|more| - 1]), more[|more| - 1], name);
    }
  }

  lemma {:induction false} KeptValue(fields: seq<Field>, name: bytes)
    ensures Value(Kept(fields), name)
         == match Value(fields, name) { case None => None case Some(v) => Some(Strip(v)) }
  {
    hide Lower, Strip;
    if fields != [] {
      KeptValue(fields[1..], name);
      assert Kept(fields)[1..] == Kept(fields[1..]);
    }
  }

  predicate AllSendable(fields: seq<Field>) { forall i :: 0 <= i < |fields| ==> Sendable(fields[i]) }

  lemma {:induction false} SetFieldIsSendable(fields: seq<Field>, f: Field)
    requires AllSendable(fields) && Sendable(f)
    ensures AllSendable(SetField(fields, f))
  {
    hide Sendable, Lower;
  }

  lemma {:induction false} SetFieldIsDistinct(fields: seq<Field>, f: Field)
    requires Distinct(fields)
    ensures Distinct(SetField(fields, f))
  {
    var r := SetField(fields, f);
    hide SetField, Lower;
    forall i, j | 0 <= i < j < |r| ensures Lower(r[i].name) != Lower(r[j].name) {
      if j < |fields| {
        assert Lower(fields[i].name) != Lower(fields[j].name);
      }
    }
  }

  /** Merged fields can be sent and told apart when the parts can be sent. */
  lemma {:induction false} MergedIsSendable(fields: seq<Field>, more: seq<Field>)
    requires Distinct(fields) && AllSendable(fields) && AllSendable(more)
    ensures Distinct(Merged(fields, more)) && AllSendable(Merged(fields, more))
  {
    hide Sendable, Lower, SetField, Distinct;
    if more != [] {
      var front := Merged(fields, more[..|more| - 1]);
      MergedIsSendable(fields, more[..|more| - 1]);
      SetFieldIsSendable(front, more[|more| - 1]);
      SetFieldIsDistinct(front, more[|more| - 1]);
    }
  }

  lemma {:induction false} StreamFieldsAreSendable(contentLength: Option<int>, lengthText: bytes, own: seq<Field>)
    requires AllSendable(own) && (contentLength.Some? ==> Plain(lengthText))
    ensures Distinct(StreamFields(contentLength, lengthText, own))
            && AllSendable(StreamFields(contentLength, lengthText, own))
  {
    var framing := Framing(contentLength, lengthText);
    OwnSendable(contentLength, lengthText);
    hide Sendable, Lower, SetField, Plain;
    SetFieldIsSendable([framing], CONNECTION_CLOSE);
    SetFieldIsDistinct([framing], CONNECTION_CLOSE);
    MergedIsSendable(SetField([framing], CONNECTION_CLOSE), own);
  }

  lemma {:induction false} OwnSendable(contentLength: Option<int>, lengthText: bytes)
    requires contentLength.Some? ==> Plain(lengthText)
    ensures Sendable(Framing(contentLength, lengthText)) && Sendable(CONNECTION_CLOSE)
  {
    hide Ascii;
    CodingSendable();
    LengthSendable();
    ConnectionSendable();
  }

  lemma {:induction false} CodingSendable()
    ensures Sendable(Field(TRANSFER_ENCODING_NAME, CHUNKED))
  {
  }

  lemma {:induction false} LengthSendable()
    ensures Sendable(Field(CONTENT_LENGTH_NAME, []))
  {
  }

  lemma {:induction false} ConnectionSendable()
    ensures Sendable(CONNECTION_CLOSE)
  {
  }

  /** What the application's own fields must leave alone for the head to announce the framing that is used. */
  predicate LeavesFraming(cfg: Config, contentLength: Option<int>, own: seq<Field>) {
    var coding, length := LastSet(own, TRANSFER_ENCODING), LastSet(own, CONTENT_LENGTH);
    match contentLength
    case None => coding.Some? ==> Lower(WithoutSpaces(Strip(coding.value))) == CHUNKED
    case Some(_) => coding.None? && (length.Some? ==> cfg.intOf(Strip(length.value)) == contentLength)
  }

  /** The head of a streamed response announces the framing of its body exactly when the application's own fields set no
      transfer coding but "chunked", and no other length: an application field takes the place of the server's. */
  lemma {:induction false} FramingAnnouncesIff(cfg: Config, contentLength: Option<int>, lengthText: bytes,
                                               own: seq<Field>)
    requires contentLength.Some? ==> cfg.intOf(Strip(lengthText)) == contentLength
    ensures Announces(cfg, Kept(StreamFields(contentLength, lengthText, own)), contentLength)
            <==> LeavesFraming(cfg, contentLength, own)
  {
    hide Lower, Strip, WithoutSpaces, Merged, Value, LastSet, SetField;
    var framing := Framing(contentLength, lengthText);
    var base := SetField([framing], CONNECTION_CLOSE);
    var fields := Merged(base, own);
    ChunkedFolds();
    OwnValues(framing, contentLength, lengthText);
    MergedValue(base, own, TRANSFER_ENCODING);
    MergedValue(base, own, CONTENT_LENGTH);
    KeptValue(fields, TRANSFER_ENCODING);
    KeptValue(fields, CONTENT_LENGTH);
  }

  /** The server's own fields announce the framing. */
  lemma {:induction false} OwnValues(framing: Field, contentLength: Option<int>, lengthText: bytes)
    requires framing == Framing(contentLength, lengthText)
    ensures var base := SetField([framing], CONNECTION_CLOSE);
            && Value(base, TRANSFER_ENCODING) == (if contentLength.None? then Some(CHUNKED) else None)
            && Value(base, CONTENT_LENGTH) == if contentLength.None? then None else Some(lengthText)
  {
    TransferEncodingFolds();
    ContentLengthFolds();
    ConnectionFolds();
    hide Lower, SetField;
    SetFieldValue([framing], CONNECTION_CLOSE, TRANSFER_ENCODING);
    SetFieldValue([framing], CONNECTION_CLOSE, CONTENT_LENGTH);
  }

  lemma {:induction false} ConnectionFolds()
    ensures Lower(CONNECTION_CLOSE.name) != TRANSFER_ENCODING && Lower(CONNECTION_CLOSE.name) != CONTENT_LENGTH
  {
    assert |Lower(CONNECTION_CLOSE.name)| == 10;
  }

  /** "identity" */
  const IDENTITY: bytes := [105, 100, 101, 110, 116, 105, 116, 121]

  /** A head that does not announce its body: the application sets "Transfer-Encoding: identity" and chunks are sent. */
  lemma {:induction false} OverriddenFraming(cfg: Config)
    ensures !Announces(cfg, Kept(StreamFields(None, [], [Field(TRANSFER_ENCODING_NAME, IDENTITY)])), None)
  {
    hide Announces, StreamFields, Strip, WithoutSpaces;
    var own := [Field(TRANSFER_ENCODING_NAME, IDENTITY)];
    TransferEncodingFolds();
    IdentityFolds();
    assert LastSet(own, TRANSFER_ENCODING) == Some(IDENTITY);
    FramingAnnouncesIff(cfg, None, [], own);
  }

  lemma {:induction false} IdentityFolds()
    ensures Lower(WithoutSpaces(Strip(IDENTITY))) != CHUNKED
  {
    Spaceless(IDENTITY);
    assert |Lower(IDENTITY)| == 8;
  }
}
