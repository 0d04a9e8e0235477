/** Packets of MQTT 3.1.1 as byte strings: lengths, bodies and the reference reading of a stream. */
module MqttWire {
  import opened Basics
  import opened Bytes
  import opened Resumable
  import Utf8

  // ----- Remaining length ---------------------------------------------------

  const VARLEN_MAX: nat := 268_435_455

  datatype Varlen = Short | Overlong | Length(value: nat, count: nat)

  function EncodeVarlen(value: nat): (r: bytes)
    ensures r != []
  {
    if value < 128 then [value] else [value % 128 + 128] + EncodeVarlen(value / 128)
  }

  /** Read a length of at most `digits` octets from the front of `s`. */
  function DecodeVarlen(s: bytes, digits: nat): (r: Varlen)
    ensures r.Length? ==> 1 <= r.count <= |s| && r.count <= digits
    decreases digits
  {
    if digits == 0 then Overlong
    else if s == [] then Short
    else if s[0] < 128 then Length(s[0], 1)
    else match DecodeVarlen(s[1..], digits - 1)
         case Length(v, n) => Length(s[0] - 128 + 128 * v, n + 1)
         case other => other
  }

  function Power128(digits: nat): (p: nat)
    ensures p >= 1
  {
    if digits == 0 then 1 else 128 * Power128(digits - 1)
  }

  /** A length is read back whatever follows it, in at most four octets up to the MQTT maximum. */
  lemma {:induction false} VarlenRoundTrip(value: nat, rest: bytes, digits: nat)
    requires 1 <= digits && value < Power128(digits)
    ensures DecodeVarlen(EncodeVarlen(value) + rest, digits) == Length(value, |EncodeVarlen(value)|)
    ensures |EncodeVarlen(value)| <= digits
  {
    var s := EncodeVarlen(value) + rest;
    if value >= 128 {
      assert digits > 1 by { assert Power128(1) == 128 * Power128(0); }
      assert s[1..] == EncodeVarlen(value / 128) + rest;
      VarlenRoundTrip(value / 128, rest, digits - 1);
    }
  }

  lemma {:induction false} VarlenFits(value: nat)
    requires value <= VARLEN_MAX
    ensures value < Power128(4)
  {
    assert Power128(3) == 128 * Power128(2);
    assert Power128(2) == 128 * Power128(1);
    assert Power128(1) == 128 * Power128(0);
  }

  /** A complete or hopeless length stays so when bytes are appended. */
  lemma {:induction false} VarlenStable(s: bytes, more: bytes, digits: nat)
    requires !DecodeVarlen(s, digits).Short?
    ensures DecodeVarlen(s + more, digits) == DecodeVarlen(s, digits)
    decreases digits
  {
    if digits != 0 && s != [] && s[0] >= 128 {
      assert (s + more)[1..] == s[1..] + more;
      VarlenStable(s[1..], more, digits - 1);
    }
  }

  // ----- Packet bodies ------------------------------------------------------

  /** What the decoder hands to the client. */
  datatype Packet =
    | Publish(topic: bytes, payload: bytes, qos: nat, id: Option<nat>)
    | Connack(sessionPresent: bool, returnCode: nat)
    | Puback(ackId: nat)
    | Suback(subId: nat, granted: bytes)
    | Unsuback(unsubId: nat)
    | Pingresp
    | Oversized(dropped: Option<bytes>, length: nat, qos: nat, id: Option<nat>)

  /** The two exceptions a malformed packet can raise. */
  datatype Fault = Protocol | BadText

  datatype Parsed = Good(packet: Packet) | Bad(fault: Fault)

  function Word(s: bytes, at: nat): nat
    requires at + 2 <= |s|
  {
    256 * (s[at] as int) + s[at + 1]
  }

  function Kind(first: byte): nat { first / 16 }

  function Qos(first: byte): nat { first / 2 % 4 }

  function ParsePublish(first: byte, body: bytes): Parsed {
    if |body| < 2 then Bad(Protocol)
    else
      var topicEnd := 2 + Word(body, 0);
      if topicEnd > |body| then Bad(Protocol)
      else if !Utf8.Valid(body[2..topicEnd]) then Bad(BadText)
      else if Qos(first) == 0 then Good(Publish(body[2..topicEnd], body[topicEnd..], 0, None))
      else if topicEnd + 2 > |body| then Bad(Protocol)
      else Good(Publish(body[2..topicEnd], body[topicEnd + 2..], Qos(first), Some(Word(body, topicEnd))))
  }

  function ParseBody(first: byte, body: bytes): Parsed {
    match Kind(first)
    case 3 => ParsePublish(first, body)
    case 2 => if |body| != 2 then Bad(Protocol) else Good(Connack(body[0] % 2 == 1, body[1]))
    case 4 => if |body| != 2 then Bad(Protocol) else Good(Puback(Word(body, 0)))
    case 9 => if |body| < 3 then Bad(Protocol) else Good(Suback(Word(body, 0), body[2..]))
    case 11 => if |body| != 2 then Bad(Protocol) else Good(Unsuback(Word(body, 0)))
    case 13 => Good(Pingresp)
    case _ => Bad(Protocol)
  }

  // ----- The reference reading of a stream ----------------------------------

  /** What the bytes at a packet boundary amount to, for a receive window of `size` bytes. */
  datatype Next = More | Malformed(fault: Fault) | Got(packet: Packet, length: nat)

  /** Bytes from the start of a PUBLISH to its payload. */
  function PreludeLength(s: bytes, header: nat): nat
    requires 1 <= header && header + 2 <= |s|
  {
    header + 2 + Word(s, header) + (if Qos(s[0]) > 0 then 2 else 0)
  }

  function OversizedEvent(size: nat, s: bytes, header: nat, length: nat): Packet
    requires 1 <= header && header + 2 <= |s|
    requires PreludeLength(s, header) <= size ==> PreludeLength(s, header) <= |s|
  {
    if PreludeLength(s, header) > size then Oversized(None, length, Qos(s[0]), None)
    else
      var topicEnd := header + 2 + Word(s, header);
      Oversized(Some(s[header + 2..topicEnd]), length, Qos(s[0]),
                if Qos(s[0]) > 0 then Some(Word(s, topicEnd)) else None)
  }

  function NextOversized(size: nat, s: bytes, header: nat, length: nat): Next
    requires 1 <= header <= |s| && header + length > size
  {
    if Kind(s[0]) != 3 then Malformed(Protocol)
    else if |s| < header + 2 then More
    else
      var prelude := PreludeLength(s, header);
      if prelude <= size && |s| < prelude then More
      else if prelude <= size && !Utf8.Valid(s[header + 2..header + 2 + Word(s, header)]) then Malformed(BadText)
      else if |s| < header + length then More
      else Got(OversizedEvent(size, s, header, length), header + length)
  }

  function NextPacket(size: nat, s: bytes): (r: Next)
    ensures r.Got? ==> 1 <= r.length <= |s|
  {
    if |s| < 2 then More
    else
      match DecodeVarlen(s[1..], 4)
      case Short => More
      case Overlong => Malformed(Protocol)
      case Length(length, count) =>
        var header := 1 + count;
        if header + length > size then NextOversized(size, s, header, length)
        else if |s| < header + length then More
        else match ParseBody(s[0], s[header..header + length])
             case Good(packet) => Got(packet, header + length)
             case Bad(fault) => Malformed(fault)
  }

  lemma {:induction false} FittingNext(size: nat, s: bytes, length: nat, count: nat)
    requires |s| >= 2 && DecodeVarlen(s[1..], 4) == Length(length, count) && 1 + count + length <= size
    ensures var total := 1 + count + length;
            NextPacket(size, s)
            == if |s| < total then More
               else match ParseBody(s[0], s[1 + count..total])
                    case Good(packet) => Got(packet, total)
                    case Bad(fault) => Malformed(fault)
  {
    hide ParseBody, DecodeVarlen;
  }

  lemma {:induction false} OversizedNext(size: nat, s: bytes, length: nat, count: nat)
    requires |s| >= 2 && DecodeVarlen(s[1..], 4) == Length(length, count) && 1 + count + length > size
    ensures 1 + count <= |s| && NextPacket(size, s) == NextOversized(size, s, 1 + count, length)
  {
    hide NextOversized;
  }

  lemma {:induction false} UnsizedNext(size: nat, s: bytes)
    ensures |s| < 2 ==> NextPacket(size, s) == More
    ensures |s| >= 2 && DecodeVarlen(s[1..], 4).Short? ==> NextPacket(size, s) == More
    ensures |s| >= 2 && DecodeVarlen(s[1..], 4).Overlong? ==> NextPacket(size, s) == Malformed(Protocol)
  {
    hide DecodeVarlen;
  }

  /** Once the bytes at hand settle what comes next, later bytes do not change it. */
  lemma {:induction false} NextPacketStable(size: nat, s: bytes, more: bytes)
    requires !NextPacket(size, s).More?
    ensures NextPacket(size, s + more) == NextPacket(size, s)
  {
    hide ParseBody, DecodeVarlen, Word, Utf8.Valid;
    var t := s + more;
    assert t[1..] == s[1..] + more;
    VarlenStable(s[1..], more, 4);
    match DecodeVarlen(s[1..], 4)
    case Length(length, count) =>
      var header := 1 + count;
      if header + length <= size {
        assert t[header..header + length] == s[header..header + length];
      } else if Kind(s[0]) == 3 {
        PreludeStable(s, more, header);
      }
    case _ =>
  }

  lemma {:induction false} PreludeStable(s: bytes, more: bytes, header: nat)
    requires 1 <= header && header + 2 <= |s|
    ensures PreludeLength(s + more, header) == PreludeLength(s, header)
    ensures var topicEnd := header + 2 + Word(s, header);
            Word(s + more, header) == Word(s, header)
            && (topicEnd <= |s| ==> (s + more)[header + 2..topicEnd] == s[header + 2..topicEnd])
            && (topicEnd + 2 <= |s| ==> Word(s + more, topicEnd) == Word(s, topicEnd))
  {
    var topicEnd := header + 2 + Word(s, header);
    if topicEnd <= |s| {
      assert (s + more)[header + 2..topicEnd] == s[header + 2..topicEnd];
    }
  }

  /** The reference parser as a resumable machine: one step per packet. */
  function PacketStep(size: nat): Stepper<(), Packet> {
    (_, s: bytes) =>
      match NextPacket(size, s)
      case Got(packet, length) => Take((), length, [packet])
      case _ => Wait
  }

  /** All packets of a stream, with the bytes after the last complete one. */
  function Packets(size: nat, s: bytes): Progress<(), Packet> {
    Run(PacketStep(size), (), s)
  }

  lemma {:induction false} PacketStepStable(size: nat)
    ensures Stable(PacketStep(size))
  {
    var step := PacketStep(size);
    forall u, s: bytes, more: bytes | Enabled(step, u, s)
      ensures step(u, s + more) == step(u, s)
    {
      NextPacketStable(size, s, more);
    }
  }

  // ----- Encoding -----------------------------------------------------------

  datatype Request = Request(topic: bytes, payload: bytes, qos: nat, retain: bool, id: Option<nat>)

  datatype EncodeError = UnsupportedQos | MissingId | OutOfRange

  datatype Encoded = Packed(wire: bytes) | Refused(error: EncodeError)

  predicate Encodable(p: Request) {
    && p.qos <= 1
    && (p.qos > 0 ==> p.id.Some? && p.id.value < 65536)
    && |p.topic| < 65536
    && |PublishBody(p)| <= VARLEN_MAX
  }

  function Be16(value: nat): bytes
    requires value < 65536
  {
    [value / 256, value % 256]
  }

  function PublishBody(p: Request): bytes
    requires |p.topic| < 65536
    requires p.qos > 0 ==> p.id.Some? && p.id.value < 65536
  {
    Be16(|p.topic|) + p.topic + (if p.qos > 0 then Be16(p.id.value) else []) + p.payload
  }

  function PublishFirst(p: Request): byte
    requires p.qos <= 1
  {
    0x30 + 2 * p.qos + (if p.retain then 1 else 0)
  }

  function PublishBytes(p: Request): (r: bytes)
    requires Encodable(p)
    ensures r != []
  {
    [PublishFirst(p)] + EncodeVarlen(|PublishBody(p)|) + PublishBody(p)
  }

  /** What a receiver with a window of `size` bytes should report for a published message. */
  function Delivery(size: nat, p: Request): Packet
    requires Encodable(p)
  {
    var id := if p.qos > 0 then p.id else None;
    var length := |PublishBody(p)|;
    var header := 1 + |EncodeVarlen(length)|;
    if header + length <= size then Publish(p.topic, p.payload, p.qos, id)
    else if header + length - |p.payload| <= size then Oversized(Some(p.topic), length, p.qos, id)
    else Oversized(None, length, p.qos, None)
  }

  lemma {:induction false} ParsePublishBody(p: Request)
    requires Encodable(p) && Utf8.Valid(p.topic)
    ensures ParseBody(PublishFirst(p), PublishBody(p))
            == Good(Publish(p.topic, p.payload, p.qos, if p.qos > 0 then p.id else None))
  {
    var body := PublishBody(p);
    var topicEnd := 2 + |p.topic|;
    assert Word(body, 0) == |p.topic|;
    assert body[2..topicEnd] == p.topic;
    if p.qos == 0 {
      assert body[topicEnd..] == p.payload;
    } else {
      assert Word(body, topicEnd) == p.id.value;
      assert body[topicEnd + 2..] == p.payload;
    }
  }

  /** The fields of a published message sit where the oversized path looks for them. */
  lemma {:induction false} PreludeFields(p: Request, header: nat, head: bytes, rest: bytes)
    requires Encodable(p) && |head| == header >= 1
    ensures var s := head + PublishBody(p) + rest;
            var topicEnd := header + 2 + |p.topic|;
            && Word(s, header) == |p.topic|
            && s[header + 2..topicEnd] == p.topic
            && (p.qos > 0 ==> Word(s, topicEnd) == p.id.value)
  {
    var body := PublishBody(p);
    var s := head + body + rest;
    BodyFields(p);
    var topicEnd := header + 2 + |p.topic|;
    assert s[header + 2..topicEnd] == body[2..2 + |p.topic|];
    assert s[header] == body[0] && s[header + 1] == body[1];
    if p.qos > 0 {
      var at := 2 + |p.topic|;
      assert s[header + at] == body[at] && s[header + at + 1] == body[at + 1];
    }
  }

  lemma {:induction false} BodyFields(p: Request)
    requires Encodable(p)
    ensures var body := PublishBody(p);
            var topicEnd := 2 + |p.topic|;
            && |body| == topicEnd + (if p.qos > 0 then 2 else 0) + |p.payload|
            && Word(body, 0) == |p.topic|
            && body[2..topicEnd] == p.topic
            && (p.qos > 0 ==> Word(body, topicEnd) == p.id.value)
  {
    var body := PublishBody(p);
    var topicEnd := 2 + |p.topic|;
    assert body[0] == Be16(|p.topic|)[0] && body[1] == Be16(|p.topic|)[1];
    if p.qos > 0 {
      assert body[topicEnd] == Be16(p.id.value)[0] && body[topicEnd + 1] == Be16(p.id.value)[1];
    }
  }

  lemma {:induction false} OversizedPublishBody(size: nat, p: Request, rest: bytes)
    requires Encodable(p) && Utf8.Valid(p.topic)
    requires |PublishBytes(p)| > size
    ensures var header := 1 + |EncodeVarlen(|PublishBody(p)|)|;
            NextOversized(size, PublishBytes(p) + rest, header, |PublishBody(p)|)
            == Got(Delivery(size, p), |PublishBytes(p)|)
  {
    hide EncodeVarlen, Be16, Word, Utf8.Valid, PublishBody;
    var head := [PublishFirst(p)] + EncodeVarlen(|PublishBody(p)|);
    BodyFields(p);
    PreludeFields(p, |head|, head, rest);
    assert Qos(PublishFirst(p)) == p.qos && Kind(PublishFirst(p)) == 3;
    assert (head + PublishBody(p) + rest)[0] == PublishFirst(p);
  }

  /** One published message is read back as its delivery, leaving exactly what follows it. */
  lemma {:induction false} PublishRoundTrip(size: nat, p: Request, rest: bytes)
    requires Encodable(p) && Utf8.Valid(p.topic)
    ensures NextPacket(size, PublishBytes(p) + rest) == Got(Delivery(size, p), |PublishBytes(p)|)
  {
    var s := PublishBytes(p) + rest;
    var body := PublishBody(p);
    VarlenFits(|body|);
    assert s[1..] == EncodeVarlen(|body|) + (body + rest);
    VarlenRoundTrip(|body|, body + rest, 4);
    var header := 1 + |EncodeVarlen(|body|)|;
    assert s[header..header + |body|] == body;
    if header + |body| <= size {
      ParsePublishBody(p);
    } else {
      OversizedPublishBody(size, p, rest);
    }
  }

  /** encode_varlen: digits are produced least significant first, seven bits at a time. */
  method PackVarlen(value: int) returns (r: Encoded)
    ensures r == if 0 <= value <= VARLEN_MAX then Packed(EncodeVarlen(value)) else Refused(OutOfRange)
  {
    if value < 0 || value > VARLEN_MAX {
      return Refused(OutOfRange);
    }
    var output: bytes := [];
    var left: nat := value;
    while true
      invariant output + EncodeVarlen(left) == EncodeVarlen(value)
      decreases left
    {
      var digit := left % 128;
      left := left / 128;
      if left > 0 {
        output := output + [digit + 128];
      } else {
        output := output + [digit];
        return Packed(output);
      }
    }
  }

  /** encode_publish, with the checks in the order the client sees them. */
  method PackPublish(p: Request) returns (r: Encoded)
    ensures r.Packed? <==> Encodable(p)
    ensures r.Packed? ==> r.wire == PublishBytes(p)
    ensures p.qos > 1 ==> r == Refused(UnsupportedQos)
    ensures p.qos == 1 && p.id.None? ==> r == Refused(MissingId)
  {
    if p.qos > 1 {
      return Refused(UnsupportedQos);
    }
    if p.qos > 0 && p.id.None? {
      return Refused(MissingId);
    }
    var first: byte := 0x30 + 2 * p.qos;
    if p.retain {
      first := first + 1;
    }
    if |p.topic| > 65535 {
      return Refused(OutOfRange);
    }
    var body := Be16(|p.topic|);
    body := body + p.topic;
    if p.qos > 0 {
      if p.id.value > 65535 {
        return Refused(OutOfRange);
      }
      body := body + Be16(p.id.value);
    }
    body := body + p.payload;
    assert body == PublishBody(p);
    var length := PackVarlen(|body|);
    if length.Refused? {
      return Refused(OutOfRange);
    }
    return Packed([first] + length.wire + body);
  }

  /** decode_varlen over the window `buffer[start..limit]`. */
  method UnpackVarlen(buffer: array<byte>, start: nat, limit: nat) returns (r: Varlen)
    requires start <= limit <= buffer.Length
    ensures r == DecodeVarlen(buffer[start..limit], 4)
  {
    hide DecodeVarlen, Shifted;
    ghost var s := buffer[start..limit];
    assert s[0..] == s;
    ShiftNone(DecodeVarlen(s, 4));
    var value: nat, scale: nat := 0, 1;
    var consumed := 0;
    while consumed < 4
      invariant 0 <= consumed <= 4 && consumed <= |s|
      invariant DecodeVarlen(s, 4) == Shifted(DecodeVarlen(s[consumed..], 4 - consumed), value, scale, consumed)
    {
      var offset := start + consumed;
      if offset >= limit {
        assert s[consumed..] == [];
        ShortOfNothing(4 - consumed, value, scale, consumed);
        return Short;
      }
      var digit := buffer[offset];
      assert digit == s[consumed];
      ShiftDigit(s, consumed, value, scale);
      if digit < 128 {
        return Length(value + digit * scale, consumed + 1);
      }
      value := value + (digit - 128) * scale;
      scale := scale * 128;
      consumed := consumed + 1;
    }
    OverlongAtZero(s[4..], value, scale);
    return Overlong;
  }

  lemma {:induction false} ShortOfNothing(digits: nat, value: nat, scale: nat, count: nat)
    requires digits > 0
    ensures Shifted(DecodeVarlen([], digits), value, scale, count) == Short
  {
  }

  lemma {:induction false} OverlongAtZero(s: bytes, value: nat, scale: nat)
    ensures Shifted(DecodeVarlen(s, 0), value, scale, 4) == Overlong
  {
  }

  lemma {:induction false} ShiftNone(r: Varlen)
    ensures Shifted(r, 0, 1, 0) == r
  {
  }

  ghost function Shifted(r: Varlen, value: nat, scale: nat, count: nat): Varlen {
    match r
    case Length(v, n) => Length(value + scale * v, count + n)
    case other => other
  }

  /** Moving one digit from the unread part into the accumulated value. */
  lemma {:induction false} ShiftDigit(s: bytes, consumed: nat, value: nat, scale: nat)
    requires consumed < |s| && consumed < 4
    ensures s[consumed] * scale >= 0 && (s[consumed] >= 128 ==> (s[consumed] - 128) * scale >= 0)
    ensures Shifted(DecodeVarlen(s[consumed..], 4 - consumed), value, scale, consumed)
            == if s[consumed] < 128 then Length(value + s[consumed] * scale, consumed + 1)
               else Shifted(DecodeVarlen(s[consumed + 1..], 3 - consumed),
                            value + (s[consumed] - 128) * scale, scale * 128, consumed + 1)
  {
    var digit := s[consumed];
    assert s[consumed..][1..] == s[consumed + 1..];
    var tail := DecodeVarlen(s[consumed + 1..], 3 - consumed);
    if digit >= 128 && tail.Length? {
      assert scale * (digit - 128 + 128 * tail.value) == (digit - 128) * scale + (scale * 128) * tail.value;
    }
  }
}
