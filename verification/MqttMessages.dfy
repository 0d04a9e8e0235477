/** Everything a broker sends: published messages and the five acknowledgements, octet for octet and end to end. */
module MqttMessages {
  import opened Basics
  import opened Bytes
  import opened Resumable
  import opened MqttWire
  import opened MqttDecoder
  import Utf8

  // ----- Octets ---------------------------------------------------------------------------------------

  lemma {:induction false} LastDigit(a: byte, rest: bytes, digits: nat)
    requires a < 128 && digits > 0
    ensures DecodeVarlen([a] + rest, digits) == Length(a, 1)
  {
  }

  lemma {:induction false} NextDigit(a: byte, s: bytes, digits: nat)
    requires a < 128 && digits > 0
    ensures DecodeVarlen([a + 128] + s, digits)
         == match DecodeVarlen(s, digits - 1)
            case Length(v, n) => Length(a + 128 * v, n + 1)
            case other => other
  {
    assert ([a + 128] + s)[1..] == s;
  }

  /** The remaining length is read low digit first, seven bits at a time, in at most four octets. */
  lemma {:induction false} VarlenOctets(a: byte, b: byte, c: byte, d: byte, rest: bytes)
    requires a < 128 && b < 128 && c < 128 && d < 128
    ensures DecodeVarlen([a] + rest, 4) == Length(a, 1)
    ensures DecodeVarlen([a + 128] + ([b] + rest), 4) == Length(a + 128 * (b as int), 2)
    ensures DecodeVarlen([a + 128] + ([b + 128] + ([c] + rest)), 4)
         == Length(a + 128 * (b as int) + 16384 * (c as int), 3)
    ensures DecodeVarlen([a + 128] + ([b + 128] + ([c + 128] + ([d] + rest))), 4)
         == Length(a + 128 * (b as int) + 16384 * (c as int) + 2097152 * (d as int), 4)
    ensures DecodeVarlen([a + 128] + ([b + 128] + ([c + 128] + ([d + 128] + rest))), 4) == Overlong
  {
    hide DecodeVarlen;
    LastDigit(a, rest, 4);
    LastDigit(b, rest, 3);
    LastDigit(c, rest, 2);
    LastDigit(d, rest, 1);
    NextDigit(a, [b] + rest, 4);
    NextDigit(b, [c] + rest, 3);
    NextDigit(c, [d] + rest, 2);
    NextDigit(a, [b + 128] + ([c] + rest), 4);
    NextDigit(b, [c + 128] + ([d] + rest), 3);
    NextDigit(a, [b + 128] + ([c + 128] + ([d] + rest)), 4);
    NextDigit(a, [b + 128] + ([c + 128] + ([d + 128] + rest)), 4);
    NextDigit(b, [c + 128] + ([d + 128] + rest), 3);
    NextDigit(c, [d + 128] + rest, 2);
    NextDigit(d, rest, 1);
    NoDigits(rest);
  }

  lemma {:induction false} NoDigits(s: bytes)
    ensures DecodeVarlen(s, 0) == Overlong
  {
  }

  /** A PUBLISH short enough for one digit of length: first octet, length, topic with its length high octet first, the
      identifier likewise if there is one, payload. */
  lemma {:induction false} PublishOctets(p: Request, high: byte, low: byte, idHigh: byte, idLow: byte)
    requires Encodable(p) && |p.topic| == 256 * (high as int) + low
    requires p.qos > 0 ==> p.id == Some(256 * (idHigh as int) + idLow)
    ensures var id: bytes := if p.qos > 0 then [idHigh, idLow] else [];
            var length := 2 + |p.topic| + |id| + |p.payload|;
            length < 128 ==>
              PublishBytes(p) == [48 + (if p.qos == 1 then 2 else 0) + (if p.retain then 1 else 0), length, high, low]
                                 + p.topic + id + p.payload
  {
  }

  // ----- Messages -------------------------------------------------------------------------------------

  datatype Message = Publication(request: Request) | Acknowledgement(packet: Packet)

  /** An acknowledgement of MQTT 3.1.1, sections 3.2, 3.4, 3.9, 3.11 and 3.13. */
  predicate Acknowledges(a: Packet) {
    match a
    case Connack(_, code) => code < 256
    case Puback(id) => id < 65536
    case Suback(id, granted) => id < 65536 && granted != [] && 2 + |granted| <= VARLEN_MAX
    case Unsuback(id) => id < 65536
    case Pingresp => true
    case _ => false
  }

  function AckBytes(a: Packet): (r: bytes)
    requires Acknowledges(a)
    ensures r != []
  {
    match a
    case Connack(present, code) => [0x20, 2, if present then 1 else 0, code]
    case Puback(id) => [0x40, 2, id / 256, id % 256]
    case Suback(id, granted) => [0x90] + EncodeVarlen(2 + |granted|) + [id / 256, id % 256] + granted
    case Unsuback(id) => [0xB0, 2, id / 256, id % 256]
    case Pingresp => [0xD0, 0]
  }

  predicate Sendable(m: Message) {
    match m
    case Publication(p) => Encodable(p) && Utf8.Valid(p.topic)
    case Acknowledgement(a) => Acknowledges(a)
  }

  function Octets(m: Message): (r: bytes)
    requires Sendable(m)
    ensures r != []
  {
    match m
    case Publication(p) => PublishBytes(p)
    case Acknowledgement(a) => AckBytes(a)
  }

  /** The window can hold an acknowledgement; published messages of any size are dealt with. */
  predicate Holds(size: nat, m: Message)
    requires Sendable(m)
  {
    m.Acknowledgement? ==> |Octets(m)| <= size
  }

  /** What a receiver with a window of `size` bytes should report. */
  function Arrival(size: nat, m: Message): Packet
    requires Sendable(m)
  {
    match m
    case Publication(p) => Delivery(size, p)
    case Acknowledgement(a) => a
  }

  /** A packet the window can hold, length field and body. */
  lemma {:induction false} FramedPacket(size: nat, first: byte, body: bytes, rest: bytes)
    requires |body| <= VARLEN_MAX && 1 + |EncodeVarlen(|body|)| + |body| <= size
    ensures NextPacket(size, [first] + EncodeVarlen(|body|) + body + rest)
         == match ParseBody(first, body)
            case Good(packet) => Got(packet, 1 + |EncodeVarlen(|body|)| + |body|)
            case Bad(fault) => Malformed(fault)
  {
    hide ParseBody, NextPacket, EncodeVarlen, DecodeVarlen;
    var digits := EncodeVarlen(|body|);
    var s := [first] + digits + body + rest;
    assert s[1..] == digits + (body + rest);
    VarlenFits(|body|);
    VarlenRoundTrip(|body|, body + rest, 4);
    FittingNext(size, s, |body|, |digits|);
    assert s[1 + |digits|..1 + |digits| + |body|] == body;
  }

  /** First octet and body of an acknowledgement. */
  predicate Framed(a: Packet, first: byte, body: bytes)
    requires Acknowledges(a)
  {
    && |body| <= VARLEN_MAX && AckBytes(a) == [first] + EncodeVarlen(|body|) + body
    && ParseBody(first, body) == Good(a)
  }

  lemma {:induction false} ConnackFramed(present: bool, code: byte)
    ensures Framed(Connack(present, code), 0x20, [if present then 1 else 0, code])
  {
    SmallVarlen(2);
  }

  lemma {:induction false} PubackFramed(id: nat)
    requires id < 65536
    ensures Framed(Puback(id), 0x40, [id / 256, id % 256])
  {
    SmallVarlen(2);
    hide EncodeVarlen;
    TwoOctets(id, []);
  }

  lemma {:induction false} SubackFramed(id: nat, granted: bytes)
    requires id < 65536 && granted != [] && 2 + |granted| <= VARLEN_MAX
    ensures Framed(Suback(id, granted), 0x90, [id / 256, id % 256] + granted)
  {
    hide EncodeVarlen;
    var body := [id / 256, id % 256] + granted;
    TwoOctets(id, granted);
    assert body[2..] == granted;
    var digits := EncodeVarlen(2 + |granted|);
    assert [0x90] + digits + body == [0x90] + digits + [id / 256, id % 256] + granted;
  }

  lemma {:induction false} UnsubackFramed(id: nat)
    requires id < 65536
    ensures Framed(Unsuback(id), 0xB0, [id / 256, id % 256])
  {
    SmallVarlen(2);
    hide EncodeVarlen;
    TwoOctets(id, []);
  }

  lemma {:induction false} PingrespFramed()
    ensures Framed(Pingresp, 0xD0, [])
  {
    SmallVarlen(0);
  }

  /** The octets of an acknowledgement as first octet, length and body. */
  lemma {:induction false} AckFramed(a: Packet) returns (first: byte, body: bytes)
    requires Acknowledges(a)
    ensures Framed(a, first, body)
  {
    hide Framed;
    match a
    case Connack(present, code) =>
      first, body := 0x20, [if present then 1 else 0, code];
      ConnackFramed(present, code);
    case Puback(id) =>
      first, body := 0x40, [id / 256, id % 256];
      PubackFramed(id);
    case Suback(id, granted) =>
      first, body := 0x90, [id / 256, id % 256] + granted;
      SubackFramed(id, granted);
    case Unsuback(id) =>
      first, body := 0xB0, [id / 256, id % 256];
      UnsubackFramed(id);
    case Pingresp =>
      first, body := 0xD0, [];
      PingrespFramed();
  }

  lemma {:induction false} TwoOctets(id: nat, rest: bytes)
    requires id < 65536
    ensures Word([id / 256, id % 256] + rest, 0) == id
    ensures Word([id / 256, id % 256], 0) == id
  {
  }

  lemma {:induction false} SmallVarlen(n: nat)
    requires n < 128
    ensures EncodeVarlen(n) == [n]
  {
  }

  lemma {:induction false} AckRoundTrip(size: nat, a: Packet, rest: bytes)
    requires Acknowledges(a) && |AckBytes(a)| <= size
    ensures NextPacket(size, AckBytes(a) + rest) == Got(a, |AckBytes(a)|)
  {
    hide NextPacket, EncodeVarlen, ParseBody, AckBytes;
    var first, body := AckFramed(a);
    FramedPacket(size, first, body, rest);
  }

  /** What is refused of the packets the window can hold: acknowledgements of the wrong length, packets a broker does
      not send, and publishes whose topic or identifier does not fit or whose topic is not text. */
  lemma {:induction false} RefusedPackets(size: nat, first: byte, body: bytes, rest: bytes)
    requires |body| <= VARLEN_MAX && 1 + |EncodeVarlen(|body|)| + |body| <= size
    ensures var next := NextPacket(size, [first] + EncodeVarlen(|body|) + body + rest);
            var kind := first / 16;
            var topicEnd := if |body| < 2 then 2 else 2 + 256 * (body[0] as int) + body[1];
            var short := |body| < topicEnd;
            var illText := !short && !Utf8.Valid(body[2..topicEnd]);
            var noId := first / 2 % 4 > 0 && |body| < topicEnd + 2;
            && (next.Malformed? <==>
                  || (kind == 2 && |body| != 2) || (kind == 4 && |body| != 2) || (kind == 11 && |body| != 2)
                  || (kind == 9 && |body| < 3) || (kind == 3 && (short || illText || noId))
                  || kind in {0, 1, 5, 6, 7, 8, 10, 12, 14, 15})
            && (next.Malformed? ==> next.fault == if kind == 3 && illText then BadText else Protocol)
  {
    hide NextPacket, EncodeVarlen, Utf8.Valid;
    FramedPacket(size, first, body, rest);
  }

  /** What is refused of the packets the window cannot hold: all but publishes, and those with an ill topic that it can
      hold; the others are skipped to their end and reported. */
  lemma {:induction false} RefusedOversized(size: nat, first: byte, body: bytes, rest: bytes)
    requires 2 <= |body| <= VARLEN_MAX && 1 + |EncodeVarlen(|body|)| + |body| > size
    ensures var h := 1 + |EncodeVarlen(|body|)|;
            var next := NextPacket(size, [first] + EncodeVarlen(|body|) + body + rest);
            var topicEnd := 2 + 256 * (body[0] as int) + body[1];
            var shown := h + topicEnd + (if first / 2 % 4 > 0 then 2 else 0) <= size;
            && (shown ==> topicEnd <= |body|)
            && if first / 16 != 3 then next == Malformed(Protocol)
               else if shown && !Utf8.Valid(body[2..topicEnd]) then next == Malformed(BadText)
               else next.Got? && next.length == h + |body|
  {
    hide NextPacket, EncodeVarlen, DecodeVarlen, Utf8.Valid, OversizedEvent;
    var digits := EncodeVarlen(|body|);
    var s := [first] + digits + body + rest;
    var h := 1 + |digits|;
    assert s[1..] == digits + (body + rest);
    VarlenRoundTrip(|body|, body + rest, 4);
    OversizedNext(size, s, |body|, |digits|);
    assert s[h] == body[0] && s[h + 1] == body[1];
    var topicEnd := 2 + 256 * (body[0] as int) + body[1];
    if topicEnd <= |body| {
      assert s[h + 2..h + topicEnd] == body[2..topicEnd];
    }
  }

  /** A length that would need a fifth octet is refused. */
  lemma {:induction false} OverlongRefused(size: nat, s: bytes)
    requires |s| >= 2 && forall i :: 1 <= i < |s| && i <= 4 ==> s[i] >= 128
    ensures NextPacket(size, s) == if |s| >= 5 then Malformed(Protocol) else More
  {
    hide NextPacket;
    UnsizedNext(size, s);
    var a := s[1..];
    assert a[0] == s[1];
    if |s| > 2 {
      assert a[1..][0] == s[2];
      if |s| > 3 {
        assert a[1..][1..][0] == s[3];
        if |s| > 4 {
          assert a[1..][1..][1..][0] == s[4];
        }
      }
    }
  }

  /** Any message is read back as itself, or as the event of an oversized one, leaving exactly what follows it. */
  lemma {:induction false} MessageRoundTrip(size: nat, m: Message, rest: bytes)
    requires Sendable(m) && Holds(size, m)
    ensures NextPacket(size, Octets(m) + rest) == Got(Arrival(size, m), |Octets(m)|)
  {
    hide NextPacket, PublishBytes, AckBytes, Delivery, Encodable, Utf8.Valid;
    match m
    case Publication(p) => PublishRoundTrip(size, p, rest);
    case Acknowledgement(a) => AckRoundTrip(size, a, rest);
  }

  // ----- Streams of messages --------------------------------------------------------------------------

  predicate AllSendable(size: nat, ms: seq<Message>) {
    forall i :: 0 <= i < |ms| ==> Sendable(ms[i]) && Holds(size, ms[i])
  }

  function Stream(size: nat, ms: seq<Message>): bytes
    requires AllSendable(size, ms)
  {
    if ms == [] then [] else Octets(ms[0]) + Stream(size, ms[1..])
  }

  function Arrivals(size: nat, ms: seq<Message>): (r: seq<Packet>)
    requires AllSendable(size, ms)
    ensures |r| == |ms|
    ensures forall i :: 0 <= i < |ms| ==> r[i] == Arrival(size, ms[i])
  {
    if ms == [] then [] else [Arrival(size, ms[0])] + Arrivals(size, ms[1..])
  }

  /** A stream of messages is read back message for message, oversized publishes as one event each. */
  lemma {:induction false} StreamRoundTrip(size: nat, ms: seq<Message>)
    requires AllSendable(size, ms)
    ensures Packets(size, Stream(size, ms)) == Progress((), [], Arrivals(size, ms))
  {
    hide NextPacket, Octets, Arrival, Sendable, Holds;
    var s := Stream(size, ms);
    if ms != [] {
      var rest := Stream(size, ms[1..]);
      MessageRoundTrip(size, ms[0], rest);
      assert s[|Octets(ms[0])|..] == rest;
      StreamRoundTrip(size, ms[1..]);
    }
  }

  /** Bytes of an encoded publish up to its payload. */
  function PreludeOf(p: Request): int
    requires Encodable(p)
  {
    |PublishBytes(p)| - |p.payload|
  }

  /** The message fits the window, or shows its topic in at most half of it and one byte, or cannot show it at all. */
  predicate Small(size: nat, m: Message)
    requires Sendable(m)
  {
    m.Publication? ==>
      |Octets(m)| <= size || PreludeOf(m.request) <= size / 2 + 1 || PreludeOf(m.request) > size
  }

  predicate Modest(size: nat, ms: seq<Message>)
    requires AllSendable(size, ms)
  {
    forall i :: 0 <= i < |ms| ==> Small(size, ms[i])
  }

  lemma {:induction false} ModestPrelude(size: nat, p: Request, rest: bytes)
    requires Encodable(p)
    requires |PublishBytes(p)| <= size || PreludeOf(p) <= size / 2 + 1 || PreludeOf(p) > size
    ensures PreludeWithin(size, size / 2 + 1, PublishBytes(p) + rest)
  {
    hide EncodeVarlen, DecodeVarlen, Be16, PublishBody, Word;
    var s, body := PublishBytes(p) + rest, PublishBody(p);
    var head := [PublishFirst(p)] + EncodeVarlen(|body|);
    VarlenFits(|body|);
    assert s[1..] == EncodeVarlen(|body|) + (body + rest);
    VarlenRoundTrip(|body|, body + rest, 4);
    BodyFields(p);
    PreludeFields(p, |head|, head, rest);
    assert s == head + body + rest && s[0] == PublishFirst(p) && Qos(PublishFirst(p)) == p.qos;
  }

  /** A packet the window can hold is no oversized publish. */
  lemma {:induction false} HeldPrelude(size: nat, first: byte, body: bytes, rest: bytes)
    requires |body| <= VARLEN_MAX && 1 + |EncodeVarlen(|body|)| + |body| <= size
    ensures PreludeWithin(size, size / 2 + 1, [first] + EncodeVarlen(|body|) + body + rest)
  {
    hide EncodeVarlen, DecodeVarlen, Word;
    var s := [first] + EncodeVarlen(|body|) + body + rest;
    assert s[1..] == EncodeVarlen(|body|) + (body + rest);
    VarlenFits(|body|);
    VarlenRoundTrip(|body|, body + rest, 4);
  }

  lemma {:induction false} SmallPrelude(size: nat, m: Message, rest: bytes)
    requires Sendable(m) && Holds(size, m) && Small(size, m)
    ensures PreludeWithin(size, size / 2 + 1, Octets(m) + rest)
  {
    hide PreludeWithin, Encodable, PublishBytes, AckBytes, Utf8.Valid, EncodeVarlen, ParseBody;
    match m
    case Publication(p) => ModestPrelude(size, p, rest);
    case Acknowledgement(a) =>
      var first, body := AckFramed(a);
      HeldPrelude(size, first, body, rest);
  }

  /** Such messages never stall the window. */
  lemma {:induction false} ModestProgresses(size: nat, ms: seq<Message>)
    requires AllSendable(size, ms) && Modest(size, ms)
    ensures PreludesWithin(size, size / 2 + 1, Stream(size, ms))
    decreases |ms|
  {
    hide NextPacket, Octets, Arrival, Sendable, Holds, Small, PreludeWithin;
    if ms == [] {
      NothingWithin(size);
    } else {
      var rest := Stream(size, ms[1..]);
      SmallPrelude(size, ms[0], rest);
      MessageRoundTrip(size, ms[0], rest);
      assert Stream(size, ms)[|Octets(ms[0])|..] == rest;
      ModestProgresses(size, ms[1..]);
    }
  }

  lemma {:induction false} NothingWithin(size: nat)
    ensures PreludesWithin(size, size / 2 + 1, [])
  {
  }

  /** What has been read of a stream so far is a prefix of what the whole stream holds. */
  lemma {:induction false} PrefixOfWhole(size: nat, first: bytes, more: bytes)
    ensures Packets(size, first).out <= Packets(size, first + more).out
    ensures NextPacket(size, Packets(size, first).rest).Malformed? ==>
              Packets(size, first + more).rest == Packets(size, first).rest + more
  {
    var step := PacketStep(size);
    PacketStepStable(size);
    RunResumes(step, (), first, more);
    var p := Packets(size, first);
    if NextPacket(size, p.rest).Malformed? {
      NextPacketStable(size, p.rest, more);
    }
  }

  /**
   End to end: published messages and acknowledgements sent one after the other and received through the window in
   arbitrary slices are reported in order, each one that fits as itself and each oversized publish as a single event;
   the events are those of the bytes taken, and with a window of twelve bytes or more and modest messages all of them
   arrive once the socket has offered something often enough.
   */
  method Transfer(size: nat, ms: seq<Message>, offers: seq<nat>) returns (events: seq<Packet>, taken: nat)
    requires AllSendable(size, ms)
    ensures taken <= |Stream(size, ms)| && events == Packets(size, Stream(size, ms)[..taken]).out
    ensures events <= Arrivals(size, ms)
    ensures taken == |Stream(size, ms)| ==> events == Arrivals(size, ms)
    ensures size >= 12 && (forall i :: 0 <= i < |offers| ==> offers[i] > 0) ==>
              || taken == |Stream(size, ms)| || taken >= |offers|
              || Stalled(size, Packets(size, Stream(size, ms)[..taken]).rest)
    ensures size >= 12 && Modest(size, ms) ==> !Stalled(size, Packets(size, Stream(size, ms)[..taken]).rest)
    ensures size >= 12 && Modest(size, ms)
            && (forall i :: 0 <= i < |offers| ==> offers[i] > 0) && |offers| >= |Stream(size, ms)| ==>
              taken == |Stream(size, ms)| && events == Arrivals(size, ms)
  {
    hide Packets, NextPacket, Stream, Arrivals, Stalled, Modest, PreludesWithin;
    var raised;
    var wire := Stream(size, ms);
    events, taken, raised := Pump(size, wire, offers);
    StreamRoundTrip(size, ms);
    assert wire[..taken] + wire[taken..] == wire;
    NeverMalformed(size, ms, taken);
    PrefixOfWhole(size, wire[..taken], wire[taken..]);
    if taken == |wire| {
      assert wire[..taken] == wire;
    }
    if Modest(size, ms) {
      ModestProgresses(size, ms);
    }
  }

  /** A stream of messages is nowhere malformed. */
  lemma {:induction false} NeverMalformed(size: nat, ms: seq<Message>, taken: nat)
    requires AllSendable(size, ms) && taken <= |Stream(size, ms)|
    ensures !NextPacket(size, Packets(size, Stream(size, ms)[..taken]).rest).Malformed?
  {
    hide Packets, Stream, NextPacket;
    var wire := Stream(size, ms);
    StreamRoundTrip(size, ms);
    assert wire[..taken] + wire[taken..] == wire;
    PrefixOfWhole(size, wire[..taken], wire[taken..]);
    UnsizedNext(size, []);
    var rest := Packets(size, wire[..taken]).rest;
    if NextPacket(size, rest).Malformed? {
      NotNothing(size, rest);
    }
  }

  lemma {:induction false} NotNothing(size: nat, s: bytes)
    requires NextPacket(size, s).Malformed?
    ensures s != []
  {
  }
}
