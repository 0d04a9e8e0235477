/** The fixed-window packet decoder, proved to read exactly what the whole-stream parser reads. */
module MqttDecoder {
  import opened Basics
  import opened Bytes
  import opened Resumable
  import opened MqttWire
  import Utf8

  // ----- Skipping an oversized PUBLISH ----------------------------------------

  /** The bytes at a packet boundary begin an oversized PUBLISH whose event is already known. */
  predicate Skipping(size: nat, s: bytes) {
    |s| >= 2
    && var v := DecodeVarlen(s[1..], 4);
    v.Length?
    && var header := 1 + v.count;
    && header + v.value > size
    && Kind(s[0]) == 3
    && |s| >= header + 2
    && (PreludeLength(s, header) <= size ==>
          && PreludeLength(s, header) <= |s|
          && Utf8.Valid(s[header + 2..header + 2 + Word(s, header)]))
  }

  function PacketLength(size: nat, s: bytes): nat
    requires Skipping(size, s)
  {
    var v := DecodeVarlen(s[1..], 4);
    1 + v.count + v.value
  }

  function SkipEvent(size: nat, s: bytes): Packet
    requires Skipping(size, s)
  {
    var v := DecodeVarlen(s[1..], 4);
    OversizedEvent(size, s, 1 + v.count, v.value)
  }

  lemma {:induction false} SkippingNext(size: nat, s: bytes)
    requires Skipping(size, s)
    ensures NextPacket(size, s) == if |s| < PacketLength(size, s) then More
                                   else Got(SkipEvent(size, s), PacketLength(size, s))
  {
  }

  lemma {:induction false} SkippingStable(size: nat, s: bytes, more: bytes)
    requires Skipping(size, s)
    ensures Skipping(size, s + more)
    ensures PacketLength(size, s + more) == PacketLength(size, s)
    ensures SkipEvent(size, s + more) == SkipEvent(size, s)
  {
    assert (s + more)[1..] == s[1..] + more;
    VarlenStable(s[1..], more, 4);
    PreludeStable(s, more, 1 + DecodeVarlen(s[1..], 4).count);
  }

  // ----- When the window can run full -------------------------------------------

  /** An oversized PUBLISH that fits its prelude in the window but has not shown all of it yet. */
  predicate AwaitsPrelude(size: nat, s: bytes) {
    |s| >= 2
    && var v := DecodeVarlen(s[1..], 4);
    v.Length?
    && var header := 1 + v.count;
    && header + v.value > size
    && Kind(s[0]) == 3
    && |s| >= header + 2
    && |s| < PreludeLength(s, header) <= size
  }

  /** At a packet boundary: an oversized PUBLISH, if one starts here, has a prelude of at most `limit` bytes
      (or one too large for the window, which is not awaited). */
  predicate PreludeWithin(size: nat, limit: nat, s: bytes) {
    |s| >= 2 ==>
      var v := DecodeVarlen(s[1..], 4);
      v.Length? && 1 + v.count + v.value > size && |s| >= 1 + v.count + 2 ==>
        PreludeLength(s, 1 + v.count) <= limit || PreludeLength(s, 1 + v.count) > size
  }

  /** Every oversized PUBLISH of the stream satisfies PreludeWithin. */
  predicate PreludesWithin(size: nat, limit: nat, s: bytes)
    decreases |s|
  {
    PreludeWithin(size, limit, s)
    && match NextPacket(size, s)
       case Got(_, length) => PreludesWithin(size, limit, s[length..])
       case _ => true
  }

  lemma {:induction false} PreludeWithinPrefix(size: nat, limit: nat, s: bytes, more: bytes)
    requires PreludeWithin(size, limit, s + more)
    ensures PreludeWithin(size, limit, s)
  {
    if |s| >= 2 {
      var v := DecodeVarlen(s[1..], 4);
      if v.Length? && |s| >= 1 + v.count + 2 {
        assert (s + more)[1..] == s[1..] + more;
        VarlenStable(s[1..], more, 4);
        PreludeStable(s, more, 1 + v.count);
      }
    }
  }

  /** A length still incomplete takes at most three digits. */
  lemma {:induction false} ShortLength(s: bytes, digits: nat)
    requires DecodeVarlen(s, digits).Short?
    ensures |s| < digits
    decreases digits
  {
    if s != [] {
      ShortLength(s[1..], digits - 1);
    }
  }

  /** A length that announces a packet the window can hold, not all of which has arrived. */
  predicate AwaitsBody(size: nat, s: bytes) {
    |s| >= 2
    && var v := DecodeVarlen(s[1..], 4);
    v.Length? && |s| < 1 + v.count + v.value <= size
  }

  /** More than half a window of bytes always settles the header: only a prelude or a body can be missing. */
  lemma {:induction false} HalfWindowWaits(size: nat, s: bytes)
    requires size >= 12 && 2 * |s| > size && |s| <= size
    requires NextPacket(size, s).More? && !Skipping(size, s)
    ensures AwaitsPrelude(size, s) || AwaitsBody(size, s)
  {
    assert |s| >= 7;
    if DecodeVarlen(s[1..], 4).Short? {
      ShortLength(s[1..], 4);
    }
  }

  // ----- The decoder ---------------------------------------------------------------

  function NonNegative(x: int): nat { if x > 0 then x else 0 }

  datatype Outcome = Nothing | Raised(fault: Fault) | Emitted(packet: Packet)

  /** The outcome `r` is what the reference parser says about the bytes at the packet boundary. */
  ghost predicate Reads(r: Outcome, size: nat, before: bytes, after: bytes) {
    match r
    case Nothing => NextPacket(size, before).More? && after == before
    case Raised(fault) => NextPacket(size, before) == Malformed(fault) && after == before
    case Emitted(packet) =>
      var next := NextPacket(size, before);
      next.Got? && next.packet == packet && after == before[next.length..]
  }

  /** The window after consuming up to `offset`: slid down exactly when that is half of it or more. */
  predicate Moved(size: nat, offset: nat, length: nat, offset': nat, length': nat) {
    if 2 * offset >= size then offset' == 0 && offset + length' == length
    else offset' == offset && length' == length
  }

  class PacketDecoder {
    const buffer: array<byte>
    var length: nat
    var readOffset: nat
    var draining: bool
    var drainRemaining: nat
    var drainTopic: Option<bytes>
    var drainQos: nat
    var drainId: Option<nat>
    var drainLength: nat

    /** The stream since the last packet boundary: held in the window, or partly dropped by a drain. */
    ghost var unread: bytes

    ghost predicate Valid()
      reads this, buffer
    {
      && readOffset <= length <= buffer.Length
      && (readOffset == 0 || 2 * readOffset < buffer.Length)
      && (!draining ==> unread == buffer[readOffset..length])
      && (draining ==>
            && length == 0 && readOffset == 0
            && Skipping(buffer.Length, unread)
            && |unread| + drainRemaining == PacketLength(buffer.Length, unread)
            && Oversized(drainTopic, drainLength, drainQos, drainId) == SkipEvent(buffer.Length, unread))
    }

    constructor (size: nat)
      ensures Valid() && fresh(buffer) && buffer.Length == size
      ensures unread == [] && !draining && length == 0
    {
      buffer := new byte[size](_ => 0);
      length, readOffset := 0, 0;
      draining, drainRemaining := false, 0;
      drainTopic, drainQos, drainId, drainLength := None, 0, None, 0;
      unread := [];
    }

    /** fill_capacity: how many bytes the next receive may bring. */
    function Room(): (n: nat)
      requires Valid()
      reads this, buffer
      ensures length + n <= buffer.Length
      ensures n <= (if draining then drainRemaining else buffer.Length)
      ensures length + n == buffer.Length || (draining && n == drainRemaining)
    {
      if draining then
        var available := buffer.Length - length;
        if drainRemaining <= available then drainRemaining else available
      else
        buffer.Length - length
    }

    /** The window is full to its end, and nothing of it is being skipped. */
    predicate IsFull()
      reads this`draining, this`length
    {
      !draining && length == buffer.Length
    }

    /** The socket writes through the view that fill_buffer handed out. */
    method Fill(data: bytes)
      requires Valid() && |data| <= Room()
      modifies buffer
      ensures Valid() && buffer[length..length + |data|] == data
      ensures buffer[..length] == old(buffer[..length])
    {
      forall i | 0 <= i < |data| {
        buffer[length + i] := data[i];
      }
      assert buffer[..length] == old(buffer[..length]);
      assert buffer[readOffset..length] == buffer[..length][readOffset..];
      assert old(buffer[readOffset..length]) == old(buffer[..length])[readOffset..];
    }

    /** advance: account for `count` bytes received into the view. */
    method Advance(count: nat)
      requires Valid() && count <= Room()
      modifies this
      ensures Valid()
      ensures unread == old(unread) + old(buffer[length..length + count])
      ensures draining == old(draining) && length == if draining then 0 else old(length) + count
    {
      ghost var received := buffer[length..length + count];
      if count == 0 {
        assert unread + received == unread;
        return;
      }
      if draining {
        SkippingStable(buffer.Length, unread, received);
        drainRemaining := drainRemaining - count;
        length := 0;
        unread := unread + received;
        return;
      }
      length := length + count;
      unread := unread + received;
    }

    /** read_next: the next packet, if the window holds or has skipped all of it. */
    method ReadNext() returns (r: Outcome)
      requires Valid()
      modifies this, buffer
      ensures Valid()
      ensures Reads(r, buffer.Length, old(unread), unread)
      ensures r.Nothing? && buffer.Length >= 12 ==>
                (Room() == 0 <==> old(!draining && length == buffer.Length) && AwaitsPrelude(buffer.Length, unread))
      ensures r.Nothing? && buffer.Length >= 12 && Room() == 0 ==> IsFull()
      ensures r.Emitted? ==> !draining
      ensures r.Emitted? && !old(draining) ==>
                Moved(buffer.Length, old(readOffset + |unread|) - |unread|, old(length), readOffset, length)
    {
      if draining {
        r := FinishOversized();
      } else {
        r := ReadWindow();
      }
      if r.Nothing? && buffer.Length >= 12 {
        RoomAfterWaiting();
      }
    }

    /** What is left to say about a window that is still waiting: it is full only for want of a prelude. */
    lemma {:induction false} RoomAfterWaiting()
      requires Valid() && buffer.Length >= 12 && NextPacket(buffer.Length, unread).More?
      requires !draining ==> !Skipping(buffer.Length, unread)
      requires !draining && length == buffer.Length ==> !AwaitsBody(buffer.Length, unread)
      ensures Room() == 0 <==> !draining && length == buffer.Length && AwaitsPrelude(buffer.Length, unread)
    {
      if draining {
        SkippingNext(buffer.Length, unread);
      } else if length == buffer.Length {
        HalfWindowWaits(buffer.Length, unread);
      }
    }

    /** read_next outside drain mode. */
    method ReadWindow() returns (r: Outcome)
      requires Valid() && !draining
      modifies this, buffer
      ensures Valid()
      ensures Reads(r, buffer.Length, old(unread), unread)
      ensures r.Nothing? && draining ==> !AwaitsPrelude(buffer.Length, unread)
      ensures r.Nothing? && !draining ==> !Skipping(buffer.Length, unread)
      ensures r.Emitted? ==> !draining
      ensures r.Nothing? && !draining ==>
                if AwaitsBody(buffer.Length, unread) then length < buffer.Length else length == old(length)
      ensures r.Emitted? ==>
                Moved(buffer.Length, old(readOffset + |unread|) - |unread|, old(length), readOffset, length)
    {
      hide NextPacket, DecodeVarlen;
      UnsizedNext(buffer.Length, unread);
      var base := readOffset;
      var live := length - base;
      if live < 2 {
        return Nothing;
      }
      var v := UnpackVarlen(buffer, base + 1, length);
      assert buffer[base + 1..length] == unread[1..];
      if v.Overlong? {
        return Raised(Protocol);
      }
      if v.Short? {
        return Nothing;
      }
      if 1 + v.count + v.value > buffer.Length {
        r := EnterDrainPath(1 + v.count, v.value);
      } else {
        r := ReadBody(1 + v.count, v.value);
      }
    }

    /** The tail of read_next: a packet that fits the window. */
    method ReadBody(header: nat, messageLength: nat) returns (r: Outcome)
      requires Valid() && !draining
      requires |unread| >= 2 && header >= 1
      requires DecodeVarlen(unread[1..], 4) == Length(messageLength, header - 1)
      requires header + messageLength <= buffer.Length
      modifies this, buffer
      ensures Valid() && !draining
      ensures Reads(r, buffer.Length, old(unread), unread)
      ensures r.Nothing? ==> length < buffer.Length && AwaitsBody(buffer.Length, unread)
      ensures r.Emitted? ==>
                Moved(buffer.Length, old(readOffset + |unread|) - |unread|, old(length), readOffset, length)
    {
      hide ParseBody, DecodeVarlen, NextPacket;
      FittingNext(buffer.Length, unread, messageLength, header - 1);
      var live := length - readOffset;
      var total := header + messageLength;
      if live < total {
        if length == buffer.Length && readOffset > 0 {
          Compact();
        }
        return Nothing;
      }
      var parsed := ParseBody(buffer[readOffset], Slice(header, total));
      if parsed.Bad? {
        return Raised(parsed.fault);
      }
      Consume(total);
      return Emitted(parsed.packet);
    }

    method Consume(count: nat)
      requires Valid() && !draining && count <= length - readOffset
      modifies this, buffer
      ensures Valid() && !draining && unread == old(unread)[count..]
      ensures Moved(buffer.Length, old(readOffset) + count, old(length), readOffset, length)
    {
      assert buffer[readOffset..length][count..] == buffer[readOffset + count..length];
      readOffset := readOffset + count;
      unread := unread[count..];
      if readOffset * 2 >= buffer.Length {
        Compact();
      }
    }

    method Compact()
      requires readOffset <= length <= buffer.Length
      requires !draining && unread == buffer[readOffset..length]
      modifies this, buffer
      ensures Valid() && !draining && unread == old(unread)
      ensures readOffset == 0 && length == old(length - readOffset)
    {
      var live := length - readOffset;
      if live > 0 {
        var at := readOffset;
        forall i | 0 <= i < live {
          buffer[i] := buffer[at + i];
        }
      }
      length := live;
      readOffset := 0;
      assert buffer[0..length] == unread;
    }

    method EnterDrainPath(header: nat, messageLength: nat) returns (r: Outcome)
      requires Valid() && !draining
      requires |unread| >= 2 && header >= 1
      requires DecodeVarlen(unread[1..], 4) == Length(messageLength, header - 1)
      requires header + messageLength > buffer.Length
      modifies this
      ensures Valid()
      ensures Reads(r, buffer.Length, old(unread), unread)
      ensures !r.Emitted?
      ensures r.Nothing? && draining ==> !AwaitsPrelude(buffer.Length, unread)
      ensures r.Nothing? && !draining ==>
                length == old(length) && !AwaitsBody(buffer.Length, unread) && !Skipping(buffer.Length, unread)
    {
      hide NextPacket, DecodeVarlen, Word;
      OversizedNext(buffer.Length, unread, messageLength, header - 1);
      var first := buffer[readOffset];
      assert first == unread[0];
      if Kind(first) != 3 {
        return Raised(Protocol);
      }
      if length - readOffset < header + 2 {
        return Nothing;
      }
      r := SkipPublish(first, header, messageLength);
    }

    /** A part of the window, counted from the packet boundary. */
    function Slice(lo: nat, hi: nat): (r: bytes)
      requires Valid() && !draining && lo <= hi <= |unread|
      reads this, buffer
      ensures r == unread[lo..hi]
    {
      SliceInWindow(lo, hi);
      buffer[readOffset + lo..readOffset + hi]
    }

    lemma {:induction false} SliceInWindow(lo: nat, hi: nat)
      requires readOffset <= length <= buffer.Length && unread == buffer[readOffset..length]
      requires lo <= hi <= |unread|
      ensures buffer[readOffset + lo..readOffset + hi] == unread[lo..hi]
    {
      var window := buffer[readOffset + lo..readOffset + hi];
      assert |window| == hi - lo;
      forall i | 0 <= i < hi - lo ensures window[i] == unread[lo..hi][i] {
        assert window[i] == buffer[readOffset + lo + i] == unread[lo + i];
      }
    }

    function WindowWord(at: nat): nat
      requires at + 2 <= buffer.Length
      reads this, buffer
    {
      256 * (buffer[at] as int) + buffer[at + 1]
    }

    /** The oversized path once the topic length has arrived. */
    method SkipPublish(first: byte, header: nat, messageLength: nat) returns (r: Outcome)
      requires Valid() && !draining
      requires header >= 1 && |unread| >= header + 2
      requires DecodeVarlen(unread[1..], 4) == Length(messageLength, header - 1)
      requires header + messageLength > buffer.Length
      requires unread[0] == first && Kind(first) == 3
      modifies this
      ensures Valid()
      ensures unread == old(unread)
      ensures r == Nothing || r == Raised(BadText)
      ensures r.Raised? ==> NextOversized(buffer.Length, unread, header, messageLength) == Malformed(BadText)
      ensures r.Nothing? ==> (draining <==> !(|unread| < PreludeLength(unread, header) <= buffer.Length))
      ensures r.Nothing? && draining ==> Reads(r, buffer.Length, unread, unread)
      ensures r.Nothing? && !draining ==> length == old(length)
    {
      var topicLength := TopicLength(header);
      var prelude := header + 2 + topicLength + (if Qos(first) > 0 then 2 else 0);
      assert prelude == PreludeLength(unread, header) && |unread| == length - readOffset;
      hide NextPacket, NextOversized, PreludeLength, DecodeVarlen, Word, Qos, PacketDecoder.Valid;
      if prelude > buffer.Length {
        r := SkipAnonymous(first, header, messageLength);
        return;
      }
      if length - readOffset < prelude {
        return Nothing;
      }
      r := SkipKnown(first, header, messageLength, topicLength);
    }

    /** The oversized path once the whole prelude has arrived. */
    method SkipKnown(first: byte, header: nat, messageLength: nat, topicLength: nat) returns (r: Outcome)
      requires Valid() && !draining
      requires header >= 1 && |unread| >= header + 2
      requires DecodeVarlen(unread[1..], 4) == Length(messageLength, header - 1)
      requires header + messageLength > buffer.Length
      requires unread[0] == first && Kind(first) == 3 && topicLength == Word(unread, header)
      requires PreludeLength(unread, header) <= length - readOffset && PreludeLength(unread, header) <= buffer.Length
      modifies this
      ensures Valid() && unread == old(unread)
      ensures r == Nothing || r == Raised(BadText)
      ensures r.Raised? ==> NextOversized(buffer.Length, unread, header, messageLength) == Malformed(BadText)
      ensures r.Nothing? ==> draining && Reads(r, buffer.Length, unread, unread)
    {
      assert |unread| == length - readOffset;
      BadTopic(buffer.Length, unread, header, messageLength);
      hide NextPacket, NextOversized, PreludeLength, DecodeVarlen, Word, Utf8.Valid, PacketDecoder.Valid;
      r := SkipNamed(first, header, messageLength, topicLength);
    }

    lemma {:induction false} BadTopic(size: nat, s: bytes, header: nat, messageLength: nat)
      requires 1 <= header && header + 2 <= |s| && header + messageLength > size && Kind(s[0]) == 3
      requires PreludeLength(s, header) <= size && PreludeLength(s, header) <= |s|
      ensures header + 2 + Word(s, header) <= |s|
      ensures !Utf8.Valid(s[header + 2..header + 2 + Word(s, header)]) ==>
                NextOversized(size, s, header, messageLength) == Malformed(BadText)
    {
      hide Utf8.Valid, Word, OversizedEvent;
    }

    function TopicLength(header: nat): (n: nat)
      requires Valid() && !draining && header + 2 <= |unread|
      reads this, buffer
      ensures n == Word(unread, header)
    {
      assert unread[header] == buffer[readOffset + header] && unread[header + 1] == buffer[readOffset + header + 1];
      WindowWord(readOffset + header)
    }

    /** The oversized path when the topic itself cannot fit the window. */
    method SkipAnonymous(first: byte, header: nat, messageLength: nat) returns (r: Outcome)
      requires Valid() && !draining
      requires header >= 1 && |unread| >= header + 2
      requires DecodeVarlen(unread[1..], 4) == Length(messageLength, header - 1)
      requires header + messageLength > buffer.Length
      requires unread[0] == first && Kind(first) == 3 && PreludeLength(unread, header) > buffer.Length
      modifies this
      ensures Valid()
      ensures r.Nothing? && draining && Reads(r, buffer.Length, old(unread), unread)
    {
      StartDrain(header + messageLength - (length - readOffset), None, Qos(first), None, messageLength);
      r := FinishOversized();
    }

    /** The oversized path once topic and packet identifier have arrived. */
    method SkipNamed(first: byte, header: nat, messageLength: nat, topicLength: nat) returns (r: Outcome)
      requires Valid() && !draining
      requires header >= 1 && |unread| >= header + 2
      requires DecodeVarlen(unread[1..], 4) == Length(messageLength, header - 1)
      requires header + messageLength > buffer.Length
      requires unread[0] == first && Kind(first) == 3 && topicLength == Word(unread, header)
      requires PreludeLength(unread, header) <= length - readOffset
      modifies this
      ensures Valid()
      ensures r == if Utf8.Valid(old(unread)[header + 2..header + 2 + topicLength]) then Nothing else Raised(BadText)
      ensures r.Nothing? ==> draining && Reads(r, buffer.Length, old(unread), unread)
      ensures unread == old(unread)
    {
      var qos := Qos(first);
      var topicEnd := readOffset + header + 2 + topicLength;
      hide Utf8.Valid, DecodeVarlen;
      var topic := Slice(header + 2, header + 2 + topicLength);
      if !Utf8.Valid(topic) {
        return Raised(BadText);
      }
      var id := None;
      if qos > 0 {
        id := Some(WindowWord(topicEnd));
        ghost var at := header + 2 + topicLength;
        assert unread[at] == buffer[topicEnd] && unread[at + 1] == buffer[topicEnd + 1];
      }
      StartDrain(header + messageLength - (length - readOffset), Some(topic), qos, id, messageLength);
      r := FinishOversized();
    }

    method StartDrain(onWire: int, topic: Option<bytes>, qos: nat, id: Option<nat>, messageLength: nat)
      requires Valid() && !draining
      requires Skipping(buffer.Length, unread) && |unread| + onWire == PacketLength(buffer.Length, unread)
      requires Oversized(topic, messageLength, qos, id) == SkipEvent(buffer.Length, unread)
      requires onWire >= 0
      modifies this
      ensures Valid() && draining && unread == old(unread) && drainRemaining == onWire
    {
      drainRemaining := NonNegative(onWire);
      drainTopic := topic;
      drainQos := qos;
      drainId := id;
      drainLength := messageLength;
      length := 0;
      readOffset := 0;
      draining := true;
    }

    method FinishOversized() returns (r: Outcome)
      requires Valid() && draining
      modifies this
      ensures Valid()
      ensures Reads(r, buffer.Length, old(unread), unread)
      ensures r.Nothing? <==> old(drainRemaining) > 0
      ensures r.Nothing? <==> draining
      ensures !r.Raised?
      ensures r.Nothing? && buffer.Length > 0 ==> Room() > 0
    {
      SkippingNext(buffer.Length, unread);
      if drainRemaining > 0 {
        return Nothing;
      }
      r := Emitted(Oversized(drainTopic, drainLength, drainQos, drainId));
      draining, drainRemaining := false, 0;
      drainTopic, drainQos, drainId, drainLength := None, 0, None, 0;
      unread := [];
    }
  }

  // ----- Whole runs ---------------------------------------------------------------------

  /** More than half a window of unread bytes and still not the whole prelude of the oversized packet they begin. */
  predicate Stalled(size: nat, s: bytes) { AwaitsPrelude(size, s) && 2 * |s| > size }

  lemma {:induction false} StalledWaits(size: nat, s: bytes)
    ensures Stalled(size, s) ==> NextPacket(size, s).More?
  {
  }

  /** The client's loop over one receive: read packets until none is ready. */
  method ReadAll(decoder: PacketDecoder, ghost received: bytes, ghost before: seq<Packet>)
    returns (events: seq<Packet>, raised: bool)
    requires decoder.Valid()
    requires Tracks(PacketStep(decoder.buffer.Length), (), received, before, (), decoder.unread)
    modifies decoder, decoder.buffer
    ensures decoder.Valid()
    ensures Packets(decoder.buffer.Length, received) == Progress((), decoder.unread, before + events)
    ensures raised <==> NextPacket(decoder.buffer.Length, decoder.unread).Malformed?
    ensures !raised && decoder.buffer.Length >= 12 && decoder.Room() == 0 ==>
              decoder.IsFull() && Stalled(decoder.buffer.Length, decoder.unread)
    ensures decoder.buffer.Length >= 12 && old(decoder.IsFull() && Stalled(decoder.buffer.Length, decoder.unread)) ==>
              decoder.Room() == 0
  {
    hide Tracks, NextPacket, AwaitsPrelude;
    StalledWaits(decoder.buffer.Length, decoder.unread);
    ghost var step := PacketStep(decoder.buffer.Length);
    assert before + [] == before;
    events, raised := [], false;
    while true
      invariant decoder.Valid()
      invariant Tracks(step, (), received, before + events, (), decoder.unread)
      invariant old(Stalled(decoder.buffer.Length, decoder.unread)) ==>
                  decoder.unread == old(decoder.unread) && decoder.IsFull() == old(decoder.IsFull())
      decreases |decoder.unread|
    {
      ghost var unread := decoder.unread;
      var r := decoder.ReadNext();
      match r
      case Emitted(packet) =>
        TracksTake(step, (), received, before + events, (), unread);
        assert before + events + [packet] == before + (events + [packet]);
        events := events + [packet];
      case Nothing =>
        TracksWaiting(step, (), received, before + events, (), unread);
        return;
      case Raised(_) =>
        TracksWaiting(step, (), received, before + events, (), unread);
        raised := true;
        return;
    }
  }

  /** The hypothesis on oversized preludes carries over to what is left after some packets are read. */
  lemma {:induction false} PreludesWithinRest(size: nat, limit: nat, s: bytes, more: bytes)
    requires PreludesWithin(size, limit, s + more)
    ensures PreludesWithin(size, limit, Packets(size, s).rest + more)
    decreases |s|
  {
    hide NextPacket, PreludeWithin;
    if NextPacket(size, s).Got? {
      var n := NextPacket(size, s).length;
      NextPacketStable(size, s, more);
      assert (s + more)[n..] == s[n..] + more;
      PreludesWithinRest(size, limit, s[n..], more);
    }
  }

  /** A window more than half full of unread bytes holds any prelude of at most half a window and one byte. */
  lemma {:induction false} NoStall(size: nat, received: bytes, more: bytes)
    requires PreludesWithin(size, size / 2 + 1, received + more)
    requires 2 * |Packets(size, received).rest| > size
    ensures !AwaitsPrelude(size, Packets(size, received).rest)
  {
    var unread := Packets(size, received).rest;
    PreludesWithinRest(size, size / 2 + 1, received, more);
    PreludeWithinPrefix(size, size / 2 + 1, unread, more);
  }

  lemma {:induction false} ReceiptTracks(size: nat, received: bytes, events: seq<Packet>, unread: bytes, more: bytes)
    requires Packets(size, received) == Progress((), unread, events)
    ensures Tracks(PacketStep(size), (), received + more, events, (), unread + more)
  {
    var step := PacketStep(size);
    PacketStepStable(size);
    WaitingTracks(step, (), received, events, (), unread);
    TracksReceive(step, (), received, events, (), unread, more);
  }

  /** One round: receive what is offered, as far as the window has room, and read the packets out. */
  method Round(decoder: PacketDecoder, wire: bytes, taken: nat, offer: nat, ghost before: seq<Packet>)
    returns (events: seq<Packet>, count: nat, raised: bool)
    requires decoder.Valid() && taken <= |wire|
    requires Packets(decoder.buffer.Length, wire[..taken]) == Progress((), decoder.unread, before)
    modifies decoder, decoder.buffer
    ensures decoder.Valid() && taken + count <= |wire|
    ensures count == Least(offer, Least(old(decoder.Room()), |wire| - taken))
    ensures Packets(decoder.buffer.Length, wire[..taken + count]) == Progress((), decoder.unread, before + events)
    ensures raised <==> NextPacket(decoder.buffer.Length, decoder.unread).Malformed?
    ensures !raised && decoder.buffer.Length >= 12 && decoder.Room() == 0 ==>
              decoder.IsFull() && Stalled(decoder.buffer.Length, decoder.unread)
    ensures decoder.buffer.Length >= 12 && old(decoder.IsFull() && Stalled(decoder.buffer.Length, decoder.unread)) ==>
              decoder.Room() == 0
  {
    hide Packets, NextPacket, AwaitsPrelude, Tracks;
    ghost var size := decoder.buffer.Length;
    count := Least(offer, Least(decoder.Room(), |wire| - taken));
    var data := wire[taken..taken + count];
    assert wire[..taken] + data == wire[..taken + count];
    ReceiptTracks(size, wire[..taken], before, decoder.unread, data);
    decoder.Fill(data);
    decoder.Advance(count);
    assert count == 0 ==> decoder.unread == old(decoder.unread);
    events, raised := ReadAll(decoder, wire[..taken + count], before);
  }

  /** The window never runs full for want of a prelude. */
  predicate Progressing(size: nat, wire: bytes) {
    size >= 12 && PreludesWithin(size, size / 2 + 1, wire)
  }

  /**
   The decoder over a whole connection: each round the socket offers some bytes, at most the window's room
   is received, and packets are read until none is ready.  Whatever the rounds were, the packets reported are
   those of the whole-stream parser on the bytes received; and no round with bytes on offer is wasted until the
   window stalls on a prelude, which it never does as long as every oversized prelude is at most half the window
   and one byte.
   */
  method Pump(size: nat, wire: bytes, offers: seq<nat>) returns (events: seq<Packet>, taken: nat, raised: bool)
    ensures taken <= |wire|
    ensures events == Packets(size, wire[..taken]).out
    ensures raised <==> NextPacket(size, Packets(size, wire[..taken]).rest).Malformed?
    ensures size >= 12 && (forall i :: 0 <= i < |offers| ==> offers[i] > 0) ==>
              raised || taken == |wire| || taken >= |offers| || Stalled(size, Packets(size, wire[..taken]).rest)
    ensures Progressing(size, wire) ==> !Stalled(size, Packets(size, wire[..taken]).rest)
  {
    hide Packets, NextPacket, Progressing, Stalled;
    var decoder := new PacketDecoder(size);
    events, taken, raised := [], 0, false;
    EmptyRun(size, wire);
    ghost var eager := size >= 12 && (forall i :: 0 <= i < |offers| ==> offers[i] > 0);
    var i := 0;
    while i < |offers| && !raised
      invariant 0 <= i <= |offers|
      invariant fresh(decoder) && fresh(decoder.buffer) && decoder.Valid() && decoder.buffer.Length == size
      invariant taken <= |wire|
      invariant Packets(size, wire[..taken]) == Progress((), decoder.unread, events)
      invariant raised <==> NextPacket(size, decoder.unread).Malformed?
      invariant eager && !raised && decoder.Room() == 0 ==> decoder.IsFull() && Stalled(size, decoder.unread)
      invariant eager ==> raised || taken >= i || taken == |wire| || decoder.Room() == 0
    {
      var more, count;
      more, count, raised := Round(decoder, wire, taken, offers[i], events);
      events := events + more;
      taken := taken + count;
      i := i + 1;
    }
    if Progressing(size, wire) {
      NeverStalls(size, wire, taken);
    }
  }

  lemma {:induction false} NeverStalls(size: nat, wire: bytes, taken: nat)
    requires Progressing(size, wire) && taken <= |wire|
    ensures !Stalled(size, Packets(size, wire[..taken]).rest)
  {
    hide Packets, PreludesWithin, AwaitsPrelude;
    if 2 * |Packets(size, wire[..taken]).rest| > size {
      assert wire[..taken] + wire[taken..] == wire;
      NoStall(size, wire[..taken], wire[taken..]);
    }
  }

  lemma {:induction false} EmptyRun(size: nat, wire: bytes)
    ensures Packets(size, wire[..0]) == Progress((), [], [])
    ensures NextPacket(size, []).More?
    ensures Progressing(size, wire) ==> size > 0
  {
    assert wire[..0] == [];
  }

  // ----- The bound on preludes is sharp -----------------------------------------------------

  /** Small packets of `total` bytes together: answers to pings, after one message of five bytes if that is odd. */
  function SmallPackets(total: nat): (r: bytes)
    requires total % 2 == 0 || total >= 5
    ensures |r| == total
  {
    if total % 2 == 1 then [0x30, 3, 0, 0, 1] + SmallPackets(total - 5)
    else if total == 0 then []
    else [0xD0, 0] + SmallPackets(total - 2)
  }

  /** The beginning of an oversized PUBLISH, up to its topic. */
  function LongPrelude(size: nat, topic: nat): bytes
    requires topic < 65536
  {
    [0x30] + EncodeVarlen(size) + Be16(topic) + seq(topic, i => 97)
  }

  lemma {:induction false} SmallPacketReads(size: nat, total: nat, rest: bytes)
    requires size >= 12 && total > 0 && (total % 2 == 0 || total >= 5)
    ensures var n := if total % 2 == 1 then 5 else 2;
            var r := NextPacket(size, SmallPackets(total) + rest);
            r.Got? && r.length == n && (SmallPackets(total) + rest)[n..] == SmallPackets(total - n) + rest
  {
    hide NextPacket;
    if total % 2 == 1 {
      MessageReads(size, SmallPackets(total - 5) + rest);
      assert SmallPackets(total) + rest == [0x30, 3, 0, 0, 1] + (SmallPackets(total - 5) + rest);
    } else {
      PingReads(size, SmallPackets(total - 2) + rest);
      assert SmallPackets(total) + rest == [0xD0, 0] + (SmallPackets(total - 2) + rest);
    }
  }

  lemma {:induction false} PingReads(size: nat, rest: bytes)
    requires size >= 12
    ensures NextPacket(size, [0xD0, 0] + rest) == Got(Pingresp, 2)
  {
    hide NextPacket;
    var s := [0xD0, 0] + rest;
    assert s[1..][0] == 0;
    FittingNext(size, s, 0, 1);
  }

  lemma {:induction false} MessageReads(size: nat, rest: bytes)
    requires size >= 12
    ensures NextPacket(size, [0x30, 3, 0, 0, 1] + rest) == Got(Publish([], [1], 0, None), 5)
  {
    hide NextPacket;
    var s := [0x30, 3, 0, 0, 1] + rest;
    assert s[1..][0] == 3;
    FittingNext(size, s, 3, 1);
    var body := s[2..5];
    assert body == [0, 0, 1] && body[2..2] == [] && body[2..] == [1] && Word(body, 0) == 0;
    Utf8Empty();
  }

  lemma {:induction false} Utf8Empty()
    ensures Utf8.Valid([])
  {
  }

  /** Any part of a long prelude that shows its topic's length is waited on. */
  lemma {:induction false} LongPreludeWaits(size: nat, topic: nat, shown: nat)
    requires size <= VARLEN_MAX && topic < 65536
    requires var header := 1 + |EncodeVarlen(size)|;
             header + 2 <= shown < header + 2 + topic <= size
    ensures |LongPrelude(size, topic)| == 1 + |EncodeVarlen(size)| + 2 + topic
    ensures var s := LongPrelude(size, topic)[..shown];
            var header := 1 + |EncodeVarlen(size)|;
            AwaitsPrelude(size, s) && NextPacket(size, s).More? && PreludeLength(s, header) == header + 2 + topic
  {
    hide EncodeVarlen, NextPacket, DecodeVarlen;
    var digits, whole := EncodeVarlen(size), LongPrelude(size, topic);
    var s, header := whole[..shown], 1 + |digits|;
    assert s[1..] == digits + s[header..];
    VarlenFits(size);
    VarlenRoundTrip(size, s[header..], 4);
    assert s[header] == whole[header] == topic / 256 && s[header + 1] == whole[header + 1] == topic % 256;
    OversizedNext(size, s, size, |digits|);
  }

  /**
   The bound on preludes is sharp in every window: whatever prelude from half the window and two bytes up, as long as
   a topic can make it, small packets and an oversized PUBLISH with that prelude leave the window full with nothing
   to read.
   */
  method StallBeyondHalf(size: nat, prelude: nat) returns (decoder: PacketDecoder, r: Outcome)
    requires 12 <= size <= VARLEN_MAX && size / 2 + 2 <= prelude <= size
    requires prelude < 1 + |EncodeVarlen(size)| + 2 + 65536
    ensures decoder.Valid() && decoder.buffer.Length == size
    ensures r == Nothing && decoder.Room() == 0 && AwaitsPrelude(size, decoder.unread)
    ensures |decoder.unread| >= 1 + |EncodeVarlen(size)| + 2
    ensures PreludeLength(decoder.unread, 1 + |EncodeVarlen(size)|) == prelude
  {
    hide NextPacket, AwaitsPrelude, EncodeVarlen, LongPrelude, SmallPackets, PreludeLength, PacketDecoder.Valid;
    var header := 1 + |EncodeVarlen(size)|;
    VarlenFits(size);
    VarlenRoundTrip(size, [], 4);
    var small: nat := (size - 1) / 2;
    var topic := prelude - header - 2;
    LongPreludeWaits(size, topic, size - small);
    var long := LongPrelude(size, topic)[..size - small];
    decoder := FullWindow(size, SmallPackets(small) + long);
    ReadSmall(decoder, small, long);
    r := decoder.ReadNext();
  }

  method FullWindow(size: nat, s: bytes) returns (decoder: PacketDecoder)
    requires |s| == size
    ensures fresh(decoder) && fresh(decoder.buffer) && decoder.Valid() && decoder.buffer.Length == size
    ensures !decoder.draining && decoder.length == size && decoder.readOffset == 0 && decoder.unread == s
  {
    hide Skipping, SkipEvent;
    decoder := new PacketDecoder(size);
    decoder.Fill(s);
    decoder.Advance(size);
    assert [] + s == s;
  }

  /** Small packets at the front of a full window are read out, and the window stays full. */
  method ReadSmall(decoder: PacketDecoder, total: nat, rest: bytes)
    requires decoder.Valid() && (total % 2 == 0 || total >= 5) && 2 * total < decoder.buffer.Length
    requires decoder.buffer.Length >= 12 && !decoder.draining && decoder.length == decoder.buffer.Length
    requires decoder.unread == SmallPackets(total) + rest && decoder.readOffset == 0
    modifies decoder, decoder.buffer
    ensures decoder.Valid() && !decoder.draining && decoder.length == decoder.buffer.Length && decoder.unread == rest
  {
    hide NextPacket, SmallPackets, PacketDecoder.Valid, AwaitsPrelude;
    ghost var size := decoder.buffer.Length;
    var left: nat := total;
    while left > 0
      invariant decoder.Valid() && left <= total && (left % 2 == 0 || left >= 5)
      invariant !decoder.draining && decoder.length == size && decoder.unread == SmallPackets(left) + rest
      invariant decoder.readOffset + |decoder.unread| == total + |rest|
    {
      SmallPacketReads(size, left, rest);
      var r := decoder.ReadNext();
      left := left - if left % 2 == 1 then 5 else 2;
    }
    NoSmallPackets();
    assert [] + rest == rest;
  }

  lemma {:induction false} NoSmallPackets()
    ensures SmallPackets(0) == []
  {
  }
}
