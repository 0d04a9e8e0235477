/** The resumable frame parser, proved to read exactly what the whole-stream parser reads. */
module WsParser {
  import opened Basics
  import opened Bytes
  import opened Resumable
  import opened Xor
  import opened WsWire

  datatype State =
    | ReadingHeader | ReadingLen16 | ReadingLen64 | ReadingMask | ReadingPayload | DrainingPayload
    | FrameReady | Failed

  function FieldSize(state: State): nat {
    match state
    case ReadingHeader => 2
    case ReadingLen16 => 2
    case ReadingLen64 => 8
    case ReadingMask => 4
    case _ => 0
  }

  lemma {:induction false} MaskedGrows(key: bytes, data: bytes, more: bytes, grown: bytes)
    requires |key| == 4 && |grown| == |data| + |more|
    requires grown[..|data|] == Masked(key, data)
    requires forall i :: 0 <= i < |more| ==> grown[|data| + i] == XorByte(more[i], key[(|data| + i) % 4])
    ensures grown == Masked(key, data + more)
  {
    hide XorByte;
    var whole := Masked(key, data + more);
    forall i | 0 <= i < |grown| ensures grown[i] == whole[i] {
      if i < |data| {
        assert grown[i] == Masked(key, data)[i];
      } else {
        assert grown[|data| + (i - |data|)] == XorByte(more[i - |data|], key[i % 4]);
      }
    }
  }

  /** Copying `more` behind `kept`, unmasking if need be, keeps the payload in step with the bytes seen. */
  lemma {:induction false} PayloadGrows(s: bytes, more: bytes, kept: bytes, grown: bytes)
    requires |s| >= 2 && |s| >= HeaderSize(s[1]) && kept == Unmasked(s, HeaderSize(s[1]), |s|)
    requires |grown| == |kept| + |more| && grown[..|kept|] == kept
    requires forall i :: 0 <= i < |more| ==>
               grown[|kept| + i] == if MaskSize(s[1]) == 0 then more[i]
                                    else XorByte(more[i], s[HeaderSize(s[1]) - 4..HeaderSize(s[1])][(|kept| + i) % 4])
    ensures grown == Unmasked(s + more, HeaderSize(s[1]), |s| + |more|)
  {
    hide XorByte, Extension, Masked;
    if MaskSize(s[1]) == 0 {
      var header := HeaderSize(s[1]);
      assert (s + more)[header..|s| + |more|] == s[header..|s|] + more;
      assert grown == kept + more;
    } else {
      var header := HeaderSize(s[1]);
      var key := s[header - 4..header];
      UnmaskedGrows(s, more, header, key);
      MaskedGrows(key, s[header..], more, grown);
    }
  }

  lemma {:induction false} UnmaskedGrows(s: bytes, more: bytes, header: nat, key: bytes)
    requires |s| >= 2 && MaskSize(s[1]) != 0 && header == HeaderSize(s[1]) <= |s| && key == s[header - 4..header]
    ensures Unmasked(s, header, |s|) == Masked(key, s[header..])
    ensures Unmasked(s + more, header, |s| + |more|) == Masked(key, s[header..] + more)
  {
    hide Masked, Extension;
    assert s[header..|s|] == s[header..];
    assert (s + more)[header..|s| + |more|] == s[header..] + more;
    assert (s + more)[header - 4..header] == key;
  }

  /** Exactly one whole frame. */
  lemma {:induction false} WholeFrame(cap: nat, s: bytes)
    requires |s| >= 2 && !BadFirst(s[0]) && |s| >= 2 + Extension(s[1]) && LengthAllowed(s)
    requires |s| == HeaderSize(s[1]) + PayloadLength(s)
    ensures NextFrame(cap, s) == Got(FrameAt(cap, s), |s|)
  {
  }

  lemma {:induction false} BadStart(cap: nat, s: bytes)
    requires |s| >= 2
    requires BadFirst(s[0]) || (|s| >= 2 + Extension(s[1]) && !LengthAllowed(s))
    ensures NextFrame(cap, s).Malformed?
  {
  }

  lemma {:induction false} ShortLength(s: bytes)
    requires |s| >= 2 && s[1] % 128 < 126
    ensures Extension(s[1]) == 0 && PayloadLength(s) == s[1] % 128
  {
  }

  lemma {:induction false} NothingUnmasked(s: bytes)
    requires |s| >= 2 && |s| >= HeaderSize(s[1])
    ensures Unmasked(s, |s|, |s|) == []
  {
  }

  lemma {:induction false} Sliced(chunk: bytes, start: nat, done: nat, take: nat)
    requires start + done + take <= |chunk|
    ensures chunk[start..start + done] + chunk[start + done..][..take] == chunk[start..start + done + take]
  {
  }

  class FrameParser {
    const cap: nat
    const scratch: array<byte>
    const payloadBuffer: array<byte>
    var state: State
    var headerLen: nat
    var fin: bool
    var rsv: nat
    var opcode: nat
    var hadMask: bool
    var reported: nat
    var maskKey: bytes
    var payload: array<byte>
    var writeOffset: nat
    var oversized: bool
    var drainRemaining: nat

    /** The bytes taken since the last frame boundary. */
    ghost var seen: bytes

    ghost predicate Apart()
      reads this
    {
      scratch.Length == 8 && scratch != payloadBuffer && scratch != payload
    }

    ghost predicate FirstKnown()
      reads this
    {
      |seen| >= 2 && !BadFirst(seen[0])
      && fin == (seen[0] >= 128) && opcode == seen[0] % 16 && hadMask == (seen[1] >= 128)
    }

    ghost predicate LengthKnown()
      reads this
    {
      && FirstKnown()
      && |seen| >= 2 + Extension(seen[1]) && reported == PayloadLength(seen) && LengthAllowed(seen)
      && oversized == (reported > cap)
    }

    ghost predicate KeyKnown()
      reads this
    {
      |seen| >= 2 && |seen| >= HeaderSize(seen[1])
      && (hadMask ==> HeaderSize(seen[1]) >= 4 && maskKey == seen[HeaderSize(seen[1]) - 4..HeaderSize(seen[1])])
    }

    /** The unfinished header field holds what came after the first `from` bytes. */
    ghost predicate FieldHolds(from: nat)
      reads this, scratch
    {
      |seen| == from + headerLen && headerLen < FieldSize(state) <= scratch.Length
      && seen[from..] == scratch[..headerLen]
    }

    ghost predicate Valid()
      reads this, scratch, payload
    {
      && Apart()
      && writeOffset <= payload.Length
      && (state != ReadingPayload && state != FrameReady ==> writeOffset == 0 && payload == payloadBuffer)
      && match state
         case ReadingHeader => FieldHolds(0) && !oversized
         case ReadingLen16 => FirstKnown() && Extension(seen[1]) == 2 && FieldHolds(2) && !oversized
         case ReadingLen64 => FirstKnown() && Extension(seen[1]) == 8 && FieldHolds(2) && !oversized
         case ReadingMask => LengthKnown() && hadMask && FieldHolds(2 + Extension(seen[1]))
                             && (oversized ==> drainRemaining == reported)
         case ReadingPayload => LengthKnown() && KeyKnown() && !oversized && headerLen == 0
                                && writeOffset < reported <= payload.Length
                                && |seen| == HeaderSize(seen[1]) + writeOffset
                                && payload[..writeOffset] == Unmasked(seen, HeaderSize(seen[1]), |seen|)
         case DrainingPayload => LengthKnown() && oversized && drainRemaining > 0
                                 && |seen| >= HeaderSize(seen[1])
                                 && |seen| + drainRemaining == HeaderSize(seen[1]) + reported
         case FrameReady => NextFrame(cap, seen) == Got(Report(), |seen|)
         case Failed => NextFrame(cap, seen).Malformed?
    }

    /** The frame attributes and the payload property, as the session reads them. */
    function Report(): Frame
      requires writeOffset <= payload.Length
      reads this, payload
    {
      Frame(fin, opcode, hadMask, reported, oversized, payload[..writeOffset])
    }

    constructor (cap: nat, bufferSize: nat)
      ensures Valid() && state == ReadingHeader && seen == [] && this.cap == cap
      ensures fresh(scratch) && fresh(payload) && fresh(payloadBuffer)
    {
      this.cap := cap;
      scratch := new byte[8](_ => 0);
      var buffer := new byte[bufferSize](_ => 0);
      payloadBuffer := buffer;
      payload := buffer;
      state := ReadingHeader;
      headerLen, writeOffset, drainRemaining, reported := 0, 0, 0, 0;
      fin, hadMask, oversized := false, false, false;
      opcode, rsv, maskKey := 0, 0, [];
      seen := [];
    }

    method Reset()
      requires Apart()
      modifies this
      ensures Valid() && state == ReadingHeader && seen == []
      ensures payload == payloadBuffer
    {
      state := ReadingHeader;
      headerLen := 0;
      fin := false;
      rsv := 0;
      opcode := 0;
      hadMask := false;
      reported := 0;
      maskKey := [];
      payload := payloadBuffer;
      writeOffset := 0;
      oversized := false;
      drainRemaining := 0;
      seen := [];
    }

    /** A parser waiting for bytes has not seen a whole frame. */
    lemma {:induction false} Waiting()
      requires Valid() && state != FrameReady && state != Failed
      ensures NextFrame(cap, seen).More?
    {
    }

    /** feed: take bytes from `chunk[start..]` until a frame is ready, the frame is malformed, or none are left. */
    method Feed(chunk: bytes, start: nat) returns (consumed: nat, raised: bool)
      requires Valid() && start <= |chunk|
      modifies this, scratch, payload
      ensures Valid() && consumed <= |chunk| - start
      ensures seen == old(seen) + chunk[start..start + consumed]
      ensures payload == old(payload) || fresh(payload)
      ensures raised <==> state == Failed && old(state) != Failed
      ensures start + consumed < |chunk| ==> state == FrameReady || state == Failed
      ensures start < |chunk| && old(state) != FrameReady && old(state) != Failed ==> consumed > 0
    {
      hide Valid, NextFrame;
      consumed, raised := 0, false;
      assert seen + chunk[start..start] == seen;
      while consumed < |chunk| - start && state != FrameReady && state != Failed
        invariant Valid() && consumed <= |chunk| - start
        invariant seen == old(seen) + chunk[start..start + consumed]
        invariant payload == old(payload) || fresh(payload)
        invariant raised <==> state == Failed && old(state) != Failed
        invariant old(state) == Failed ==> state == Failed
        invariant consumed == 0 ==> state == old(state)
      {
        ghost var before := seen;
        var data := chunk[start + consumed..];
        var take;
        take, raised := TakeSome(data);
        Sliced(chunk, start, consumed, take);
        assert seen == old(seen) + (chunk[start..start + consumed] + data[..take]);
        consumed := consumed + take;
      }
    }

    /** One turn of the feed loop. */
    method TakeSome(data: bytes) returns (take: nat, raised: bool)
      requires Valid() && state != FrameReady && state != Failed && data != []
      modifies this, scratch, payload
      ensures Valid() && 1 <= take <= |data| && seen == old(seen) + data[..take]
      ensures payload == old(payload) || fresh(payload)
      ensures raised <==> state == Failed
    {
      hide Valid;
      raised := false;
      if state == ReadingPayload {
        take := TakePayload(data);
      } else if state == DrainingPayload {
        take := TakeDrained(data);
      } else {
        take, raised := TakeField(data);
      }
    }

    method TakePayload(data: bytes) returns (take: nat)
      requires Valid() && state == ReadingPayload && data != []
      modifies this, payload
      ensures Valid() && 1 <= take <= |data| && seen == old(seen) + data[..take]
      ensures payload == old(payload) && state != Failed
    {
      hide BadFirst, LengthAllowed, PayloadLength, Unmasked, Extension;
      take := Least(reported - writeOffset, |data|);
      ghost var before := payload[..writeOffset];
      CopyInto(data[..take]);
      ghost var grown := payload[..writeOffset + take];
      assert grown[..writeOffset] == payload[..writeOffset];
      MaskKeyKnown();
      PayloadGrows(seen, data[..take], before, grown);
      Advance(data[..take]);
    }

    lemma {:induction false} MaskKeyKnown()
      requires FirstKnown() && KeyKnown()
      ensures hadMask <==> MaskSize(seen[1]) != 0
      ensures hadMask ==> |maskKey| == 4 && HeaderSize(seen[1]) >= 4
                          && maskKey == seen[HeaderSize(seen[1]) - 4..HeaderSize(seen[1])]
    {
    }

    /** Account for payload bytes already copied. */
    method Advance(data: bytes)
      requires Apart()
      requires state == ReadingPayload && LengthKnown() && KeyKnown() && !oversized && headerLen == 0
      requires data != [] && writeOffset + |data| <= reported <= payload.Length
      requires |seen| == HeaderSize(seen[1]) + writeOffset
      requires payload[..writeOffset + |data|] == Unmasked(seen + data, HeaderSize(seen[1]), |seen| + |data|)
      modifies this
      ensures Valid() && seen == old(seen) + data && payload == old(payload) && state != Failed
    {
      hide Unmasked, BadFirst, NextFrame, LengthAllowed, PayloadLength;
      HeaderStable(seen, data);
      writeOffset := writeOffset + |data|;
      seen := seen + data;
      if writeOffset >= reported {
        WholeFrame(cap, seen);
        state := FrameReady;
      }
    }

    /** Copy into the payload buffer, unmasking if need be: the key position goes on from the bytes already written. */
    method CopyInto(data: bytes)
      requires hadMask ==> |maskKey| == 4
      requires writeOffset + |data| <= payload.Length
      modifies payload
      ensures payload[..writeOffset] == old(payload[..writeOffset])
      ensures forall i :: 0 <= i < |data| ==>
                payload[writeOffset + i]
                == if hadMask then XorByte(data[i], maskKey[(writeOffset + i) % 4]) else data[i]
    {
      if !hadMask {
        forall i | 0 <= i < |data| {
          payload[writeOffset + i] := data[i];
        }
        assert payload[..writeOffset] == old(payload[..writeOffset]);
        return;
      }
      var index := 0;
      while index < |data|
        invariant 0 <= index <= |data|
        invariant payload[..writeOffset] == old(payload[..writeOffset])
        invariant forall i :: 0 <= i < index ==>
                    payload[writeOffset + i] == XorByte(data[i], maskKey[(writeOffset + i) % 4])
      {
        payload[writeOffset + index] := XorByte(data[index], maskKey[(writeOffset + index) % 4]);
        index := index + 1;
      }
    }

    method TakeDrained(data: bytes) returns (take: nat)
      requires Valid() && state == DrainingPayload && data != []
      modifies this
      ensures Valid() && 1 <= take <= |data| && seen == old(seen) + data[..take]
      ensures payload == old(payload) && state != Failed
    {
      hide Unmasked, BadFirst, NextFrame, LengthAllowed, PayloadLength;
      take := Least(drainRemaining, |data|);
      HeaderStable(seen, data[..take]);
      drainRemaining := drainRemaining - take;
      seen := seen + data[..take];
      if drainRemaining == 0 {
        WholeFrame(cap, seen);
        state := FrameReady;
        assert payload[..writeOffset] == [];
      }
    }

    method TakeField(data: bytes) returns (take: nat, raised: bool)
      requires Valid() && data != []
      requires FieldSize(state) > 0
      modifies this, scratch
      ensures Valid() && 1 <= take <= |data| && seen == old(seen) + data[..take]
      ensures payload == old(payload) || fresh(payload)
      ensures raised <==> state == Failed
    {
      take := Least(FieldSize(state) - headerLen, |data|);
      LoadField(data[..take]);
      raised := false;
      if headerLen == FieldSize(state) {
        raised := FieldDone();
      }
    }

    /** The bytes before the header field being read. */
    ghost function FieldStart(): nat
      requires state == ReadingMask ==> |seen| >= 2
      reads this
    {
      match state
      case ReadingHeader => 0
      case ReadingMask => 2 + Extension(seen[1])
      case _ => 2
    }

    /** As Valid() while a header field is read, except that the field may be complete. */
    ghost predicate Loaded()
      reads this, scratch
    {
      && Apart()
      && writeOffset == 0 && payload == payloadBuffer
      && 0 < FieldSize(state) && headerLen <= FieldSize(state)
      && (state == ReadingMask ==> |seen| >= 2)
      && |seen| == FieldStart() + headerLen && seen[FieldStart()..] == scratch[..headerLen]
      && (state != ReadingMask ==> !oversized)
      && match state
         case ReadingLen16 => FirstKnown() && Extension(seen[1]) == 2
         case ReadingLen64 => FirstKnown() && Extension(seen[1]) == 8
         case ReadingMask => LengthKnown() && hadMask && (oversized ==> drainRemaining == reported)
         case _ => true
    }

    method LoadField(data: bytes)
      requires Valid() && FieldSize(state) > 0 && headerLen + |data| <= FieldSize(state)
      modifies this, scratch
      ensures Loaded() && seen == old(seen) + data && state == old(state) && payload == old(payload)
      ensures headerLen == old(headerLen) + |data|
      ensures headerLen < FieldSize(state) ==> Valid()
    {
      hide PayloadLength, LengthAllowed, BadFirst, NextFrame;
      ghost var from := FieldStart();
      WriteScratch(data);
      if |seen| >= 2 && |seen| >= 2 + Extension(seen[1]) {
        HeaderStable(seen, data);
      }
      assert (seen + data)[from..] == seen[from..] + data;
      headerLen := headerLen + |data|;
      seen := seen + data;
    }

    method WriteScratch(data: bytes)
      requires headerLen + |data| <= scratch.Length
      modifies scratch
      ensures scratch[..headerLen + |data|] == old(scratch[..headerLen]) + data
    {
      ghost var held := scratch[..headerLen];
      forall i | 0 <= i < |data| {
        scratch[headerLen + i] := data[i];
      }
      assert scratch[..headerLen] == held;
    }

    method FieldDone() returns (raised: bool)
      requires Loaded() && headerLen == FieldSize(state)
      modifies this
      ensures Valid() && seen == old(seen)
      ensures payload == old(payload) || fresh(payload)
      ensures raised <==> state == Failed
    {
      hide Valid, NextFrame, BadFirst;
      raised := false;
      if state == ReadingHeader {
        raised := DispatchHeader();
      } else if state == ReadingLen16 || state == ReadingLen64 {
        raised := LengthDone();
      } else {
        MaskDone();
      }
    }

    /** The extended length is in. */
    method LengthDone() returns (raised: bool)
      requires Loaded() && headerLen == FieldSize(state) && (state == ReadingLen16 || state == ReadingLen64)
      modifies this
      ensures Valid() && seen == old(seen)
      ensures payload == old(payload) || fresh(payload)
      ensures raised <==> state == Failed
    {
      hide Valid, NextFrame, BadFirst, FromBigEndian, LengthAllowed;
      var size := FieldSize(state);
      assert seen[2..2 + size] == scratch[..size];
      reported := FromBigEndian(scratch[..size]);
      headerLen := 0;
      raised := AfterLength();
    }

    /** The masking key is in. */
    method MaskDone()
      requires Loaded() && headerLen == FieldSize(state) && state == ReadingMask
      modifies this
      ensures Valid() && seen == old(seen)
      ensures payload == old(payload) || fresh(payload)
      ensures state != Failed
    {
      hide Valid, NextFrame, BadFirst, PayloadLength, LengthAllowed;
      maskKey := scratch[..4];
      headerLen := 0;
      AfterMask();
    }

    method DispatchHeader() returns (raised: bool)
      requires Apart() && !oversized && writeOffset == 0 && payload == payloadBuffer
      requires seen == scratch[..2]
      modifies this
      ensures Valid() && seen == old(seen)
      ensures payload == old(payload) || fresh(payload)
      ensures raised <==> state == Failed
    {
      hide NextFrame, PayloadLength, LengthAllowed, Unmasked;
      var first, second := scratch[0], scratch[1];
      assert seen[0] == first && seen[1] == second;
      fin := first >= 128;
      rsv := first / 16 % 8;
      opcode := first % 16;
      hadMask := second >= 128;
      var marker := second % 128;
      if BadFirst(first) {
        BadStart(cap, seen);
      }
      if rsv != 0 {
        state := Failed;
        return true;
      }
      if IsControl(opcode) {
        if !fin {
          state := Failed;
          return true;
        }
      } else if !IsData(opcode) {
        state := Failed;
        return true;
      }
      headerLen := 0;
      if marker < 126 {
        reported := marker;
        ShortLength(seen);
        raised := AfterLength();
        return;
      }
      if marker == 126 {
        state := ReadingLen16;
        return false;
      }
      state := ReadingLen64;
      return false;
    }

    method AfterLength() returns (raised: bool)
      requires Apart()
      requires FirstKnown() && |seen| == 2 + Extension(seen[1]) && reported == PayloadLength(seen)
      requires headerLen == 0 && !oversized && writeOffset == 0 && payload == payloadBuffer
      modifies this
      ensures Valid() && seen == old(seen)
      ensures payload == old(payload) || fresh(payload)
      ensures raised <==> state == Failed
    {
      hide NextFrame, BadFirst, PayloadLength, Unmasked;
      if IsControl(opcode) && reported > MAX_CONTROL_PAYLOAD {
        BadStart(cap, seen);
        state := Failed;
        return true;
      }
      raised := false;
      if reported > cap {
        oversized := true;
        drainRemaining := reported;
      }
      if hadMask {
        state := ReadingMask;
      } else {
        AfterMask();
      }
    }

    method AfterMask()
      requires Apart()
      requires LengthKnown() && KeyKnown() && |seen| == HeaderSize(seen[1])
      requires headerLen == 0 && writeOffset == 0 && payload == payloadBuffer
      requires oversized ==> drainRemaining == reported
      modifies this
      ensures Valid() && seen == old(seen)
      ensures payload == old(payload) || fresh(payload)
      ensures state != Failed
    {
      hide NextFrame, BadFirst, LengthAllowed, PayloadLength, Unmasked;
      NothingUnmasked(seen);
      if oversized {
        state := DrainingPayload;
        return;
      }
      if reported == 0 {
        WholeFrame(cap, seen);
        state := FrameReady;
        assert payload[..0] == [];
        return;
      }
      if reported > payloadBuffer.Length {
        payload := new byte[reported](_ => 0);
      }
      writeOffset := 0;
      state := ReadingPayload;
      assert payload[..0] == [];
    }
  }

  // ----- Whole runs -------------------------------------------------------------------

  /** The parser and the frames reported so far agree with the whole-stream reading of `received`. */
  ghost predicate InStep(parser: FrameParser, received: bytes, frames: seq<Frame>)
    reads parser
  {
    if parser.state == Failed then
      Frames(parser.cap, received).out == frames
      && NextFrame(parser.cap, Frames(parser.cap, received).rest).Malformed?
    else
      Frames(parser.cap, received) == Progress((), parser.seen, frames)
  }

  lemma {:induction false} MalformedPersists(cap: nat, received: bytes, more: bytes)
    requires NextFrame(cap, Frames(cap, received).rest).Malformed?
    ensures Frames(cap, received + more).out == Frames(cap, received).out
    ensures NextFrame(cap, Frames(cap, received + more).rest).Malformed?
  {
    var step := FrameStep(cap);
    var p := Frames(cap, received);
    FrameStepStable(cap);
    RunResumes(step, (), received, more);
    NextFrameStable(cap, p.rest, more);
    assert p.out + [] == p.out;
  }

  lemma {:induction false} TracksPart(cap: nat, received: bytes, frames: seq<Frame>, seen: bytes, part: bytes)
    requires Tracks(FrameStep(cap), (), received, frames, (), seen)
    ensures Tracks(FrameStep(cap), (), received + part, frames, (), seen + part)
  {
    FrameStepStable(cap);
    TracksReceive(FrameStep(cap), (), received, frames, (), seen, part);
  }

  lemma {:induction false} TracksFrame(cap: nat, received: bytes, frames: seq<Frame>, seen: bytes, frame: Frame)
    requires Tracks(FrameStep(cap), (), received, frames, (), seen)
    requires NextFrame(cap, seen) == Got(frame, |seen|)
    ensures Tracks(FrameStep(cap), (), received, frames + [frame], (), [])
  {
    TracksTake(FrameStep(cap), (), received, frames, (), seen);
    assert seen[|seen|..] == [];
  }

  lemma {:induction false} TracksStopped(cap: nat, received: bytes, frames: seq<Frame>, seen: bytes)
    requires Tracks(FrameStep(cap), (), received, frames, (), seen)
    requires !NextFrame(cap, seen).Got?
    ensures Frames(cap, received) == Progress((), seen, frames)
  {
    TracksWaiting(FrameStep(cap), (), received, frames, (), seen);
  }

  /** The session's feed loop over one chunk: every completed frame is reported and the parser reset. */
  method FeedChunk(parser: FrameParser, chunk: bytes, ghost received: bytes, ghost before: seq<Frame>)
    returns (frames: seq<Frame>)
    requires parser.Valid() && parser.state != FrameReady && InStep(parser, received, before)
    modifies parser, parser.scratch, parser.payload, parser.payloadBuffer
    ensures parser.Valid() && parser.state != FrameReady && InStep(parser, received + chunk, before + frames)
    ensures parser.payload == old(parser.payload) || parser.payload == parser.payloadBuffer || fresh(parser.payload)
  {
    hide FrameParser.Valid, NextFrame, Frames, Run, Tracks, InStep;
    frames := [];
    ghost var cap := parser.cap;
    assert before + [] == before;
    if parser.state == Failed {
      StaysFailed(parser, received, chunk, before);
      return;
    }
    var offset := 0;
    Follows(parser, received, before);
    assert received + chunk[..0] == received && before + frames == before;
    while offset < |chunk|
      invariant offset <= |chunk|
      invariant parser.Valid() && parser.state != FrameReady && parser.state != Failed
      invariant Tracks(FrameStep(cap), (), received + chunk[..offset], before + frames, (), parser.seen)
      invariant parser.payload == old(parser.payload) || parser.payload == parser.payloadBuffer || fresh(parser.payload)
    {
      ghost var seen := parser.seen;
      var consumed, raised := parser.Feed(chunk, offset);
      TracksPart(cap, received + chunk[..offset], before + frames, seen, chunk[offset..offset + consumed]);
      assert received + chunk[..offset] + chunk[offset..offset + consumed] == received + chunk[..offset + consumed];
      if raised {
        Dropped(parser, received, chunk, offset + consumed, before + frames);
        return;
      }
      offset := offset + consumed;
      if parser.state == FrameReady {
        var frame := Collect(parser, received + chunk[..offset], before + frames);
        assert before + frames + [frame] == before + (frames + [frame]);
        frames := frames + [frame];
      }
    }
    assert chunk[..offset] == chunk;
    Paused(parser, received + chunk, before + frames);
  }

  lemma {:induction false} StaysFailed(parser: FrameParser, received: bytes, chunk: bytes, frames: seq<Frame>)
    requires InStep(parser, received, frames) && parser.state == Failed
    ensures InStep(parser, received + chunk, frames)
  {
    MalformedPersists(parser.cap, received, chunk);
  }

  lemma {:induction false} Follows(parser: FrameParser, received: bytes, frames: seq<Frame>)
    requires InStep(parser, received, frames) && parser.state != Failed
    ensures Tracks(FrameStep(parser.cap), (), received, frames, (), parser.seen)
  {
    WaitingTracks(FrameStep(parser.cap), (), received, frames, (), parser.seen);
  }

  lemma {:induction false} Paused(parser: FrameParser, received: bytes, frames: seq<Frame>)
    requires parser.Valid() && parser.state != FrameReady && parser.state != Failed
    requires Tracks(FrameStep(parser.cap), (), received, frames, (), parser.seen)
    ensures InStep(parser, received, frames)
  {
    parser.Waiting();
    TracksStopped(parser.cap, received, frames, parser.seen);
  }

  /** Report the completed frame and reset. */
  method Collect(parser: FrameParser, ghost received: bytes, ghost before: seq<Frame>) returns (frame: Frame)
    requires parser.Valid() && parser.state == FrameReady
    requires Tracks(FrameStep(parser.cap), (), received, before, (), parser.seen)
    modifies parser
    ensures parser.Valid() && parser.state == ReadingHeader && parser.payload == parser.payloadBuffer
    ensures Tracks(FrameStep(parser.cap), (), received, before + [frame], (), parser.seen)
  {
    hide NextFrame, Tracks;
    frame := parser.Report();
    TracksFrame(parser.cap, received, before, parser.seen, frame);
    parser.Reset();
  }

  lemma {:induction false} Stuck(parser: FrameParser)
    requires parser.Valid() && parser.state == Failed
    ensures NextFrame(parser.cap, parser.seen).Malformed?
  {
  }

  /** Bytes after a malformed frame are never looked at. */
  lemma {:induction false} Dropped(parser: FrameParser, received: bytes, chunk: bytes, offset: nat, frames: seq<Frame>)
    requires parser.Valid() && parser.state == Failed && offset <= |chunk|
    requires Tracks(FrameStep(parser.cap), (), received + chunk[..offset], frames, (), parser.seen)
    ensures InStep(parser, received + chunk, frames)
  {
    hide Run, Tracks, NextFrame, Frames;
    Stuck(parser);
    TracksStopped(parser.cap, received + chunk[..offset], frames, parser.seen);
    MalformedPersists(parser.cap, received + chunk[..offset], chunk[offset..]);
    assert received + chunk[..offset] + chunk[offset..] == received + chunk;
  }

  /** A connection's worth of chunks: the frames are those of the stream, however it was cut. */
  method FeedAll(cap: nat, bufferSize: nat, chunks: seq<bytes>) returns (frames: seq<Frame>, failed: bool)
    ensures frames == Frames(cap, Flatten(chunks)).out
    ensures failed <==> NextFrame(cap, Frames(cap, Flatten(chunks)).rest).Malformed?
  {
    hide NextFrame, Frames;
    var parser := new FrameParser(cap, bufferSize);
    frames := [];
    NothingRead(cap);
    for i := 0 to |chunks|
      invariant fresh(parser) && fresh(parser.scratch) && fresh(parser.payload) && fresh(parser.payloadBuffer)
      invariant parser.Valid() && parser.state != FrameReady && parser.cap == cap
      invariant InStep(parser, Flatten(chunks[..i]), frames)
    {
      var more := FeedChunk(parser, chunks[i], Flatten(chunks[..i]), frames);
      frames := frames + more;
      FlattenAppend(chunks[..i], chunks[i]);
      assert chunks[..i] + [chunks[i]] == chunks[..i + 1];
    }
    assert chunks[..|chunks|] == chunks;
    failed := parser.state == Failed;
    if !failed {
      parser.Waiting();
    }
  }

  lemma {:induction false} NothingRead(cap: nat)
    ensures Frames(cap, Flatten([])) == Progress((), [], [])
  {
  }

  /**
   End to end: legal frames encoded by encode_frame and cut anywhere come back as the same list of frames,
   each one over the cap flagged oversized with its true length.
   */
  method Exchange(cap: nat, bufferSize: nat, fs: seq<Outgoing>, chunks: seq<bytes>) returns (frames: seq<Frame>)
    requires AllLegal(fs) && Flatten(chunks) <= FrameStream(fs)
    ensures frames <= AllReceived(cap, fs)
    ensures Flatten(chunks) == FrameStream(fs) ==> frames == AllReceived(cap, fs)
  {
    var failed;
    frames, failed := FeedAll(cap, bufferSize, chunks);
    FrameStreamRoundTrip(cap, fs);
    FrameStepStable(cap);
    var got := Flatten(chunks);
    var rest := FrameStream(fs)[|got|..];
    assert got + rest == FrameStream(fs);
    RunPrefix(FrameStep(cap), (), got, rest);
  }
}
