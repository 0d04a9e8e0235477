/** Reassembly of fragmented messages (section 5.4 of RFC 6455) under a size cap. */
module WsInbound {
  import opened Basics
  import opened Bytes
  import opened WsWire
  import Utf8

  const MAX_EMPTY_RUN: nat := 64

  const PROTOCOL_ERROR: nat := 1002
  const BAD_DATA: nat := 1007

  /** What handling one frame makes the session do. */
  datatype Outcome =
    | Nothing
    | Message(opcode: nat, payload: bytes)
    | TooLong(length: nat)
    | Violation(code: nat)
    | Ping(payload: bytes)
    | Pong(payload: bytes)
    | CloseFrame(payload: bytes)

  // ----- What a list of fragments amounts to ---------------------------------------

  function TotalLength(fs: seq<Frame>): nat {
    if fs == [] then 0 else TotalLength(fs[..|fs| - 1]) + fs[|fs| - 1].length
  }

  function Payloads(fs: seq<Frame>): bytes {
    if fs == [] then [] else Payloads(fs[..|fs| - 1]) + fs[|fs| - 1].payload
  }

  /** How many fragments at the end of `fs` are empty. */
  function EmptyRun(fs: seq<Frame>): nat {
    if fs == [] || fs[|fs| - 1].length > 0 then 0 else EmptyRun(fs[..|fs| - 1]) + 1
  }

  /** The first fragment that is not empty is already over the cap. */
  predicate OpensTooBig(max: nat, fs: seq<Frame>) {
    fs != [] && (OpensTooBig(max, fs[..|fs| - 1])
                 || (TotalLength(fs[..|fs| - 1]) == 0 && fs[|fs| - 1].length > max))
  }

  /** Frames as a parser that keeps payloads up to `max` reports them. */
  predicate Sized(max: nat, f: Frame) {
    && f.oversized == (f.length > max)
    && |f.payload| == if f.oversized then 0 else f.length
  }

  function Deliver(opcode: nat, payload: bytes): Outcome {
    if opcode == TEXT && !Utf8.Valid(payload) then Violation(BAD_DATA) else Message(opcode, payload)
  }

  function ControlOutcome(f: Frame): Outcome {
    if f.opcode == CLOSE then CloseFrame(f.payload)
    else if f.opcode == PING then Ping(f.payload)
    else Pong(f.payload)
  }

  /** The right outcome of a complete message: its concatenation, or one report of its total length. */
  function Expected(max: nat, fs: seq<Frame>): Outcome
    requires fs != []
  {
    if TotalLength(fs) > max then TooLong(TotalLength(fs)) else Deliver(fs[0].opcode, Payloads(fs))
  }

  /** A message whose first non-empty fragment is over the cap and whose last fragment is not. */
  predicate Escapes(max: nat, fs: seq<Frame>) {
    fs != [] && OpensTooBig(max, fs[..|fs| - 1]) && fs[|fs| - 1].length <= max
  }

  /** What the session does with a complete message. */
  function Actual(max: nat, fs: seq<Frame>): Outcome
    requires fs != []
  {
    if Escapes(max, fs) then Deliver(fs[0].opcode, fs[|fs| - 1].payload) else Expected(max, fs)
  }

  lemma {:induction false} OpensTooBigIsLong(max: nat, fs: seq<Frame>)
    requires OpensTooBig(max, fs)
    ensures TotalLength(fs) > max
  {
    if OpensTooBig(max, fs[..|fs| - 1]) {
      OpensTooBigIsLong(max, fs[..|fs| - 1]);
    }
  }

  lemma {:induction false} PayloadsLength(max: nat, fs: seq<Frame>)
    requires forall i :: 0 <= i < |fs| ==> Sized(max, fs[i])
    requires TotalLength(fs) <= max
    ensures |Payloads(fs)| == TotalLength(fs)
  {
    if fs != [] {
      PayloadsLength(max, fs[..|fs| - 1]);
    }
  }

  /** The cap is honoured for a complete message exactly when it does not escape. */
  lemma {:induction false} OutcomeIsExpectedIff(max: nat, fs: seq<Frame>)
    requires fs != []
    ensures Actual(max, fs) == Expected(max, fs) <==> !Escapes(max, fs)
  {
    if Escapes(max, fs) {
      OpensTooBigIsLong(max, fs[..|fs| - 1]);
    }
  }

  /** No message made of frames within the cap escapes. */
  lemma {:induction false} WithinCapDoesNotEscape(max: nat, fs: seq<Frame>)
    requires forall i :: 0 <= i < |fs| ==> fs[i].length <= max
    ensures !OpensTooBig(max, fs)
    ensures !Escapes(max, fs)
  {
    if fs != [] {
      WithinCapDoesNotEscape(max, fs[..|fs| - 1]);
    }
  }

  /** With a cap of 4: a first fragment of 5 bytes is dropped, and its 1-byte tail is delivered as the message. */
  lemma {:induction false} EscapeExample()
    ensures var fs := [Frame(false, BINARY, false, 5, true, []), Frame(true, CONTINUATION, false, 1, false, [7])];
            && (forall i :: 0 <= i < |fs| ==> Sized(4, fs[i]))
            && Actual(4, fs) == Message(BINARY, [7])
            && Expected(4, fs) == TooLong(6)
  {
    var a := Frame(false, BINARY, false, 5, true, []);
    var b := Frame(true, CONTINUATION, false, 1, false, [7]);
    var fs := [a, b];
    assert fs[..1] == [a] && [a][..0] == [];
    assert TotalLength([a]) == TotalLength([]) + 5;
    assert OpensTooBig(4, [a]);
  }

  // ----- The session's inbound half ----------------------------------------------------

  class Inbound {
    const max: nat
    const maskRequired: bool
    var buffer: bytes
    var opcode: Option<nat>
    var oversized: bool
    var reported: nat
    var emptyRun: nat

    /** The data frames of the message in progress. */
    ghost var fragments: seq<Frame>

    ghost predicate Valid()
      reads this
    {
      && (forall i :: 0 <= i < |fragments| ==> Sized(max, fragments[i]))
      && opcode == (if fragments == [] then None else Some(fragments[0].opcode))
      && reported == TotalLength(fragments)
      && emptyRun == EmptyRun(fragments)
      && oversized == (TotalLength(fragments) > max)
      && (!oversized ==> buffer == Payloads(fragments))
      && (oversized ==> (buffer == [] <==> OpensTooBig(max, fragments)))
    }

    constructor (max: nat, maskRequired: bool)
      ensures Valid() && fragments == [] && this.max == max && this.maskRequired == maskRequired
    {
      this.max := max;
      this.maskRequired := maskRequired;
      buffer, opcode, oversized, reported, emptyRun := [], None, false, 0, 0;
      fragments := [];
    }

    method Reset()
      modifies this
      ensures Valid() && fragments == []
    {
      buffer := [];
      opcode := None;
      oversized := false;
      reported := 0;
      emptyRun := 0;
      fragments := [];
    }

    /** _dispatch_frame. */
    method Dispatch(f: Frame) returns (r: Outcome)
      requires Valid() && Sized(max, f) && (IsControl(f.opcode) || IsData(f.opcode))
      modifies this
      ensures Valid()
      ensures f.hadMask != maskRequired ==> r == Violation(PROTOCOL_ERROR) && fragments == old(fragments)
      ensures f.hadMask == maskRequired && IsControl(f.opcode) ==>
                && fragments == old(fragments) && r == ControlOutcome(f)
                && (f.opcode == 8 ==> r == CloseFrame(f.payload)) && (f.opcode == 9 ==> r == Ping(f.payload))
                && (f.opcode == 10 ==> r == Pong(f.payload))
      ensures f.hadMask == maskRequired && IsData(f.opcode) ==> Handled(max, old(fragments), f, fragments, r)
    {
      if f.hadMask != maskRequired {
        return Violation(PROTOCOL_ERROR);
      }
      if f.opcode == CLOSE {
        return CloseFrame(f.payload);
      }
      if f.opcode == PING {
        return Ping(f.payload);
      }
      if f.opcode == PONG {
        return Pong(f.payload);
      }
      r := HandleData(f);
    }

    /** _handle_data_frame. */
    method HandleData(f: Frame) returns (r: Outcome)
      requires Valid() && Sized(max, f) && IsData(f.opcode)
      modifies this
      ensures Valid() && Handled(max, old(fragments), f, fragments, r)
    {
      ghost var fs := fragments + [f];
      assert fs[..|fs| - 1] == fragments;
      if f.opcode == CONTINUATION {
        if opcode.None? {
          return Violation(PROTOCOL_ERROR);
        }
      } else {
        if opcode.Some? {
          return Violation(PROTOCOL_ERROR);
        }
        opcode := Some(f.opcode);
      }
      reported := reported + f.length;
      if f.length > 0 {
        emptyRun := 0;
      } else if !f.fin {
        emptyRun := emptyRun + 1;
        if emptyRun > MAX_EMPTY_RUN {
          fragments := fs;
          return Violation(PROTOCOL_ERROR);
        }
      }
      r := Absorb(f);
    }

    /** The rest of _handle_data_frame, once the frame belongs to the message in progress. */
    method Absorb(f: Frame) returns (r: Outcome)
      requires Sized(max, f)
      requires forall i :: 0 <= i < |fragments| ==> Sized(max, fragments[i])
      requires opcode == Some((fragments + [f])[0].opcode)
      requires reported == TotalLength(fragments + [f])
      requires !f.fin ==> emptyRun == EmptyRun(fragments + [f])
      requires oversized == (TotalLength(fragments) > max)
      requires !oversized ==> buffer == Payloads(fragments)
      requires oversized ==> (buffer == [] <==> OpensTooBig(max, fragments))
      modifies this
      ensures Valid()
      ensures if f.fin then fragments == [] && r == Actual(max, old(fragments) + [f])
              else fragments == old(fragments) + [f] && r == Nothing
    {
      ghost var fs := fragments + [f];
      assert fs[..|fs| - 1] == fragments;
      if !oversized {
        PayloadsLength(max, fragments);
      }
      if OpensTooBig(max, fragments) {
        OpensTooBigIsLong(max, fragments);
      }
      if f.oversized {
        oversized := true;
      } else if f.fin && buffer == [] {
        // The payload is tested against the cap once more here; the parser's cap is the same, so it is never over.
        var messageOpcode := opcode.value;
        assert !OpensTooBig(max, fragments) ==> Payloads(fragments) == [];
        assert [] + f.payload == f.payload;
        Reset();
        return Deliver(messageOpcode, f.payload);
      } else {
        Extend(f.payload);
      }
      fragments := fs;
      if !f.fin {
        return Nothing;
      }
      if oversized {
        var length := reported;
        Reset();
        return TooLong(length);
      }
      var messageOpcode := opcode.value;
      var payload := buffer;
      Reset();
      return Deliver(messageOpcode, payload);
    }

    /** _extend_inbound_buffer. */
    method Extend(payload: bytes)
      modifies this`oversized, this`buffer
      ensures oversized == (old(oversized) || |old(buffer)| + |payload| > max)
      ensures buffer == if oversized then old(buffer) else old(buffer) + payload
    {
      if oversized {
        return;
      }
      if |buffer| + |payload| > max {
        oversized := true;
        return;
      }
      buffer := buffer + payload;
    }
  }

  /** How a data frame that follows `before` is handled, leaving `after` in progress. */
  ghost predicate Handled(max: nat, before: seq<Frame>, f: Frame, after: seq<Frame>, r: Outcome) {
    var fs := before + [f];
    if f.opcode == CONTINUATION <==> before == [] then
      r == Violation(PROTOCOL_ERROR) && after == before
    else if !f.fin && EmptyRun(fs) > MAX_EMPTY_RUN then
      r == Violation(PROTOCOL_ERROR) && after == fs
    else if !f.fin then
      r == Nothing && after == fs
    else
      r == Actual(max, fs) && after == []
  }

  lemma {:induction false} EmptyRunIsEmpty(fs: seq<Frame>)
    ensures EmptyRun(fs) <= |fs| && forall j :: |fs| - EmptyRun(fs) <= j < |fs| ==> fs[j].length == 0
    ensures EmptyRun(fs) < |fs| ==> fs[|fs| - 1 - EmptyRun(fs)].length > 0
  {
    if fs != [] && fs[|fs| - 1].length == 0 {
      EmptyRunIsEmpty(fs[..|fs| - 1]);
    }
  }

  /** A data frame is refused exactly when it continues no message, starts one inside another, or is the 65th empty
      fragment in a row with more to come. */
  lemma {:induction false} RefusedIff(max: nat, before: seq<Frame>, f: Frame, after: seq<Frame>, r: Outcome)
    requires Handled(max, before, f, after, r)
    ensures r == Violation(1002)
            <==> || (f.opcode == 0 && before == []) || (f.opcode != 0 && before != [])
                 || (!f.fin && f.length == 0 && |before| >= 64
                     && forall j :: |before| - 64 <= j < |before| ==> before[j].length == 0)
  {
    hide EmptyRun, Actual;
    var fs := before + [f];
    EmptyRunIsEmpty(fs);
    ActualIsNotRefused(max, fs);
    if EmptyRun(fs) >= 65 {
      assert fs[|fs| - 1].length == 0;
      forall j | |before| - 64 <= j < |before| ensures before[j].length == 0 {
        assert fs[j].length == 0;
      }
    } else if EmptyRun(fs) < |fs| {
      var k := |fs| - 1 - EmptyRun(fs);
      assert fs[k].length > 0 && (k < |before| ==> before[k] == fs[k]);
    }
  }

  lemma {:induction false} ActualIsNotRefused(max: nat, fs: seq<Frame>)
    requires fs != []
    ensures Actual(max, fs) != Violation(1002)
  {
    hide Utf8.Valid;
  }

  // ----- Whole runs ------------------------------------------------------------------------

  /** A frame sequence a peer may send (section 5.4 of RFC 6455), starting inside the message begun by `open`:
      control frames anywhere, continuations exactly inside a message, and no run of over 64 empty fragments. */
  predicate LegalSequence(masked: bool, open: seq<Frame>, frames: seq<Frame>)
    decreases |frames|
  {
    frames != [] ==>
      var f := frames[0];
      f.hadMask == masked
      && if IsControl(f.opcode) then f.opcode != CLOSE && LegalSequence(masked, open, frames[1..])
         else
           var fs := open + [f];
           IsData(f.opcode) && (f.opcode == CONTINUATION <==> open != [])
           && (f.fin || EmptyRun(fs) <= MAX_EMPTY_RUN)
           && LegalSequence(masked, if f.fin then [] else fs, frames[1..])
  }

  /** The complete messages of a frame sequence, control frames set aside. */
  function Messages(open: seq<Frame>, frames: seq<Frame>): (r: seq<seq<Frame>>)
    ensures forall i :: 0 <= i < |r| ==> r[i] != []
    decreases |frames|
  {
    if frames == [] then []
    else if IsControl(frames[0].opcode) then Messages(open, frames[1..])
    else if frames[0].fin then [open + [frames[0]]] + Messages([], frames[1..])
    else Messages(open + [frames[0]], frames[1..])
  }

  function ExpectedAll(max: nat, messages: seq<seq<Frame>>): (r: seq<Outcome>)
    requires forall i :: 0 <= i < |messages| ==> messages[i] != []
    ensures |r| == |messages| && forall i :: 0 <= i < |r| ==> r[i] == Expected(max, messages[i])
  {
    seq(|messages|, i requires 0 <= i < |messages| => Expected(max, messages[i]))
  }

  function ActualAll(max: nat, messages: seq<seq<Frame>>): (r: seq<Outcome>)
    requires forall i :: 0 <= i < |messages| ==> messages[i] != []
    ensures |r| == |messages| && forall i :: 0 <= i < |r| ==> r[i] == Actual(max, messages[i])
  {
    seq(|messages|, i requires 0 <= i < |messages| => Actual(max, messages[i]))
  }

  /** The outcomes that concern messages. */
  function MessageOutcomes(rs: seq<Outcome>): seq<Outcome> {
    if rs == [] then []
    else if rs[0].Nothing? || rs[0].Ping? || rs[0].Pong? then MessageOutcomes(rs[1..])
    else [rs[0]] + MessageOutcomes(rs[1..])
  }

  lemma {:induction false} MessageOutcomesAppend(rs: seq<Outcome>, r: Outcome)
    ensures MessageOutcomes(rs + [r]) == MessageOutcomes(rs) + MessageOutcomes([r])
  {
    if rs == [] {
      assert rs + [r] == [r];
    } else {
      MessageOutcomesAppend(rs[1..], r);
      assert (rs + [r])[1..] == rs[1..] + [r];
    }
  }

  lemma {:induction false} CapsHonoured(max: nat, messages: seq<seq<Frame>>)
    requires forall i :: 0 <= i < |messages| ==> messages[i] != []
    ensures ActualAll(max, messages) == ExpectedAll(max, messages) <==> forall m :: m in messages ==> !Escapes(max, m)
  {
    forall i | 0 <= i < |messages|
      ensures ActualAll(max, messages)[i] == ExpectedAll(max, messages)[i] <==> !Escapes(max, messages[i])
    {
      OutcomeIsExpectedIff(max, messages[i]);
    }
    if forall m :: m in messages ==> !Escapes(max, m) {
      assert ActualAll(max, messages) == ExpectedAll(max, messages);
    } else {
      var m :| m in messages && Escapes(max, m);
      var i :| 0 <= i < |messages| && messages[i] == m;
      assert ActualAll(max, messages)[i] != ExpectedAll(max, messages)[i];
    }
  }

  lemma {:induction false} MessagesWithinCap(max: nat, open: seq<Frame>, frames: seq<Frame>)
    requires forall i :: 0 <= i < |frames| ==> frames[i].length <= max
    requires forall i :: 0 <= i < |open| ==> open[i].length <= max
    ensures forall m :: m in Messages(open, frames) ==> !Escapes(max, m)
    decreases |frames|
  {
    if frames != [] {
      if IsControl(frames[0].opcode) {
        MessagesWithinCap(max, open, frames[1..]);
      } else if frames[0].fin {
        MessagesWithinCap(max, [], frames[1..]);
        WithinCapDoesNotEscape(max, open + [frames[0]]);
      } else {
        MessagesWithinCap(max, open + [frames[0]], frames[1..]);
      }
    }
  }

  lemma {:induction false} ActualAllAppend(max: nat, done: seq<seq<Frame>>, m: seq<Frame>)
    requires m != [] && forall i :: 0 <= i < |done| ==> done[i] != []
    ensures ActualAll(max, done + [m]) == ActualAll(max, done) + [Actual(max, m)]
  {
    hide Actual;
  }

  /** The outcome of one legal frame, against the messages still to come. */
  lemma {:induction false} LegalStep(max: nat, masked: bool, open: seq<Frame>, frames: seq<Frame>, after: seq<Frame>,
                                     r: Outcome)
    requires frames != [] && LegalSequence(masked, open, frames)
    requires IsControl(frames[0].opcode) ==>
               after == open && r == ControlOutcome(frames[0])
    requires IsData(frames[0].opcode) ==> Handled(max, open, frames[0], after, r)
    ensures LegalSequence(masked, after, frames[1..])
    ensures if !IsControl(frames[0].opcode) && frames[0].fin then
              var m := open + [frames[0]];
              MessageOutcomes([r]) == [Actual(max, m)] && Messages(open, frames) == [m] + Messages(after, frames[1..])
            else
              MessageOutcomes([r]) == [] && Messages(open, frames) == Messages(after, frames[1..])
  {
    assert [r][1..] == [];
  }

  /** After some frames: the messages `done` have had their outcomes in `rs`, the others are still to come. */
  ghost predicate Halfway(max: nat, masked: bool, all: seq<seq<Frame>>, done: seq<seq<Frame>>, open: seq<Frame>,
                          rest: seq<Frame>, rs: seq<Outcome>)
  {
    && LegalSequence(masked, open, rest)
    && (forall i :: 0 <= i < |done| ==> done[i] != [])
    && done + Messages(open, rest) == all
    && MessageOutcomes(rs) == ActualAll(max, done)
  }

  lemma {:induction false} HalfwayStep(max: nat, masked: bool, all: seq<seq<Frame>>, done: seq<seq<Frame>>,
                                       open: seq<Frame>, rest: seq<Frame>, rs: seq<Outcome>, after: seq<Frame>,
                                       r: Outcome)
    returns (done': seq<seq<Frame>>)
    requires rest != [] && Halfway(max, masked, all, done, open, rest, rs)
    requires IsControl(rest[0].opcode) ==> after == open && r == ControlOutcome(rest[0])
    requires IsData(rest[0].opcode) ==> Handled(max, open, rest[0], after, r)
    ensures Halfway(max, masked, all, done', after, rest[1..], rs + [r])
  {
    hide Messages, Handled, ActualAll, MessageOutcomes;
    LegalStep(max, masked, open, rest, after, r);
    MessageOutcomesAppend(rs, r);
    done' := done;
    if !IsControl(rest[0].opcode) && rest[0].fin {
      var m := open + [rest[0]];
      ActualAllAppend(max, done, m);
      assert done + ([m] + Messages(after, rest[1..])) == done + [m] + Messages(after, rest[1..]);
      done' := done + [m];
    } else {
      assert MessageOutcomes(rs) + [] == MessageOutcomes(rs);
    }
  }

  lemma {:induction false} HalfwayEnds(max: nat, masked: bool, all: seq<seq<Frame>>, done: seq<seq<Frame>>,
                                       open: seq<Frame>, rs: seq<Outcome>)
    requires Halfway(max, masked, all, done, open, [], rs)
    ensures done == all
  {
    assert done + [] == done;
  }

  /**
   The session over a legal frame sequence.  Every complete message has one outcome, in order; the outcomes are
   the right ones (concatenations, or one report of the total length) exactly when no message escapes the cap,
   and in particular when every frame is within it.
   */
  method Receive(max: nat, masked: bool, frames: seq<Frame>) returns (rs: seq<Outcome>)
    requires LegalSequence(masked, [], frames)
    requires forall i :: 0 <= i < |frames| ==> Sized(max, frames[i])
    ensures |rs| == |frames| && MessageOutcomes(rs) == ActualAll(max, Messages([], frames))
    ensures MessageOutcomes(rs) == ExpectedAll(max, Messages([], frames))
            <==> forall m :: m in Messages([], frames) ==> !Escapes(max, m)
    ensures (forall i :: 0 <= i < |frames| ==> frames[i].length <= max) ==>
              MessageOutcomes(rs) == ExpectedAll(max, Messages([], frames))
  {
    hide Halfway, Handled, Inbound.Valid, Messages, Actual, Expected, Escapes;
    var session := new Inbound(max, masked);
    rs := [];
    ghost var all := Messages([], frames);
    ghost var done: seq<seq<Frame>> := [];
    assert frames[0..] == frames;
    HalfwayBegins(max, masked, frames);
    for k := 0 to |frames|
      invariant fresh(session) && session.Valid() && session.max == max && session.maskRequired == masked
      invariant |rs| == k
      invariant Halfway(max, masked, all, done, session.fragments, frames[k..], rs)
    {
      ghost var open, rest := session.fragments, frames[k..];
      assert rest[1..] == frames[k + 1..] && rest[0] == frames[k];
      LegalHead(max, masked, all, done, open, rest, rs);
      var r := session.Dispatch(frames[k]);
      done := HalfwayStep(max, masked, all, done, open, rest, rs, session.fragments, r);
      rs := rs + [r];
    }
    assert frames[|frames|..] == [];
    HalfwayEnds(max, masked, all, done, session.fragments, rs);
    HalfwayOutcomes(max, masked, all, done, session.fragments, [], rs);
    CapsHonoured(max, all);
    if forall i :: 0 <= i < |frames| ==> frames[i].length <= max {
      MessagesWithinCap(max, [], frames);
    }
  }

  lemma {:induction false} HalfwayBegins(max: nat, masked: bool, frames: seq<Frame>)
    requires LegalSequence(masked, [], frames)
    ensures Halfway(max, masked, Messages([], frames), [], [], frames, [])
  {
    assert [] + Messages([], frames) == Messages([], frames);
  }

  lemma {:induction false} LegalHead(max: nat, masked: bool, all: seq<seq<Frame>>, done: seq<seq<Frame>>,
                                     open: seq<Frame>, rest: seq<Frame>, rs: seq<Outcome>)
    requires rest != [] && Halfway(max, masked, all, done, open, rest, rs)
    ensures rest[0].hadMask == masked && (IsControl(rest[0].opcode) || IsData(rest[0].opcode))
  {
  }

  lemma {:induction false} HalfwayOutcomes(max: nat, masked: bool, all: seq<seq<Frame>>, done: seq<seq<Frame>>,
                                           open: seq<Frame>, rest: seq<Frame>, rs: seq<Outcome>)
    requires Halfway(max, masked, all, done, open, rest, rs)
    ensures (forall i :: 0 <= i < |done| ==> done[i] != []) && MessageOutcomes(rs) == ActualAll(max, done)
  {
  }
}
