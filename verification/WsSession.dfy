/** From the bytes of a connection to the messages of a session: parsing and reassembly together. */
module WsSession {
  import opened Basics
  import opened Bytes
  import opened WsWire
  import WsParser
  import opened WsInbound
  import Utf8

  /** Fragments as they are sent, control frames interleaved, the bytes cut anywhere and fed to one parser: the
      session's outcomes are, in order, exactly the messages' concatenations, or one report of its true length for a
      message over the cap, if and only if no message escapes, and otherwise what is said of those that do; none does
      when every payload is within the cap. */
  method ReceiveStream(max: nat, masked: bool, bufferSize: nat, sent: seq<Outgoing>, chunks: seq<bytes>)
    returns (outcomes: seq<Outcome>)
    requires AllLegal(sent) && Flatten(chunks) == FrameStream(sent)
    requires LegalSequence(masked, [], AllReceived(max, sent))
    ensures MessageOutcomes(outcomes) == ActualAll(max, Messages([], AllReceived(max, sent)))
    ensures MessageOutcomes(outcomes) == ExpectedAll(max, Messages([], AllReceived(max, sent)))
            <==> forall m :: m in Messages([], AllReceived(max, sent)) ==> !Escapes(max, m)
    ensures (forall i :: 0 <= i < |sent| ==> |sent[i].payload| <= max) ==>
              MessageOutcomes(outcomes) == ExpectedAll(max, Messages([], AllReceived(max, sent)))
  {
    hide Flatten, FrameStream, LegalSequence, Messages, Expected, Actual, Escapes;
    var frames := WsParser.Exchange(max, bufferSize, sent, chunks);
    outcomes := Receive(max, masked, frames);
  }

  // ----- Messages as an application sends them --------------------------------------------------------

  datatype Part = Part(mask: Option<bytes>, payload: bytes)

  /** A text (opcode 1) or binary (opcode 2) message, in the fragments it is sent in. */
  datatype Told = Told(opcode: nat, parts: seq<Part>)

  function Text(parts: seq<Part>): bytes {
    if parts == [] then [] else Text(parts[..|parts| - 1]) + parts[|parts| - 1].payload
  }

  /** Never more than 64 empty fragments in a row before the last one. */
  predicate GapsFit(parts: seq<Part>) {
    forall i :: 0 <= i && i + 65 < |parts| ==> !BlankFrom(parts, i)
  }

  /** 65 empty fragments. */
  predicate BlankFrom(parts: seq<Part>, i: nat)
    requires i + 65 < |parts|
  {
    forall j :: i <= j < i + 65 ==> parts[j].payload == []
  }

  /** What a peer may send, masked or not as its role demands, in fragments of at most `max` bytes. */
  predicate Proper(max: nat, masked: bool, m: Told) {
    && (m.opcode == 1 || m.opcode == 2) && m.parts != [] && GapsFit(m.parts)
    && forall i :: 0 <= i < |m.parts| ==>
         && m.parts[i].mask.Some? == masked && (masked ==> |m.parts[i].mask.value| == 4)
         && |m.parts[i].payload| <= max && |m.parts[i].payload| < Capacity(8)
  }

  predicate AllProper(max: nat, masked: bool, ms: seq<Told>) {
    forall i :: 0 <= i < |ms| ==> Proper(max, masked, ms[i])
  }

  /** The opcode comes with the first fragment, the others carry 0; the last one has the FIN bit. */
  function Fragments(m: Told): (r: seq<Outgoing>)
    ensures |r| == |m.parts|
    ensures forall i :: 0 <= i < |r| ==>
              r[i] == Outgoing(if i == 0 then m.opcode else 0, i == |r| - 1, m.parts[i].mask, m.parts[i].payload)
  {
    seq(|m.parts|, i requires 0 <= i < |m.parts| =>
      Outgoing(if i == 0 then m.opcode else 0, i == |m.parts| - 1, m.parts[i].mask, m.parts[i].payload))
  }

  function AllFragments(ms: seq<Told>): seq<Outgoing> {
    if ms == [] then [] else Fragments(ms[0]) + AllFragments(ms[1..])
  }

  /** What the application is told of a message: its bytes under its opcode, unless they are longer than the cap or are
      a text that is not UTF-8. */
  function Heard(max: nat, m: Told): Outcome {
    var text := Text(m.parts);
    if |text| > max then TooLong(|text|)
    else if m.opcode == 1 && !Utf8.Valid(text) then Violation(1007)
    else Message(m.opcode, text)
  }

  function AllHeard(max: nat, ms: seq<Told>): (r: seq<Outcome>)
    ensures |r| == |ms| && forall i :: 0 <= i < |r| ==> r[i] == Heard(max, ms[i])
  {
    seq(|ms|, i requires 0 <= i < |ms| => Heard(max, ms[i]))
  }

  lemma {:induction false} BlankRun(max: nat, m: Told, k: nat)
    requires k < |m.parts| && EmptyRun(AllReceived(max, Fragments(m))[..k]) > 64
    ensures k >= 65 && BlankFrom(m.parts, k - 65)
  {
    var fs := AllReceived(max, Fragments(m))[..k];
    hide EmptyRun;
    EmptyRunIsEmpty(fs);
    forall j | k - 65 <= j < k ensures m.parts[j].payload == [] {
      assert fs[j].length == 0;
    }
  }

  /** The run of empty fragments stays short. */
  lemma {:induction false} ShortRuns(max: nat, m: Told, k: nat)
    requires GapsFit(m.parts) && k < |m.parts|
    ensures EmptyRun(AllReceived(max, Fragments(m))[..k]) <= 64
  {
    if EmptyRun(AllReceived(max, Fragments(m))[..k]) > 64 {
      BlankRun(max, m, k);
    }
  }

  lemma {:induction false} OneMore(masked: bool, open: seq<Frame>, f: Frame, rest: seq<Frame>)
    requires f.hadMask == masked && IsData(f.opcode) && (f.opcode == CONTINUATION <==> open != [])
    requires f.fin || EmptyRun(open + [f]) <= MAX_EMPTY_RUN
    ensures var after := if f.fin then [] else open + [f];
            LegalSequence(masked, open, [f] + rest) <==> LegalSequence(masked, after, rest)
    ensures Messages(open, [f] + rest)
         == if f.fin then [open + [f]] + Messages([], rest) else Messages(open + [f], rest)
  {
    hide EmptyRun;
    assert ([f] + rest)[1..] == rest;
  }

  lemma {:induction false} FrameOf(max: nat, masked: bool, m: Told, k: nat)
    requires Proper(max, masked, m) && k < |m.parts|
    ensures var f := AllReceived(max, Fragments(m))[k];
            && f.hadMask == masked && IsData(f.opcode) && (f.opcode == CONTINUATION <==> k > 0)
            && (f.fin <==> k == |m.parts| - 1)
  {
  }

  /** From inside a message to its end. */
  lemma {:induction false} MessageEnds(max: nat, masked: bool, m: Told, k: nat, more: seq<Frame>)
    requires Proper(max, masked, m) && k < |m.parts| && LegalSequence(masked, [], more)
    ensures var fs := AllReceived(max, Fragments(m));
            && LegalSequence(masked, fs[..k], fs[k..] + more)
            && Messages(fs[..k], fs[k..] + more) == [fs] + Messages([], more)
    decreases |m.parts| - k
  {
    hide EmptyRun, LegalSequence, Messages, AllReceived;
    var fs := AllReceived(max, Fragments(m));
    FrameOf(max, masked, m, k);
    assert fs[..k] + [fs[k]] == fs[..k + 1];
    if k + 1 < |fs| {
      assert fs[k..] + more == [fs[k]] + (fs[k + 1..] + more);
      ShortRuns(max, m, k + 1);
      OneMore(masked, fs[..k], fs[k], fs[k + 1..] + more);
      MessageEnds(max, masked, m, k + 1, more);
    } else {
      assert fs[k..] + more == [fs[k]] + more && fs[..k + 1] == fs;
      OneMore(masked, fs[..k], fs[k], more);
    }
  }

  lemma {:induction false} ReceivedText(max: nat, m: Told, k: nat)
    requires k <= |m.parts| && forall i :: 0 <= i < k ==> |m.parts[i].payload| <= max
    ensures var fs := AllReceived(max, Fragments(m))[..k];
            Payloads(fs) == Text(m.parts[..k]) && TotalLength(fs) == |Text(m.parts[..k])|
  {
    if k > 0 {
      ReceivedText(max, m, k - 1);
      var fs := AllReceived(max, Fragments(m));
      assert fs[..k][..k - 1] == fs[..k - 1] && m.parts[..k][..k - 1] == m.parts[..k - 1];
    }
  }

  lemma {:induction false} HeardIsExpected(max: nat, masked: bool, m: Told)
    requires Proper(max, masked, m)
    ensures Expected(max, AllReceived(max, Fragments(m))) == Heard(max, m)
  {
    hide Utf8.Valid;
    var fs := AllReceived(max, Fragments(m));
    ReceivedText(max, m, |m.parts|);
    assert fs[..|fs|] == fs && m.parts[..|m.parts|] == m.parts;
  }

  lemma {:induction false} AllReceivedSplit(max: nat, a: seq<Outgoing>, b: seq<Outgoing>)
    ensures AllReceived(max, a + b) == AllReceived(max, a) + AllReceived(max, b)
  {
  }

  /** The frames of proper messages are a legal sequence, and its messages are those that were sent. */
  lemma {:induction false} ProperIsLegal(max: nat, masked: bool, ms: seq<Told>)
    requires AllProper(max, masked, ms)
    ensures var fs := AllReceived(max, AllFragments(ms));
            && AllLegal(AllFragments(ms)) && LegalSequence(masked, [], fs)
            && (forall i :: 0 <= i < |fs| ==> fs[i].length <= max)
            && ExpectedAll(max, Messages([], fs)) == AllHeard(max, ms)
  {
    hide Expected, Heard;
    if ms != [] {
      hide LegalSequence, Messages, Proper;
      var m, more := ms[0], AllReceived(max, AllFragments(ms[1..]));
      ProperIsLegal(max, masked, ms[1..]);
      AllReceivedSplit(max, Fragments(m), AllFragments(ms[1..]));
      var fs := AllReceived(max, Fragments(m));
      FragmentsLegal(max, masked, m);
      MessageEnds(max, masked, m, 0, more);
      assert fs[..0] == [] && fs[0..] == fs;
      HeardIsExpected(max, masked, m);
      HeardFirst(max, ms, fs, Messages([], more));
    }
  }

  lemma {:induction false} HeardFirst(max: nat, ms: seq<Told>, fs: seq<Frame>, later: seq<seq<Frame>>)
    requires ms != [] && fs != [] && forall i :: 0 <= i < |later| ==> later[i] != []
    requires Expected(max, fs) == Heard(max, ms[0]) && ExpectedAll(max, later) == AllHeard(max, ms[1..])
    ensures ExpectedAll(max, [fs] + later) == AllHeard(max, ms)
  {
    hide Expected, Heard;
    var a, b := ExpectedAll(max, [fs] + later), AllHeard(max, ms);
    forall i | 0 <= i < |b| ensures a[i] == b[i] {
      if i > 0 {
        assert AllHeard(max, ms[1..])[i - 1] == Heard(max, ms[i]);
        assert ExpectedAll(max, later)[i - 1] == Expected(max, later[i - 1]);
      }
    }
  }

  lemma {:induction false} FragmentsLegal(max: nat, masked: bool, m: Told)
    requires Proper(max, masked, m)
    ensures m.parts != [] && AllLegal(Fragments(m))
    ensures forall i :: 0 <= i < |m.parts| ==> AllReceived(max, Fragments(m))[i].length <= max
  {
  }

  /** Messages sent in fragments, cut anywhere on the way: each is heard once, whole and under its own opcode, in the
      order they were sent. */
  method ReceiveMessages(max: nat, masked: bool, bufferSize: nat, sent: seq<Told>, chunks: seq<bytes>)
    returns (outcomes: seq<Outcome>)
    requires AllProper(max, masked, sent)
    requires AllLegal(AllFragments(sent)) && Flatten(chunks) == FrameStream(AllFragments(sent))
    ensures MessageOutcomes(outcomes) == AllHeard(max, sent)
  {
    hide Flatten, FrameStream, LegalSequence, Messages, Expected, Escapes, AllProper, AllHeard;
    ProperIsLegal(max, masked, sent);
    var frames := AllReceived(max, AllFragments(sent));
    outcomes := ReceiveStream(max, masked, bufferSize, AllFragments(sent), chunks);
  }
}
