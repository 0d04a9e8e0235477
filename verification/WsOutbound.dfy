/** The session's bounded transmit queue and the closing handshake (section 5.5.1 of RFC 6455). */
module WsOutbound {
  import opened Basics
  import opened Bytes
  import opened WsWire

  const HEADROOM: nat := 8

  datatype State = Connecting | Open | Closing | Closed

  /** What one socket.send call does: take up to `count` bytes, would block, or fail. */
  datatype SendResult = Sent(count: nat) | Again | Broken

  datatype Verdict = Queued | WrongState | Backpressure | Unencodable

  function CountClose(fs: seq<Outgoing>): nat {
    if fs == [] then 0 else CountClose(fs[..|fs| - 1]) + (if fs[|fs| - 1].opcode == CLOSE then 1 else 0)
  }

  /** Once a CLOSE is queued only control frames may follow. */
  predicate NoDataAfterClose(fs: seq<Outgoing>) {
    fs != [] ==>
      NoDataAfterClose(fs[..|fs| - 1])
      && (IsData(fs[|fs| - 1].opcode) ==> CountClose(fs[..|fs| - 1]) == 0)
  }

  predicate AllEncodable(fs: seq<Outgoing>) {
    forall i :: 0 <= i < |fs| ==> Encodable(fs[i])
  }

  /** The bytes of the frames in the order they were queued. */
  function Wire(fs: seq<Outgoing>): bytes
    requires AllEncodable(fs)
  {
    if fs == [] then [] else Wire(fs[..|fs| - 1]) + FrameBytes(fs[|fs| - 1])
  }

  lemma {:induction false} WireAppend(fs: seq<Outgoing>, f: Outgoing)
    requires AllEncodable(fs) && Encodable(f)
    ensures AllEncodable(fs + [f]) && Wire(fs + [f]) == Wire(fs) + FrameBytes(f)
  {
    assert (fs + [f])[..|fs|] == fs;
  }

  lemma {:induction false} CloseAppend(fs: seq<Outgoing>, f: Outgoing)
    ensures CountClose(fs + [f]) == CountClose(fs) + (if f.opcode == CLOSE then 1 else 0)
    ensures NoDataAfterClose(fs + [f]) <==> NoDataAfterClose(fs) && (IsData(f.opcode) ==> CountClose(fs) == 0)
  {
    assert (fs + [f])[..|fs|] == fs;
  }

  lemma {:induction false} Regroup(a: bytes, b: bytes, c: bytes, d: bytes)
    ensures a + b + (c + d) == a + b + c + d && (a + b) + (c + d) == a + (b + c) + d
  {
  }

  /** A session's outbound half as a value: with it, every frame queued and every byte accepted so far. */
  datatype Status = Status(state: State, queue: seq<bytes>, partial: Option<bytes>, offset: nat,
                           queued: seq<Outgoing>, accepted: bytes)

  /** What the socket takes of the `left` bytes it may be sent in a tick. */
  function Drained(st: Status, left: nat, socket: seq<SendResult>): Status
    decreases |socket|
  {
    if left == 0 || (st.partial.None? && st.queue == []) then st
    else
      var p := Started(st);
      if socket == [] || socket[0].Again? || p.offset > |p.partial.value| then p
      else if socket[0].Broken? then p.(state := Closed)
      else
        var n := Least(Least(left, socket[0].count), |p.partial.value| - p.offset);
        if n == 0 then p else Drained(Taken(p, n), left - n, socket[1..])
  }

  /** The frame being sent: the one under way, or else the head of the queue. */
  function Started(st: Status): (r: Status)
    requires st.partial.Some? || st.queue != []
    ensures r.partial.Some?
  {
    if st.partial.Some? then st else st.(partial := Some(st.queue[0]), offset := 0, queue := st.queue[1..])
  }

  /** One turn of the drain loop. */
  lemma {:induction false} DrainedNext(st: Status, left: nat, socket: seq<SendResult>)
    requires st.partial.Some? ==> st.offset <= |st.partial.value|
    ensures left == 0 || (st.partial.None? && st.queue == []) ==> Drained(st, left, socket) == st
    ensures left > 0 && (st.partial.Some? || st.queue != []) ==>
              var p := Started(st);
              if socket == [] || socket[0].Again? then Drained(st, left, socket) == p
              else if socket[0].Broken? then Drained(st, left, socket) == p.(state := Closed)
              else
                var n := Least(Least(left, socket[0].count), |p.partial.value| - p.offset);
                Drained(st, left, socket) == if n == 0 then p else Drained(Taken(p, n), left - n, socket[1..])
  {
  }

  /** `n` more bytes of the frame being sent are accepted. */
  function Taken(st: Status, n: nat): Status
    requires st.partial.Some? && st.offset + n <= |st.partial.value|
  {
    var f := st.partial.value;
    var accepted := st.accepted + f[st.offset..][..n];
    if st.offset + n == |f| then st.(partial := None, offset := 0, accepted := accepted)
    else st.(offset := st.offset + n, accepted := accepted)
  }

  /** What is still to be sent. */
  function Pending(st: Status): bytes
    requires st.partial.Some? ==> st.offset <= |st.partial.value|
  {
    (if st.partial.Some? then st.partial.value[st.offset..] else []) + Flatten(st.queue)
  }

  /** Frames are never empty, nor is what is left of the one under way. */
  predicate Loaded(st: Status) {
    (st.partial.Some? ==> st.offset < |st.partial.value|) && forall i :: 0 <= i < |st.queue| ==> st.queue[i] != []
  }

  /** Every send call is good for a byte at least, and there are calls enough for `size` bytes. */
  predicate Willing(socket: seq<SendResult>, size: nat) {
    |socket| >= size && forall i :: 0 <= i < size ==> socket[i].Sent? && socket[i].count > 0
  }

  lemma {:induction false} StartedPending(st: Status)
    requires Loaded(st) && (st.partial.Some? || st.queue != [])
    ensures var p := Started(st);
            && Loaded(p) && p.offset < |p.partial.value| && p.accepted == st.accepted && Pending(p) == Pending(st)
            && Pending(st) != []
  {
    if st.partial.None? {
      assert st.queue[0][0..] == st.queue[0];
    }
  }

  lemma {:induction false} TakenPending(st: Status, n: nat)
    requires Loaded(st) && st.partial.Some? && 0 < n && st.offset + n <= |st.partial.value|
    ensures var t := Taken(st, n);
            && Loaded(t) && n <= |Pending(st)| && t.accepted == st.accepted + Pending(st)[..n]
            && Pending(t) == Pending(st)[n..]
  {
    hide Flatten;
    var rest := st.partial.value[st.offset..];
    assert Pending(st)[..n] == rest[..n];
    assert rest[n..] == st.partial.value[st.offset + n..];
    assert Pending(st)[n..] == rest[n..] + Flatten(st.queue);
    if st.offset + n == |st.partial.value| {
      assert rest[n..] == [];
    }
  }

  lemma {:induction false} Parts(a: bytes, pending: bytes, n: nat, k: nat)
    requires n <= k <= |pending|
    ensures a + pending[..n] + pending[n..][..k - n] == a + pending[..k]
  {
  }

  lemma {:induction false} WillingNext(socket: seq<SendResult>, size: nat, n: nat)
    requires Willing(socket, size) && 0 < n <= size
    ensures socket != [] && socket[0].Sent? && socket[0].count > 0 && Willing(socket[1..], size - n)
  {
  }

  lemma {:induction false} WillingOne(socket: seq<SendResult>, size: nat)
    requires Willing(socket, size) && 0 < size
    ensures socket != [] && socket[0].Sent? && socket[0].count > 0
  {
  }

  /** One turn over a willing socket. */
  lemma {:induction false} WillingTurn(st: Status, left: nat, socket: seq<SendResult>) returns (n: nat, t: Status)
    requires Loaded(st) && left > 0 && (st.partial.Some? || st.queue != [])
    requires Willing(socket, Least(left, |Pending(st)|))
    ensures 0 < n <= Least(left, |Pending(st)|) && Willing(socket[1..], Least(left, |Pending(st)|) - n)
    ensures Drained(st, left, socket) == Drained(t, left - n, socket[1..])
    ensures Loaded(t) && t.accepted == st.accepted + Pending(st)[..n] && Pending(t) == Pending(st)[n..]
    ensures t.state == st.state && t.queued == st.queued
  {
    DrainedNext(st, left, socket);
    hide Drained, Pending, Willing, Flatten;
    StartedPending(st);
    var p := Started(st);
    WillingOne(socket, Least(left, |Pending(st)|));
    n := Least(Least(left, socket[0].count), |p.partial.value| - p.offset);
    TakenPending(p, n);
    TakenKeeps(p, n);
    WillingNext(socket, Least(left, |Pending(st)|), n);
    t := Taken(p, n);
  }

  /** A tick over a willing socket sends its whole budget, or everything. */
  lemma {:induction false} WillingSocket(st: Status, left: nat, socket: seq<SendResult>)
    requires Loaded(st) && Willing(socket, Least(left, |Pending(st)|))
    ensures var r := Drained(st, left, socket);
            && r.accepted == st.accepted + Pending(st)[..Least(left, |Pending(st)|)]
            && r.state == st.state && r.queued == st.queued
    decreases |socket|
  {
    if left > 0 && (st.partial.Some? || st.queue != []) {
      hide *;
      var n, t := WillingTurn(st, left, socket);
      WillingCalls(socket, Least(left, |Pending(st)|));
      LeastLess(left, |Pending(st)|, n);
      WillingSocket(t, left - n, socket[1..]);
      Parts(st.accepted, Pending(st), n, Least(left, |Pending(st)|));
    } else if left > 0 {
      NothingPending(st);
    }
  }

  lemma {:induction false} WillingCalls(socket: seq<SendResult>, size: nat)
    requires Willing(socket, size)
    ensures |socket| >= size
  {
  }

  lemma {:induction false} LeastLess(a: nat, b: nat, n: nat)
    requires n <= Least(a, b)
    ensures n <= a && n <= b && Least(a, b) <= b && Least(a - n, b - n) == Least(a, b) - n
  {
  }

  lemma {:induction false} TakenKeeps(st: Status, n: nat)
    requires st.partial.Some? && st.offset + n <= |st.partial.value|
    ensures Taken(st, n).state == st.state && Taken(st, n).queued == st.queued
  {
  }

  lemma {:induction false} NothingPending(st: Status)
    requires st.partial.None? && st.queue == []
    ensures Pending(st) == []
  {
  }

  class Outbound {
    const maxQueue: nat
    const budget: nat
    var state: State
    var queue: seq<bytes>
    var partial: Option<bytes>
    var offset: nat

    /** Every frame queued so far, and every byte the socket has taken. */
    var queued: seq<Outgoing>
    var accepted: bytes

    function HardCap(): nat { maxQueue + HEADROOM }

    function Now(): Status
      reads this
    {
      Status(state, queue, partial, offset, queued, accepted)
    }

    /** The unsent part of the frame being sent. */
    function Unsent(): bytes
      requires partial.Some? ==> offset <= |partial.value|
      reads this
    {
      if partial.Some? then partial.value[offset..] else []
    }

    /** No byte is lost, added or moved between the queue and the wire. */
    ghost predicate Balanced()
      reads this
    {
      && (partial.Some? ==> offset <= |partial.value|)
      && AllEncodable(queued)
      && accepted + Unsent() + Flatten(queue) == Wire(queued)
    }

    ghost predicate Valid()
      reads this
    {
      && Balanced()
      && |queue| <= HardCap()
      && NoDataAfterClose(queued)
      && match state
         case Connecting => CountClose(queued) == 0 && |queue| < HardCap()
         case Open => CountClose(queued) == 0 && |queue| < HardCap()
         case Closing => CountClose(queued) == 1
         case Closed => CountClose(queued) <= 1
    }

    lemma {:induction false} Standing()
      requires Valid()
      ensures AllEncodable(queued) && accepted <= Wire(queued)
      ensures |queue| <= HardCap() && NoDataAfterClose(queued)
    {
      Regroup(accepted, Unsent(), Flatten(queue), []);
      assert accepted + (Unsent() + Flatten(queue)) == Wire(queued);
    }

    /** One CLOSE while closing; none before. */
    lemma {:induction false} Closes()
      requires Valid()
      ensures CountClose(queued) <= 1
      ensures state == Closing ==> CountClose(queued) == 1
      ensures state == Connecting || state == Open ==> CountClose(queued) == 0
    {
    }

    constructor (maxQueue: nat, budget: nat)
      ensures Valid() && state == Connecting && queued == [] && accepted == [] && queue == []
      ensures partial == None && offset == 0 && HardCap() == maxQueue + 8
      ensures this.maxQueue == maxQueue && this.budget == budget
    {
      this.maxQueue := maxQueue;
      this.budget := budget;
      state := Connecting;
      queue, partial, offset := [], None, 0;
      queued, accepted := [], [];
    }

    /** The handshake is done. */
    method Opened()
      requires Valid() && state == Connecting
      modifies this`state
      ensures Valid() && state == Open
    {
      state := Open;
    }

    method Append(f: Outgoing)
      requires Valid() && Encodable(f) && |queue| < HardCap()
      requires f.opcode == CLOSE ==> state == Connecting || state == Open
      requires IsData(f.opcode) ==> state == Connecting || state == Open
      requires f.opcode != CLOSE && state != Closing && state != Closed ==> |queue| + 1 < HardCap()
      modifies this`queue, this`queued
      ensures f.opcode != CLOSE ==> Valid()
      ensures Balanced()
      ensures queued == old(queued) + [f] && queue == old(queue) + [FrameBytes(f)]
      ensures NoDataAfterClose(queued)
      ensures CountClose(queued) == CountClose(old(queued)) + (if f.opcode == CLOSE then 1 else 0)
    {
      hide Wire, Flatten, FrameBytes, CountClose, NoDataAfterClose, Encodable;
      var wire := PackFrame(f);
      FlattenAppend(queue, wire.wire);
      WireAppend(queued, f);
      CloseAppend(queued, f);
      Regroup(accepted, Unsent(), Flatten(queue), wire.wire);
      queue := queue + [wire.wire];
      queued := queued + [f];
    }

    /** send_text, send_binary and send_ping. */
    method SendUser(f: Outgoing) returns (r: Verdict)
      requires Valid() && (f.opcode == TEXT || f.opcode == BINARY || f.opcode == PING)
      modifies this`queue, this`queued
      ensures Valid()
      ensures r == if state != Open then WrongState
                   else if |old(queue)| >= maxQueue then Backpressure
                   else if !Encodable(f) then Unencodable
                   else Queued
      ensures queued == if r == Queued then old(queued) + [f] else old(queued)
      ensures queue == if r == Queued then old(queue) + [FrameBytes(f)] else old(queue)
    {
      if state != Open {
        return WrongState;
      }
      if |queue| >= maxQueue {
        return Backpressure;
      }
      if !Encodable(f) {
        return Unencodable;
      }
      Append(f);
      return Queued;
    }

    /** _enqueue_internal_frame for a PONG: silently dropped when only the slot kept for CLOSE is left. */
    method SendPong(f: Outgoing) returns (r: bool)
      requires Valid() && Encodable(f) && f.opcode == PONG
      modifies this`queue, this`queued
      ensures Valid()
      ensures r <==> |old(queue)| < HardCap() - 1
      ensures queued == if r then old(queued) + [f] else old(queued)
      ensures queue == if r then old(queue) + [FrameBytes(f)] else old(queue)
    {
      if |queue| >= HardCap() - 1 {
        return false;
      }
      Append(f);
      return true;
    }

    /** _send_close: begins closing, and always finds room for its one CLOSE frame. */
    method SendClose(f: Outgoing) returns (r: bool)
      requires Valid() && Encodable(f) && f.opcode == CLOSE
      modifies this`queue, this`queued, this`state
      ensures Valid()
      ensures r <==> old(state) == Connecting || old(state) == Open
      ensures queued == if r then old(queued) + [f] else old(queued)
      ensures state == if r then Closing else old(state)
      ensures queue == if r then old(queue) + [FrameBytes(f)] else old(queue)
    {
      if state == Closing || state == Closed {
        return false;
      }
      if |queue| < HardCap() {
        Append(f);
      }
      state := Closing;
      return true;
    }

    /** _drop_transport. */
    method Drop()
      requires Valid()
      modifies this`state
      ensures Valid() && state == Closed
    {
      state := Closed;
    }

    /** _drain_outbound, with the socket's answers given in advance (exhausted means it would block). */
    method Drain(socket: seq<SendResult>) returns (taken: bytes)
      requires Valid()
      modifies this
      ensures Valid() && queued == old(queued)
      ensures accepted == old(accepted) + taken && |taken| <= budget
      ensures state == old(state) || (state == Closed && Broken in socket)
      ensures |queue| <= |old(queue)| && Now() == Drained(old(Now()), budget, socket)
    {
      hide Valid, Drained, Taken;
      taken := [];
      var left: nat := budget;
      var i := 0;
      assert socket[0..] == socket;
      while left > 0
        invariant Valid() && queued == old(queued) && state == old(state)
        invariant 0 <= i <= |socket| && |queue| <= |old(queue)|
        invariant accepted == old(accepted) + taken && |taken| + left == budget
        invariant Drained(old(Now()), budget, socket) == Drained(Now(), left, socket[i..])
        decreases |socket| - i, left
      {
        ghost var before := Now();
        PartialFits();
        DrainedNext(before, left, socket[i..]);
        if partial.None? {
          if queue == [] {
            return;
          }
          Pop();
        }
        if i == |socket| || socket[i].Again? {
          return;
        }
        if socket[i].Broken? {
          Drop();
          return;
        }
        PartialFits();
        var part := Send(Least(left, socket[i].count));
        assert socket[i..][1..] == socket[i + 1..];
        i := i + 1;
        if part == [] {
          return;
        }
        assert old(accepted) + taken + part == old(accepted) + (taken + part);
        taken := taken + part;
        left := left - |part|;
      }
      PartialFits();
      DrainedNext(Now(), left, socket[i..]);
    }

    lemma {:induction false} PartialFits()
      requires Valid()
      ensures partial.Some? ==> offset <= |partial.value|
    {
      hide Wire, CountClose, NoDataAfterClose, AllEncodable;
    }

    method Pop()
      requires Valid() && partial.None? && queue != []
      modifies this`partial, this`offset, this`queue
      ensures Valid() && partial == Some(old(queue)[0]) && offset == 0 && queue == old(queue)[1..]
    {
      hide Wire, CountClose, NoDataAfterClose, AllEncodable;
      partial, offset := Some(queue[0]), 0;
      queue := queue[1..];
      assert partial.value[0..] == partial.value;
      assert accepted + [] + (partial.value + Flatten(queue)) == accepted + partial.value + Flatten(queue);
    }

    /** One send call, of which the socket takes at most `most` bytes. */
    method Send(most: nat) returns (part: bytes)
      requires Valid() && partial.Some?
      modifies this`partial, this`offset, this`accepted
      ensures Valid() && accepted == old(accepted) + part
      ensures |part| == Least(most, |old(partial).value| - old(offset))
      ensures Now() == if part == [] then old(Now()) else Taken(old(Now()), |part|)
    {
      hide Outbound.Balanced, Taken, CountClose, NoDataAfterClose;
      PartialFits();
      part := SendPart(most);
    }

    method SendPart(most: nat) returns (part: bytes)
      requires Balanced() && partial.Some? && offset <= |partial.value|
      modifies this`partial, this`offset, this`accepted
      ensures Balanced() && accepted == old(accepted) + part
      ensures |part| == Least(most, |old(partial).value| - old(offset))
      ensures Now() == if part == [] then old(Now()) else Taken(old(Now()), |part|)
    {
      hide Wire, AllEncodable, Flatten;
      var rest := partial.value[offset..];
      var sent := Least(most, |rest|);
      part := rest[..sent];
      if part == [] {
        return;
      }
      assert rest == part + rest[sent..];
      Regroup(accepted, part, rest[sent..], Flatten(queue));
      assert rest[sent..] == partial.value[offset + sent..];
      accepted := accepted + part;
      offset := offset + sent;
      if offset >= |partial.value| {
        assert partial.value[offset..] == [];
        partial, offset := None, 0;
      }
    }
  }

  // ----- Whole runs ----------------------------------------------------------------------

  /** What happens to a session between ticks: user calls, a PING to answer, a reason to close, a writable socket,
      or the transport going away. */
  datatype Event = User(frame: Outgoing) | Answer(pong: Outgoing) | Begin(close: Outgoing)
                 | Writable(socket: seq<SendResult>) | Gone

  predicate Sensible(e: Event) {
    match e
    case User(f) => f.opcode == TEXT || f.opcode == BINARY || f.opcode == PING
    case Answer(f) => f.opcode == PONG && Encodable(f)
    case Begin(f) => f.opcode == CLOSE && Encodable(f)
    case _ => true
  }

  predicate Fatal(e: Event) {
    e.Gone? || (e.Writable? && Broken in e.socket)
  }

  /** What each event makes of the session. */
  function Stepped(maxQueue: nat, budget: nat, st: Status, e: Event): Status
    requires Sensible(e)
  {
    match e
    case User(f) =>
      if st.state == Open && |st.queue| < maxQueue && Encodable(f) then Appended(st, f) else st
    case Answer(f) =>
      if |st.queue| < maxQueue + HEADROOM - 1 then Appended(st, f) else st
    case Begin(f) =>
      if st.state == Connecting || st.state == Open then Appended(st, f).(state := Closing) else st
    case Writable(socket) => if st.state == Closed then st else Drained(st, budget, socket)
    case Gone => st.(state := Closed)
  }

  function Appended(st: Status, f: Outgoing): Status
    requires Encodable(f)
  {
    st.(queue := st.queue + [FrameBytes(f)], queued := st.queued + [f])
  }

  /** The session after its handshake and then `events`. */
  function After(maxQueue: nat, budget: nat, events: seq<Event>): Status
    requires forall i :: 0 <= i < |events| ==> Sensible(events[i])
  {
    if events == [] then Status(Open, [], None, 0, [], [])
    else Stepped(maxQueue, budget, After(maxQueue, budget, events[..|events| - 1]), events[|events| - 1])
  }

  lemma {:induction false} AfterNone(maxQueue: nat, budget: nat)
    ensures After(maxQueue, budget, []) == Status(Open, [], None, 0, [], [])
    ensures CountClose([]) == 0
  {
  }

  /** One event handled by the session. */
  method Perform(session: Outbound, e: Event)
    requires session.Valid() && session.state != Connecting && Sensible(e)
    modifies session
    ensures session.Valid() && session.state != Connecting
    ensures session.Now() == Stepped(session.maxQueue, session.budget, old(session.Now()), e)
  {
    hide Outbound.Valid, Drained, FrameBytes, Encodable;
    match e
    case User(f) => var _ := session.SendUser(f);
    case Answer(f) => var _ := session.SendPong(f);
    case Begin(f) => var _ := session.SendClose(f);
    case Writable(socket) =>
      if session.state != Closed {
        var _ := session.Drain(socket);
      }
    case Gone => session.Drop();
  }

  /**
   A session from the end of its handshake on: it is what the events make of it, one by one.  The bytes on the wire
   are a prefix of the queued frames in order; the queue never passes its hard cap; a session that began to close
   queued exactly one CLOSE, never dropped for want of room, and no data frame after it.
   */
  method Converse(maxQueue: nat, budget: nat, events: seq<Event>) returns (last: Status)
    requires forall i :: 0 <= i < |events| ==> Sensible(events[i])
    ensures last == After(maxQueue, budget, events)
    ensures AllEncodable(last.queued) && last.accepted <= Wire(last.queued)
    ensures forall i :: 0 <= i <= |events| ==> |After(maxQueue, budget, events[..i]).queue| <= maxQueue + HEADROOM
    ensures NoDataAfterClose(last.queued) && CountClose(last.queued) <= 1
    ensures last.state == Closing ==> CountClose(last.queued) == 1
    ensures (forall i :: 0 <= i < |events| ==> !Fatal(events[i])) ==>
              CountClose(last.queued) == if exists i :: 0 <= i < |events| && events[i].Begin? then 1 else 0
  {
    hide Outbound.Valid, Outbound.Balanced, CountClose, NoDataAfterClose, Encodable, AllEncodable, Wire, Stepped, After;
    var session := new Outbound(maxQueue, budget);
    session.Opened();
    AfterNone(maxQueue, budget);
    assert events[..0] == [];
    session.Standing();
    for i := 0 to |events|
      invariant fresh(session) && session.Valid() && session.state != Connecting
      invariant session.maxQueue == maxQueue && session.budget == budget
      invariant session.Now() == After(maxQueue, budget, events[..i])
      invariant forall k :: 0 <= k <= i ==> |After(maxQueue, budget, events[..k]).queue| <= maxQueue + HEADROOM
      invariant (forall k :: 0 <= k < i ==> !Fatal(events[k])) ==>
                  session.state == if exists k :: 0 <= k < i && events[k].Begin? then Closing else Open
    {
      AfterNext(maxQueue, budget, events, i);
      SteppedState(maxQueue, budget, session.Now(), events[i]);
      Perform(session, events[i]);
      session.Standing();
    }
    session.Standing();
    session.Closes();
    assert events[..|events|] == events;
    last := Status(session.state, session.queue, session.partial, session.offset, session.queued, session.accepted);
  }

  lemma {:induction false} AfterNext(maxQueue: nat, budget: nat, events: seq<Event>, i: nat)
    requires i < |events| && forall i :: 0 <= i < |events| ==> Sensible(events[i])
    ensures After(maxQueue, budget, events[..i + 1])
         == Stepped(maxQueue, budget, After(maxQueue, budget, events[..i]), events[i])
  {
    hide Stepped;
    assert events[..i + 1][..i] == events[..i];
  }

  /** A session that is not broken leaves the open state only to close. */
  lemma {:induction false} SteppedState(maxQueue: nat, budget: nat, st: Status, e: Event)
    requires Sensible(e)
    ensures !Fatal(e) && (st.state == Open || st.state == Closing) ==>
              Stepped(maxQueue, budget, st, e).state == if e.Begin? then Closing else st.state
  {
    hide FrameBytes, Encodable;
    if e.Writable? && !Fatal(e) {
      DrainedState(st, budget, e.socket);
    }
  }

  lemma {:induction false} DrainedState(st: Status, left: nat, socket: seq<SendResult>)
    requires Broken !in socket
    ensures Drained(st, left, socket).state == st.state
    decreases |socket|
  {
    if left > 0 && (st.partial.Some? || st.queue != []) {
      var p := Started(st);
      if socket != [] && socket[0].Sent? && p.offset <= |p.partial.value| {
        var n := Least(Least(left, socket[0].count), |p.partial.value| - p.offset);
        if n > 0 {
          DrainedState(Taken(p, n), left - n, socket[1..]);
        }
      }
    }
  }
}
