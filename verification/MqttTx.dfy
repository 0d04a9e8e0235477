/** The MQTT client's transmit side: one deque, partial sends, callback markers and PUBACK batches. */
module MqttTx {
  import opened Basics
  import opened Bytes

  const PUBACK: byte := 0x40

  /** A queue entry: an encoded packet, or the marker behind a QoS-0 packet that calls its publisher back. */
  datatype Item = Packet(data: bytes) | Marker(id: nat)

  datatype Partial = Partial(data: bytes, offset: nat)

  /** The transmit side as a value: with it, every byte accepted, every callback made, and whether it still works. */
  datatype Status = Status(queue: seq<Item>, partial: Option<Partial>, batchQueued: bool,
                           accepted: bytes, fired: seq<nat>, ok: bool)

  /** What the socket does when it is offered bytes: take up to so many (none meaning it would block), or fail. */
  datatype Send = Accept(count: nat) | Fail

  /** Room the queue keeps for the protocol's own packets. */
  const HEADROOM := 64

  predicate IsPuback(data: bytes) { data != [] && data[0] == PUBACK }

  /** Anything but a batch of PUBACKs. */
  predicate Plain(i: Item) { i.Packet? ==> i.data != [] && !IsPuback(i.data) }

  predicate AllPlain(items: seq<Item>) { forall i :: 0 <= i < |items| ==> Plain(items[i]) }

  function PacketsOf(items: seq<Item>): seq<bytes> {
    if items == [] then []
    else
      var i := items[|items| - 1];
      PacketsOf(items[..|items| - 1]) + if i.Packet? then [i.data] else []
  }

  function MarkersOf(items: seq<Item>): seq<nat> {
    if items == [] then []
    else
      var i := items[|items| - 1];
      MarkersOf(items[..|items| - 1]) + if i.Marker? then [i.id] else []
  }

  function PlainPackets(packets: seq<bytes>): seq<bytes> {
    if packets == [] then []
    else
      var p := packets[|packets| - 1];
      PlainPackets(packets[..|packets| - 1]) + if IsPuback(p) then [] else [p]
  }

  function PubackPackets(packets: seq<bytes>): seq<bytes> {
    if packets == [] then []
    else
      var p := packets[|packets| - 1];
      PubackPackets(packets[..|packets| - 1]) + if IsPuback(p) then [p] else []
  }

  lemma {:induction false} AppendItem(items: seq<Item>, i: Item)
    ensures PacketsOf(items + [i]) == PacketsOf(items) + if i.Packet? then [i.data] else []
    ensures MarkersOf(items + [i]) == MarkersOf(items) + if i.Marker? then [i.id] else []
  {
    assert (items + [i])[..|items|] == items;
  }

  lemma {:induction false} AppendPacket(packets: seq<bytes>, p: bytes)
    ensures PlainPackets(packets + [p]) == PlainPackets(packets) + if IsPuback(p) then [] else [p]
    ensures PubackPackets(packets + [p]) == PubackPackets(packets) + if IsPuback(p) then [p] else []
  {
    assert (packets + [p])[..|packets|] == packets;
  }

  predicate HoldsPacket(queue: seq<Item>) { exists i :: 0 <= i < |queue| && queue[i].Packet? }

  lemma {:induction false} RestHoldsPacket(queue: seq<Item>)
    requires queue != [] && queue[0].Marker? && HoldsPacket(queue)
    ensures HoldsPacket(queue[1..])
  {
    var i :| 0 <= i < |queue| && queue[i].Packet?;
    assert queue[1..][i - 1].Packet?;
  }

  // ----- What one tick does, on values -----------------------------------------------------------------

  /** How many of `offered` bytes the socket takes next; None when it fails. */
  function Taken(sends: seq<Send>, offered: nat): Option<nat> {
    if sends == [] then Some(0)
    else match sends[0]
         case Fail => None
         case Accept(count) => Some(Least(count, offered))
  }

  function Rest(sends: seq<Send>): seq<Send> { if sends == [] then [] else sends[1..] }

  /** The callbacks whose markers are at the head are made. */
  function Called(st: Status): (r: Status)
    ensures |r.queue| <= |st.queue| && (r.queue != [] ==> r.queue[0].Packet?)
    decreases |st.queue|
  {
    if st.queue != [] && st.queue[0].Marker? then
      Called(st.(queue := st.queue[1..], fired := st.fired + [st.queue[0].id]))
    else st
  }

  /** The head leaves the queue with its first `sent` bytes accepted. */
  function Popped(st: Status, sent: nat): Status
    requires st.queue != [] && st.queue[0].Packet? && sent <= |st.queue[0].data|
  {
    var data := st.queue[0].data;
    st.(queue := st.queue[1..], accepted := st.accepted + data[..sent],
        partial := if sent < |data| then Some(Partial(data, sent)) else None,
        batchQueued := st.batchQueued && !IsPuback(data))
  }

  /** The partly sent packet goes on. */
  function Continued(st: Status, sent: nat): Status
    requires st.partial.Some? && st.partial.value.offset + sent <= |st.partial.value.data|
  {
    var p := st.partial.value;
    var offset := p.offset + sent;
    st.(accepted := st.accepted + p.data[p.offset..offset],
        partial := if offset == |p.data| then None else Some(Partial(p.data, offset)))
  }

  /** One packet, after the callbacks before it; a batch of PUBACKs takes the packet behind it along. */
  function Sending(st: Status, sends: seq<Send>): Status
    decreases |st.queue|
  {
    var c := Called(st);
    if c.queue == [] then c
    else
      var data := c.queue[0].data;
      match Taken(sends, |data|)
      case None => c.(ok := false)
      case Some(sent) =>
        if sent == 0 then c
        else if sent < |data| then Popped(c, sent)
        else if IsPuback(data) then Sending(Popped(c, sent), Rest(sends))
        else Called(Popped(c, sent))
  }

  predicate Suppressed(st: Status) { st.batchQueued || st.partial.Some? }

  /** The whole of a tick: acknowledge what was read, then send. */
  function Drained(st: Status, sends: seq<Send>): Status {
    if st.partial.Some? then
      if st.partial.value.offset > |st.partial.value.data| then st
      else match Taken(sends, |st.partial.value.data| - st.partial.value.offset)
           case None => st.(ok := false)
           case Some(sent) => Continued(st, sent)
    else Sending(st, sends)
  }

  function Acknowledged(hardCap: nat, st: Status, pubacks: seq<bytes>): Status {
    if Suppressed(st) || pubacks == [] then st
    else if |st.queue| >= hardCap then st.(ok := false)
    else st.(queue := [Packet(Flatten(pubacks))] + st.queue, batchQueued := true)
  }

  class Transmitter {
    const maxQueue: nat
    const hardCap: nat
    var queue: seq<Item>
    var partial: Option<Partial>
    var batchQueued: bool
    /** What the peer has received. */
    var accepted: bytes
    /** The QoS-0 callbacks made so far. */
    var fired: seq<nat>

    /** Packets begun, in order: all of them whole on the wire, except that the last one may be partial. */
    ghost var started: seq<bytes>
    /** Entries other than PUBACK batches that have left the queue, in order. */
    ghost var passed: seq<Item>
    /** Entries other than PUBACK batches ever enqueued, and the batches ever enqueued, in order. */
    ghost var enqueued: seq<Item>
    ghost var batches: seq<bytes>

    function Now(): Status
      reads this`queue, this`partial, this`batchQueued, this`accepted, this`fired
    {
      Status(queue, partial, batchQueued, accepted, fired, true)
    }

    /** The queue without the batch at its head. */
    function Waiting(): seq<Item>
      reads this`queue, this`batchQueued
    {
      if batchQueued && queue != [] then queue[1..] else queue
    }

    /** At most one PUBACK batch is queued, and only at the head; the deque stays within its hard cap. */
    ghost predicate Shape()
      reads this`queue, this`batchQueued, this`partial
    {
      && hardCap == maxQueue + HEADROOM && |queue| <= hardCap
      && (batchQueued ==> queue != [] && queue[0].Packet? && IsPuback(queue[0].data))
      && AllPlain(Waiting())
      && (partial.Some? ==> 0 < partial.value.offset < |partial.value.data|)
    }

    /** The accepted bytes are the packets begun, back to back, up to the offset in the last. */
    ghost predicate OnWire()
      reads this`accepted, this`started, this`partial
    {
      if partial.Some? then
        && partial.value.offset <= |partial.value.data|
        && started != [] && started[|started| - 1] == partial.value.data
        && accepted == Flatten(started[..|started| - 1]) + partial.value.data[..partial.value.offset]
      else accepted == Flatten(started)
    }

    /** Entries leave in the order they came, and so do batches; every marker that left has fired; and nothing leaves
        behind a packet that is still partial. */
    ghost predicate InOrder()
      reads this`queue, this`batchQueued, this`partial, this`started, this`passed, this`enqueued
      reads this`batches, this`fired
    {
      && enqueued == passed + Waiting()
      && batches == PubackPackets(started)
                    + (if batchQueued && queue != [] && queue[0].Packet? then [queue[0].data] else [])
      && fired == MarkersOf(passed)
      && PacketsOf(passed) == PlainPackets(started)
      && (partial.Some? && !IsPuback(partial.value.data) ==>
            passed != [] && passed[|passed| - 1] == Packet(partial.value.data))
    }

    ghost predicate Valid()
      reads this
    {
      Shape() && OnWire() && InOrder()
    }

    constructor (maxQueue: nat)
      ensures Valid() && this.maxQueue == maxQueue && hardCap == maxQueue + 64 && enqueued == [] && batches == []
      ensures Now() == Status([], None, false, [], [], true)
    {
      this.maxQueue, hardCap := maxQueue, maxQueue + HEADROOM;
      queue, partial, batchQueued := [], None, false;
      accepted, fired := [], [];
      started, passed, enqueued, batches := [], [], [], [];
    }

    // ----- Enqueueing ----------------------------------------------------------------------------------

    /** _enqueue_user_tx: all items or none, within the application's share of the queue. */
    method EnqueueUser(items: seq<Item>) returns (ok: bool)
      requires Valid() && AllPlain(items)
      modifies this`queue, this`enqueued
      ensures Valid() && ok == (|old(queue)| + |items| <= maxQueue)
      ensures queue == old(queue) + (if ok then items else [])
      ensures enqueued == old(enqueued) + if ok then items else []
    {
      hide Flatten, PacketsOf, MarkersOf, PlainPackets, PubackPackets;
      if |queue| + |items| > maxQueue {
        return false;
      }
      AppendAll(items);
      ok := true;
    }

    method AppendAll(items: seq<Item>)
      requires Valid() && AllPlain(items) && |queue| + |items| <= hardCap
      modifies this`queue, this`enqueued
      ensures Valid() && queue == old(queue) + items && enqueued == old(enqueued) + items
    {
      hide Flatten, PacketsOf, MarkersOf, PlainPackets, PubackPackets;
      for i := 0 to |items|
        invariant Valid() && queue == old(queue) + items[..i] && enqueued == old(enqueued) + items[..i]
      {
        AppendOne(items[i]);
        assert items[..i + 1] == items[..i] + [items[i]];
      }
      assert items[..|items|] == items;
    }

    method AppendOne(item: Item)
      requires Valid() && Plain(item) && |queue| < hardCap
      modifies this`queue, this`enqueued
      ensures Valid() && queue == old(queue) + [item] && enqueued == old(enqueued) + [item]
    {
      hide Flatten, PacketsOf, MarkersOf, PlainPackets, PubackPackets;
      ghost var before := Waiting();
      queue := queue + [item];
      enqueued := enqueued + [item];
      assert Waiting() == before + [item];
    }

    /** _enqueue_internal_tx at the back: refused only at the hard cap. */
    method EnqueueInternal(packet: bytes) returns (ok: bool)
      requires Valid() && Plain(Packet(packet))
      modifies this`queue, this`enqueued
      ensures Valid() && ok == (|old(queue)| < hardCap)
      ensures queue == old(queue) + (if ok then [Packet(packet)] else [])
      ensures enqueued == old(enqueued) + if ok then [Packet(packet)] else []
    {
      if |queue| >= hardCap {
        return false;
      }
      AppendOne(Packet(packet));
      ok := true;
    }

    predicate RecvSuppressed()
      reads this`batchQueued, this`partial
    {
      batchQueued || partial.Some?
    }

    /** The PUBACK part of _read_inbound: nothing is read, hence nothing acknowledged, while a batch is queued or a
        packet is partly sent; otherwise the batch goes in front of everything, or the session fails at the hard cap. */
    method ReadInbound(pubacks: seq<bytes>) returns (ok: bool)
      requires Valid() && forall i :: 0 <= i < |pubacks| ==> IsPuback(pubacks[i])
      modifies this`queue, this`batchQueued, this`batches
      ensures Valid() && Now().(ok := ok) == Acknowledged(hardCap, old(Now()), pubacks)
      ensures old(batchQueued) || old(partial).Some? || pubacks == [] ==> ok && queue == old(queue)
      ensures !old(batchQueued) && old(partial).None? && pubacks != [] ==>
                && (ok <==> |old(queue)| < hardCap)
                && queue == (if ok then [Packet(Flatten(pubacks))] else []) + old(queue)
      ensures batches == old(batches) + if batchQueued && !old(batchQueued) then [Flatten(pubacks)] else []
    {
      if RecvSuppressed() {
        return true;
      }
      if pubacks != [] {
        var batch := if |pubacks| == 1 then pubacks[0] else Flatten(pubacks);
        Joined(pubacks);
        if |queue| >= hardCap {
          return false;
        }
        PutInFront(batch);
      }
      ok := true;
    }

    lemma {:induction false} Joined(pubacks: seq<bytes>)
      requires pubacks != [] && IsPuback(pubacks[0])
      ensures IsPuback(Flatten(pubacks)) && (|pubacks| == 1 ==> Flatten(pubacks) == pubacks[0])
    {
      assert Flatten(pubacks) == pubacks[0] + Flatten(pubacks[1..]);
      if |pubacks| == 1 {
        assert Flatten(pubacks[1..]) == [];
      }
    }

    method PutInFront(batch: bytes)
      requires Valid() && IsPuback(batch) && |queue| < hardCap && !RecvSuppressed()
      modifies this`queue, this`batchQueued, this`batches
      ensures Valid() && queue == [Packet(batch)] + old(queue) && batchQueued && batches == old(batches) + [batch]
    {
      hide Flatten, PacketsOf, MarkersOf, PlainPackets, PubackPackets;
      ghost var before := queue;
      queue := [Packet(batch)] + queue;
      batchQueued := true;
      batches := batches + [batch];
      assert Waiting() == before;
    }

    // ----- Draining --------------------------------------------------------------------------------------

    /** The head leaves the queue with its first `sent` bytes accepted. */
    method Pop(sent: nat)
      requires Valid() && queue != [] && queue[0].Packet? && 0 < sent <= |queue[0].data| && partial.None?
      modifies this
      ensures Valid() && enqueued == old(enqueued) && batches == old(batches)
      ensures Now() == Popped(old(Now()), sent)
    {
      hide Flatten, PacketsOf, MarkersOf, PlainPackets, PubackPackets;
      var data := queue[0].data;
      accepted := accepted + data[..sent];
      FlattenAppend(started, data);
      AppendPacket(started, data);
      assert (started + [data])[..|started|] == started;
      started := started + [data];
      if sent < |data| {
        partial := Some(Partial(data, sent));
      } else {
        assert data[..sent] == data;
      }
      AppendItem(passed, queue[0]);
      assert !batchQueued ==> Plain(Waiting()[0]);
      if !IsPuback(data) {
        passed := passed + [queue[0]];
      }
      queue := queue[1..];
      if IsPuback(data) {
        batchQueued := false;
      }
    }

    /** The partly sent packet goes on. */
    method Continue(sent: nat)
      requires Valid() && partial.Some? && partial.value.offset + sent <= |partial.value.data|
      modifies this`accepted, this`partial
      ensures Valid() && Now() == Continued(old(Now()), sent)
    {
      hide Flatten, PacketsOf, MarkersOf, PlainPackets, PubackPackets;
      var p := partial.value;
      var offset := p.offset + sent;
      assert p.data[..p.offset] + p.data[p.offset..offset] == p.data[..offset];
      accepted := accepted + p.data[p.offset..offset];
      if offset >= |p.data| {
        ghost var front := started[..|started| - 1];
        FlattenAppend(front, p.data);
        assert started == front + [p.data] && p.data[..offset] == p.data;
        partial := None;
      } else {
        partial := Some(Partial(p.data, offset));
      }
    }

    /** _drain_callback_markers */
    method FireMarkers()
      requires Valid() && partial.None?
      modifies this`queue, this`fired, this`passed
      ensures Valid() && Now() == Called(old(Now()))
      ensures HoldsPacket(old(queue)) ==> HoldsPacket(queue)
    {
      hide Flatten, PacketsOf, MarkersOf, PlainPackets, PubackPackets;
      while queue != [] && queue[0].Marker?
        invariant Valid() && Called(old(Now())) == Called(Now())
        invariant HoldsPacket(old(queue)) ==> HoldsPacket(queue)
        decreases |queue|
      {
        FireOne();
      }
    }

    method FireOne()
      requires Valid() && partial.None? && queue != [] && queue[0].Marker?
      modifies this`queue, this`fired, this`passed
      ensures Valid() && queue == old(queue)[1..] && fired == old(fired) + [old(queue)[0].id]
      ensures HoldsPacket(old(queue)) ==> HoldsPacket(queue)
    {
      hide Flatten, PacketsOf, MarkersOf, PlainPackets, PubackPackets;
      AppendItem(passed, queue[0]);
      fired := fired + [queue[0].id];
      passed := passed + [queue[0]];
      if HoldsPacket(queue) {
        RestHoldsPacket(queue);
      }
      queue := queue[1..];
    }

    /** _send_raw */
    method SendRaw(offered: nat, sends: seq<Send>) returns (sent: Option<nat>, rest: seq<Send>)
      ensures sent == Taken(sends, offered) && rest == Rest(sends)
      ensures sent.Some? ==> sent.value <= offered
    {
      if sends == [] {
        return Some(0), [];
      }
      rest := sends[1..];
      match sends[0]
      case Fail => sent := None;
      case Accept(count) => sent := Some(if count <= offered then count else offered);
    }

    /** _drain_tx_queue: go on with a partial packet, or send one packet, with a PUBACK batch in front going along;
        whenever there is a packet to send and the socket takes a byte, the wire grows. */
    method Drain(sends: seq<Send>) returns (ok: bool)
      requires Valid()
      modifies this
      ensures Valid() && enqueued == old(enqueued) && batches == old(batches)
      ensures Now().(ok := ok) == Drained(old(Now()), sends)
      ensures ok && old(partial).None? && partial.None? ==> queue == [] || queue[0].Packet?
      ensures ok && (old(partial).Some? || HoldsPacket(old(queue)))
              && sends != [] && sends[0].Accept? && sends[0].count > 0 ==>
                |accepted| > |old(accepted)|
    {
      hide Transmitter.InOrder, Transmitter.OnWire, Called;
      if partial.Some? {
        var sent, rest := SendRaw(|partial.value.data| - partial.value.offset, sends);
        if sent.None? {
          return false;
        }
        Continue(sent.value);
        return true;
      }
      ok := DrainQueue(sends);
    }

    method DrainQueue(sends: seq<Send>) returns (ok: bool)
      requires Valid() && partial.None?
      modifies this
      ensures Valid() && enqueued == old(enqueued) && batches == old(batches)
      ensures Now().(ok := ok) == Sending(old(Now()), sends)
      ensures ok && partial.None? ==> queue == [] || queue[0].Packet?
      ensures ok && HoldsPacket(old(queue)) && sends != [] && sends[0].Accept? && sends[0].count > 0 ==>
                |accepted| > |old(accepted)|
    {
      hide Transmitter.InOrder, Transmitter.OnWire, Called;
      var rest := sends;
      while true
        invariant Valid() && partial.None? && enqueued == old(enqueued) && batches == old(batches)
        invariant Sending(old(Now()), sends) == Sending(Now(), rest)
        invariant |accepted| >= |old(accepted)|
        invariant |accepted| == |old(accepted)| ==> rest == sends && (HoldsPacket(old(queue)) ==> HoldsPacket(queue))
        decreases |queue|
      {
        FireMarkers();
        if queue == [] {
          return true;
        }
        var packet := queue[0].data;
        assert packet != [];
        var isBatch := packet[0] == PUBACK;
        var sent;
        sent, rest := SendRaw(|packet|, rest);
        if sent.None? {
          return false;
        }
        if sent.value <= 0 {
          return true;
        }
        Pop(sent.value);
        if sent.value < |packet| {
          return true;
        }
        if !isBatch {
          FireMarkers();
          return true;
        }
      }
    }
  }

  // ----- What a tick does, case by case ------------------------------------------------------------------

  /** Callback markers with these identifiers. */
  function Calls(ids: seq<nat>): (r: seq<Item>)
    ensures |r| == |ids| && forall i :: 0 <= i < |r| ==> r[i] == Marker(ids[i])
  {
    seq(|ids|, i requires 0 <= i < |ids| => Marker(ids[i]))
  }

  predicate StartsWithPacket(queue: seq<Item>) { queue == [] || queue[0].Packet? }

  lemma {:induction false} CallsMade(st: Status, ids: seq<nat>, rest: seq<Item>)
    requires st.queue == Calls(ids) + rest && StartsWithPacket(rest)
    ensures Called(st) == st.(queue := rest, fired := st.fired + ids)
    decreases |ids|
  {
    if ids == [] {
      assert st.queue == rest && st.fired + ids == st.fired;
    } else {
      assert st.queue[1..] == Calls(ids[1..]) + rest;
      CallsMade(st.(queue := st.queue[1..], fired := st.fired + [ids[0]]), ids[1..], rest);
      assert st.fired + [ids[0]] + ids[1..] == st.fired + ids;
    }
  }

  /** Callbacks at the head of the queue are made first. */
  lemma {:induction false} CallbacksFirst(st: Status, ids: seq<nat>, rest: seq<Item>, sends: seq<Send>)
    requires st.partial.None? && st.queue == Calls(ids) + rest && StartsWithPacket(rest)
    ensures Drained(st, sends) == Drained(st.(queue := rest, fired := st.fired + ids), sends)
  {
    hide Called;
    CallsMade(st, ids, rest);
    var c := st.(queue := rest, fired := st.fired + ids);
    assert Calls([]) + rest == rest && c.fired + [] == c.fired;
    CallsMade(c, [], rest);
  }

  /** Then one packet is offered to the socket.  What is accepted of it is on the wire; the rest of it waits for the
      next tick; and if it went out whole the callbacks right behind it are made in this tick. */
  lemma {:induction false} OnePacket(st: Status, data: bytes, ids: seq<nat>, rest: seq<Item>, send: Send,
                                     more: seq<Send>)
    requires st.partial.None? && st.queue == [Packet(data)] + Calls(ids) + rest && StartsWithPacket(rest)
    requires data != [] && !IsPuback(data)
    ensures Drained(st, [send] + more)
         == match send
            case Fail => st.(ok := false)
            case Accept(count) =>
              if count == 0 then st
              else if count < |data| then
                st.(queue := Calls(ids) + rest, accepted := st.accepted + data[..count],
                    partial := Some(Partial(data, count)))
              else st.(queue := rest, accepted := st.accepted + data, fired := st.fired + ids)
  {
    hide Called;
    assert Calls([]) + st.queue == st.queue && st.fired + [] == st.fired;
    CallsMade(st, [], st.queue);
    var whole := Popped(st, |data|);
    assert data[..|data|] == data && whole.queue == Calls(ids) + rest;
    CallsMade(whole, ids, rest);
  }

  /** A batch of PUBACKs that goes out whole makes way for what is behind it in the same tick. */
  lemma {:induction false} BatchMakesWay(st: Status, batch: bytes, rest: seq<Item>, send: Send, more: seq<Send>)
    requires st.partial.None? && st.queue == [Packet(batch)] + rest && IsPuback(batch)
    ensures Drained(st, [send] + more)
         == match send
            case Fail => st.(ok := false)
            case Accept(count) =>
              if count == 0 then st
              else if count < |batch| then
                st.(queue := rest, accepted := st.accepted + batch[..count], partial := Some(Partial(batch, count)),
                    batchQueued := false)
              else Drained(st.(queue := rest, accepted := st.accepted + batch, batchQueued := false), more)
  {
    hide Called;
    assert Calls([]) + st.queue == st.queue && st.fired + [] == st.fired;
    CallsMade(st, [], st.queue);
    assert batch[..|batch|] == batch && ([send] + more)[1..] == more;
  }

  /** A packet sent in part goes on before anything else, and callbacks wait for the next tick. */
  lemma {:induction false} PartialGoesOn(st: Status, data: bytes, offset: nat, send: Send, more: seq<Send>)
    requires st.partial == Some(Partial(data, offset)) && offset < |data|
    ensures Drained(st, [send] + more)
         == match send
            case Fail => st.(ok := false)
            case Accept(count) =>
              if offset + count < |data| then
                st.(accepted := st.accepted + data[offset..offset + count],
                    partial := Some(Partial(data, offset + count)))
              else st.(accepted := st.accepted + data[offset..], partial := None)
  {
  }

  // ----- Whole connections ------------------------------------------------------------------------------

  /** What happens on a connection: the application enqueues, the protocol enqueues, or a tick reads and drains. */
  datatype Op = User(items: seq<Item>) | Internal(packet: bytes) | Tick(pubacks: seq<bytes>, sends: seq<Send>)

  predicate SaneOp(op: Op) {
    match op
    case User(items) => AllPlain(items)
    case Internal(packet) => Plain(Packet(packet))
    case Tick(pubacks, _) => forall i :: 0 <= i < |pubacks| ==> IsPuback(pubacks[i])
  }

  /** The entries an operation gets into the queue, batches aside. */
  function Admitted(maxQueue: nat, st: Status, op: Op): seq<Item> {
    match op
    case User(items) => if |st.queue| + |items| <= maxQueue then items else []
    case Internal(packet) => if |st.queue| < maxQueue + HEADROOM then [Packet(packet)] else []
    case Tick(_, _) => []
  }

  /** The batch of PUBACKs a tick puts in front. */
  function Batched(maxQueue: nat, st: Status, op: Op): seq<bytes> {
    if op.Tick? && !Suppressed(st) && op.pubacks != [] && |st.queue| < maxQueue + HEADROOM then [Flatten(op.pubacks)]
    else []
  }

  function Stepped(maxQueue: nat, st: Status, op: Op): Status {
    match op
    case Tick(pubacks, sends) =>
      var a := Acknowledged(maxQueue + HEADROOM, st, pubacks);
      if a.ok then Drained(a, sends) else a
    case _ => st.(queue := st.queue + Admitted(maxQueue, st, op))
  }

  /** A connection after `ops`; a failed one takes no more. */
  function After(maxQueue: nat, ops: seq<Op>): Status {
    if ops == [] then Status([], None, false, [], [], true)
    else
      var st := After(maxQueue, ops[..|ops| - 1]);
      if st.ok then Stepped(maxQueue, st, ops[|ops| - 1]) else st
  }

  /** All entries admitted to the queue, and all batches put in front of it, in order. */
  function Enqueued(maxQueue: nat, ops: seq<Op>): seq<Item> {
    if ops == [] then []
    else
      var front := ops[..|ops| - 1];
      var st := After(maxQueue, front);
      Enqueued(maxQueue, front) + if st.ok then Admitted(maxQueue, st, ops[|ops| - 1]) else []
  }

  function Batches(maxQueue: nat, ops: seq<Op>): seq<bytes> {
    if ops == [] then []
    else
      var front := ops[..|ops| - 1];
      var st := After(maxQueue, front);
      Batches(maxQueue, front) + if st.ok then Batched(maxQueue, st, ops[|ops| - 1]) else []
  }

  lemma {:induction false} AfterNothing(maxQueue: nat)
    ensures After(maxQueue, []) == Status([], None, false, [], [], true)
    ensures Enqueued(maxQueue, []) == [] && Batches(maxQueue, []) == []
  {
  }

  lemma {:induction false} AfterNext(maxQueue: nat, ops: seq<Op>, i: nat)
    requires i < |ops|
    ensures var st := After(maxQueue, ops[..i]);
            && After(maxQueue, ops[..i + 1]) == (if st.ok then Stepped(maxQueue, st, ops[i]) else st)
            && Enqueued(maxQueue, ops[..i + 1])
               == Enqueued(maxQueue, ops[..i]) + (if st.ok then Admitted(maxQueue, st, ops[i]) else [])
            && Batches(maxQueue, ops[..i + 1])
               == Batches(maxQueue, ops[..i]) + (if st.ok then Batched(maxQueue, st, ops[i]) else [])
  {
    hide Stepped, Admitted, Batched;
    assert ops[..i + 1][..i] == ops[..i];
  }

  method Perform(tx: Transmitter, op: Op) returns (ok: bool)
    requires tx.Valid() && SaneOp(op)
    modifies tx
    ensures tx.Valid() && tx.Now().(ok := ok) == Stepped(tx.maxQueue, old(tx.Now()), op)
    ensures tx.enqueued == old(tx.enqueued) + Admitted(tx.maxQueue, old(tx.Now()), op)
    ensures tx.batches == old(tx.batches) + Batched(tx.maxQueue, old(tx.Now()), op)
  {
    hide Transmitter.InOrder, Transmitter.OnWire, Drained, Flatten;
    ok := true;
    match op
    case User(items) =>
      var _ := tx.EnqueueUser(items);
    case Internal(packet) =>
      var _ := tx.EnqueueInternal(packet);
    case Tick(pubacks, sends) =>
      ok := tx.ReadInbound(pubacks);
      if ok {
        ok := tx.Drain(sends);
      }
  }

  lemma {:induction false} PacketsPrefix(items: seq<Item>, i: nat)
    requires i <= |items|
    ensures PacketsOf(items[..i]) <= PacketsOf(items)
  {
    if i < |items| {
      var front := items[..|items| - 1];
      PacketsPrefix(front, i);
      assert front[..i] == items[..i];
      assert items[..|items|] == items;
    } else {
      assert items[..i] == items;
    }
  }

  /** The packets on the wire to their last byte. */
  function Whole(st: Status, started: seq<bytes>): seq<bytes> {
    if st.partial.Some? && started != [] then started[..|started| - 1] else started
  }

  lemma {:induction false} Unsnoc(a: seq<bytes>, b: seq<bytes>, last: bytes)
    requires a + [last] == b + [last]
    ensures a == b
  {
    assert a == (a + [last])[..|a|] && b == (b + [last])[..|b|];
  }

  /** A callback has been made only if every packet enqueued before its marker is on the wire to its last byte. */
  lemma {:induction false} CallbackAfterPacket(tx: Transmitter, i: nat)
    requires tx.Valid() && i < |tx.passed| && tx.passed[i].Marker?
    ensures PacketsOf(tx.passed[..i]) <= PlainPackets(Whole(tx.Now(), tx.started))
  {
    hide PacketsOf, PlainPackets, PubackPackets, Flatten, MarkersOf;
    var started, passed := tx.started, tx.passed;
    if tx.partial.Some? {
      var front, last := started[..|started| - 1], started[|started| - 1];
      assert started == front + [last];
      AppendPacket(front, last);
      if IsPuback(last) {
        PacketsPrefix(passed, i);
      } else {
        var before := passed[..|passed| - 1];
        assert passed == before + [Packet(last)];
        AppendItem(before, Packet(last));
        Unsnoc(PacketsOf(before), PlainPackets(front), last);
        PacketsPrefix(before, i);
        assert before[..i] == passed[..i];
      }
    } else {
      PacketsPrefix(passed, i);
    }
  }

  /** Packets whole on the wire back to back, then the accepted part of the one under way. */
  ghost predicate WholePackets(st: Status, started: seq<bytes>) {
    if st.partial.Some? then
      && 0 < st.partial.value.offset < |st.partial.value.data|
      && started != [] && started[|started| - 1] == st.partial.value.data
      && st.accepted == Flatten(Whole(st, started)) + st.partial.value.data[..st.partial.value.offset]
    else st.accepted == Flatten(started)
  }

  /** The queue without the batch at its head. */
  function Behind(st: Status): seq<Item> { if st.batchQueued && st.queue != [] then st.queue[1..] else st.queue }

  /** The batch at the head of the queue, if there is one. */
  function Heading(st: Status): seq<bytes> {
    if st.batchQueued && st.queue != [] && st.queue[0].Packet? then [st.queue[0].data] else []
  }

  /**
   A connection is what its operations make of it, one by one.  Over any run the peer has whole packets back to back and
   a beginning of one more; the entries admitted left in order, their packets being the packets begun but for the
   batches, which left in order too; each callback came after the last byte of every packet before it; and the queue
   keeps its cap, with at most one batch, at its head.
   */
  method Connection(maxQueue: nat, ops: seq<Op>)
    returns (last: Status, ghost started: seq<bytes>, ghost passed: seq<Item>)
    requires forall i :: 0 <= i < |ops| ==> SaneOp(ops[i])
    ensures last == After(maxQueue, ops)
    ensures WholePackets(last, started)
    ensures passed + Behind(last) == Enqueued(maxQueue, ops)
    ensures PlainPackets(started) == PacketsOf(passed)
    ensures PubackPackets(started) + Heading(last) == Batches(maxQueue, ops)
    ensures last.fired == MarkersOf(passed)
    ensures forall i :: 0 <= i < |passed| && passed[i].Marker? ==>
              PacketsOf(passed[..i]) <= PlainPackets(Whole(last, started))
    ensures |last.queue| <= maxQueue + HEADROOM && AllPlain(Behind(last))
    ensures last.batchQueued ==> |Heading(last)| == 1
  {
    hide Flatten, PacketsOf, MarkersOf, PlainPackets, PubackPackets, Stepped, Admitted, Batched, Enqueued, Batches,
      After;
    var tx := new Transmitter(maxQueue);
    var ok, i := true, 0;
    AfterNothing(maxQueue);
    assert ops[..0] == [];
    while i < |ops|
      invariant 0 <= i <= |ops| && fresh(tx) && tx.maxQueue == maxQueue && tx.Valid()
      invariant tx.Now().(ok := ok) == After(maxQueue, ops[..i])
      invariant tx.enqueued == Enqueued(maxQueue, ops[..i]) && tx.batches == Batches(maxQueue, ops[..i])
    {
      AfterNext(maxQueue, ops, i);
      if ok {
        ok := Perform(tx, ops[i]);
      }
      i := i + 1;
    }
    assert ops[..|ops|] == ops;
    last, started, passed := tx.Now().(ok := ok), tx.started, tx.passed;
    forall i | 0 <= i < |passed| && passed[i].Marker?
      ensures PacketsOf(passed[..i]) <= PlainPackets(Whole(last, started))
    {
      CallbackAfterPacket(tx, i);
    }
  }

  // ----- Packet identifiers -----------------------------------------------------------------------------

  const IDS := 65535

  /** Going round from `first`, `k` comes before `id`. */
  predicate Ahead(first: nat, k: nat, id: nat) {
    if first <= id then first <= k < id else first <= k || k < id
  }

  class PacketIds {
    var inFlight: set<nat>
    var next: nat

    constructor ()
      ensures inFlight == {} && next == 1
    {
      inFlight, next := {}, 1;
    }

    /** _allocate_packet_id: the first free identifier, going round from the one after the last, if there is one. */
    method Allocate() returns (id: Option<nat>)
      requires 1 <= next <= IDS
      modifies this`next
      ensures 1 <= next <= IDS
      ensures id.Some? ==> 1 <= id.value <= 65535 && id.value !in inFlight
      ensures id.Some? ==> next == if id.value == 65535 then 1 else id.value + 1
      ensures id.Some? ==> forall k :: 1 <= k <= 65535 && Ahead(old(next), k, id.value) ==> k in inFlight
      ensures id.None? <==> forall k :: 1 <= k <= IDS ==> k in inFlight
    {
      ghost var first := next;
      for attempt := 0 to IDS
        invariant 1 <= next <= IDS
        invariant next == if first + attempt <= IDS then first + attempt else first + attempt - IDS
        invariant forall k :: 1 <= k <= IDS && (first <= k < first + attempt || k < first + attempt - IDS) ==>
                    k in inFlight
      {
        var candidate := next;
        next := next + 1;
        if next > IDS {
          next := 1;
        }
        if candidate !in inFlight {
          assert forall k :: 1 <= k <= IDS && Ahead(first, k, candidate) ==>
                   first <= k < first + attempt || k < first + attempt - IDS;
          return Some(candidate);
        }
      }
      return None;
    }
  }
}
