/** The runner's poll set, kept equal to what the services want although descriptors come and go. */
module PollSet {
  import opened Basics

  /** A socket object; its descriptor is fixed while it is open, and free for others once it is closed. */
  type Sock = nat

  datatype Event = In | Out

  type Mask = set<Event>

  /** What one runner entry asks for: a service without io_interest, or without a socket, asks for nothing. */
  datatype Interest = Interest(hasInterest: bool, socket: Option<Sock>, mask: Mask)

  predicate Asks(e: Interest) { e.hasInterest && e.socket.Some? && e.mask != {} }

  /** The union of the masks wanted per socket. */
  function Wants(entries: seq<Interest>): (w: map<Sock, Mask>)
    ensures forall s :: s in w ==> w[s] != {}
  {
    if entries == [] then map[]
    else
      var w, e := Wants(entries[..|entries| - 1]), entries[|entries| - 1];
      if !Asks(e) then w
      else
        var s := e.socket.value;
        w[s := if s in w then w[s] + e.mask else e.mask]
  }

  ghost predicate Injective(socks: set<Sock>, fd: Sock -> nat) {
    forall a, b :: a in socks && b in socks && fd(a) == fd(b) ==> a == b
  }

  // ----- The system's poll object ------------------------------------------------------------------------

  class Poller {
    /** Masks by descriptor. */
    var regs: map<nat, Mask>
    var calls: nat

    constructor ()
      ensures regs == map[] && calls == 0
    {
      regs, calls := map[], 0;
    }

    method Register(descriptor: nat, mask: Mask)
      modifies this
      ensures regs == old(regs)[descriptor := mask] && calls == old(calls) + 1
    {
      regs, calls := regs[descriptor := mask], calls + 1;
    }

    /** Raises unless the descriptor is registered. */
    method Modify(descriptor: nat, mask: Mask)
      requires descriptor in regs
      modifies this
      ensures regs == old(regs)[descriptor := mask] && calls == old(calls) + 1
    {
      regs, calls := regs[descriptor := mask], calls + 1;
    }

    /** Refused, changing nothing, for a descriptor that is not registered or cannot be named any more. */
    method Unregister(descriptor: Option<nat>) returns (ok: bool)
      modifies this
      ensures ok == (descriptor.Some? && descriptor.value in old(regs))
      ensures regs == if ok then old(regs) - {descriptor.value} else old(regs)
      ensures calls == old(calls) + 1
    {
      calls := calls + 1;
      ok := descriptor.Some? && descriptor.value in regs;
      if ok {
        regs := regs - {descriptor.value};
      }
    }
  }

  // ----- The runner's side -----------------------------------------------------------------------------------

  datatype Slot = Slot(registered: Mask, sweep: Mask, generation: nat, descriptor: nat)

  /** After the first phase of a sweep: the wanted slots carry this sweep's mask and stamp, the others are as they
      were. */
  ghost predicate Gathered(before: map<Sock, Slot>, slots: map<Sock, Slot>, generation: nat, wanted: map<Sock, Mask>,
                           fd: Sock -> nat) {
    && (forall s :: s in slots ==> (slots[s].generation == generation <==> s in wanted))
    && (forall s :: s in wanted ==> s in slots && slots[s].sweep == wanted[s])
    && (forall s :: s in before ==>
          s in slots && slots[s].registered == before[s].registered && slots[s].descriptor == before[s].descriptor)
    && (forall s :: s in slots && s !in before ==>
        s in wanted && slots[s].registered == {} && slots[s].descriptor == fd(s))
  }

  /** What one asking service does to its socket's slot. */
  function Stamped(slots: map<Sock, Slot>, s: Sock, mask: Mask, generation: nat, descriptor: nat): Slot {
    if s !in slots then Slot({}, mask, generation, descriptor)
    else if slots[s].generation != generation then slots[s].(sweep := mask, generation := generation)
    else slots[s].(sweep := slots[s].sweep + mask)
  }

  lemma {:induction false} StampGathers(before: map<Sock, Slot>, slots: map<Sock, Slot>, generation: nat,
                                        wanted: map<Sock, Mask>, fd: Sock -> nat, s: Sock, mask: Mask)
    requires Gathered(before, slots, generation, wanted, fd)
    ensures Gathered(before, slots[s := Stamped(slots, s, mask, generation, fd(s))], generation,
                     wanted[s := if s in wanted then wanted[s] + mask else mask], fd)
  {
  }

  /** What the drop phase may rely on: every slot has a mask and its descriptor, the wanted ones this sweep's stamp and
      mask, and the others have descriptors of their own. */
  ghost predicate Ready(slots: map<Sock, Slot>, generation: nat, wanted: map<Sock, Mask>, fd: Sock -> nat) {
    && wanted.Keys <= slots.Keys
    && (forall s :: s in slots ==> slots[s].registered != {} && slots[s].descriptor == fd(s))
    && (forall s :: s in slots ==> (slots[s].generation == generation <==> s in wanted))
    && (forall s :: s in wanted ==> slots[s].registered == wanted[s])
    && Injective(slots.Keys - wanted.Keys, fd)
  }

  lemma {:induction false} ReadyWithout(slots: map<Sock, Slot>, generation: nat, wanted: map<Sock, Mask>,
                                        fd: Sock -> nat, s: Sock)
    requires Ready(slots, generation, wanted, fd) && s !in wanted
    ensures Ready(slots - {s}, generation, wanted, fd)
  {
  }

  lemma {:induction false} ReadyStale(slots: map<Sock, Slot>, generation: nat, wanted: map<Sock, Mask>, fd: Sock -> nat)
    requires Ready(slots, generation, wanted, fd)
    ensures wanted.Keys <= slots.Keys
    ensures (set s | s in slots && slots[s].generation != generation) == slots.Keys - wanted.Keys
  {
  }

  /** The wanted slots have their masks, except those still to be visited; nothing else has changed. */
  predicate Visited(before: map<Sock, Slot>, slots: map<Sock, Slot>, todo: set<Sock>, wanted: map<Sock, Mask>) {
    && slots.Keys == before.Keys
    && forall s :: s in slots ==>
         slots[s] == if s in wanted && s !in todo then before[s].(registered := wanted[s]) else before[s]
  }

  lemma {:induction false} VisitedNext(before: map<Sock, Slot>, slots: map<Sock, Slot>, todo: set<Sock>,
                                       wanted: map<Sock, Mask>, s: Sock)
    requires Visited(before, slots, todo, wanted) && s in todo && s in slots
    ensures slots[s] == before[s]
    ensures Visited(before, slots[s := if s in wanted then slots[s].(registered := wanted[s]) else slots[s]],
                    todo - {s}, wanted)
  {
  }

  lemma {:induction false} AllVisited(before: map<Sock, Slot>, slots: map<Sock, Slot>, wanted: map<Sock, Mask>)
    requires Visited(before, slots, {}, wanted)
    ensures forall s :: s in slots ==>
              slots[s] == if s in wanted then before[s].(registered := wanted[s]) else before[s]
  {
  }

  lemma {:induction false} NoneVisited(slots: map<Sock, Slot>, wanted: map<Sock, Mask>)
    ensures Visited(slots, slots, slots.Keys, wanted)
  {
  }

  /** The first two phases get there. */
  lemma {:induction false} Applied(before: map<Sock, Slot>, gathered: map<Sock, Slot>, slots: map<Sock, Slot>,
                                   generation: nat, wanted: map<Sock, Mask>, fd: Sock -> nat)
    requires Gathered(before, gathered, generation, wanted, fd) && Injective(before.Keys, fd)
    requires forall s :: s in before ==> before[s].registered != {} && before[s].descriptor == fd(s)
    requires forall s :: s in wanted ==> wanted[s] != {}
    requires slots.Keys == gathered.Keys
    requires forall s :: s in slots ==>
               slots[s] == if s in wanted then gathered[s].(registered := wanted[s]) else gathered[s]
    ensures Ready(slots, generation, wanted, fd) && slots.Keys == before.Keys + wanted.Keys
    ensures forall s :: s in before ==> gathered[s].registered == before[s].registered
  {
  }

  /** During a sweep: whatever the wanted slots have registered is what the poller has under their descriptors, the
      other slots' descriptors are still known to it, and it knows no others. */
  ghost predicate Serving(slots: map<Sock, Slot>, regs: map<nat, Mask>, wanted: map<Sock, Mask>, fd: Sock -> nat) {
    && (forall s :: s in wanted ==>
          s in slots && (slots[s].registered != {} ==> fd(s) in regs && regs[fd(s)] == slots[s].registered))
    && (forall s :: s in slots && s !in wanted ==> slots[s].registered != {} && fd(s) in regs)
    && Accounted(slots, regs, fd)
  }

  ghost predicate Accounted(slots: map<Sock, Slot>, regs: map<nat, Mask>, fd: Sock -> nat) {
    forall d :: d in regs ==> exists s :: s in slots && slots[s].registered != {} && fd(s) == d
  }

  lemma {:induction false} RegisterAccounted(slots: map<Sock, Slot>, regs: map<nat, Mask>, fd: Sock -> nat, s: Sock,
                                             mask: Mask)
    requires Accounted(slots, regs, fd) && s in slots && mask != {}
    ensures Accounted(slots[s := slots[s].(registered := mask)], regs[fd(s) := mask], fd)
  {
    var slots', regs' := slots[s := slots[s].(registered := mask)], regs[fd(s) := mask];
    forall d | d in regs' ensures exists t :: t in slots' && slots'[t].registered != {} && fd(t) == d {
      if d == fd(s) {
        assert s in slots' && slots'[s].registered != {};
      } else {
        var t :| t in slots && slots[t].registered != {} && fd(t) == d;
        assert t in slots' && slots'[t].registered != {};
      }
    }
  }

  lemma {:induction false} RegisterServes(slots: map<Sock, Slot>, regs: map<nat, Mask>, wanted: map<Sock, Mask>,
                                          fd: Sock -> nat, s: Sock, mask: Mask)
    requires Serving(slots, regs, wanted, fd) && Injective(wanted.Keys, fd) && s in wanted && mask != {}
    ensures Serving(slots[s := slots[s].(registered := mask)], regs[fd(s) := mask], wanted, fd)
  {
    hide Accounted;
    RegisterAccounted(slots, regs, fd, s, mask);
  }

  lemma {:induction false} DropServes(slots: map<Sock, Slot>, regs: map<nat, Mask>, wanted: map<Sock, Mask>,
                                      fd: Sock -> nat, s: Sock)
    requires Serving(slots, regs, wanted, fd) && s in slots && s !in wanted
    requires forall t :: t in slots && t != s ==> fd(t) != fd(s)
    ensures Serving(slots - {s}, regs - {fd(s)}, wanted, fd)
  {
    var slots', regs' := slots - {s}, regs - {fd(s)};
    forall d | d in regs' ensures exists t :: t in slots' && slots'[t].registered != {} && fd(t) == d {
      var t :| t in slots && slots[t].registered != {} && fd(t) == d;
      assert t in slots' && slots'[t].registered != {};
    }
  }

  lemma {:induction false} ReuseServes(slots: map<Sock, Slot>, regs: map<nat, Mask>, wanted: map<Sock, Mask>,
                                       fd: Sock -> nat, s: Sock, other: Sock)
    requires Serving(slots, regs, wanted, fd) && s in slots && s !in wanted
    requires other in slots && other != s && fd(other) == fd(s) && slots[other].registered != {}
    ensures Serving(slots - {s}, regs, wanted, fd)
  {
    var slots' := slots - {s};
    forall d | d in regs ensures exists t :: t in slots' && slots'[t].registered != {} && fd(t) == d {
      var t :| t in slots && slots[t].registered != {} && fd(t) == d;
      assert other in slots' && slots'[other].registered != {};
      assert t != s ==> t in slots' && slots'[t].registered != {};
    }
  }

  class PollSet {
    /** The descriptor each socket has while it is open. */
    const fd: Sock -> nat
    var poller: Poller?
    var slots: map<Sock, Slot>
    var generation: nat

    /** The masks the poller has, or would have if there was one. */
    function Registered(): map<Sock, Mask>
      reads this`slots
    {
      map s | s in slots :: slots[s].registered
    }

    /** The poller has exactly one registration per slot, under the slot's descriptor and with its mask. */
    ghost predicate Mirrors(regs: map<nat, Mask>)
      reads this`slots
    {
      && (forall s :: s in slots ==> fd(s) in regs && regs[fd(s)] == slots[s].registered)
      && (forall d :: d in regs ==> exists s :: s in slots && fd(s) == d)
    }

    ghost predicate Shape()
      reads this`slots, this`generation
    {
      && Injective(slots.Keys, fd)
      && (forall s :: s in slots ==>
            slots[s].registered != {} && slots[s].descriptor == fd(s) && slots[s].generation <= generation)
    }

    ghost predicate Synced()
      reads this`slots, this`generation, this`poller, poller
    {
      && Shape()
      && (poller != null ==> Mirrors(poller.regs))
    }

    constructor (fd: Sock -> nat)
      ensures Synced() && slots == map[] && poller == null && this.fd == fd
    {
      this.fd := fd;
      poller, slots, generation := null, map[], 0;
    }

    // ----- One sweep, in three phases ------------------------------------------------------------------------

    /** OR the masks of every service sharing a socket, stamping this sweep's generation. */
    method Gather(entries: seq<Interest>) returns (wantedCount: nat)
      requires forall s :: s in slots ==> slots[s].generation < generation
      modifies this`slots
      ensures Gathered(old(slots), slots, generation, Wants(entries), fd) && wantedCount == |Wants(entries)|
    {
      wantedCount := 0;
      ghost var before := slots;
      assert entries[..0] == [];
      for i := 0 to |entries|
        invariant Gathered(before, slots, generation, Wants(entries[..i]), fd) && wantedCount == |Wants(entries[..i])|
      {
        assert entries[..i + 1][..i] == entries[..i];
        var e := entries[i];
        if e.hasInterest && e.socket.Some? && e.mask != {} {
          var s := e.socket.value;
          StampGathers(before, slots, generation, Wants(entries[..i]), fd, s, e.mask);
          if s !in slots || slots[s].generation != generation {
            wantedCount := wantedCount + 1;
          }
          slots := slots[s := Stamped(slots, s, e.mask, generation, fd(s))];
        }
      }
      assert entries[..|entries|] == entries;
    }

    lemma {:induction false} Stamps(before: map<Sock, Slot>, wanted: map<Sock, Mask>)
      requires Gathered(before, slots, generation, wanted, fd)
      ensures forall s :: s in slots ==> (slots[s].generation == generation <==> s in wanted)
      ensures forall s :: s in wanted ==> s in slots && slots[s].sweep == wanted[s]
    {
    }

    /** Register a slot the poller does not have, modify one it has. */
    method Tell(s: Sock, slot: Slot, ghost wanted: map<Sock, Mask>)
      requires s in slots && slots[s] == slot && s in wanted && slot.sweep != {} && Injective(wanted.Keys, fd)
      requires poller != null ==> Serving(slots, poller.regs, wanted, fd)
      modifies poller
      ensures poller != null ==> Serving(slots[s := slot.(registered := slot.sweep)], poller.regs, wanted, fd)
    {
      hide Serving, Injective;
      if poller != null {
        RegisterServes(slots, poller.regs, wanted, fd, s, slot.sweep);
        KnownToPoller(slots, poller.regs, wanted, fd, s);
        if slot.registered == {} {
          poller.Register(fd(s), slot.sweep);
        } else {
          poller.Modify(fd(s), slot.sweep);
        }
      }
    }

    method Visit(s: Sock, ghost wanted: map<Sock, Mask>)
      requires s in slots && (slots[s].generation == generation <==> s in wanted) && Injective(wanted.Keys, fd)
      requires s in wanted ==> slots[s].sweep == wanted[s] && wanted[s] != {}
      requires poller != null ==> Serving(slots, poller.regs, wanted, fd)
      modifies this`slots, poller
      ensures slots == old(slots)[s := if s in wanted then old(slots)[s].(registered := wanted[s]) else old(slots)[s]]
      ensures poller != null ==> Serving(slots, poller.regs, wanted, fd)
      ensures poller != null && (s in wanted ==> old(slots)[s].registered == wanted[s]) ==>
                poller.calls == old(poller.calls)
    {
      hide Serving, Injective;
      var slot := slots[s];
      assert slots[s := slot] == slots;
      if slot.generation == generation && slot.registered != slot.sweep {
        Tell(s, slot, wanted);
        slots := slots[s := slot.(registered := slot.sweep)];
      }
    }

    /** Register new slots and modify the ones whose mask changed. */
    method Apply(ghost before: map<Sock, Slot>, ghost wanted: map<Sock, Mask>)
      requires Gathered(before, slots, generation, wanted, fd) && Injective(wanted.Keys, fd)
      requires forall s :: s in wanted ==> wanted[s] != {}
      requires poller != null ==> Serving(slots, poller.regs, wanted, fd)
      modifies this`slots, poller
      ensures slots.Keys == old(slots.Keys)
      ensures forall s :: s in slots ==>
                slots[s] == if s in wanted then old(slots)[s].(registered := wanted[s]) else old(slots)[s]
      ensures poller != null ==> Serving(slots, poller.regs, wanted, fd)
      ensures poller != null && (forall s :: s in wanted ==> old(slots)[s].registered == wanted[s]) ==>
                poller.calls == old(poller.calls)
    {
      hide Serving, Injective, Visited;
      ghost var g := slots;
      ghost var quiet := forall s :: s in wanted ==> slots[s].registered == wanted[s];
      Stamps(before, wanted);
      NoneVisited(slots, wanted);
      hide Gathered;
      var todo := slots.Keys;
      while todo != {}
        invariant todo <= slots.Keys == g.Keys && Visited(g, slots, todo, wanted)
        invariant poller != null ==> Serving(slots, poller.regs, wanted, fd)
        invariant poller != null && quiet ==> poller.calls == old(poller.calls)
        decreases todo
      {
        var s :| s in todo;
        VisitedNext(g, slots, todo, wanted, s);
        todo := todo - {s};
        Visit(s, wanted);
      }
      AllVisited(g, slots, wanted);
    }

    lemma {:induction false} KnownToPoller(slots: map<Sock, Slot>, regs: map<nat, Mask>, wanted: map<Sock, Mask>,
                                           fd: Sock -> nat, s: Sock)
      requires Serving(slots, regs, wanted, fd) && s in slots
      ensures slots[s].registered != {} ==> fd(s) in regs
    {
    }

    /** Pop one slot and take it out of the poll set; a closed socket can no longer name its descriptor. */
    method Forget(s: Sock, open: set<Sock>, ghost wanted: map<Sock, Mask>)
      requires s in slots && s !in wanted && Ready(slots, generation, wanted, fd)
      requires poller != null ==> Serving(slots, poller.regs, wanted, fd)
      requires wanted.Keys <= open && Injective(open, fd)
      modifies this`slots, poller
      ensures slots == old(slots) - {s} && Ready(slots, generation, wanted, fd)
      ensures poller != null ==> Serving(slots, poller.regs, wanted, fd)
    {
      hide Serving;
      var slot := slots[s];
      ghost var before := slots;
      ReadyWithout(slots, generation, wanted, fd, s);
      slots := slots - {s};
      if poller != null {
        ghost var regs := poller.regs;
        KnownToPoller(before, regs, wanted, fd, s);
        var ok := poller.Unregister(if s in open then Some(fd(s)) else None);
        if !ok {
          UnregisterDescriptor(slot.descriptor);
        }
        if exists t :: t in slots && slots[t].descriptor == slot.descriptor {
          ghost var t :| t in slots && slots[t].descriptor == slot.descriptor;
          ReuseServes(before, regs, wanted, fd, s, t);
        } else {
          assert forall t :: t in slots ==> slots[t].descriptor == fd(t);
          DropServes(before, regs, wanted, fd, s);
        }
      }
    }

    /** _unregister_descriptor: a descriptor that another slot holds by now is left alone. */
    method UnregisterDescriptor(descriptor: nat)
      requires poller != null
      modifies poller
      ensures poller.regs == if exists t :: t in slots && slots[t].descriptor == descriptor then old(poller.regs)
                             else old(poller.regs) - {descriptor}
    {
      if exists t :: t in slots && slots[t].descriptor == descriptor {
        return;
      }
      var _ := poller.Unregister(Some(descriptor));
    }

    /** Drop the sockets no service wanted in this sweep. */
    method Drop(ghost wanted: map<Sock, Mask>, wantedCount: nat, open: set<Sock>)
      requires wantedCount == |wanted| && Ready(slots, generation, wanted, fd)
      requires poller != null ==> Serving(slots, poller.regs, wanted, fd)
      requires wanted.Keys <= open && Injective(open, fd)
      modifies this`slots, poller
      ensures slots.Keys == wanted.Keys && Ready(slots, generation, wanted, fd)
      ensures poller != null ==> Serving(slots, poller.regs, wanted, fd)
      ensures poller != null && old(slots.Keys) == wanted.Keys ==> poller.calls == old(poller.calls)
    {
      hide Serving, Injective, Ready;
      ReadyStale(slots, generation, wanted, fd);
      CountTells(slots.Keys, wanted.Keys);
      assert |slots| == |slots.Keys| && |wanted| == |wanted.Keys|;
      if |slots| > wantedCount {
        var stale := set s | s in slots && slots[s].generation != generation;
        while stale != {}
          invariant stale == slots.Keys - wanted.Keys && wanted.Keys <= slots.Keys
          invariant Ready(slots, generation, wanted, fd)
          invariant poller != null ==> Serving(slots, poller.regs, wanted, fd)
          decreases stale
        {
          var s :| s in stale;
          Forget(s, open, wanted);
          stale := stale - {s};
        }
        NothingElse(slots.Keys, wanted.Keys);
      }
    }

    lemma {:induction false} NothingElse(all: set<Sock>, some: set<Sock>)
      requires some <= all && all - some == {}
      ensures all == some
    {
      assert all == some + (all - some);
    }

    lemma {:induction false} CountTells(all: set<Sock>, some: set<Sock>)
      requires some <= all
      ensures |some| <= |all| && (|some| == |all| <==> some == all)
    {
      assert all == some + (all - some);
    }

    // ----- Sweeps and waits ----------------------------------------------------------------------------------

    lemma {:induction false} StartsServing(before: map<Sock, Slot>, regs: map<nat, Mask>, wanted: map<Sock, Mask>)
      requires Gathered(before, slots, generation, wanted, fd)
      requires forall s :: s in before ==>
                 fd(s) in regs && regs[fd(s)] == before[s].registered && before[s].registered != {}
      requires forall d :: d in regs ==> exists s :: s in before && fd(s) == d
      ensures Serving(slots, regs, wanted, fd)
    {
      forall d | d in regs ensures exists s :: s in slots && slots[s].registered != {} && fd(s) == d {
        var s :| s in before && fd(s) == d;
        assert s in slots && slots[s].registered != {};
      }
    }

    lemma {:induction false} Settles(wanted: map<Sock, Mask>, open: set<Sock>)
      requires slots.Keys == wanted.Keys <= open && Injective(open, fd) && Ready(slots, generation, wanted, fd)
      ensures Shape() && Registered() == wanted
      ensures forall regs :: Serving(slots, regs, wanted, fd) ==> Mirrors(regs)
    {
    }

    lemma {:induction false} InjectiveSubset(some: set<Sock>, all: set<Sock>)
      requires some <= all && Injective(all, fd)
      ensures Injective(some, fd)
    {
    }

    /** The first two phases: every wanted slot is told to the poller. */
    method Tells(entries: seq<Interest>, open: set<Sock>) returns (wantedCount: nat)
      requires Synced() && Wants(entries).Keys <= open && Injective(open, fd)
      modifies this`slots, this`generation, poller
      ensures wantedCount == |Wants(entries)| && Ready(slots, generation, Wants(entries), fd)
      ensures slots.Keys == old(slots.Keys) + Wants(entries).Keys
      ensures poller != null ==> Serving(slots, poller.regs, Wants(entries), fd)
      ensures poller != null && old(Registered()) == Wants(entries) ==> poller.calls == old(poller.calls)
    {
      hide Wants, Serving, Gathered, Ready;
      ghost var before, wanted := slots, Wants(entries);
      generation := generation + 1;
      wantedCount := Gather(entries);
      if poller != null {
        StartsServing(before, poller.regs, wanted);
      }
      ghost var gathered := slots;
      InjectiveSubset(wanted.Keys, open);
      hide Injective;
      Apply(before, wanted);
      Applied(before, gathered, slots, generation, wanted, fd);
      assert old(Registered()) == wanted ==>
               forall s :: s in wanted ==> s in before && before[s].registered == wanted[s];
    }

    /** _sync_poll_set: afterwards the poll set is what the services want, even if a descriptor changed hands since
        the last sweep; a sweep that wants what is registered makes no call. */
    method Sync(entries: seq<Interest>, open: set<Sock>)
      requires Synced() && Wants(entries).Keys <= open && Injective(open, fd)
      modifies this`slots, this`generation, poller
      ensures Synced() && Registered() == Wants(entries)
      ensures poller != null && old(Registered()) == Wants(entries) ==> poller.calls == old(poller.calls)
    {
      hide Wants, Serving, Injective, Ready, PollSet.Shape, PollSet.Mirrors;
      ghost var wanted := Wants(entries);
      assert Registered().Keys == slots.Keys;
      hide PollSet.Registered;
      var wantedCount := Tells(entries, open);
      Drop(wanted, wantedCount, open);
      Settles(wanted, open);
    }

    /** The part of wait that makes the poll set: sweep, and with something to poll and time to do so, create the
        poller and replay the slots into it. */
    method Wait(entries: seq<Interest>, open: set<Sock>, due: bool)
      requires Synced() && Wants(entries).Keys <= open && Injective(open, fd)
      modifies this, poller
      ensures Synced() && Registered() == Wants(entries)
      ensures !due && Wants(entries) != map[] ==> poller != null
      ensures poller == old(poller) || (old(poller) == null && fresh(poller))
    {
      hide Wants, Injective;
      Sync(entries, open);
      assert Registered().Keys == slots.Keys;
      if !due && slots != map[] && poller == null {
        Replay();
      }
    }

    method Replay()
      requires Shape() && poller == null
      modifies this`poller
      ensures Synced() && fresh(poller)
    {
      poller := new Poller();
      var todo := slots.Keys;
      while todo != {}
        invariant poller != null && fresh(poller) && todo <= slots.Keys
        invariant forall s :: s in slots && s !in todo ==>
                    fd(s) in poller.regs && poller.regs[fd(s)] == slots[s].registered
        invariant forall d :: d in poller.regs ==> exists s :: s in slots && fd(s) == d
        decreases todo
      {
        var s :| s in todo;
        todo := todo - {s};
        poller.Register(fd(s), slots[s].registered);
      }
    }
  }

  // ----- Whole runs -------------------------------------------------------------------------------------------

  /** One pass of the loop: what the services want by then, which sockets are open, whether something is already due. */
  datatype Pass = Pass(entries: seq<Interest>, open: set<Sock>, due: bool)

  /** Services ask only for sockets that are open, and open sockets have descriptors of their own. */
  ghost predicate Sane(p: Pass, fd: Sock -> nat) { Wants(p.entries).Keys <= p.open && Injective(p.open, fd) }

  /** What the poll object must hold for `wanted`. */
  ghost predicate Exactly(regs: map<nat, Mask>, wanted: map<Sock, Mask>, fd: Sock -> nat) {
    && (forall s :: s in wanted ==> fd(s) in regs && regs[fd(s)] == wanted[s])
    && (forall d :: d in regs ==> exists s :: s in wanted && fd(s) == d)
  }

  /** The service wants to hear of the event on this descriptor. */
  predicate Watches(e: Interest, d: nat, ev: Event, fd: Sock -> nat) {
    e.hasInterest && e.socket.Some? && fd(e.socket.value) == d && ev in e.mask
  }

  predicate Watched(entries: seq<Interest>, d: nat, ev: Event, fd: Sock -> nat) {
    exists i :: 0 <= i < |entries| && Watches(entries[i], d, ev, fd)
  }

  /** The poll object watches for an event exactly when some service wants to hear of it. */
  ghost predicate Polled(regs: map<nat, Mask>, entries: seq<Interest>, fd: Sock -> nat) {
    forall d, ev :: Watched(entries, d, ev, fd) <==> d in regs && ev in regs[d]
  }

  lemma {:induction false} WantsIff(entries: seq<Interest>, s: Sock, ev: Event, fd: Sock -> nat)
    ensures s in Wants(entries) && ev in Wants(entries)[s]
            <==> exists i :: 0 <= i < |entries| && entries[i].socket == Some(s) && Watches(entries[i], fd(s), ev, fd)
  {
    if entries != [] {
      var front, n := entries[..|entries| - 1], |entries| - 1;
      WantsIff(front, s, ev, fd);
      if i :| 0 <= i < |front| && front[i].socket == Some(s) && Watches(front[i], fd(s), ev, fd) {
        assert entries[i] == front[i];
      } else if s in Wants(entries) && ev in Wants(entries)[s] {
        assert entries[n].socket == Some(s) && Watches(entries[n], fd(s), ev, fd);
      }
    }
  }

  lemma {:induction false} PolledExactly(regs: map<nat, Mask>, entries: seq<Interest>, fd: Sock -> nat)
    requires Exactly(regs, Wants(entries), fd)
    ensures Polled(regs, entries, fd)
  {
    hide Wants, Watched, Exactly;
    forall d, ev ensures Watched(entries, d, ev, fd) <==> d in regs && ev in regs[d] {
      PolledAt(regs, entries, fd, d, ev);
    }
  }

  lemma {:induction false} PolledAt(regs: map<nat, Mask>, entries: seq<Interest>, fd: Sock -> nat, d: nat, ev: Event)
    requires Exactly(regs, Wants(entries), fd)
    ensures Watched(entries, d, ev, fd) <==> d in regs && ev in regs[d]
  {
    hide Wants;
    if d in regs && ev in regs[d] {
      var s :| s in Wants(entries) && fd(s) == d;
      WantsIff(entries, s, ev, fd);
    }
    if i :| 0 <= i < |entries| && Watches(entries[i], d, ev, fd) {
      WantsIff(entries, entries[i].socket.value, ev, fd);
    }
  }

  /** After any passes, with sockets opened, closed and descriptors reused between them, the poll object holds exactly
      the union of the masks wanted in the last one; it exists once something was to be waited for. */
  method Passes(fd: Sock -> nat, passes: seq<Pass>) returns (regs: Option<map<nat, Mask>>)
    requires passes != [] && forall i :: 0 <= i < |passes| ==> Sane(passes[i], fd)
    ensures regs.Some? ==> Exactly(regs.value, Wants(passes[|passes| - 1].entries), fd)
    ensures regs.Some? ==> Polled(regs.value, passes[|passes| - 1].entries, fd)
    ensures regs.None? ==> forall i :: 0 <= i < |passes| ==> passes[i].due || Wants(passes[i].entries) == map[]
  {
    hide Wants, Injective, Polled;
    var polls := new PollSet(fd);
    for i := 0 to |passes|
      invariant fresh(polls) && polls.fd == fd && (polls.poller == null || fresh(polls.poller))
      invariant polls.Synced()
      invariant i > 0 ==> polls.Registered() == Wants(passes[i - 1].entries)
      invariant polls.poller == null ==> forall j :: 0 <= j < i ==> passes[j].due || Wants(passes[j].entries) == map[]
    {
      assert Sane(passes[i], fd);
      polls.Wait(passes[i].entries, passes[i].open, passes[i].due);
    }
    if polls.poller == null {
      return None;
    }
    regs := Some(polls.poller.regs);
    PolledExactly(polls.poller.regs, passes[|passes| - 1].entries, fd);
  }
}
