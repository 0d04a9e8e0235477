/** The persisted key-value store: its dict, its dirty flag and what its backend holds. */
module KVStore {
  import opened Basics
  import opened Bytes
  import opened MsgpackWire
  import opened Msgpack
  import opened MsgpackKeys

  /** What a payload decodes to: an empty one is an empty store, anything but a dict is corrupt. */
  function Load(payload: bytes): Option<seq<Entry>> {
    if payload == [] then Some([])
    else match Unpackb(payload)
         case Object(Dict(entries)) => Some(entries)
         case _ => None
  }

  function Without(entries: seq<Entry>, key: Value): seq<Entry> {
    var i := IndexOf(entries, key);
    if i == |entries| then entries else entries[..i] + entries[i + 1..]
  }

  predicate LegalPairs(more: seq<Entry>) {
    forall i :: 0 <= i < |more| ==> more[i].key.Atom? && Legal(more[i].key) && Legal(more[i].value)
  }

  lemma {:induction false} PutAllIsLegal(entries: seq<Entry>, more: seq<Entry>)
    requires Legal(Dict(entries)) && LegalPairs(more)
    ensures Legal(Dict(PutAll(entries, more)))
    decreases |more|
  {
    hide Legal, Put;
    if more != [] {
      PutIsLegal(entries, more[0].key, more[0].value);
      PutAllIsLegal(Put(entries, more[0].key, more[0].value), more[1..]);
    }
  }

  lemma {:induction false} WithoutIsLegal(entries: seq<Entry>, key: Value)
    requires Legal(Dict(entries))
    ensures Legal(Dict(Without(entries, key)))
  {
    hide SameKey, IndexOf;
    var i := IndexOf(entries, key);
    if i < |entries| {
      var r := Without(entries, key);
      assert forall j :: 0 <= j < |r| ==> r[j] == entries[if j < i then j else j + 1];
    }
  }

  /** The entry the key selects is gone, the others keep their order. */
  lemma {:induction false} WithoutOne(entries: seq<Entry>, key: Value)
    ensures if forall i :: 0 <= i < |entries| ==> !SameKey(entries[i].key, key) then Without(entries, key) == entries
            else exists i :: 0 <= i < |entries| && SameKey(entries[i].key, key)
                             && Without(entries, key) == entries[..i] + entries[i + 1..]
  {
    hide SameKey;
  }

  /** A key that was removed finds nothing; every other key finds what it did. */
  lemma {:induction false} WithoutFound(entries: seq<Entry>, key: Value, other: Value)
    requires DistinctKeys(entries)
    ensures Found(Without(entries, key), other) == if SameKey(key, other) then None else Found(entries, other)
  {
    hide SameKey, Found;
    var n, r := IndexOf(entries, key), Without(entries, key);
    FoundIsThere(entries, other);
    FoundIsThere(r, other);
    assert n < |entries| ==> forall i :: 0 <= i < |r| ==> r[i] == entries[if i < n then i else i + 1];
    assert DistinctKeys(r);
    if SameKey(key, other) {
      forall i | 0 <= i < |r| ensures !SameKey(r[i].key, other) {
        SameKeys(r[i].key, other, key);
        SameKeys(key, other, other);
        if n < |entries| {
          SameKeys(entries[n].key, key, r[i].key);
          SameKeys(r[i].key, key, entries[n].key);
        }
      }
    } else if n < |entries| {
      SameKeys(entries[n].key, key, other);
      forall i | 0 <= i < |entries| && SameKey(entries[i].key, other)
        ensures Found(r, other) == Found(entries, other)
      {
        assert i != n;
        assert r[if i < n then i else i - 1] == entries[i];
      }
    }
  }

  // ----- What commits do, on values ----------------------------------------------------------------------

  /** A store and its backend's payload. */
  datatype State = State(data: seq<Entry>, lastPayload: bytes, corrupt: bool, dirty: bool, content: bytes)

  predicate FitsIn(capacity: nat, payload: bytes) { capacity == 0 || |payload| <= capacity }

  /** The write of a commit would go through. */
  predicate Persists(capacity: nat, st: State) {
    Packb(Dict(st.data)).Ok? && FitsIn(capacity, Packb(Dict(st.data)).data)
  }

  function Persisted(st: State, payload: bytes): State { State(st.data, payload, false, false, payload) }

  function Committed(capacity: nat, st: State): State {
    if Persists(capacity, st) then Persisted(st, Packb(Dict(st.data)).data) else st
  }

  function CommittedIfChanged(capacity: nat, st: State): State {
    if !st.dirty || Packb(Dict(st.data)).Refused? then st
    else if Packb(Dict(st.data)).data == st.lastPayload then st.(dirty := false)
    else Committed(capacity, st)
  }

  /** One owner's view of the backend is right: corrupt exactly when the payload does not load, and a store that is
      neither dirty nor corrupt holds exactly what the payload loads to. */
  predicate Coherent(st: State) {
    && Legal(Dict(st.data))
    && (st.corrupt <==> Load(st.content).None?)
    && (st.corrupt ==> st.lastPayload == [])
    && (!st.corrupt ==> st.lastPayload == st.content)
    && (!st.corrupt && !st.dirty ==> Load(st.content) == Some(st.data))
  }

  /** What was packed loads again. */
  lemma {:induction false} LoadPacked(entries: seq<Entry>)
    requires Legal(Dict(entries)) && Packb(Dict(entries)).Ok?
    ensures Packb(Dict(entries)).data != [] && Load(Packb(Dict(entries)).data) == Some(entries)
  {
    UnpackPack(Dict(entries));
    RoundTrip(Dict(entries), 0, []);
    hide Encode, Decode, Legal;
  }

  lemma {:induction false} CommitKeepsCoherence(capacity: nat, st: State)
    requires Coherent(st)
    ensures Coherent(Committed(capacity, st)) && Coherent(CommittedIfChanged(capacity, st))
  {
    hide Packb, Load, Legal;
    if Packb(Dict(st.data)).Ok? {
      LoadPacked(st.data);
    }
  }

  /** commit_if_changed leaves the backend loading to the same dict as commit, in every coherent state but one kind:
      a clean store over a corrupt payload, which only commit would repair. */
  lemma {:induction false} CommitsAgreeIff(capacity: nat, st: State)
    requires Coherent(st)
    ensures Load(CommittedIfChanged(capacity, st).content) == Load(Committed(capacity, st).content)
            <==> !(st.corrupt && !st.dirty && Persists(capacity, st))
  {
    hide Packb, Load, Legal;
    if Packb(Dict(st.data)).Ok? {
      LoadPacked(st.data);
    }
  }

  /** What construction makes of the backend's payload: a payload that does not load parks the store empty. */
  function Opened(content: bytes): State {
    match Load(content)
    case None => State([], [], true, false, content)
    case Some(entries) => State(entries, content, false, false, content)
  }

  function Reread(st: State): State {
    match Load(st.content)
    case None => st.(dirty := false)
    case Some(entries) => State(entries, st.content, false, false, st.content)
  }

  /** A store opened over a payload that is no MessagePack: commit_if_changed leaves it, commit repairs it. */
  lemma {:induction false} CommitsDiffer()
    ensures var st := Opened([0xC1]);
            && Coherent(st)
            && Load(CommittedIfChanged(0, st).content) == None
            && Load(Committed(0, st).content) == Some([])
  {
    var content: bytes := [0xC1];
    assert Decode(content, 0) == Fault(Unsupported);
    assert Load(content) == None;
    EmptyPacks();
    hide Load, Packb;
    LoadPacked([]);
  }

  lemma {:induction false} EmptyPacks()
    ensures Packb(Dict([])).Ok? && Legal(Dict([]))
  {
    assert EncodeEntries([], 1) == Ok([]);
  }

  // ----- The store ------------------------------------------------------------------------------------------

  class Backend {
    const capacity: nat
    var content: bytes

    constructor (capacity: nat, content: bytes)
      ensures this.capacity == capacity && this.content == content
    {
      this.capacity, this.content := capacity, content;
    }
  }

  datatype Outcome = Done | Skipped | StoreFull | Unpackable | StoreCorrupt | KeyError

  class Store {
    const backend: Backend
    var data: seq<Entry>
    var lastPayload: bytes
    var isCorrupt: bool
    var dirty: bool

    function Now(): State
      reads this, backend
    {
      State(data, lastPayload, isCorrupt, dirty, backend.content)
    }

    /** Construction reads the backend once; a payload that does not load parks the store empty. */
    constructor (backend: Backend)
      ensures this.backend == backend && Coherent(Now()) && Now() == Opened(backend.content)
    {
      this.backend := backend;
      data, lastPayload, isCorrupt, dirty := [], [], false, false;
      new;
      var outcome := Reload();
      if outcome == StoreCorrupt {
        data, lastPayload, isCorrupt := [], [], true;
      }
    }

    /** reload: a payload that does not load raises, after the dirty flag is gone. */
    method Reload() returns (outcome: Outcome)
      modifies this
      ensures Now() == Reread(old(Now()))
      ensures outcome == if Load(backend.content).None? then StoreCorrupt else Done
      ensures !isCorrupt && outcome == Done ==> Legal(Dict(data))
      ensures old(Coherent(Now())) ==> Coherent(Now())
    {
      hide Unpackb, Legal;
      dirty := false;
      LoadsLegal(backend.content);
      var payload := backend.content;
      if payload == [] {
        data, lastPayload, isCorrupt := [], [], false;
        return Done;
      }
      var loaded := Unpackb(payload);
      if loaded.ValueError? || !loaded.value.Dict? {
        return StoreCorrupt;
      }
      data, lastPayload, isCorrupt := loaded.value.entries, payload, false;
      return Done;
    }

    /** _persist */
    method Persist(payload: bytes) returns (outcome: Outcome)
      modifies this, backend
      ensures if FitsIn(backend.capacity, payload) then outcome == Done && Now() == Persisted(old(Now()), payload)
              else outcome == StoreFull && Now() == old(Now())
    {
      if 0 < backend.capacity < |payload| {
        return StoreFull;
      }
      backend.content := payload;
      lastPayload, isCorrupt, dirty := payload, false, false;
      outcome := Done;
    }

    /** commit: a failure, for size or content, changes nothing. */
    method Commit() returns (outcome: Outcome)
      modifies this, backend
      ensures Now() == Committed(backend.capacity, old(Now()))
      ensures var packed := Packb(Dict(old(data)));
              && (outcome == Done <==>
                    packed.Ok? && (backend.capacity == 0 || |packed.data| <= backend.capacity))
              && (outcome == Done ==> backend.content == packed.data && data == old(data) && !dirty && !isCorrupt)
      ensures outcome != Done ==> Now() == old(Now())
      ensures old(Coherent(Now())) ==> Coherent(Now())
    {
      hide Packb, Coherent;
      if Coherent(Now()) {
        CommitKeepsCoherence(backend.capacity, Now());
      }
      var packed := Packb(Dict(data));
      if packed.Refused? {
        return Unpackable;
      }
      outcome := Persist(packed.data);
    }

    method CommitIfChanged() returns (outcome: Outcome)
      modifies this, backend
      ensures Now() == CommittedIfChanged(backend.capacity, old(Now()))
      ensures outcome == Skipped ==> backend.content == old(backend.content) && !dirty && data == old(data)
      ensures var packed := Packb(Dict(old(data)));
              && (outcome == Skipped <==> !old(dirty) || packed == Ok(old(lastPayload)))
              && (outcome == Done ==>
                    packed == Ok(backend.content) && data == old(data) && !dirty && !isCorrupt)
      ensures outcome != Done && outcome != Skipped ==> Now() == old(Now())
      ensures old(Coherent(Now())) ==> Coherent(Now())
    {
      hide Packb, Coherent;
      if Coherent(Now()) {
        CommitKeepsCoherence(backend.capacity, Now());
      }
      if !dirty {
        return Skipped;
      }
      var packed := Packb(Dict(data));
      if packed.Refused? {
        return Unpackable;
      }
      if packed.data == lastPayload {
        dirty := false;
        return Skipped;
      }
      outcome := Persist(packed.data);
    }

    method SetItem(key: Value, value: Value)
      requires key.Atom? && Legal(key) && Legal(value)
      modifies this`data, this`dirty
      ensures Now() == old(Now()).(data := Put(old(data), key, value), dirty := true)
      ensures forall k :: Found(data, k) == if SameKey(key, k) then Some(value) else Found(old(data), k)
      ensures old(Coherent(Now())) ==> Coherent(Now())
    {
      hide Legal, Put, Load, Found, SameKey;
      forall k ensures Found(Put(data, key, value), k) == if SameKey(key, k) then Some(value) else Found(data, k) {
        PutFound(data, key, value, k);
      }
      if Coherent(Now()) {
        PutIsLegal(data, key, value);
      }
      data := Put(data, key, value);
      dirty := true;
    }

    /** __delitem__, and pop without a default: a missing key changes nothing. */
    method DelItem(key: Value) returns (outcome: Outcome)
      modifies this`data, this`dirty
      ensures outcome == (if IndexOf(old(data), key) == |old(data)| then KeyError else Done)
      ensures Now() == if outcome == KeyError then old(Now())
                else old(Now()).(data := Without(old(data), key), dirty := true)
      ensures outcome == KeyError <==> Found(old(data), key).None?
      ensures old(Coherent(Now())) ==>
                forall k :: Found(data, k) == if SameKey(key, k) then None else Found(old(data), k)
      ensures old(Coherent(Now())) ==> Coherent(Now())
    {
      hide Legal, IndexOf, Load, SameKey, Without;
      if Coherent(Now()) {
        WithoutIsLegal(data, key);
        WithoutFinds(data, key);
      }
      NotFoundUnchanged(data, key);
      if IndexOf(data, key) == |data| {
        return KeyError;
      }
      data := Without(data, key);
      dirty := true;
      outcome := Done;
    }

    /** pop with a default. */
    method Pop(key: Value, default: Value) returns (value: Value)
      modifies this`data, this`dirty
      ensures var i := IndexOf(old(data), key); value == if i < |old(data)| then old(data)[i].value else default
      ensures value == if Found(old(data), key).Some? then Found(old(data), key).value else default
      ensures Now() == old(Now()).(data := Without(old(data), key), dirty := true)
      ensures old(Coherent(Now())) ==>
                forall k :: Found(data, k) == if SameKey(key, k) then None else Found(old(data), k)
      ensures old(Coherent(Now())) ==> Coherent(Now())
    {
      hide Legal, IndexOf, Load, SameKey, Without;
      if Coherent(Now()) {
        WithoutIsLegal(data, key);
        WithoutFinds(data, key);
      }
      var i := IndexOf(data, key);
      value := if i < |data| then data[i].value else default;
      data := Without(data, key);
      dirty := true;
    }

    method Clear()
      modifies this`data, this`dirty
      ensures Now() == old(Now()).(data := [], dirty := true)
      ensures old(Coherent(Now())) ==> Coherent(Now())
    {
      hide Load;
      data := [];
      dirty := true;
    }

    method Update(other: seq<Entry>)
      requires LegalPairs(other)
      modifies this`data, this`dirty
      ensures Now() == old(Now()).(data := PutAll(old(data), other), dirty := true)
      ensures forall k, i :: LastWith(other, i, k) ==> Found(data, k) == Some(other[i].value)
      ensures forall k :: Lacks(other, k) ==> Found(data, k) == Found(old(data), k)
      ensures old(Coherent(Now())) ==> Coherent(Now())
    {
      hide Legal, PutAll, Load, Found, SameKey;
      UpdateFinds(data, other);
      if Coherent(Now()) {
        PutAllIsLegal(data, other);
      }
      data := PutAll(data, other);
      dirty := true;
    }
  }

  lemma {:induction false} WithoutFinds(entries: seq<Entry>, key: Value)
    requires Legal(Dict(entries))
    ensures forall k :: Found(Without(entries, key), k) == if SameKey(key, k) then None else Found(entries, k)
  {
    hide Found, SameKey, Without;
    forall k ensures Found(Without(entries, key), k) == if SameKey(key, k) then None else Found(entries, k) {
      WithoutFound(entries, key, k);
    }
  }

  lemma {:induction false} NotFoundUnchanged(entries: seq<Entry>, key: Value)
    ensures Found(entries, key).None? <==> IndexOf(entries, key) == |entries|
    ensures Found(entries, key).None? ==> Without(entries, key) == entries
  {
  }

  /** No pair has this key. */
  predicate Lacks(pairs: seq<Entry>, key: Value) { forall i :: 0 <= i < |pairs| ==> !SameKey(pairs[i].key, key) }

  lemma {:induction false} UpdateFinds(entries: seq<Entry>, other: seq<Entry>)
    ensures forall k, i :: LastWith(other, i, k) ==> Found(PutAll(entries, other), k) == Some(other[i].value)
    ensures forall k :: Lacks(other, k) ==> Found(PutAll(entries, other), k) == Found(entries, k)
  {
    hide Found, SameKey, PutAll;
    forall k, i | LastWith(other, i, k) ensures Found(PutAll(entries, other), k) == Some(other[i].value) {
      PutAllFound(entries, other, k);
    }
    forall k | Lacks(other, k) ensures Found(PutAll(entries, other), k) == Found(entries, k) {
      PutAllFound(entries, other, k);
    }
  }

  lemma {:induction false} LoadsLegal(payload: bytes)
    ensures Load(payload).Some? ==> Legal(Dict(Load(payload).value))
  {
    hide Decode, Encode;
    if payload != [] && Decode(payload, 0).Decoded? {
      Repacks(payload, 0);
    }
  }

  // ----- Whole runs -----------------------------------------------------------------------------------------

  datatype Op =
    | Set(key: Value, value: Value)
    | Delete(key: Value)
    | Take(key: Value, default: Value)
    | Empty
    | Merge(other: seq<Entry>)
    | CommitNow
    | CommitChanges
    | Reload

  predicate LegalOp(op: Op) {
    match op
    case Set(key, value) => key.Atom? && Legal(key) && Legal(value)
    case Merge(other) => LegalPairs(other)
    case _ => true
  }

  /** What each operation makes of a store. */
  function Stepped(capacity: nat, st: State, op: Op): State {
    match op
    case Set(key, value) => st.(data := Put(st.data, key, value), dirty := true)
    case Delete(key) =>
      if IndexOf(st.data, key) == |st.data| then st else st.(data := Without(st.data, key), dirty := true)
    case Take(key, _) => st.(data := Without(st.data, key), dirty := true)
    case Empty => st.(data := [], dirty := true)
    case Merge(other) => st.(data := PutAll(st.data, other), dirty := true)
    case CommitNow => Committed(capacity, st)
    case CommitChanges => CommittedIfChanged(capacity, st)
    case Reload => Reread(st)
  }

  function After(capacity: nat, st: State, ops: seq<Op>): State {
    if ops == [] then st else Stepped(capacity, After(capacity, st, ops[..|ops| - 1]), ops[|ops| - 1])
  }

  /** The operation does not concern the key. */
  predicate Spares(op: Op, key: Value) {
    match op
    case Set(k, _) => !SameKey(k, key)
    case Delete(k) => !SameKey(k, key)
    case Take(k, _) => !SameKey(k, key)
    case Merge(other) => Lacks(other, key)
    case CommitNow => true
    case CommitChanges => true
    case _ => false
  }

  /** No operation from the i-th on concerns the key. */
  predicate Undisturbed(ops: seq<Op>, i: int, key: Value) { forall j :: 0 <= i <= j < |ops| ==> Spares(ops[j], key) }

  /** What the operation says a key finds, if it says anything. */
  ghost predicate Says(op: Op, key: Value, found: Option<Value>) {
    match op
    case Set(k, v) => SameKey(k, key) && found == Some(v)
    case Delete(k) => SameKey(k, key) && found == None
    case Take(k, _) => SameKey(k, key) && found == None
    case Empty => found == None
    case Merge(other) => exists i :: LastWith(other, i, key) && found == Some(other[i].value)
    case _ => false
  }

  lemma {:induction false} SparedKeeps(capacity: nat, st: State, op: Op, key: Value)
    requires Legal(Dict(st.data)) && Spares(op, key)
    ensures Found(Stepped(capacity, st, op).data, key) == Found(st.data, key)
  {
    hide Found, SameKey, Put, PutAll, Without, Packb, IndexOf;
    match op
    case Set(k, v) => PutFound(st.data, k, v, key);
    case Delete(k) => WithoutFound(st.data, k, key);
    case Take(k, _) => WithoutFound(st.data, k, key);
    case Merge(other) => UpdateFinds(st.data, other);
    case _ =>
  }

  lemma {:induction false} SaidIsFound(capacity: nat, st: State, op: Op, key: Value, found: Option<Value>)
    requires Legal(Dict(st.data)) && Says(op, key, found)
    ensures Found(Stepped(capacity, st, op).data, key) == found
  {
    hide Found, SameKey, Put, PutAll, Without, Packb, IndexOf;
    match op
    case Set(k, v) => PutFound(st.data, k, v, key);
    case Delete(k) =>
      WithoutFound(st.data, k, key);
      NotFoundUnchanged(st.data, k);
    case Take(k, _) => WithoutFound(st.data, k, key);
    case Empty => NothingFound(key);
    case Merge(other) => UpdateFinds(st.data, other);
    case _ =>
  }

  lemma {:induction false} StepsAreLegal(capacity: nat, st: State, op: Op)
    requires Coherent(st) && LegalOp(op)
    ensures Coherent(Stepped(capacity, st, op))
  {
    hide Legal, Load, Packb, Put, PutAll, Without, IndexOf;
    match op
    case Set(k, v) => PutIsLegal(st.data, k, v);
    case Delete(k) => WithoutIsLegal(st.data, k);
    case Take(k, _) => WithoutIsLegal(st.data, k);
    case Empty => EmptyPacks();
    case Merge(other) => PutAllIsLegal(st.data, other);
    case CommitNow => CommitKeepsCoherence(capacity, st);
    case CommitChanges => CommitKeepsCoherence(capacity, st);
    case Reload => LoadsLegal(st.content);
  }

  lemma {:induction false} RunsAreLegal(capacity: nat, st: State, ops: seq<Op>)
    requires Coherent(st) && forall i :: 0 <= i < |ops| ==> LegalOp(ops[i])
    ensures Coherent(After(capacity, st, ops))
    decreases |ops|
  {
    hide Coherent, Stepped, LegalOp;
    if ops != [] {
      RunsAreLegal(capacity, st, ops[..|ops| - 1]);
      StepsAreLegal(capacity, After(capacity, st, ops[..|ops| - 1]), ops[|ops| - 1]);
    }
  }

  /** A key no operation from the i-th on concerns finds in the end what it found before the i-th. */
  lemma {:induction false} UndisturbedKeeps(capacity: nat, st: State, ops: seq<Op>, i: nat, key: Value)
    requires Coherent(st) && (forall j :: 0 <= j < |ops| ==> LegalOp(ops[j]))
    requires i <= |ops| && Undisturbed(ops, i, key)
    ensures Found(After(capacity, st, ops).data, key) == Found(After(capacity, st, ops[..i]).data, key)
    decreases |ops|
  {
    hide Coherent, Stepped, LegalOp, Found, Spares;
    if i == |ops| {
      assert ops[..i] == ops;
    } else {
      var init := ops[..|ops| - 1];
      UndisturbedKeeps(capacity, st, init, i, key);
      assert init[..i] == ops[..i];
      RunsAreLegal(capacity, st, init);
      LegalData(After(capacity, st, init));
      SparedKeeps(capacity, After(capacity, st, init), ops[|ops| - 1], key);
    }
  }

  lemma {:induction false} LegalData(st: State)
    requires Coherent(st)
    ensures Legal(Dict(st.data))
  {
  }

  /** What the last operation concerning a key says is what the key finds in the end. */
  lemma {:induction false} LastSaid(capacity: nat, st: State, ops: seq<Op>, i: nat, key: Value,
                                     found: Option<Value>)
    requires Coherent(st) && (forall j :: 0 <= j < |ops| ==> LegalOp(ops[j]))
    requires i < |ops| && Says(ops[i], key, found) && Undisturbed(ops, i + 1, key)
    ensures Found(After(capacity, st, ops).data, key) == found
  {
    hide Coherent, Stepped, LegalOp, Found, Spares, Says;
    UndisturbedKeeps(capacity, st, ops, i + 1, key);
    assert ops[..i + 1][..i] == ops[..i];
    RunsAreLegal(capacity, st, ops[..i]);
    LegalData(After(capacity, st, ops[..i]));
    SaidIsFound(capacity, After(capacity, st, ops[..i]), ops[i], key, found);
  }

  method Perform(store: Store, op: Op)
    requires LegalOp(op) && Coherent(store.Now())
    modifies store, store.backend
    ensures Coherent(store.Now()) && store.Now() == Stepped(store.backend.capacity, old(store.Now()), op)
    ensures store.isCorrupt ==> store.backend.content == old(store.backend.content) && old(store.isCorrupt)
  {
    hide Load, Legal, Packb, Put, PutAll, IndexOf, Without;
    match op
    case Set(key, value) => store.SetItem(key, value);
    case Delete(key) => var _ := store.DelItem(key);
    case Take(key, default) => var _ := store.Pop(key, default);
    case Empty => store.Clear();
    case Merge(other) => store.Update(other);
    case CommitNow => var _ := store.Commit();
    case CommitChanges => var _ := store.CommitIfChanged();
    case Reload => var _ := store.Reload();
  }

  lemma {:induction false} CommitGoesThrough(capacity: nat, st: State)
    ensures var r := Stepped(capacity, st, CommitNow); Persists(capacity, r) ==> !r.dirty && !r.corrupt
  {
    hide Packb;
  }

  /** Over any run of mutations, commits and reloads on any initial payload: the store is what the operations make of
      the state it was opened in; a key finds what the last operation concerning it says; and when the store ends
      neither dirty nor corrupt, as after a commit that goes through, it is what a new store on the same backend
      reads. */
  method Session(capacity: nat, content: bytes, ops: seq<Op>) returns (last: State, reopened: State)
    requires forall i :: 0 <= i < |ops| ==> LegalOp(ops[i])
    ensures last == After(capacity, Opened(content), ops) && reopened == Opened(last.content)
    ensures Coherent(last) && Coherent(reopened)
    ensures !last.corrupt && !last.dirty ==> reopened.data == last.data && !reopened.corrupt
    ensures last.corrupt ==> last.content == content && reopened.corrupt
    ensures forall i, key, found :: 0 <= i < |ops| && Says(ops[i], key, found) && Undisturbed(ops, i + 1, key) ==>
              Found(last.data, key) == found
    ensures forall key :: Undisturbed(ops, 0, key) ==> Found(last.data, key) == Found(Opened(content).data, key)
    ensures ops != [] && ops[|ops| - 1].CommitNow? && Persists(capacity, last) ==> !last.dirty && !last.corrupt
  {
    hide Load, Legal, LegalOp, Stepped, Says, Spares, Found, Undisturbed;
    var backend := new Backend(capacity, content);
    var store := new Store(backend);
    ghost var first := store.Now();
    assert ops[..0] == [];
    for i := 0 to |ops|
      invariant fresh(store) && fresh(backend) && store.backend == backend
      invariant Coherent(store.Now())
      invariant store.isCorrupt ==> backend.content == content
      invariant store.Now() == After(capacity, first, ops[..i]) && backend.capacity == capacity
    {
      assert ops[..i + 1][..i] == ops[..i];
      Perform(store, ops[i]);
    }
    assert ops[..|ops|] == ops;
    last := store.Now();
    var again := new Store(backend);
    reopened := again.Now();
    forall i, key, found | 0 <= i < |ops| && Says(ops[i], key, found) && Undisturbed(ops, i + 1, key)
      ensures Found(last.data, key) == found
    {
      LastSaid(capacity, first, ops, i, key, found);
    }
    forall key | Undisturbed(ops, 0, key) ensures Found(last.data, key) == Found(first.data, key) {
      UndisturbedKeeps(capacity, first, ops, 0, key);
    }
    if ops != [] && ops[|ops| - 1].CommitNow? {
      CommitGoesThrough(capacity, After(capacity, first, ops[..|ops| - 1]));
    }
  }
}
