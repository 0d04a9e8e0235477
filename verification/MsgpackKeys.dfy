/** Dicts as what can be looked up in them: which keys are one key, and which value a key finds. */
module MsgpackKeys {
  import opened Basics
  import opened Bytes
  import opened MsgpackWire
  import opened Msgpack

  // ----- Keys -----------------------------------------------------------------------------------------

  /** True, 1 and 1.0 are one key, and so are False, 0, 0.0 and -0.0; a text or bytes is a key of its own; NaN finds
      nothing, not even itself. */
  lemma {:induction false} KeyExamples()
    ensures SameKey(Atom(Bool(true)), Atom(Int(1))) && SameKey(Atom(Int(1)), Atom(Float([0x3F, 0x80, 0, 0])))
    ensures SameKey(Atom(Bool(false)), Atom(Int(0))) && SameKey(Atom(Int(0)), Atom(Float([0x80, 0, 0, 0])))
    ensures !SameKey(Atom(Bool(true)), Atom(Bool(false))) && !SameKey(Atom(Int(1)), Atom(Int(2)))
    ensures !SameKey(Atom(Int(49)), Atom(Str([49]))) && !SameKey(Atom(Str([49])), Atom(Bin([49])))
    ensures !SameKey(Atom(Nil), Atom(Bool(false))) && SameKey(Atom(Nil), Atom(Nil))
    ensures !SameKey(Atom(Float([0x7F, 0xC0, 0, 0])), Atom(Float([0x7F, 0xC0, 0, 0])))
  {
    ScaleOne();
  }

  function TwoTo(n: nat): nat { if n == 0 then 1 else 2 * TwoTo(n - 1) }

  lemma {:induction false} ScaleOne()
    ensures Scale(8388608, -23) == 1.0 && Scale(0, -149) == 0.0
  {
    hide Scale;
    assert TwoTo(4) == 16 && TwoTo(8) == 256 && TwoTo(12) == 4096;
    assert TwoTo(16) == 65536 && TwoTo(20) == 1048576 && TwoTo(23) == 8388608;
    Halvings(23);
    NothingScaled(149);
  }

  lemma {:induction false} Doubled(m: nat, exponent: int)
    requires exponent <= 0
    ensures Scale(2 * m, exponent) == 2.0 * Scale(m, exponent)
    decreases -exponent
  {
    if exponent < 0 {
      Doubled(m, exponent + 1);
    }
  }

  lemma {:induction false} Halvings(n: int)
    requires n >= 0
    ensures Scale(TwoTo(n), -n) == 1.0
  {
    if n > 0 {
      Halvings(n - 1);
      Doubled(TwoTo(n - 1), 1 - n);
    }
  }

  lemma {:induction false} NothingScaled(n: int)
    requires n >= 0
    ensures Scale(0, -n) == 0.0
  {
    if n > 0 {
      NothingScaled(n - 1);
    }
  }

  /** Being one key is symmetric and transitive. */
  lemma {:induction false} SameKeys(a: Value, b: Value, c: Value)
    ensures SameKey(a, b) <==> SameKey(b, a)
    ensures SameKey(a, b) && SameKey(b, c) ==> SameKey(a, c)
    ensures SameKey(a, b) ==> (SameKey(a, c) <==> SameKey(b, c))
  {
    hide FloatNumber;
  }

  // ----- What a key finds -----------------------------------------------------------------------------

  /** Position of the entry a key selects, or the length. */
  function IndexOf(entries: seq<Entry>, key: Value): (i: nat)
    ensures i <= |entries| && (i < |entries| ==> SameKey(entries[i].key, key))
    ensures forall j :: 0 <= j < i ==> !SameKey(entries[j].key, key)
  {
    if entries == [] || SameKey(entries[0].key, key) then 0 else IndexOf(entries[1..], key) + 1
  }

  /** The value a key finds. */
  function Found(entries: seq<Entry>, key: Value): Option<Value> {
    var i := IndexOf(entries, key);
    if i < |entries| then Some(entries[i].value) else None
  }

  /** The value found is that of an entry with this key; a key that finds nothing is nowhere. */
  lemma {:induction false} FoundIsThere(entries: seq<Entry>, key: Value)
    ensures Found(entries, key).None? <==> forall i :: 0 <= i < |entries| ==> !SameKey(entries[i].key, key)
    ensures DistinctKeys(entries) ==>
              forall i :: 0 <= i < |entries| && SameKey(entries[i].key, key) ==>
                Found(entries, key) == Some(entries[i].value)
  {
    hide SameKey;
    var n := IndexOf(entries, key);
    forall i | DistinctKeys(entries) && 0 <= i < |entries| && SameKey(entries[i].key, key)
      ensures Found(entries, key) == Some(entries[i].value)
    {
      if n < i {
        SameKeys(entries[n].key, key, entries[i].key);
        SameKeys(entries[i].key, key, key);
      }
    }
  }

  lemma {:induction false} FoundRest(entries: seq<Entry>, key: Value)
    requires entries != []
    ensures Found(entries, key)
         == if SameKey(entries[0].key, key) then Some(entries[0].value) else Found(entries[1..], key)
  {
    hide SameKey;
  }

  /** result[key] = value: the key finds the value from now on, and every other key what it found before. */
  lemma {:induction false} PutFound(entries: seq<Entry>, key: Value, value: Value, other: Value)
    ensures Found(Put(entries, key, value), other)
         == if SameKey(key, other) then Some(value) else Found(entries, other)
  {
    hide SameKey, IndexOf;
    var r := Put(entries, key, value);
    FoundRest(r, other);
    if entries == [] {
      assert r[1..] == [];
      NothingFound(other);
    } else {
      FoundRest(entries, other);
      SameKeys(entries[0].key, key, other);
      SameKeys(key, entries[0].key, other);
      if SameKey(entries[0].key, key) {
        assert r[1..] == entries[1..];
      } else {
        assert r[1..] == Put(entries[1..], key, value);
        PutFound(entries[1..], key, value, other);
        SameKeys(entries[0].key, other, key);
        SameKeys(key, other, other);
      }
    }
  }

  lemma {:induction false} NothingFound(key: Value)
    ensures Found([], key) == None
  {
  }

  function PutAll(entries: seq<Entry>, more: seq<Entry>): seq<Entry>
    decreases |more|
  {
    if more == [] then entries else PutAll(Put(entries, more[0].key, more[0].value), more[1..])
  }

  /** The i-th pair is the last one with this key. */
  predicate LastWith(pairs: seq<Entry>, i: int, key: Value) {
    && 0 <= i < |pairs| && SameKey(pairs[i].key, key)
    && forall j :: i < j < |pairs| ==> !SameKey(pairs[j].key, key)
  }

  /** update: of several pairs with one key the last one counts, and keys without a pair find what they did. */
  lemma {:induction false} PutAllFound(entries: seq<Entry>, more: seq<Entry>, key: Value)
    ensures (forall i :: 0 <= i < |more| ==> !SameKey(more[i].key, key)) ==>
              Found(PutAll(entries, more), key) == Found(entries, key)
    ensures forall i :: LastWith(more, i, key) ==> Found(PutAll(entries, more), key) == Some(more[i].value)
    decreases |more|
  {
    hide SameKey, Found, Put;
    if more != [] {
      var e, rest := more[0], more[1..];
      PutFound(entries, e.key, e.value, key);
      PutAllFound(Put(entries, e.key, e.value), rest, key);
      forall i | LastWith(more, i, key)
        ensures Found(PutAll(entries, more), key) == Some(more[i].value)
      {
        assert forall j :: 0 <= j < |rest| ==> rest[j] == more[j + 1];
        if i > 0 {
          assert rest[i - 1] == more[i] && LastWith(rest, i - 1, key);
        }
      }
    }
  }

  // ----- Maps on the wire -----------------------------------------------------------------------------

  /** The pairs of a map, whether or not their keys repeat, are read and stored one after the other. */
  lemma {:induction false} PairsRead(pairs: seq<Entry>, depth: nat, before: seq<Entry>, rest: bytes)
    requires EncodeEntries(pairs, depth).Ok?
    requires forall i :: 0 <= i < |pairs| ==> pairs[i].key.Atom? && Legal(pairs[i].key) && Legal(pairs[i].value)
    ensures DecodeEntries(EncodeEntries(pairs, depth).data + rest, |pairs|, depth, before)
         == Decoded(PutAll(before, pairs), |EncodeEntries(pairs, depth).data|)
    decreases |pairs|
  {
    hide Decode, Encode, SameKey, Put, Legal, DistinctKeys, EncodeEntries, DecodeEntries;
    if pairs == [] {
      NoPairs(rest, depth, before);
    } else {
      FirstPair(pairs, depth);
      var e, b := pairs[0], EncodeEntries(pairs[1..], depth).data;
      var x, y := Encode(e.key, depth).data, Encode(e.value, depth).data;
      EntryRoundTrip(e, depth, b + rest);
      PairsRead(pairs[1..], depth, Put(before, e.key, e.value), rest);
      var s := EncodeEntries(pairs, depth).data + rest;
      assert s == x + y + (b + rest);
      PairDecodes(s, |pairs|, depth, before, e, x, y, b + rest);
    }
  }

  /** A map that names a key more than once is read as a dict in which the key finds its last value. */
  lemma {:induction false} RepeatedKeys(pairs: seq<Entry>, key: Value, rest: bytes)
    requires |pairs| <= 0xFFFF && EncodeEntries(pairs, 1).Ok?
    requires forall i :: 0 <= i < |pairs| ==> pairs[i].key.Atom? && Legal(pairs[i].key) && Legal(pairs[i].value)
    ensures var r := Decode(Head(Map(|pairs|)) + EncodeEntries(pairs, 1).data + rest, 0);
            && r.Decoded? && r.value.Dict?
            && (forall i :: LastWith(pairs, i, key) ==> Found(r.value.entries, key) == Some(pairs[i].value))
            && ((forall i :: 0 <= i < |pairs| ==> !SameKey(pairs[i].key, key)) ==> Found(r.value.entries, key) == None)
  {
    hide DecodeEntries, EncodeEntries, SameKey, Legal, Found, PutAll, Head, ReadHead;
    var head, body := Head(Map(|pairs|)), EncodeEntries(pairs, 1).data;
    var s := head + body + rest;
    assert s == head + (body + rest) && s[|head|..] == body + rest;
    HeadRoundTrip(Map(|pairs|), body + rest);
    PairsRead(pairs, 1, [], rest);
    PairsTakeTwo(pairs, 1);
    PutAllFound([], pairs, key);
    NothingFound(key);
  }

  lemma {:induction false} PairsTakeTwo(pairs: seq<Entry>, depth: nat)
    requires EncodeEntries(pairs, depth).Ok?
    requires forall i :: 0 <= i < |pairs| ==> pairs[i].key.Atom? && Legal(pairs[i].key) && Legal(pairs[i].value)
    ensures 2 * |pairs| <= |EncodeEntries(pairs, depth).data|
    decreases |pairs|
  {
    hide Decode, Encode, Legal, EncodeEntries;
    if pairs != [] {
      FirstPair(pairs, depth);
      EntryRoundTrip(pairs[0], depth, []);
      PairsTakeTwo(pairs[1..], depth);
    }
  }
}
