/** MessagePack values: the encoder, the decoder and what they promise each other. */
module Msgpack {
  import opened Bytes
  import Utf8
  import opened MsgpackWire

  type Atomic = t: Token | !t.Array? && !t.Map? witness Nil

  /** A dict is its entries in insertion order. */
  datatype Value = Atom(atom: Atomic) | List(items: seq<Value>) | Dict(entries: seq<Entry>)
  datatype Entry = Entry(key: Value, value: Value)

  const MAX_DEPTH := 8

  // ----- Keys: True, 1 and 1.0 are one key --------------------------------------------------------

  datatype Number = NotANumber | Infinite(negative: bool) | Finite(value: real)

  function Scale(m: nat, exponent: int): real
    decreases if exponent < 0 then -exponent else exponent
  {
    if exponent == 0 then m as real
    else if exponent > 0 then 2.0 * Scale(m, exponent - 1)
    else Scale(m, exponent + 1) / 2.0
  }

  /** The number a single-precision pattern stands for. */
  function FloatNumber(bits: bytes): Number
    requires |bits| == 4
  {
    var negative := bits[0] >= 128;
    var exponent: int := (bits[0] % 128) * 2 + bits[1] / 128;
    var fraction: nat := 65536 * (bits[1] as int % 128) + Get16(bits, 2);
    if exponent == 255 then if fraction == 0 then Infinite(negative) else NotANumber
    else
      var size := if exponent == 0 then Scale(fraction, -149) else Scale(8388608 + fraction, exponent - 150);
      Finite(if negative then -size else size)
  }

  function NumberOf(t: Atomic): (n: Number)
    requires t.Bool? || t.Int? || t.Float?
  {
    match t
    case Bool(b) => Finite(if b then 1.0 else 0.0)
    case Int(i) => Finite(i as real)
    case Float(bits) => if |bits| == 4 then FloatNumber(bits) else NotANumber
  }

  predicate IsNumber(t: Atomic) { t.Bool? || t.Int? || t.Float? }

  /** Python's equality of dict keys. */
  predicate SameKey(a: Value, b: Value) {
    a.Atom? && b.Atom? &&
    if IsNumber(a.atom) && IsNumber(b.atom) then
      !NumberOf(a.atom).NotANumber? && NumberOf(a.atom) == NumberOf(b.atom)
    else a == b
  }

  /** result[key] = value: an equal key keeps its place and its first spelling. */
  function Put(entries: seq<Entry>, key: Value, value: Value): (r: seq<Entry>)
    ensures |entries| <= |r| <= |entries| + 1
  {
    if entries == [] then [Entry(key, value)]
    else if SameKey(entries[0].key, key) then [Entry(entries[0].key, value)] + entries[1..]
    else [entries[0]] + Put(entries[1..], key, value)
  }

  predicate DistinctKeys(entries: seq<Entry>) {
    forall i, j :: 0 <= i < j < |entries| ==> !SameKey(entries[i].key, entries[j].key)
  }

  /** Values as the runtime builds them: valid text, and dicts with scalar, pairwise different keys. */
  predicate Legal(v: Value) {
    match v
    case Atom(t) => (t.Str? ==> Utf8.Valid(t.utf8)) && (t.Float? ==> |t.bits| == 4)
    case List(items) => forall i :: 0 <= i < |items| ==> Legal(items[i])
    case Dict(entries) =>
      && DistinctKeys(entries)
      && forall i :: 0 <= i < |entries| ==> entries[i].key.Atom? && Legal(entries[i].key) && Legal(entries[i].value)
  }

  // ----- Encoding ------------------------------------------------------------------------------------

  function Join(a: Packed, b: Packed): Packed {
    if a.Refused? then a else if b.Refused? then b else Ok(a.data + b.data)
  }

  function Encode(v: Value, depth: nat): Packed
    decreases v
  {
    if depth > MAX_DEPTH then Refused(TooDeep)
    else match v
         case Atom(t) => if Writable(t) then Ok(Head(t)) else Refused(OutOfRange)
         case List(items) =>
           if |items| > 0xFFFF then Refused(OutOfRange)
           else Join(Ok(Head(Array(|items|))), EncodeItems(items, depth + 1))
         case Dict(entries) =>
           if |entries| > 0xFFFF then Refused(OutOfRange)
           else Join(Ok(Head(Map(|entries|))), EncodeEntries(entries, depth + 1))
  }

  function EncodeItems(items: seq<Value>, depth: nat): Packed
    decreases items
  {
    if items == [] then Ok([]) else Join(Encode(items[0], depth), EncodeItems(items[1..], depth))
  }

  function EncodeEntries(entries: seq<Entry>, depth: nat): Packed
    decreases entries
  {
    if entries == [] then Ok([])
    else Join(EncodeEntry(entries[0], depth), EncodeEntries(entries[1..], depth))
  }

  function EncodeEntry(e: Entry, depth: nat): Packed
    decreases e
  {
    Join(Encode(e.key, depth), Encode(e.value, depth))
  }

  function Packb(v: Value): Packed { Encode(v, 0) }

  // ----- Decoding ------------------------------------------------------------------------------------

  datatype Decoded<T> = Decoded(value: T, length: nat) | Fault(error: Error)

  function Left(depth: nat): nat { if depth <= MAX_DEPTH then MAX_DEPTH + 1 - depth else 0 }

  /** The value at the front of `s` and how many bytes it takes. */
  function Decode(s: bytes, depth: nat): (r: Decoded<Value>)
    ensures r.Decoded? ==> 1 <= r.length <= |s|
    decreases Left(depth), 0, 0
  {
    if depth > MAX_DEPTH then Fault(TooDeep)
    else match ReadHead(s)
         case Bad(e) => Fault(e)
         case Got(Array(n), h) =>
           if n > |s| - h then Fault(Truncated)
           else (match DecodeItems(s[h..], n, depth + 1)
                 case Fault(e) => Fault(e)
                 case Decoded(items, k) => Decoded(List(items), h + k))
         case Got(Map(n), h) =>
           if n * 2 > |s| - h then Fault(Truncated)
           else (match DecodeEntries(s[h..], n, depth + 1, [])
                 case Fault(e) => Fault(e)
                 case Decoded(entries, k) => Decoded(Dict(entries), h + k))
         case Got(t, h) => Decoded(Atom(t), h)
  }

  function DecodeItems(s: bytes, n: nat, depth: nat): (r: Decoded<seq<Value>>)
    ensures r.Decoded? ==> n <= r.length <= |s| && |r.value| == n
    decreases Left(depth), 1, n
  {
    if n == 0 then Decoded([], 0)
    else match Decode(s, depth)
         case Fault(e) => Fault(e)
         case Decoded(v, k) =>
           match DecodeItems(s[k..], n - 1, depth)
           case Fault(e) => Fault(e)
           case Decoded(more, m) => Decoded([v] + more, k + m)
  }

  function DecodeEntries(s: bytes, n: nat, depth: nat, entries: seq<Entry>): (r: Decoded<seq<Entry>>)
    ensures r.Decoded? ==> 2 * n <= r.length <= |s| && |r.value| <= |entries| + n
    decreases Left(depth), 1, n
  {
    if n == 0 then Decoded(entries, 0)
    else match Decode(s, depth)
         case Fault(e) => Fault(e)
         case Decoded(key, k) =>
           match Decode(s[k..], depth)
           case Fault(e) => Fault(e)
           case Decoded(value, m) =>
             if !key.Atom? then Fault(Unhashable)
             else match DecodeEntries(s[k + m..], n - 1, depth, Put(entries, key, value))
                  case Fault(e) => Fault(e)
                  case Decoded(all, r) => Decoded(all, k + m + r)
  }

  /** unpackb: every failure is a ValueError. */
  datatype Unpacked = Object(value: Value) | ValueError

  function Unpackb(data: bytes): Unpacked {
    match Decode(data, 0)
    case Fault(_) => ValueError
    case Decoded(v, n) => if n == |data| then Object(v) else ValueError
  }

  // ----- What the encoder takes ------------------------------------------------------------------------

  function Max(a: nat, b: nat): nat { if a <= b then b else a }

  /** How many containers the deepest part of a value is inside of. */
  function Height(v: Value): nat
    decreases v
  {
    match v
    case Atom(_) => 0
    case List(items) => if items == [] then 0 else 1 + HeightOfItems(items)
    case Dict(entries) => if entries == [] then 0 else 1 + HeightOfEntries(entries)
  }

  function HeightOfItems(items: seq<Value>): nat
    decreases items
  {
    if items == [] then 0 else Max(Height(items[0]), HeightOfItems(items[1..]))
  }

  function HeightOfEntry(e: Entry): nat
    decreases e
  {
    Max(Height(e.key), Height(e.value))
  }

  function HeightOfEntries(entries: seq<Entry>): nat
    decreases entries
  {
    if entries == [] then 0 else Max(HeightOfEntry(entries[0]), HeightOfEntries(entries[1..]))
  }

  /** Every number and every length is in the range of the subset. */
  predicate InRange(v: Value) {
    match v
    case Atom(t) => Writable(t)
    case List(items) => |items| <= 0xFFFF && forall i :: 0 <= i < |items| ==> InRange(items[i])
    case Dict(entries) =>
      |entries| <= 0xFFFF && forall i :: 0 <= i < |entries| ==> InRange(entries[i].key) && InRange(entries[i].value)
  }

  /** A value is encoded exactly when it is in range and nested no deeper than the cap. */
  lemma {:induction false} EncodesIff(v: Value, depth: nat)
    ensures Encode(v, depth).Ok? <==> depth + Height(v) <= MAX_DEPTH && InRange(v)
    decreases v
  {
    hide Head, Writable, EncodeItems, EncodeEntries, HeightOfItems, HeightOfEntries;
    match v
    case Atom(_) =>
    case List(items) => ItemsEncodeIff(items, depth + 1);
    case Dict(entries) => EntriesEncodeIff(entries, depth + 1);
  }

  lemma {:induction false} ItemsEncodeIff(items: seq<Value>, depth: nat)
    ensures EncodeItems(items, depth).Ok?
            <==> (items == [] || depth + HeightOfItems(items) <= MAX_DEPTH)
                 && forall i :: 0 <= i < |items| ==> InRange(items[i])
    decreases items
  {
    hide Head;
    if items != [] {
      EncodesIff(items[0], depth);
      ItemsEncodeIff(items[1..], depth);
      assert items == [items[0]] + items[1..];
    }
  }

  lemma {:induction false} EntriesEncodeIff(entries: seq<Entry>, depth: nat)
    ensures EncodeEntries(entries, depth).Ok?
            <==> (entries == [] || depth + HeightOfEntries(entries) <= MAX_DEPTH)
                 && forall i :: 0 <= i < |entries| ==> InRange(entries[i].key) && InRange(entries[i].value)
    decreases entries
  {
    hide Head;
    if entries != [] {
      EntryEncodesIff(entries[0], depth);
      EntriesEncodeIff(entries[1..], depth);
      assert entries == [entries[0]] + entries[1..];
    }
  }

  lemma {:induction false} EntryEncodesIff(e: Entry, depth: nat)
    ensures EncodeEntry(e, depth).Ok?
            <==> depth + HeightOfEntry(e) <= MAX_DEPTH && InRange(e.key) && InRange(e.value)
    decreases e
  {
    EncodesIff(e.key, depth);
    EncodesIff(e.value, depth);
  }

  // ----- Encoding, then decoding ---------------------------------------------------------------------------

  lemma {:induction false} AtomRoundTrip(t: Atomic, depth: nat, rest: bytes)
    requires Readable(t) && depth <= MAX_DEPTH
    ensures Decode(Head(t) + rest, depth) == Decoded(Atom(t), |Head(t)|)
  {
    hide Head, ReadHead, Readable;
    HeadRoundTrip(t, rest);
  }

  lemma {:induction false} ListDecodes(n: nat, items: seq<Value>, b: bytes, depth: nat, rest: bytes)
    requires depth <= MAX_DEPTH && n <= 0xFFFF && n <= |b|
    requires DecodeItems(b + rest, n, depth + 1) == Decoded(items, |b|)
    ensures Decode(Head(Array(n)) + b + rest, depth) == Decoded(List(items), |Head(Array(n)) + b|)
  {
    hide Head, ReadHead, DecodeItems;
    var h := Head(Array(n));
    HeadRoundTrip(Array(n), b + rest);
    assert h + b + rest == h + (b + rest) && (h + b + rest)[|h|..] == b + rest;
  }

  lemma {:induction false} DictDecodes(n: nat, entries: seq<Entry>, b: bytes, depth: nat, rest: bytes)
    requires depth <= MAX_DEPTH && n <= 0xFFFF && 2 * n <= |b|
    requires DecodeEntries(b + rest, n, depth + 1, []) == Decoded(entries, |b|)
    ensures Decode(Head(Map(n)) + b + rest, depth) == Decoded(Dict(entries), |Head(Map(n)) + b|)
  {
    hide Head, ReadHead, DecodeEntries;
    var h := Head(Map(n));
    HeadRoundTrip(Map(n), b + rest);
    assert h + b + rest == h + (b + rest) && (h + b + rest)[|h|..] == b + rest;
  }

  /** A value is read back from the front of any bytes its encoding begins, and no more than it is taken. */
  lemma {:induction false} RoundTrip(v: Value, depth: nat, rest: bytes)
    requires Legal(v) && Encode(v, depth).Ok?
    ensures Encode(v, depth).data != []
    ensures Decode(Encode(v, depth).data + rest, depth) == Decoded(v, |Encode(v, depth).data|)
    decreases v
  {
    hide Head, Decode, DecodeItems, DecodeEntries, EncodeItems, EncodeEntries, Utf8.Valid, DistinctKeys;
    match v
    case Atom(t) =>
      AtomRoundTrip(t, depth, rest);
    case List(items) =>
      ItemsRoundTrip(items, depth + 1, rest);
      ListDecodes(|items|, items, EncodeItems(items, depth + 1).data, depth, rest);
    case Dict(entries) =>
      assert [] + entries == entries;
      EntriesRoundTrip(entries, depth + 1, [], rest);
      DictDecodes(|entries|, entries, EncodeEntries(entries, depth + 1).data, depth, rest);
  }

  lemma {:induction false} ItemsRoundTrip(items: seq<Value>, depth: nat, rest: bytes)
    requires (forall i :: 0 <= i < |items| ==> Legal(items[i])) && EncodeItems(items, depth).Ok?
    ensures |items| <= |EncodeItems(items, depth).data|
    ensures DecodeItems(EncodeItems(items, depth).data + rest, |items|, depth)
         == Decoded(items, |EncodeItems(items, depth).data|)
    decreases items
  {
    hide Decode, Encode;
    if items != [] {
      var a, b := Encode(items[0], depth).data, EncodeItems(items[1..], depth).data;
      RoundTrip(items[0], depth, b + rest);
      ItemsRoundTrip(items[1..], depth, rest);
      assert a + b + rest == a + (b + rest) && (a + b + rest)[|a|..] == b + rest;
      assert [items[0]] + items[1..] == items;
    }
  }

  lemma {:induction false} PutNew(entries: seq<Entry>, key: Value, value: Value)
    requires forall i :: 0 <= i < |entries| ==> !SameKey(entries[i].key, key)
    ensures Put(entries, key, value) == entries + [Entry(key, value)]
  {
    hide SameKey;
    if entries != [] {
      PutNew(entries[1..], key, value);
    }
  }

  /** One pair is read and put into the dict. */
  lemma {:induction false} PairDecodes(s: bytes, n: nat, depth: nat, before: seq<Entry>, e: Entry, x: bytes, y: bytes,
                                       more: bytes)
    requires s == x + y + more && n > 0 && e.key.Atom?
    requires Decode(x + (y + more), depth) == Decoded(e.key, |x|) && Decode(y + more, depth) == Decoded(e.value, |y|)
    ensures DecodeEntries(s, n, depth, before)
         == match DecodeEntries(more, n - 1, depth, Put(before, e.key, e.value))
            case Fault(error) => Fault(error)
            case Decoded(all, r) => Decoded(all, |x| + |y| + r)
  {
    hide Decode, Put;
    assert s == x + (y + more) && s[|x|..] == y + more && s[|x| + |y|..] == more;
  }

  lemma {:induction false} EntriesRoundTrip(entries: seq<Entry>, depth: nat, before: seq<Entry>, rest: bytes)
    requires DistinctKeys(before + entries) && EncodeEntries(entries, depth).Ok?
    requires forall i :: 0 <= i < |entries| ==> entries[i].key.Atom? && Legal(entries[i].key) && Legal(entries[i].value)
    ensures 2 * |entries| <= |EncodeEntries(entries, depth).data|
    ensures DecodeEntries(EncodeEntries(entries, depth).data + rest, |entries|, depth, before)
         == Decoded(before + entries, |EncodeEntries(entries, depth).data|)
    decreases entries
  {
    hide Decode, Encode, SameKey, Put, Legal, DistinctKeys, EncodeEntries, DecodeEntries;
    if entries == [] {
      NoPairs(rest, depth, before);
    } else {
      FirstPair(entries, depth);
      var e, b := entries[0], EncodeEntries(entries[1..], depth).data;
      var x, y := Encode(e.key, depth).data, Encode(e.value, depth).data;
      EntryRoundTrip(e, depth, b + rest);
      FirstIsNew(before, entries);
      PutNew(before, e.key, e.value);
      assert before + [e] + entries[1..] == before + entries;
      EntriesRoundTrip(entries[1..], depth, before + [e], rest);
      var s := EncodeEntries(entries, depth).data + rest;
      assert s == x + y + (b + rest);
      PairDecodes(s, |entries|, depth, before, e, x, y, b + rest);
    }
  }

  lemma {:induction false} NoPairs(rest: bytes, depth: nat, before: seq<Entry>)
    ensures EncodeEntries([], depth) == Ok([]) && before + [] == before
    ensures DecodeEntries([] + rest, 0, depth, before) == Decoded(before, 0)
  {
  }

  lemma {:induction false} FirstPair(entries: seq<Entry>, depth: nat)
    requires entries != [] && EncodeEntries(entries, depth).Ok?
    ensures EncodeEntry(entries[0], depth).Ok? && EncodeEntries(entries[1..], depth).Ok?
    ensures EncodeEntries(entries, depth).data
         == EncodeEntry(entries[0], depth).data + EncodeEntries(entries[1..], depth).data
  {
    hide Encode;
  }

  lemma {:induction false} FirstIsNew(before: seq<Entry>, entries: seq<Entry>)
    requires DistinctKeys(before + entries) && entries != []
    ensures forall i :: 0 <= i < |before| ==> !SameKey(before[i].key, entries[0].key)
  {
    hide SameKey;
    var all := before + entries;
    assert all[|before|] == entries[0];
    assert forall i :: 0 <= i < |before| ==> all[i] == before[i];
  }

  lemma {:induction false} EntryRoundTrip(e: Entry, depth: nat, rest: bytes)
    requires Legal(e.key) && Legal(e.value) && EncodeEntry(e, depth).Ok?
    ensures var x, y := Encode(e.key, depth).data, Encode(e.value, depth).data;
            && x != [] && y != [] && EncodeEntry(e, depth).data == x + y
            && Decode(x + (y + rest), depth) == Decoded(e.key, |x|)
            && Decode(y + rest, depth) == Decoded(e.value, |y|)
    decreases e
  {
    hide Decode, Encode;
    var y := Encode(e.value, depth).data;
    RoundTrip(e.key, depth, y + rest);
    RoundTrip(e.value, depth, rest);
  }

  // ----- Decoding, then encoding ---------------------------------------------------------------------------

  lemma {:induction false} PutKeys(entries: seq<Entry>, key: Value, value: Value)
    ensures var r := Put(entries, key, value);
            && (forall i :: 0 <= i < |entries| ==> r[i].key == entries[i].key)
            && (forall i :: 0 <= i < |entries| ==> r[i].value == entries[i].value || r[i].value == value)
            && (|r| > |entries| ==>
                  r[|entries|] == Entry(key, value)
                  && forall i :: 0 <= i < |entries| ==> !SameKey(entries[i].key, key))
  {
    hide SameKey;
    if entries != [] && !SameKey(entries[0].key, key) {
      PutKeys(entries[1..], key, value);
      var r, q := Put(entries, key, value), Put(entries[1..], key, value);
      assert forall i :: 1 <= i < |r| ==> r[i] == q[i - 1];
      assert forall i :: 1 <= i < |entries| ==> entries[i] == entries[1..][i - 1];
    }
  }

  lemma {:induction false} PutIsLegal(entries: seq<Entry>, key: Value, value: Value)
    requires Legal(Dict(entries)) && key.Atom? && Legal(key) && Legal(value)
    ensures Legal(Dict(Put(entries, key, value)))
  {
    hide SameKey, Put, Utf8.Valid;
    PutKeys(entries, key, value);
  }

  /** Storing under a key costs no more room than the pair itself. */
  lemma {:induction false} PutEncodes(entries: seq<Entry>, key: Value, value: Value, depth: nat)
    requires Encode(key, depth).Ok? && Encode(value, depth).Ok? && EncodeEntries(entries, depth).Ok?
    ensures var r := EncodeEntries(Put(entries, key, value), depth);
            && r.Ok?
            && |r.data| <= |EncodeEntries(entries, depth).data| + |Encode(key, depth).data|
                           + |Encode(value, depth).data|
    decreases |entries|
  {
    hide SameKey, Encode;
    var r := Put(entries, key, value);
    assert EncodeEntries([], depth) == Ok([]);
    if entries == [] {
      assert r[1..] == [];
    } else {
      var rest := entries[1..];
      if SameKey(entries[0].key, key) {
        assert r[1..] == rest;
      } else {
        PutEncodes(rest, key, value, depth);
        assert r[1..] == Put(rest, key, value);
      }
    }
  }

  /** Whatever is decoded is a legal value that the encoder takes back, never into more bytes than it came from. */
  lemma {:induction false} Repacks(s: bytes, depth: nat)
    requires Decode(s, depth).Decoded?
    ensures var r := Decode(s, depth);
            Legal(r.value) && Encode(r.value, depth).Ok? && |Encode(r.value, depth).data| <= r.length
    decreases Left(depth), 0, 0
  {
    hide Head, ReadHead, DecodeItems, DecodeEntries, EncodeItems, EncodeEntries, Utf8.Valid, SameKey;
    ReadsAreWritable(s);
    var h := ReadHead(s).length;
    match ReadHead(s).token
    case Array(n) =>
      ItemsRepack(s[h..], n, depth + 1);
    case Map(n) =>
      assert EncodeEntries([], depth + 1) == Ok([]) by { NoEntries(depth + 1); }
      EntriesRepack(s[h..], n, depth + 1, []);
      MapHeadGrows(|DecodeEntries(s[h..], n, depth + 1, []).value|, n);
    case _ =>
  }

  lemma {:induction false} NoEntries(depth: nat)
    ensures EncodeEntries([], depth) == Ok([])
  {
  }

  lemma {:induction false} MapHeadGrows(a: nat, b: nat)
    requires a <= b <= 0xFFFF
    ensures |Head(Map(a))| <= |Head(Map(b))|
  {
  }

  lemma {:induction false} ItemsRepack(s: bytes, n: nat, depth: nat)
    requires DecodeItems(s, n, depth).Decoded?
    ensures var r := DecodeItems(s, n, depth);
            && (forall i :: 0 <= i < |r.value| ==> Legal(r.value[i]))
            && EncodeItems(r.value, depth).Ok? && |EncodeItems(r.value, depth).data| <= r.length
    decreases Left(depth), 1, n
  {
    hide Decode, Encode, Legal;
    if n > 0 {
      var k := Decode(s, depth).length;
      Repacks(s, depth);
      ItemsRepack(s[k..], n - 1, depth);
      assert DecodeItems(s, n, depth).value[1..] == DecodeItems(s[k..], n - 1, depth).value;
    }
  }

  lemma {:induction false} EntriesRepack(s: bytes, n: nat, depth: nat, before: seq<Entry>)
    requires DecodeEntries(s, n, depth, before).Decoded?
    requires Legal(Dict(before)) && EncodeEntries(before, depth).Ok?
    ensures var r := DecodeEntries(s, n, depth, before);
            && Legal(Dict(r.value)) && EncodeEntries(r.value, depth).Ok?
            && |EncodeEntries(r.value, depth).data| <= |EncodeEntries(before, depth).data| + r.length
    decreases Left(depth), 1, n
  {
    hide Decode, Encode, EncodeEntries, Legal, Put;
    if n > 0 {
      var key, k := Decode(s, depth).value, Decode(s, depth).length;
      var value, m := Decode(s[k..], depth).value, Decode(s[k..], depth).length;
      Repacks(s, depth);
      Repacks(s[k..], depth);
      PutIsLegal(before, key, value);
      PutEncodes(before, key, value, depth);
      EntriesRepack(s[k + m..], n - 1, depth, Put(before, key, value));
    }
  }

  // ----- What packb and unpackb promise -----------------------------------------------------------------------

  lemma {:induction false} UnpackPack(v: Value)
    requires Legal(v) && Packb(v).Ok?
    ensures Unpackb(Packb(v).data) == Object(v)
  {
    hide Encode, Decode, Legal;
    var data := Packb(v).data;
    RoundTrip(v, 0, []);
    assert data + [] == data;
  }

  /** No encoding is the beginning of another: values can be read one after the other from a stream. */
  lemma {:induction false} SelfDelimiting(v: Value, w: Value, rest: bytes)
    requires Legal(v) && Legal(w) && Packb(v).Ok? && Packb(w).Ok?
    requires Packb(w).data == Packb(v).data + rest
    ensures v == w && rest == []
  {
    hide Encode, Decode, Legal;
    RoundTrip(v, 0, rest);
    RoundTrip(w, 0, []);
    assert Packb(w).data + [] == Packb(w).data;
  }

  /** Whatever unpackb accepts, packb packs, into no more bytes and to the same value; in particular the two
      depth caps agree. */
  lemma {:induction false} PackUnpack(data: bytes)
    requires Unpackb(data).Object?
    ensures var v := Unpackb(data).value;
            && Packb(v).Ok? && |Packb(v).data| <= |data| && Unpackb(Packb(v).data) == Object(v)
            && Height(v) <= MAX_DEPTH
  {
    hide Encode, Decode, Legal, Height;
    Repacks(data, 0);
    UnpackPack(Unpackb(data).value);
    EncodesIff(Unpackb(data).value, 0);
  }
}
