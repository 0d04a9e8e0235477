/** The encoder's and decoder's loops, and how much work decoding can be. */
module MsgpackCoder {
  import opened Basics
  import opened Bytes
  import opened MsgpackWire
  import opened Msgpack
  import opened MsgpackDemand

  // ----- Encoding into a growing buffer ------------------------------------------------------------

  class Buffer {
    var data: bytes

    constructor ()
      ensures data == []
    {
      data := [];
    }

    method Extend(more: bytes)
      modifies this
      ensures data == old(data) + more
    {
      data := data + more;
    }
  }

  /** _encode: a refused value may leave part of itself in the buffer. */
  method EncodeInto(v: Value, buffer: Buffer, depth: nat) returns (error: Option<Error>)
    modifies buffer
    ensures error.None? ==> Encode(v, depth).Ok? && buffer.data == old(buffer.data) + Encode(v, depth).data
    ensures error.Some? ==> Encode(v, depth) == Refused(error.value)
    decreases v
  {
    hide Head, Writable, EncodeItems, EncodeEntries;
    if depth > MAX_DEPTH {
      return Some(TooDeep);
    }
    match v
    case Atom(t) =>
      if !Writable(t) {
        return Some(OutOfRange);
      }
      buffer.Extend(Head(t));
      return None;
    case List(items) =>
      if |items| > 0xFFFF {
        return Some(OutOfRange);
      }
      assert Writable(Array(|items|)) by { CountWritable(|items|); }
      buffer.Extend(Head(Array(|items|)));
      error := EncodeAll(items, buffer, depth + 1);
    case Dict(entries) =>
      if |entries| > 0xFFFF {
        return Some(OutOfRange);
      }
      assert Writable(Map(|entries|)) by { CountWritable(|entries|); }
      buffer.Extend(Head(Map(|entries|)));
      error := EncodePairs(entries, buffer, depth + 1);
  }

  /** The loop of _encode_array. */
  method EncodeAll(items: seq<Value>, buffer: Buffer, depth: nat) returns (error: Option<Error>)
    modifies buffer
    ensures error.None? ==>
              EncodeItems(items, depth).Ok? && buffer.data == old(buffer.data) + EncodeItems(items, depth).data
    ensures error.Some? ==> EncodeItems(items, depth) == Refused(error.value)
    decreases items
  {
    hide Encode;
    ghost var base, written := buffer.data, [];
    assert items[0..] == items;
    JoinNothing(EncodeItems(items, depth));
    for i := 0 to |items|
      invariant buffer.data == base + written
      invariant EncodeItems(items, depth) == Join(Ok(written), EncodeItems(items[i..], depth))
    {
      assert items[i..][1..] == items[i + 1..];
      error := EncodeInto(items[i], buffer, depth);
      if error.Some? {
        return;
      }
      JoinMore(written, Encode(items[i], depth), EncodeItems(items[i + 1..], depth));
      written := written + Encode(items[i], depth).data;
    }
    assert written + [] == written;
    error := None;
  }

  /** The loop of _encode_map. */
  method EncodePairs(entries: seq<Entry>, buffer: Buffer, depth: nat) returns (error: Option<Error>)
    modifies buffer
    ensures error.None? ==>
              EncodeEntries(entries, depth).Ok? && buffer.data == old(buffer.data) + EncodeEntries(entries, depth).data
    ensures error.Some? ==> EncodeEntries(entries, depth) == Refused(error.value)
    decreases entries
  {
    hide Encode;
    ghost var base, written := buffer.data, [];
    assert entries[0..] == entries;
    JoinNothing(EncodeEntries(entries, depth));
    for i := 0 to |entries|
      invariant buffer.data == base + written
      invariant EncodeEntries(entries, depth) == Join(Ok(written), EncodeEntries(entries[i..], depth))
    {
      assert entries[i..][1..] == entries[i + 1..];
      var e := entries[i];
      error := EncodePair(e, buffer, depth);
      if error.Some? {
        return;
      }
      JoinMore(written, EncodeEntry(e, depth), EncodeEntries(entries[i + 1..], depth));
      written := written + EncodeEntry(e, depth).data;
    }
    assert written + [] == written;
    error := None;
  }

  method EncodePair(e: Entry, buffer: Buffer, depth: nat) returns (error: Option<Error>)
    modifies buffer
    ensures error.None? ==> EncodeEntry(e, depth).Ok? && buffer.data == old(buffer.data) + EncodeEntry(e, depth).data
    ensures error.Some? ==> EncodeEntry(e, depth) == Refused(error.value)
    decreases e
  {
    hide Encode;
    error := EncodeInto(e.key, buffer, depth);
    if error.Some? {
      return;
    }
    error := EncodeInto(e.value, buffer, depth);
  }

  /** packb */
  method PackNew(v: Value) returns (r: Packed)
    ensures r == Packb(v)
  {
    hide Encode;
    var buffer := new Buffer();
    var error := EncodeInto(v, buffer, 0);
    if error.Some? {
      return Refused(error.value);
    }
    assert [] + Encode(v, 0).data == Encode(v, 0).data;
    r := Ok(buffer.data);
  }

  lemma {:induction false} CountWritable(n: nat)
    requires n <= 0xFFFF
    ensures Writable(Array(n)) && Writable(Map(n))
  {
  }

  lemma {:induction false} JoinNothing(p: Packed)
    ensures Join(Ok([]), p) == p
  {
    if p.Ok? {
      assert [] + p.data == p.data;
    }
  }

  lemma {:induction false} JoinMore(written: bytes, a: Packed, b: Packed)
    ensures Join(Ok(written), Join(a, b)) == if a.Refused? then a else Join(Ok(written + a.data), b)
  {
    if a.Ok? && b.Ok? {
      assert written + (a.data + b.data) == written + a.data + b.data;
    }
  }

  // ----- Counting decode calls ---------------------------------------------------------------------------

  /** How often decoding a value calls itself, this call included. */
  function Calls(s: bytes, depth: nat): nat
    decreases Left(depth), 0, 0
  {
    if depth > MAX_DEPTH then 1
    else match ReadHead(s)
         case Got(Array(n), h) => if n > |s| - h then 1 else 1 + CallsForItems(s[h..], n, depth + 1)
         case Got(Map(n), h) => if n * 2 > |s| - h then 1 else 1 + CallsForEntries(s[h..], n, depth + 1)
         case _ => 1
  }

  function CallsForItems(s: bytes, n: nat, depth: nat): nat
    decreases Left(depth), 1, n
  {
    if n == 0 then 0
    else match Decode(s, depth)
         case Fault(_) => Calls(s, depth)
         case Decoded(_, k) => Calls(s, depth) + CallsForItems(s[k..], n - 1, depth)
  }

  function CallsForEntries(s: bytes, n: nat, depth: nat): nat
    decreases Left(depth), 1, n
  {
    if n == 0 then 0
    else match Decode(s, depth)
         case Fault(_) => Calls(s, depth)
         case Decoded(key, k) =>
           Calls(s, depth) +
           match Decode(s[k..], depth)
           case Fault(_) => Calls(s[k..], depth)
           case Decoded(_, m) =>
             Calls(s[k..], depth) + if key.Atom? then CallsForEntries(s[k + m..], n - 1, depth) else 0
  }

  // ----- Decoding in place -----------------------------------------------------------------------------------

  function After<T>(k: nat, d: Decoded<T>): Decoded<T> {
    match d
    case Fault(e) => Fault(e)
    case Decoded(v, m) => Decoded(v, k + m)
  }

  function Behind(front: seq<Value>, k: nat, d: Decoded<seq<Value>>): Decoded<seq<Value>> {
    match d
    case Fault(e) => Fault(e)
    case Decoded(more, m) => Decoded(front + more, k + m)
  }

  /** _decode, with the number of calls it took. */
  method DecodeAt(data: bytes, offset: nat, depth: nat) returns (r: Decoded<Value>, calls: nat)
    requires offset <= |data|
    ensures r == Decode(data[offset..], depth) && calls == Calls(data[offset..], depth)
    decreases Left(depth), 0, 0
  {
    hide ReadHead, DecodeItems, DecodeEntries, CallsForItems, CallsForEntries;
    calls := 1;
    if depth > MAX_DEPTH {
      return Fault(TooDeep), calls;
    }
    match ReadHead(data[offset..])
    case Bad(e) => r := Fault(e);
    case Got(Array(n), h) =>
      if n > |data| - (offset + h) {
        return Fault(Truncated), calls;
      }
      var items, more := DecodeArrayAt(data, offset + h, n, depth);
      assert data[offset..][h..] == data[offset + h..];
      calls := calls + more;
      r := match items { case Fault(e) => Fault(e) case Decoded(v, k) => Decoded(List(v), h + k) };
    case Got(Map(n), h) =>
      if n * 2 > |data| - (offset + h) {
        return Fault(Truncated), calls;
      }
      var entries, more := DecodeMapAt(data, offset + h, n, depth);
      assert data[offset..][h..] == data[offset + h..];
      calls := calls + more;
      r := match entries { case Fault(e) => Fault(e) case Decoded(v, k) => Decoded(Dict(v), h + k) };
    case Got(t, h) => r := Decoded(Atom(t), h);
  }

  /** The loop of _decode_array. */
  method DecodeArrayAt(data: bytes, offset: nat, length: nat, depth: nat) returns (r: Decoded<seq<Value>>, calls: nat)
    requires offset <= |data| && depth <= MAX_DEPTH
    ensures r == DecodeItems(data[offset..], length, depth + 1)
    ensures calls == CallsForItems(data[offset..], length, depth + 1)
    decreases Left(depth + 1), 1, 0
  {
    hide Decode, Calls, DecodeItems, CallsForItems, Behind;
    var result, position := [], offset;
    calls := 0;
    BehindNothing(DecodeItems(data[offset..], length, depth + 1));
    for i := 0 to length
      invariant offset <= position <= |data|
      invariant DecodeItems(data[offset..], length, depth + 1)
             == Behind(result, position - offset, DecodeItems(data[position..], length - i, depth + 1))
      invariant CallsForItems(data[offset..], length, depth + 1)
             == calls + CallsForItems(data[position..], length - i, depth + 1)
    {
      var item, more := DecodeAt(data, position, depth + 1);
      ItemStep(data[position..], length - i, depth + 1, result, position - offset);
      calls := calls + more;
      if item.Fault? {
        return Fault(item.error), calls;
      }
      assert data[position..][item.length..] == data[position + item.length..];
      result, position := result + [item.value], position + item.length;
    }
    NoItems(data[position..], depth + 1, result, position - offset);
    r := Decoded(result, position - offset);
  }

  lemma {:induction false} NoItems(s: bytes, depth: nat, front: seq<Value>, k: nat)
    ensures Behind(front, k, DecodeItems(s, 0, depth)) == Decoded(front, k) && CallsForItems(s, 0, depth) == 0
  {
    assert front + [] == front;
  }

  lemma {:induction false} ItemStep(s: bytes, n: nat, depth: nat, front: seq<Value>, k: nat)
    requires n > 0
    ensures match Decode(s, depth)
            case Fault(e) =>
              Behind(front, k, DecodeItems(s, n, depth)) == Fault(e) && CallsForItems(s, n, depth) == Calls(s, depth)
            case Decoded(v, m) =>
              && Behind(front, k, DecodeItems(s, n, depth))
                 == Behind(front + [v], k + m, DecodeItems(s[m..], n - 1, depth))
              && CallsForItems(s, n, depth) == Calls(s, depth) + CallsForItems(s[m..], n - 1, depth)
  {
    hide Decode, Calls;
    var r := Decode(s, depth);
    if r.Decoded? {
      BehindMore(front, k, r.value, r.length, DecodeItems(s[r.length..], n - 1, depth));
    }
  }

  lemma {:induction false} BehindNothing(d: Decoded<seq<Value>>)
    ensures Behind([], 0, d) == d
  {
    if d.Decoded? {
      assert [] + d.value == d.value;
    }
  }

  lemma {:induction false} BehindMore(front: seq<Value>, k: nat, v: Value, m: nat, d: Decoded<seq<Value>>)
    ensures Behind(front, k, match d { case Fault(e) => Fault(e) case Decoded(more, r) => Decoded([v] + more, m + r) })
         == Behind(front + [v], k + m, d)
  {
    if d.Decoded? {
      assert front + ([v] + d.value) == front + [v] + d.value;
    }
  }

  lemma {:induction false} NoEntriesLeft(s: bytes, depth: nat, before: seq<Entry>)
    ensures DecodeEntries(s, 0, depth, before) == Decoded(before, 0) && CallsForEntries(s, 0, depth) == 0
  {
  }

  /** One pair of the map loop. */
  lemma {:induction false} EntryStep(s: bytes, n: nat, depth: nat, before: seq<Entry>)
    requires n > 0
    ensures match Decode(s, depth)
            case Fault(e) => DecodeEntries(s, n, depth, before) == Fault(e)
                             && CallsForEntries(s, n, depth) == Calls(s, depth)
            case Decoded(key, k) =>
              match Decode(s[k..], depth)
              case Fault(e) =>
                && DecodeEntries(s, n, depth, before) == Fault(e)
                && CallsForEntries(s, n, depth) == Calls(s, depth) + Calls(s[k..], depth)
              case Decoded(value, m) =>
                if key.Atom? then
                  && DecodeEntries(s, n, depth, before)
                     == After(k + m, DecodeEntries(s[k + m..], n - 1, depth, Put(before, key, value)))
                  && CallsForEntries(s, n, depth)
                     == Calls(s, depth) + Calls(s[k..], depth) + CallsForEntries(s[k + m..], n - 1, depth)
                else
                  && DecodeEntries(s, n, depth, before) == Fault(Unhashable)
                  && CallsForEntries(s, n, depth) == Calls(s, depth) + Calls(s[k..], depth)
  {
    hide Decode, Calls, Put;
  }

  /** The loop of _decode_map. */
  method DecodeMapAt(data: bytes, offset: nat, length: nat, depth: nat) returns (r: Decoded<seq<Entry>>, calls: nat)
    requires offset <= |data| && depth <= MAX_DEPTH
    ensures r == DecodeEntries(data[offset..], length, depth + 1, [])
    ensures calls == CallsForEntries(data[offset..], length, depth + 1)
    decreases Left(depth + 1), 1, 0
  {
    hide Decode, Calls, Put, DecodeEntries, CallsForEntries;
    var result, position := [], offset;
    calls := 0;
    for i := 0 to length
      invariant offset <= position <= |data|
      invariant DecodeEntries(data[offset..], length, depth + 1, [])
             == After(position - offset, DecodeEntries(data[position..], length - i, depth + 1, result))
      invariant CallsForEntries(data[offset..], length, depth + 1)
             == calls + CallsForEntries(data[position..], length - i, depth + 1)
    {
      EntryStep(data[position..], length - i, depth + 1, result);
      var key, keyCalls := DecodeAt(data, position, depth + 1);
      calls := calls + keyCalls;
      if key.Fault? {
        return Fault(key.error), calls;
      }
      assert data[position..][key.length..] == data[position + key.length..];
      var value, valueCalls := DecodeAt(data, position + key.length, depth + 1);
      calls := calls + valueCalls;
      if value.Fault? {
        return Fault(value.error), calls;
      }
      if !key.value.Atom? {
        return Fault(Unhashable), calls;
      }
      var next := position + key.length + value.length;
      assert data[position..][key.length + value.length..] == data[next..];
      result, position := Put(result, key.value, value.value), next;
    }
    NoEntriesLeft(data[position..], depth + 1, result);
    r := Decoded(result, position - offset);
  }

  // ----- How many calls are enough ---------------------------------------------------------------------------

  lemma {:induction false} HeadSingle(s: bytes)
    ensures ReadHead(s) == Bad(NoByte) <==> s == []
    ensures ReadHead(s).Got? ==> (ReadHead(s).length == 1 <==> Single(s[0]))
  {
  }

  lemma {:induction false} SinglesSplit(s: bytes, k: nat)
    requires k <= |s|
    ensures AllSingle(s) <==> AllSingle(s[..k]) && AllSingle(s[k..])
  {
    assert s == s[..k] + s[k..];
  }

  /** The call count against a bound: within it, and on it only when every byte is a value's only byte. */
  predicate Bounded(calls: nat, bound: nat, single: bool) {
    calls <= bound && (calls == bound <==> single)
  }

  /** Calls of a successful decoding against the bytes it took; of a failed one against all bytes there are. */
  lemma {:induction false} CallsBounded(s: bytes, depth: nat)
    requires depth <= MAX_DEPTH || s != []
    ensures match Decode(s, depth)
            case Decoded(_, k) => Bounded(Calls(s, depth), k, AllSingle(s[..k]))
            case Fault(e) => Bounded(Calls(s, depth), |s| + 1, AllSingle(s) && e == NoByte)
    decreases Left(depth), 0, 0
  {
    hide ReadHead, Single, AllSingle, DecodeItems, DecodeEntries, CallsForItems, CallsForEntries;
    HeadSingle(s);
    SinglesIfNone(s);
    if depth <= MAX_DEPTH && ReadHead(s).Got? {
      var h := ReadHead(s).length;
      SinglesSplit(s, h);
      HeadSingles(s);
      match ReadHead(s).token
      case Array(n) =>
        if n <= |s| - h {
          ItemsBounded(s[h..], n, depth + 1);
          var r := DecodeItems(s[h..], n, depth + 1);
          if r.Decoded? {
            PrefixSplit(s, h, r.length);
          }
        }
      case Map(n) =>
        if n * 2 <= |s| - h {
          EntriesBounded(s[h..], n, depth + 1, []);
          var r := DecodeEntries(s[h..], n, depth + 1, []);
          if r.Decoded? {
            PrefixSplit(s, h, r.length);
          }
        }
      case _ =>
    }
  }

  lemma {:induction false} HeadSingles(s: bytes)
    requires ReadHead(s).Got?
    ensures Bounded(1, ReadHead(s).length, AllSingle(s[..ReadHead(s).length]))
  {
    hide ReadHead, Single;
    HeadSingle(s);
  }

  lemma {:induction false} PrefixSplit(s: bytes, h: nat, k: nat)
    requires h + k <= |s|
    ensures AllSingle(s[..h + k]) <==> AllSingle(s[..h]) && AllSingle(s[h..][..k])
  {
    hide Single;
    var t := s[..h + k];
    SinglesSplit(t, h);
    assert t[..h] == s[..h] && t[h..] == s[h..][..k];
  }

  lemma {:induction false} ItemsUnfold(s: bytes, n: nat, depth: nat)
    ensures n == 0 ==> DecodeItems(s, n, depth) == Decoded([], 0) && CallsForItems(s, n, depth) == 0
    ensures n > 0 ==>
              match Decode(s, depth)
              case Fault(e) => DecodeItems(s, n, depth) == Fault(e) && CallsForItems(s, n, depth) == Calls(s, depth)
              case Decoded(v, m) =>
                && CallsForItems(s, n, depth) == Calls(s, depth) + CallsForItems(s[m..], n - 1, depth)
                && match DecodeItems(s[m..], n - 1, depth)
                   case Fault(e) => DecodeItems(s, n, depth) == Fault(e)
                   case Decoded(more, k) => DecodeItems(s, n, depth) == Decoded([v] + more, m + k)
  {
    hide Decode, Calls;
  }

  lemma {:induction false} ItemsBounded(s: bytes, n: nat, depth: nat)
    requires depth <= MAX_DEPTH || s != [] || n == 0
    ensures match DecodeItems(s, n, depth)
            case Decoded(_, k) => Bounded(CallsForItems(s, n, depth), k, AllSingle(s[..k]))
            case Fault(e) => Bounded(CallsForItems(s, n, depth), |s| + 1, AllSingle(s) && e == NoByte)
    decreases Left(depth), 1, n
  {
    hide Decode, Calls, Single, AllSingle, DecodeItems, CallsForItems;
    ItemsUnfold(s, n, depth);
    if n == 0 {
      EmptyIsSingle(s);
    } else {
      CallsBounded(s, depth);
      var r := Decode(s, depth);
      if r.Decoded? {
        DeepFails(s, depth);
        var m := r.length;
        ItemsBounded(s[m..], n - 1, depth);
        Together(s, m, Calls(s, depth), CallsForItems(s[m..], n - 1, depth), DecodeItems(s[m..], n - 1, depth));
      }
    }
  }

  lemma {:induction false} DeepFails(s: bytes, depth: nat)
    requires Decode(s, depth).Decoded?
    ensures depth <= MAX_DEPTH
  {
  }

  /** A key and, when it could be read, its value. */
  lemma {:induction false} PairBounded(s: bytes, depth: nat)
    requires depth <= MAX_DEPTH || s != []
    ensures match Decode(s, depth)
            case Fault(e) => Bounded(Calls(s, depth), |s| + 1, AllSingle(s) && e == NoByte)
            case Decoded(_, k) =>
              depth <= MAX_DEPTH &&
              match Decode(s[k..], depth)
              case Fault(e) => Bounded(Calls(s, depth) + Calls(s[k..], depth), |s| + 1, AllSingle(s) && e == NoByte)
              case Decoded(_, m) => Bounded(Calls(s, depth) + Calls(s[k..], depth), k + m, AllSingle(s[..k + m]))
    decreases Left(depth), 0, 1
  {
    hide Decode, Calls, Single, AllSingle;
    CallsBounded(s, depth);
    var r := Decode(s, depth);
    if r.Decoded? {
      DeepFails(s, depth);
      SinglesSplit(s, r.length);
      CallsBounded(s[r.length..], depth);
      var q := Decode(s[r.length..], depth);
      if q.Decoded? {
        PrefixSplit(s, r.length, q.length);
      }
    }
  }

  lemma {:induction false} EntriesBounded(s: bytes, n: nat, depth: nat, before: seq<Entry>)
    requires depth <= MAX_DEPTH || s != [] || n == 0
    ensures match DecodeEntries(s, n, depth, before)
            case Decoded(_, k) => Bounded(CallsForEntries(s, n, depth), k, AllSingle(s[..k]))
            case Fault(e) => Bounded(CallsForEntries(s, n, depth), |s| + 1, AllSingle(s) && e == NoByte)
    decreases Left(depth), 1, n
  {
    hide Decode, Calls, Single, AllSingle, Put, DecodeEntries, CallsForEntries;
    if n == 0 {
      NoEntriesLeft(s, depth, before);
      EmptyIsSingle(s);
    } else {
      EntryStep(s, n, depth, before);
      PairBounded(s, depth);
      var r := Decode(s, depth);
      if r.Decoded? && Decode(s[r.length..], depth).Decoded? {
        var q := Decode(s[r.length..], depth);
        var p := r.length + q.length;
        var pairCalls := Calls(s, depth) + Calls(s[r.length..], depth);
        SinglesSplit(s, p);
        if r.value.Atom? {
          var next := Put(before, r.value, q.value);
          EntriesBounded(s[p..], n - 1, depth, next);
          Together(s, p, pairCalls, CallsForEntries(s[p..], n - 1, depth), DecodeEntries(s[p..], n - 1, depth, next));
        }
      }
    }
  }

  lemma {:induction false} SinglesIfNone(s: bytes)
    ensures s == [] ==> AllSingle(s)
  {
  }

  lemma {:induction false} EmptyIsSingle(s: bytes)
    ensures AllSingle(s[..0])
  {
  }

  /** What is already read and what is still to come. */
  lemma {:induction false} Together<T>(s: bytes, p: nat, a: nat, b: nat, rest: Decoded<T>)
    requires p <= |s| && Bounded(a, p, AllSingle(s[..p])) && (rest.Decoded? ==> rest.length <= |s| - p)
    requires match rest
             case Decoded(_, k) => Bounded(b, k, AllSingle(s[p..][..k]))
             case Fault(e) => Bounded(b, |s| - p + 1, AllSingle(s[p..]) && e == NoByte)
    ensures match rest
            case Decoded(_, k) => Bounded(a + b, p + k, AllSingle(s[..p + k]))
            case Fault(e) => Bounded(a + b, |s| + 1, AllSingle(s) && e == NoByte)
  {
    hide Single, AllSingle;
    SinglesSplit(s, p);
    if rest.Decoded? {
      PrefixSplit(s, p, rest.length);
    }
  }

  /** unpackb ends in a value or a ValueError.  It makes no more decode calls than there are bytes, unless all of them
      are one-byte values and heads: then it makes one more exactly when the bytes end while something is still owed. */
  method UnpackInPlace(data: bytes) returns (r: Unpacked, calls: nat)
    ensures r == Unpackb(data)
    ensures r.Object? || !AllSingle(data) ==> calls <= |data|
    ensures AllSingle(data) ==> calls <= |data| + 1 && (calls == |data| + 1 <==> RunsOut(data, []))
  {
    hide Decode, Calls, Single, AllSingle, RunsOut;
    assert data[0..] == data;
    var d;
    d, calls := DecodeAt(data, 0, 0);
    CallsBounded(data, 0);
    if AllSingle(data) {
      RunsOutIff(data);
    }
    r := match d { case Fault(_) => ValueError case Decoded(v, n) => if n == |data| then Object(v) else ValueError };
  }

  /** Decode calls can outnumber the bytes: an array of two holding an array of one, and then nothing. */
  lemma {:induction false} OneCallTooMany()
    ensures Calls([0x92, 0x91, 0x00], 0) == 4
  {
    hide Decode, Calls, DecodeItems, CallsForItems;
    var a: bytes, b: bytes, c: bytes := [0x92, 0x91, 0x00], [0x91, 0x00], [0x00];
    assert a[1..] == b && b[1..] == c && b[2..] == [];
    ZeroByte(2);
    ArrayStep(b, 1, 1);
    OneItem(c, 2, Atom(Int(0)));
    NothingLeft(1);
    ItemStep(b, 2, 1, [], 0);
    ItemStep(b[2..], 1, 1, [], 0);
    ArrayStep(a, 2, 0);
  }

  lemma {:induction false} ZeroByte(depth: nat)
    requires depth <= MAX_DEPTH
    ensures Decode([0x00], depth) == Decoded(Atom(Int(0)), 1) && Calls([0x00], depth) == 1
  {
  }

  lemma {:induction false} NothingLeft(depth: nat)
    requires depth <= MAX_DEPTH
    ensures Decode([], depth) == Fault(NoByte) && Calls([], depth) == 1
  {
  }

  lemma {:induction false} OneItem(s: bytes, depth: nat, v: Value)
    requires Decode(s, depth) == Decoded(v, |s|)
    ensures DecodeItems(s, 1, depth) == Decoded([v], |s|) && CallsForItems(s, 1, depth) == Calls(s, depth)
  {
    hide Decode, Calls;
    assert DecodeItems(s[|s|..], 0, depth) == Decoded([], 0);
    assert [v] + [] == [v];
  }

  lemma {:induction false} ArrayStep(s: bytes, n: nat, depth: nat)
    requires depth <= MAX_DEPTH && n <= 15 && s != [] && s[0] == 0x90 + n && n <= |s| - 1
    ensures Calls(s, depth) == 1 + CallsForItems(s[1..], n, depth + 1)
    ensures Decode(s, depth) == match DecodeItems(s[1..], n, depth + 1)
                                case Fault(e) => Fault(e)
                                case Decoded(items, k) => Decoded(List(items), 1 + k)
  {
    hide DecodeItems, CallsForItems;
  }
}
