/** Running out of input, told from the bytes alone: what the containers announced is still owed when the bytes end. */
module MsgpackDemand {
  import opened Bytes
  import opened MsgpackWire
  import opened Msgpack

  /** Type bytes of values that are nothing but that byte. */
  predicate Single(b: byte) { b <= 0x9F || b == 0xA0 || b == 0xC0 || b == 0xC2 || b == 0xC3 || b >= 0xE0 }

  predicate AllSingle(s: bytes) { forall i :: 0 <= i < |s| ==> Single(s[i]) }

  /** What an open container still owes: items, pairs from a key on, or pairs of which the first key has been read. */
  datatype Owed = Items(count: nat) | Pairs(count: nat) | Value(count: nat, hashable: bool)

  /** The containers a value to come is inside of, innermost last; or nothing more is owed. */
  datatype Demand = Wanting(open: seq<Owed>) | Settled

  /** A value is complete inside the open containers; the last one of a container completes that container too, and a
      container as a key ends the reading. */
  function Complete(open: seq<Owed>, scalar: bool): Demand
    decreases |open|
  {
    if open == [] then Settled
    else
      var outer := open[..|open| - 1];
      match open[|open| - 1]
      case Items(n) => if n <= 1 then Complete(outer, false) else Wanting(outer + [Items(n - 1)])
      case Pairs(n) => Wanting(outer + [Value(n, scalar)])
      case Value(n, hashable) =>
        if !hashable then Settled else if n <= 1 then Complete(outer, false) else Wanting(outer + [Pairs(n - 1)])
  }

  /** Whether `s`, made of one-byte values and heads, ends while a value is owed: containers too deep, or announcing
      more than the bytes that are left, end the reading before that. */
  predicate RunsOut(s: bytes, open: seq<Owed>)
    decreases |s|, 0
  {
    if |open| > MAX_DEPTH then false
    else if s == [] then true
    else
      var b, rest := s[0], s[1..];
      if 0x80 <= b <= 0x8F then
        var n: nat := b - 0x80;
        if 2 * n > |rest| then false
        else if n == 0 then StillOwed(rest, Complete(open, false))
        else RunsOut(rest, open + [Pairs(n)])
      else if 0x90 <= b <= 0x9F then
        var n: nat := b - 0x90;
        if n > |rest| then false
        else if n == 0 then StillOwed(rest, Complete(open, false))
        else RunsOut(rest, open + [Items(n)])
      else StillOwed(rest, Complete(open, true))
  }

  predicate StillOwed(s: bytes, d: Demand)
    decreases |s|, 1
  {
    d.Wanting? && RunsOut(s, d.open)
  }

  lemma {:induction false} SingleHead(s: bytes)
    requires s != [] && Single(s[0])
    ensures var b := s[0];
            && ReadHead(s).Got? && ReadHead(s).length == 1
            && (0x80 <= b <= 0x8F ==> ReadHead(s).token == Map(b - 0x80))
            && (0x90 <= b <= 0x9F ==> ReadHead(s).token == Array(b - 0x90))
            && (!(0x80 <= b <= 0x9F) ==> !ReadHead(s).token.Array? && !ReadHead(s).token.Map?)
  {
    if s[0] == 0xA0 {
      assert s[1..1] == [];
    }
  }

  /** Decoding one value, against what is owed around it. */
  lemma {:induction false} DecodeOwes(s: bytes, open: seq<Owed>)
    requires AllSingle(s)
    ensures match Decode(s, |open|)
            case Decoded(v, k) => RunsOut(s, open) == StillOwed(s[k..], Complete(open, v.Atom?))
            case Fault(e) => RunsOut(s, open) == (e == NoByte)
    decreases Left(|open|), 0, 0
  {
    hide Single, ReadHead, DecodeItems, DecodeEntries, Complete;
    if |open| <= MAX_DEPTH && s != [] {
      SingleHead(s);
      var rest := s[1..];
      match ReadHead(s).token
      case Array(n) =>
        if n <= |rest| {
          ItemsOwe(rest, n, open);
        }
      case Map(n) =>
        if 2 * n <= |rest| {
          EntriesOwe(rest, n, open, []);
        }
      case _ =>
    } else if s == [] {
      NoHead();
    }
  }

  lemma {:induction false} NoHead()
    ensures ReadHead([]) == Bad(NoByte)
  {
  }

  lemma {:induction false} ItemsOwe(s: bytes, n: nat, open: seq<Owed>)
    requires AllSingle(s) && |open| <= MAX_DEPTH
    ensures match DecodeItems(s, n, |open| + 1)
            case Decoded(_, k) =>
              (if n == 0 then StillOwed(s, Complete(open, false)) else RunsOut(s, open + [Items(n)]))
              == StillOwed(s[k..], Complete(open, false))
            case Fault(e) => n > 0 && RunsOut(s, open + [Items(n)]) == (e == NoByte)
    decreases Left(|open| + 1), 1, n
  {
    hide Single, Decode, RunsOut;
    if n == 0 {
      assert s[0..] == s;
    } else {
      var inner := open + [Items(n)];
      assert inner[..|open|] == open;
      DecodeOwes(s, inner);
      var r := Decode(s, |inner|);
      if r.Decoded? {
        ItemsOwe(s[r.length..], n - 1, open);
        var q := DecodeItems(s[r.length..], n - 1, |open| + 1);
        if q.Decoded? {
          assert s[r.length..][q.length..] == s[r.length + q.length..];
        }
      }
    }
  }

  lemma {:induction false} RestSingle(s: bytes, k: nat)
    requires AllSingle(s) && k <= |s|
    ensures AllSingle(s[k..])
  {
  }

  lemma {:induction false} PairUnfolds(s: bytes, n: nat, depth: nat, before: seq<Entry>)
    ensures n == 0 ==> DecodeEntries(s, n, depth, before) == Decoded(before, 0)
    ensures n > 0 ==>
              match Decode(s, depth)
              case Fault(e) => DecodeEntries(s, n, depth, before) == Fault(e)
              case Decoded(key, k) =>
                match Decode(s[k..], depth)
                case Fault(e) => DecodeEntries(s, n, depth, before) == Fault(e)
                case Decoded(value, m) =>
                  if !key.Atom? then DecodeEntries(s, n, depth, before) == Fault(Unhashable)
                  else match DecodeEntries(s[k + m..], n - 1, depth, Put(before, key, value))
                       case Fault(e) => DecodeEntries(s, n, depth, before) == Fault(e)
                       case Decoded(all, r) => DecodeEntries(s, n, depth, before) == Decoded(all, k + m + r)
  {
    hide Decode, Put;
  }

  /** One pair, against what is owed around the map. */
  lemma {:induction false} PairOwes(s: bytes, n: nat, open: seq<Owed>)
    requires AllSingle(s) && |open| <= MAX_DEPTH && n > 0
    ensures var inner := open + [Pairs(n)];
            match Decode(s, |open| + 1)
            case Fault(e) => RunsOut(s, inner) == (e == NoByte)
            case Decoded(key, k) =>
              match Decode(s[k..], |open| + 1)
              case Fault(e) => RunsOut(s, inner) == (e == NoByte)
              case Decoded(value, m) =>
                RunsOut(s, inner)
                == (key.Atom? && if n == 1 then StillOwed(s[k + m..], Complete(open, false))
                                 else RunsOut(s[k + m..], open + [Pairs(n - 1)]))
    decreases Left(|open| + 1), 0, 1
  {
    hide Single, AllSingle, Decode, RunsOut;
    var inner := open + [Pairs(n)];
    assert inner[..|open|] == open;
    DecodeOwes(s, inner);
    var key := Decode(s, |inner|);
    if key.Decoded? {
      var middle := open + [Value(n, key.value.Atom?)];
      assert middle[..|open|] == open;
      var s' := s[key.length..];
      RestSingle(s, key.length);
      DecodeOwes(s', middle);
      var value := Decode(s', |middle|);
      if value.Decoded? {
        assert s'[value.length..] == s[key.length + value.length..];
      }
    }
  }

  lemma {:induction false} EntriesOwe(s: bytes, n: nat, open: seq<Owed>, before: seq<Entry>)
    requires AllSingle(s) && |open| <= MAX_DEPTH
    ensures match DecodeEntries(s, n, |open| + 1, before)
            case Decoded(_, k) =>
              (if n == 0 then StillOwed(s, Complete(open, false)) else RunsOut(s, open + [Pairs(n)]))
              == StillOwed(s[k..], Complete(open, false))
            case Fault(e) => n > 0 && RunsOut(s, open + [Pairs(n)]) == (e == NoByte)
    decreases Left(|open| + 1), 1, n
  {
    hide Single, AllSingle, Decode, DecodeEntries, RunsOut, StillOwed, Complete, Put;
    PairUnfolds(s, n, |open| + 1, before);
    if n == 0 {
      assert s[0..] == s;
    } else {
      PairOwes(s, n, open);
      var key := Decode(s, |open| + 1);
      if key.Decoded? {
        var value := Decode(s[key.length..], |open| + 1);
        if value.Decoded? && key.value.Atom? {
          var next := Put(before, key.value, value.value);
          var p := key.length + value.length;
          RestSingle(s, p);
          EntriesOwe(s[p..], n - 1, open, next);
          var q := DecodeEntries(s[p..], n - 1, |open| + 1, next);
          if q.Decoded? {
            assert s[p..][q.length..] == s[p + q.length..];
          }
        }
      }
    }
  }

  /** The decoder runs off the end of one-byte values exactly when something is still owed there. */
  lemma {:induction false} RunsOutIff(data: bytes)
    requires AllSingle(data)
    ensures Decode(data, 0) == Fault(NoByte) <==> RunsOut(data, [])
  {
    hide Decode, RunsOut, AllSingle;
    DecodeOwes(data, []);
  }
}
