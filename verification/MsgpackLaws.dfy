/** What MessagePack looks like octet for octet: the formats of the subset, every way of writing a number, what a reader
    refuses, and how deep values may nest. */
module MsgpackLaws {
  import opened Bytes
  import Utf8
  import opened MsgpackWire
  import opened Msgpack

  lemma {:induction false} Fields(n: nat)
    ensures Capacity(2) == 65536 && Capacity(4) == 4294967296
    ensures n < 65536 ==> Field16(n) == BigEndian(n, 2)
    ensures n < 4294967296 ==> Field32(n) == BigEndian(n, 4)
  {
    BigEndian16(0);
    assert Capacity(4) == 256 * Capacity(3) == 256 * 256 * Capacity(2);
    if n < 4294967296 {
      BigEndian16(n / 65536);
      BigEndian16(n % 65536);
      Wide(n);
    }
    if n < 65536 {
      BigEndian16(n);
    }
  }

  lemma {:induction false} Wide(n: nat)
    requires n < 4294967296 == Capacity(4) && Capacity(2) == 65536
    ensures BigEndian(n, 4) == BigEndian(n / 65536, 2) + BigEndian(n % 65536, 2)
  {
    BigEndian16(n / 65536);
    BigEndian16(n % 65536);
    assert Capacity(3) == 256 * Capacity(2);
    var third := n / 256;
    assert BigEndian(n, 4) == BigEndian(third, 3) + [n % 256];
    assert BigEndian(third, 3) == BigEndian(third / 256, 2) + [third % 256];
    assert third / 256 == n / 65536 && third % 256 == n % 65536 / 256 && n % 256 == n % 65536 % 256;
  }

  /** Integers are written in the shortest format that holds them; those beyond 32 bits are not written. */
  lemma {:induction false} IntegerOctets(i: int)
    ensures Writable(Int(i)) <==> -2147483648 <= i <= 4294967295
    ensures 0 <= i <= 127 ==> Head(Int(i)) == [i]
    ensures 128 <= i <= 255 ==> Head(Int(i)) == [0xCC, i]
    ensures Capacity(2) == 65536 && Capacity(4) == 4294967296
    ensures 256 <= i <= 65535 ==> Head(Int(i)) == [0xCD] + BigEndian(i, 2)
    ensures 65536 <= i <= 4294967295 ==> Head(Int(i)) == [0xCE] + BigEndian(i, 4)
    ensures -32 <= i <= -1 ==> Head(Int(i)) == [256 + i]
    ensures -128 <= i <= -33 ==> Head(Int(i)) == [0xD0, 256 + i]
    ensures -32768 <= i <= -129 ==> Head(Int(i)) == [0xD1] + BigEndian(65536 + i, 2)
    ensures -2147483648 <= i <= -32769 ==> Head(Int(i)) == [0xD2] + BigEndian(4294967296 + i, 4)
  {
    hide BigEndian, Field16, Field32, Capacity;
    Fields(0);
    if 0 <= i {
      Fields(i);
    } else if -32768 <= i {
      Fields(65536 + i);
    } else if -2147483648 <= i {
      Fields(4294967296 + i);
    }
  }

  /** The other formats, with their contents. */
  lemma {:induction false} OtherOctets(s: bytes, n: nat)
    ensures Head(Nil) == [0xC0] && Head(Bool(false)) == [0xC2] && Head(Bool(true)) == [0xC3]
    ensures |s| == 4 ==> Writable(Float(s)) && Head(Float(s)) == [0xCA] + s
    ensures Capacity(2) == 65536
    ensures Writable(Str(s)) <==> |s| <= 65535
    ensures |s| <= 31 ==> Head(Str(s)) == [0xA0 + |s|] + s
    ensures 32 <= |s| <= 255 ==> Head(Str(s)) == [0xD9, |s|] + s
    ensures 256 <= |s| <= 65535 ==> Head(Str(s)) == [0xDA] + BigEndian(|s|, 2) + s
    ensures Writable(Bin(s)) <==> |s| <= 65535
    ensures |s| <= 255 ==> Head(Bin(s)) == [0xC4, |s|] + s
    ensures 256 <= |s| <= 65535 ==> Head(Bin(s)) == [0xC5] + BigEndian(|s|, 2) + s
    ensures (Writable(Array(n)) <==> n <= 65535) && (Writable(Map(n)) <==> n <= 65535)
    ensures n <= 15 ==> Head(Array(n)) == [0x90 + n] && Head(Map(n)) == [0x80 + n]
    ensures 16 <= n <= 65535 ==>
              Head(Array(n)) == [0xDC] + BigEndian(n, 2) && Head(Map(n)) == [0xDE] + BigEndian(n, 2)
  {
    hide BigEndian, Field16, Field32, Capacity;
    Fields(|s|);
    Fields(n);
  }

  /** A number may come in any format that holds it: unsigned big-endian fields, or signed ones in two's complement. */
  lemma {:induction false} AnyWidth(n: nat, rest: bytes)
    ensures Capacity(2) == 65536 && Capacity(4) == 4294967296
    ensures n < 256 ==>
              && ReadHead([0xCC, n] + rest) == Got(Int(n), 2)
              && ReadHead([0xD0, n] + rest) == Got(Int(if n < 128 then n else n - 256), 2)
    ensures n < 65536 ==>
              && ReadHead([0xCD] + BigEndian(n, 2) + rest) == Got(Int(n), 3)
              && ReadHead([0xD1] + BigEndian(n, 2) + rest) == Got(Int(if n < 32768 then n else n - 65536), 3)
              && ReadHead([0xDC] + BigEndian(n, 2) + rest) == Got(Array(n), 3)
              && ReadHead([0xDE] + BigEndian(n, 2) + rest) == Got(Map(n), 3)
    ensures n < 4294967296 ==>
              && ReadHead([0xCE] + BigEndian(n, 4) + rest) == Got(Int(n), 5)
              && ReadHead([0xD2] + BigEndian(n, 4) + rest)
                 == Got(Int(if n < 2147483648 then n else n - 4294967296), 5)
  {
    hide BigEndian, Field16, Field32, Capacity, Get16, Get32, ReadText, ReadData;
    Fields(n);
    if n < 65536 {
      Split16(n, [0xCD], rest);
      Split16(n, [0xD1], rest);
      Split16(n, [0xDC], rest);
      Split16(n, [0xDE], rest);
    }
    if n < 4294967296 {
      Split32(n, [0xCE], rest);
      Split32(n, [0xD2], rest);
    }
  }

  /** A text or a byte string, too, may come with a length field wider than it needs. */
  lemma {:induction false} AnyLength(s: bytes, rest: bytes)
    requires Utf8.Valid(s) && |s| < 65536 == Capacity(2)
    ensures |s| < 256 ==>
              && ReadHead([0xD9, |s|] + s + rest) == Got(Str(s), 2 + |s|)
              && ReadHead([0xC4, |s|] + s + rest) == Got(Bin(s), 2 + |s|)
    ensures ReadHead([0xDA] + BigEndian(|s|, 2) + s + rest) == Got(Str(s), 3 + |s|)
    ensures ReadHead([0xC5] + BigEndian(|s|, 2) + s + rest) == Got(Bin(s), 3 + |s|)
  {
    hide BigEndian, Field16, Capacity, Utf8.Valid, ReadHead;
    Fields(|s|);
    if |s| < 256 {
      ShortLengths(s, rest);
    }
    LongText(s, rest);
    LongData(s, rest);
  }

  lemma {:induction false} ShortLengths(s: bytes, rest: bytes)
    requires Utf8.Valid(s) && |s| < 256
    ensures ReadHead([0xD9, |s|] + s + rest) == Got(Str(s), 2 + |s|)
    ensures ReadHead([0xC4, |s|] + s + rest) == Got(Bin(s), 2 + |s|)
  {
    hide Get16, Get32, Utf8.Valid;
    var a, b := [0xD9, |s|] + s + rest, [0xC4, |s|] + s + rest;
    assert a[2..2 + |s|] == s && b[2..2 + |s|] == s;
  }

  lemma {:induction false} LongText(s: bytes, rest: bytes)
    requires Utf8.Valid(s) && |s| < 65536
    ensures ReadHead([0xDA] + Field16(|s|) + s + rest) == Got(Str(s), 3 + |s|)
  {
    hide Field16, Get16, Get32, Utf8.Valid;
    var a := [0xDA] + Field16(|s|) + s + rest;
    Split16(|s|, [0xDA], s + rest);
    Long16(|s|);
    assert a == [0xDA] + Field16(|s|) + (s + rest);
    assert a[3..3 + |s|] == s;
  }

  lemma {:induction false} LongData(s: bytes, rest: bytes)
    requires |s| < 65536
    ensures ReadHead([0xC5] + Field16(|s|) + s + rest) == Got(Bin(s), 3 + |s|)
  {
    hide Field16, Get16, Get32;
    var b := [0xC5] + Field16(|s|) + s + rest;
    Split16(|s|, [0xC5], s + rest);
    Long16(|s|);
    assert b == [0xC5] + Field16(|s|) + (s + rest);
    assert b[3..3 + |s|] == s;
  }

  /** The formats outside the subset: 64-bit numbers, double precision, extensions and 32-bit lengths. */
  lemma {:induction false} UnsupportedIff(s: bytes)
    requires s != []
    ensures ReadHead(s) == Bad(Unsupported)
            <==> s[0] in {0xC1, 0xC6, 0xC7, 0xC8, 0xC9, 0xCB, 0xCF, 0xD3, 0xD4, 0xD5, 0xD6, 0xD7, 0xD8, 0xDB, 0xDD,
                          0xDF}
  {
    hide ReadText, ReadData, Get16, Get32;
    NotUnsupported(s);
  }

  lemma {:induction false} NotUnsupported(s: bytes)
    requires s != []
    ensures ReadField(s) != Bad(Unsupported)
    ensures forall start: nat, length: nat :: ReadText(s, start, length) != Bad(Unsupported)
  {
    hide Get16, Get32, Utf8.Valid;
  }

  // ----- Depth -------------------------------------------------------------------------------------------

  /** Nil inside `n` lists. */
  function Nested(n: nat): Value { if n == 0 then Atom(Nil) else List([Nested(n - 1)]) }

  /** And as octets: as many one-element arrays. */
  function NestedOctets(n: nat): bytes { if n == 0 then [0xC0] else [0x91] + NestedOctets(n - 1) }

  lemma {:induction false} NestedEncodes(n: nat, depth: nat)
    ensures Encode(Nested(n), depth) == if depth + n <= 8 then Ok(NestedOctets(n)) else Refused(TooDeep)
    decreases n
  {
    if n > 0 {
      var items := [Nested(n - 1)];
      NestedEncodes(n - 1, depth + 1);
      assert items[1..] == [] && EncodeItems([], depth + 1) == Ok([]);
      assert EncodeItems(items, depth + 1) == Encode(Nested(n - 1), depth + 1);
    }
  }

  lemma {:induction false} NestedDecodes(n: nat, depth: nat, rest: bytes)
    ensures Decode(NestedOctets(n) + rest, depth)
         == if depth + n <= 8 then Decoded(Nested(n), n + 1) else Fault(TooDeep)
    decreases n
  {
    if n == 0 {
      NilDecodes(depth, rest);
    } else {
      var inner := NestedOctets(n - 1) + rest;
      assert NestedOctets(n) + rest == [0x91] + inner;
      NestedDecodes(n - 1, depth + 1, rest);
      InnerShown(n - 1, rest);
      OneElement(inner, depth);
    }
  }

  lemma {:induction false} NilDecodes(depth: nat, rest: bytes)
    ensures Decode([0xC0] + rest, depth) == if depth <= 8 then Decoded(Atom(Nil), 1) else Fault(TooDeep)
  {
  }

  lemma {:induction false} InnerShown(n: nat, rest: bytes)
    ensures NestedOctets(n) + rest != []
  {
  }

  /** An array of one element. */
  lemma {:induction false} OneElement(inner: bytes, depth: nat)
    requires inner != []
    ensures Decode([0x91] + inner, depth)
         == if depth > 8 then Fault(TooDeep)
            else match Decode(inner, depth + 1)
                 case Fault(e) => Fault(e)
                 case Decoded(v, k) => Decoded(List([v]), k + 1)
  {
    OneItem(inner, depth + 1);
    var s := [0x91] + inner;
    assert s[1..] == inner && ReadHead(s) == Got(Array(1), 1);
    hide ReadHead, DecodeItems;
  }

  lemma {:induction false} OneItem(s: bytes, depth: nat)
    ensures DecodeItems(s, 1, depth)
         == match Decode(s, depth)
            case Fault(e) => Fault(e)
            case Decoded(v, k) => Decoded([v], k)
  {
    hide Decode;
    match Decode(s, depth)
    case Fault(_) =>
    case Decoded(v, k) =>
      assert DecodeItems(s[k..], 0, depth) == Decoded([], 0);
      assert [v] + [] == [v];
  }

  /** Eight levels of nesting are packed and unpacked, nine are refused by either side. */
  lemma {:induction false} DepthIff(n: nat)
    ensures Packb(Nested(n)).Ok? <==> n <= 8
    ensures Unpackb(NestedOctets(n)) == if n <= 8 then Object(Nested(n)) else ValueError
  {
    NestedEncodes(n, 0);
    NestedDecodes(n, 0, []);
    NestedLength(n);
    assert NestedOctets(n) + [] == NestedOctets(n);
    hide Decode, Encode;
  }

  lemma {:induction false} NestedLength(n: nat)
    ensures |NestedOctets(n)| == n + 1
  {
    if n > 0 {
      NestedLength(n - 1);
    }
  }
}
