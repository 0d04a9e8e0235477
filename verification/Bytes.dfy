/** Octets, big-endian integers and concatenation, shared by every codec. */
module Bytes {

  type byte = x: int | 0 <= x < 256

  type bytes = seq<byte>

  /** 256 to the power `width`: how many values fit in `width` octets. */
  function Capacity(width: nat): (c: nat)
    ensures 1 <= c
  {
    if width == 0 then 1 else 256 * Capacity(width - 1)
  }

  /** The fixed-width network-order form struct.pack gives for H, I and Q. */
  function BigEndian(value: nat, width: nat): (r: bytes)
    requires value < Capacity(width)
    ensures |r| == width
  {
    if width == 0 then [] else BigEndian(value / 256, width - 1) + [value % 256]
  }

  function FromBigEndian(b: bytes): (r: nat)
    ensures r < Capacity(|b|)
  {
    if b == [] then 0 else 256 * FromBigEndian(b[..|b| - 1]) + b[|b| - 1]
  }

  /** Packing and unpacking an integer in a big enough field is the identity. */
  lemma {:induction false} BigEndianRoundTrip(value: nat, width: nat)
    requires value < Capacity(width)
    ensures FromBigEndian(BigEndian(value, width)) == value
  {
    if width != 0 {
      BigEndianRoundTrip(value / 256, width - 1);
      var r := BigEndian(value, width);
      assert r[..|r| - 1] == BigEndian(value / 256, width - 1);
    }
  }

  lemma {:induction false} BigEndian16(value: nat)
    requires value < 65536
    ensures Capacity(2) == 65536
    ensures BigEndian(value, 2) == [value / 256, value % 256]
  {
    assert Capacity(1) == 256;
    assert BigEndian(value / 256, 1) == [value / 256] by {
      assert BigEndian(value / 256 / 256, 0) == [];
      assert value / 256 % 256 == value / 256;
    }
  }

  function Flatten(parts: seq<bytes>): bytes {
    if parts == [] then [] else parts[0] + Flatten(parts[1..])
  }

  lemma {:induction false} FlattenAppend(parts: seq<bytes>, last: bytes)
    ensures Flatten(parts + [last]) == Flatten(parts) + last
  {
    if parts == [] {
      assert parts + [last] == [last];
      assert [last][1..] == [];
      assert Flatten([last]) == last + Flatten([]);
      assert Flatten([last]) == last;
    } else {
      FlattenAppend(parts[1..], last);
      assert (parts + [last])[1..] == parts[1..] + [last];
    }
  }
}

/** The well-formedness test Python applies when it decodes UTF-8 text. */
module Utf8 {
  import opened Bytes

  predicate Tail(b: byte) { 0x80 <= b < 0xC0 }

  /** Length of the first encoded code point of `s`, or 0 when it is malformed. */
  function Width(s: bytes): (n: nat)
    requires s != []
    ensures n <= |s|
  {
    if s[0] < 0x80 then 1
    else if 0xC2 <= s[0] < 0xE0 && |s| >= 2 && Tail(s[1]) then 2
    else if 0xE0 <= s[0] < 0xF0 && |s| >= 3 && Tail(s[1]) && Tail(s[2])
            && (s[0] == 0xE0 ==> s[1] >= 0xA0) && (s[0] == 0xED ==> s[1] < 0xA0) then 3
    else if 0xF0 <= s[0] < 0xF5 && |s| >= 4 && Tail(s[1]) && Tail(s[2]) && Tail(s[3])
            && (s[0] == 0xF0 ==> s[1] >= 0x90) && (s[0] == 0xF4 ==> s[1] < 0x90) then 4
    else 0
  }

  predicate Valid(s: bytes) {
    s == [] || (Width(s) > 0 && Valid(s[Width(s)..]))
  }
}
