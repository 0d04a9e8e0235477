/** Bitwise exclusive or of octets, on their binary digits. */
module Xor {
  import opened Bytes

  function Power2(width: nat): (p: nat)
    ensures p >= 1
  {
    if width == 0 then 1 else 2 * Power2(width - 1)
  }

  function XorBits(a: nat, b: nat, width: nat): (r: nat)
    ensures r < Power2(width)
  {
    if width == 0 then 0 else (a % 2 + b % 2) % 2 + 2 * XorBits(a / 2, b / 2, width - 1)
  }

  lemma {:induction false} XorBitsTwice(a: nat, b: nat, width: nat)
    requires a < Power2(width)
    ensures XorBits(XorBits(a, b, width), b, width) == a
  {
    if width != 0 {
      XorBitsTwice(a / 2, b / 2, width - 1);
      var rest := XorBits(a / 2, b / 2, width - 1);
      var bit := (a % 2 + b % 2) % 2;
      hide XorBits, Power2;
      XorBitsUnfold(a, b, width);
      XorBitsUnfold(bit + 2 * rest, b, width);
      BitAndRest(bit, rest);
      BitTwice(a, b);
    }
  }

  lemma {:induction false} XorBitsUnfold(a: nat, b: nat, width: nat)
    requires width != 0
    ensures XorBits(a, b, width) == (a % 2 + b % 2) % 2 + 2 * XorBits(a / 2, b / 2, width - 1)
  {
  }

  lemma {:induction false} BitAndRest(bit: nat, rest: nat)
    requires bit < 2
    ensures (bit + 2 * rest) % 2 == bit && (bit + 2 * rest) / 2 == rest
  {
  }

  lemma {:induction false} BitTwice(a: nat, b: nat)
    ensures ((a % 2 + b % 2) % 2 + b % 2) % 2 == a % 2 && a == a % 2 + 2 * (a / 2)
  {
  }

  lemma {:induction false} Power2Of8()
    ensures Power2(8) == 256
  {
    assert Power2(4) == 2 * Power2(3) == 4 * Power2(2) == 8 * Power2(1) == 16;
    assert Power2(8) == 2 * Power2(7) == 4 * Power2(6) == 8 * Power2(5) == 16 * Power2(4);
  }

  function XorByte(a: byte, b: byte): byte {
    Power2Of8();
    XorBits(a, b, 8)
  }

  lemma {:induction false} DigitOfXor(a: nat, b: nat, width: nat)
    requires width > 0
    ensures XorBits(a, b, width) % 2 == (if a % 2 == b % 2 then 0 else 1)
    ensures XorBits(a, b, width) / 2 == XorBits(a / 2, b / 2, width - 1)
  {
    hide XorBits, Power2;
    XorBitsUnfold(a, b, width);
    BitAndRest((a % 2 + b % 2) % 2, XorBits(a / 2, b / 2, width - 1));
  }

  lemma {:induction false} Halved(a: nat)
    ensures a / 2 / 2 == a / 4 && a / 4 / 2 == a / 8 && a / 8 / 2 == a / 16
    ensures a / 16 / 2 == a / 32 && a / 16 / 4 == a / 64 && a / 16 / 8 == a / 128
  {
  }

  lemma {:induction false} FourDigits(a: nat, b: nat, width: nat)
    requires width >= 4
    ensures var x := XorBits(a, b, width);
            && (x % 2 == 1 <==> a % 2 != b % 2)
            && (x / 2 % 2 == 1 <==> a / 2 % 2 != b / 2 % 2)
            && (x / 4 % 2 == 1 <==> a / 4 % 2 != b / 4 % 2)
            && (x / 8 % 2 == 1 <==> a / 8 % 2 != b / 8 % 2)
            && x / 16 == XorBits(a / 16, b / 16, width - 4)
  {
    hide XorBits, Power2;
    Halved(a);
    Halved(b);
    Halved(XorBits(a, b, width));
    DigitOfXor(a, b, width);
    DigitOfXor(a / 2, b / 2, width - 1);
    DigitOfXor(a / 4, b / 4, width - 2);
    DigitOfXor(a / 8, b / 8, width - 3);
  }

  /** Every binary digit of an exclusive or, from the units up to 128, is set exactly when those of the two octets
      differ. */
  lemma {:induction false} XorByteDigits(a: byte, b: byte)
    ensures var x := XorByte(a, b);
            && (x % 2 == 1 <==> a % 2 != b % 2)
            && (x / 2 % 2 == 1 <==> a / 2 % 2 != b / 2 % 2)
            && (x / 4 % 2 == 1 <==> a / 4 % 2 != b / 4 % 2)
            && (x / 8 % 2 == 1 <==> a / 8 % 2 != b / 8 % 2)
            && (x / 16 % 2 == 1 <==> a / 16 % 2 != b / 16 % 2)
            && (x / 32 % 2 == 1 <==> a / 32 % 2 != b / 32 % 2)
            && (x / 64 % 2 == 1 <==> a / 64 % 2 != b / 64 % 2)
            && (x / 128 % 2 == 1 <==> a / 128 % 2 != b / 128 % 2)
  {
    hide XorBits, Power2;
    var x := XorByte(a, b);
    Halved(a);
    Halved(b);
    Halved(x);
    FourDigits(a, b, 8);
    FourDigits(a / 16, b / 16, 4);
  }

  lemma {:induction false} XorByteTwice(a: byte, b: byte)
    ensures XorByte(XorByte(a, b), b) == a
  {
    Power2Of8();
    XorBitsTwice(a, b, 8);
  }

  /** Apply a four-byte masking key to `data`, byte i with key byte i mod 4. */
  function Masked(key: bytes, data: bytes): (r: bytes)
    requires |key| == 4
    ensures |r| == |data|
  {
    seq(|data|, i requires 0 <= i < |data| => XorByte(data[i], key[i % 4]))
  }

  /** Masking is its own inverse. */
  lemma {:induction false} MaskedTwice(key: bytes, data: bytes)
    requires |key| == 4
    ensures Masked(key, Masked(key, data)) == data
  {
    var twice := Masked(key, Masked(key, data));
    forall i | 0 <= i < |data| ensures twice[i] == data[i] {
      XorByteTwice(data[i], key[i % 4]);
    }
  }
}

/** WebSocket frames as byte strings (sections 5.2, 5.3 and 5.5 of RFC 6455) and the reference reading of a stream. */
module WsWire {
  import opened Basics
  import opened Bytes
  import opened Resumable
  import opened Xor

  const CONTINUATION: nat := 0
  const TEXT: nat := 1
  const BINARY: nat := 2
  const CLOSE: nat := 8
  const PING: nat := 9
  const PONG: nat := 10

  const MAX_CONTROL_PAYLOAD: nat := 125

  predicate IsControl(opcode: nat) { opcode == CLOSE || opcode == PING || opcode == PONG }

  predicate IsData(opcode: nat) { opcode == CONTINUATION || opcode == TEXT || opcode == BINARY }

  /** A frame as the parser reports it: an oversized one keeps its length but not its payload. */
  datatype Frame = Frame(fin: bool, opcode: nat, hadMask: bool, length: nat, oversized: bool, payload: bytes)

  // ----- The reference reading of a stream ----------------------------------------

  datatype Next = More | Malformed | Got(frame: Frame, size: nat)

  /** Reserved bits set, a fragmented control frame, or a reserved opcode. */
  predicate BadFirst(first: byte) {
    first / 16 % 8 != 0
    || (if IsControl(first % 16) then first < 128 else !IsData(first % 16))
  }

  /** Octets of extended payload length announced by the second byte. */
  function Extension(second: byte): nat {
    if second % 128 < 126 then 0 else if second % 128 == 126 then 2 else 8
  }

  function MaskSize(second: byte): nat { if second >= 128 then 4 else 0 }

  function PayloadLength(s: bytes): nat
    requires |s| >= 2 && |s| >= 2 + Extension(s[1])
  {
    if Extension(s[1]) == 0 then s[1] % 128 else FromBigEndian(s[2..2 + Extension(s[1])])
  }

  function HeaderSize(second: byte): nat { 2 + Extension(second) + MaskSize(second) }

  function Unmasked(s: bytes, from: nat, to: nat): bytes
    requires |s| >= 2 && HeaderSize(s[1]) <= from <= to <= |s|
  {
    if MaskSize(s[1]) == 0 then s[from..to]
    else Masked(s[HeaderSize(s[1]) - 4..HeaderSize(s[1])], s[from..to])
  }

  predicate LengthAllowed(s: bytes)
    requires |s| >= 2 && |s| >= 2 + Extension(s[1])
  {
    IsControl(s[0] % 16) ==> PayloadLength(s) <= MAX_CONTROL_PAYLOAD
  }

  function FrameAt(cap: nat, s: bytes): Frame
    requires |s| >= 2 && |s| >= HeaderSize(s[1]) && |s| >= HeaderSize(s[1]) + PayloadLength(s)
  {
    var length := PayloadLength(s);
    var header := HeaderSize(s[1]);
    Frame(s[0] >= 128, s[0] % 16, s[1] >= 128, length, length > cap,
          if length > cap then [] else Unmasked(s, header, header + length))
  }

  /** What the bytes at a frame boundary amount to, for a parser that keeps payloads of at most `cap` bytes. */
  function NextFrame(cap: nat, s: bytes): (r: Next)
    ensures r.Got? ==> 2 <= r.size <= |s|
  {
    if |s| < 2 then More
    else if BadFirst(s[0]) then Malformed
    else if |s| < 2 + Extension(s[1]) then More
    else if !LengthAllowed(s) then Malformed
    else if |s| < HeaderSize(s[1]) + PayloadLength(s) then More
    else Got(FrameAt(cap, s), HeaderSize(s[1]) + PayloadLength(s))
  }

  lemma {:induction false} HeaderStable(s: bytes, more: bytes)
    requires |s| >= 2 && |s| >= 2 + Extension(s[1])
    ensures PayloadLength(s + more) == PayloadLength(s) && LengthAllowed(s + more) == LengthAllowed(s)
  {
    var e := Extension(s[1]);
    if e != 0 {
      assert (s + more)[2..2 + e] == s[2..2 + e];
    }
  }

  lemma {:induction false} UnmaskedStable(s: bytes, more: bytes, from: nat, to: nat)
    requires |s| >= 2 && HeaderSize(s[1]) <= from <= to <= |s|
    ensures Unmasked(s + more, from, to) == Unmasked(s, from, to)
  {
    hide Masked, Extension;
    var t, header := s + more, HeaderSize(s[1]);
    assert t[1] == s[1] && t[from..to] == s[from..to];
    if MaskSize(s[1]) > 0 {
      assert t[header - 4..header] == s[header - 4..header];
    }
  }

  lemma {:induction false} FrameStable(cap: nat, s: bytes, more: bytes)
    requires |s| >= 2 && |s| >= HeaderSize(s[1]) && |s| >= HeaderSize(s[1]) + PayloadLength(s)
    ensures PayloadLength(s + more) == PayloadLength(s) && FrameAt(cap, s + more) == FrameAt(cap, s)
  {
    hide Unmasked, PayloadLength, LengthAllowed;
    var header, t := HeaderSize(s[1]), s + more;
    HeaderStable(s, more);
    assert t[0] == s[0] && t[1] == s[1];
    UnmaskedStable(s, more, header, header + PayloadLength(s));
  }

  lemma {:induction false} NextFrameStable(cap: nat, s: bytes, more: bytes)
    requires !NextFrame(cap, s).More?
    ensures NextFrame(cap, s + more) == NextFrame(cap, s)
  {
    hide BadFirst, FrameAt, PayloadLength, LengthAllowed, Unmasked;
    var t := s + more;
    assert t[0] == s[0] && t[1] == s[1];
    if !BadFirst(s[0]) {
      HeaderStable(s, more);
      if LengthAllowed(s) {
        FrameStable(cap, s, more);
      }
    }
  }

  function FrameStep(cap: nat): Stepper<(), Frame> {
    (_, s: bytes) =>
      match NextFrame(cap, s)
      case Got(frame, size) => Take((), size, [frame])
      case _ => Wait
  }

  function Frames(cap: nat, s: bytes): Progress<(), Frame> {
    Run(FrameStep(cap), (), s)
  }

  lemma {:induction false} FrameStepStable(cap: nat)
    ensures Stable(FrameStep(cap))
  {
    var step := FrameStep(cap);
    forall u, s: bytes, more: bytes | Enabled(step, u, s)
      ensures step(u, s + more) == step(u, s)
    {
      NextFrameStable(cap, s, more);
    }
  }

  // ----- Encoding ---------------------------------------------------------------------

  datatype Outgoing = Outgoing(opcode: nat, fin: bool, mask: Option<bytes>, payload: bytes)

  /** The lengths encode_frame accepts: control payloads are short, keys have four bytes, a length fits 64 bits. */
  predicate Encodable(f: Outgoing) {
    && (IsControl(f.opcode) ==> |f.payload| <= MAX_CONTROL_PAYLOAD)
    && (f.mask.Some? ==> |f.mask.value| == 4)
    && |f.payload| < Capacity(8)
  }

  /** A frame RFC 6455 allows: a known opcode, control frames unfragmented. */
  predicate Legal(f: Outgoing) {
    && Encodable(f)
    && (IsControl(f.opcode) || IsData(f.opcode))
    && (IsControl(f.opcode) ==> f.fin)
  }

  lemma {:induction false} Capacities()
    ensures Capacity(2) == 65536 && Capacity(8) > 65536
  {
    BigEndian16(0);
    assert Capacity(8) == 256 * Capacity(7);
    assert Capacity(3) == 256 * Capacity(2);
    assert Capacity(7) >= 256 * Capacity(6) >= 256 * 256 * Capacity(5) >= 256 * Capacity(4) >= Capacity(3);
  }

  function LengthField(maskBit: byte, n: nat): (r: bytes)
    requires maskBit == 0 || maskBit == 128
    requires n < Capacity(8)
    ensures r != []
  {
    Capacities();
    if n < 126 then [maskBit + n]
    else if n <= 0xFFFF then [maskBit + 126] + BigEndian(n, 2)
    else [maskBit + 127] + BigEndian(n, 8)
  }

  function FirstByte(f: Outgoing): byte { (if f.fin then 128 else 0) + f.opcode % 16 }

  function FrameHead(f: Outgoing): (r: bytes)
    requires Encodable(f)
    ensures r != []
  {
    [FirstByte(f)] + LengthField(if f.mask.Some? then 128 else 0, |f.payload|)
    + (if f.mask.Some? then f.mask.value else [])
  }

  function FrameBytes(f: Outgoing): (r: bytes)
    requires Encodable(f)
    ensures r != []
  {
    FrameHead(f) + (if f.mask.Some? then Masked(f.mask.value, f.payload) else f.payload)
  }

  /** What a receiver keeping at most `cap` payload bytes should see. */
  function Received(cap: nat, f: Outgoing): Frame {
    Frame(f.fin, f.opcode, f.mask.Some?, |f.payload|, |f.payload| > cap, if |f.payload| > cap then [] else f.payload)
  }

  lemma {:induction false} LengthFieldReads(f: Outgoing, after: bytes)
    requires Encodable(f)
    ensures var maskBit := if f.mask.Some? then 128 else 0;
            var field := LengthField(maskBit, |f.payload|);
            var s := [FirstByte(f)] + field + after;
            && s[1] == field[0] && |field| == 1 + Extension(s[1])
            && (s[1] >= 128 <==> f.mask.Some?)
            && PayloadLength(s) == |f.payload|
  {
    hide BigEndian, FromBigEndian, Capacity, FirstByte;
    Capacities();
    var n := |f.payload|;
    var maskBit := if f.mask.Some? then 128 else 0;
    var field := LengthField(maskBit, n);
    var s := [FirstByte(f)] + field + after;
    assert s[1] == field[0];
    if 126 <= n <= 0xFFFF {
      assert s[2..4] == BigEndian(n, 2);
      BigEndianRoundTrip(n, 2);
    } else if n > 0xFFFF {
      assert s[2..10] == BigEndian(n, 8);
      BigEndianRoundTrip(n, 8);
    }
  }

  lemma {:induction false} HeadReads(f: Outgoing, after: bytes)
    requires Encodable(f)
    ensures var s := FrameHead(f) + after;
            && |s| >= 2 && s[0] == FirstByte(f)
            && HeaderSize(s[1]) == |FrameHead(f)| && (s[1] >= 128 <==> f.mask.Some?)
            && PayloadLength(s) == |f.payload|
  {
    var key := if f.mask.Some? then f.mask.value else [];
    LengthFieldReads(f, key + after);
    var field := LengthField(if f.mask.Some? then 128 else 0, |f.payload|);
    assert FrameHead(f) + after == [FirstByte(f)] + field + (key + after);
  }

  lemma {:induction false} PayloadReads(f: Outgoing, rest: bytes)
    requires Encodable(f)
    ensures var s := FrameBytes(f) + rest;
            var header := |FrameHead(f)|;
            && |s| >= 2 && HeaderSize(s[1]) == header && |FrameBytes(f)| == header + |f.payload|
            && Unmasked(s, header, header + |f.payload|) == f.payload
  {
    var data := if f.mask.Some? then Masked(f.mask.value, f.payload) else f.payload;
    var s := FrameBytes(f) + rest;
    var header := |FrameHead(f)|;
    assert s == FrameHead(f) + (data + rest);
    HeadReads(f, data + rest);
    assert s[header..header + |f.payload|] == data;
    if f.mask.Some? {
      assert s[header - 4..header] == FrameHead(f)[header - 4..] == f.mask.value;
      MaskedTwice(f.mask.value, f.payload);
    }
  }

  lemma {:induction false} FirstByteReads(f: Outgoing)
    requires Legal(f)
    ensures var first := FirstByte(f);
            !BadFirst(first) && first % 16 == f.opcode && (first >= 128 <==> f.fin)
  {
  }

  /** One legal frame is read back as what was sent, leaving exactly what follows it. */
  lemma {:induction false} FrameRoundTrip(cap: nat, f: Outgoing, rest: bytes)
    requires Legal(f)
    ensures NextFrame(cap, FrameBytes(f) + rest) == Got(Received(cap, f), |FrameBytes(f)|)
  {
    hide FrameHead, Unmasked, PayloadLength, BadFirst, FirstByte, Masked;
    FirstByteReads(f);
    var data := if f.mask.Some? then Masked(f.mask.value, f.payload) else f.payload;
    var s := FrameBytes(f) + rest;
    assert s == FrameHead(f) + (data + rest);
    HeadReads(f, data + rest);
    PayloadReads(f, rest);
  }

  predicate AllLegal(fs: seq<Outgoing>) {
    forall i :: 0 <= i < |fs| ==> Legal(fs[i])
  }

  function FrameStream(fs: seq<Outgoing>): bytes
    requires AllLegal(fs)
  {
    if fs == [] then [] else FrameBytes(fs[0]) + FrameStream(fs[1..])
  }

  function AllReceived(cap: nat, fs: seq<Outgoing>): (r: seq<Frame>)
    ensures |r| == |fs|
    ensures forall i :: 0 <= i < |fs| ==> r[i] == Received(cap, fs[i])
  {
    if fs == [] then [] else [Received(cap, fs[0])] + AllReceived(cap, fs[1..])
  }

  /** A stream of legal frames is read back frame for frame, oversized ones with their true length. */
  lemma {:induction false} FrameStreamRoundTrip(cap: nat, fs: seq<Outgoing>)
    requires AllLegal(fs)
    ensures Frames(cap, FrameStream(fs)) == Progress((), [], AllReceived(cap, fs))
  {
    if fs != [] {
      var s := FrameStream(fs);
      var rest := FrameStream(fs[1..]);
      FrameRoundTrip(cap, fs[0], rest);
      assert s[|FrameBytes(fs[0])|..] == rest;
      FrameStreamRoundTrip(cap, fs[1..]);
    }
  }

  datatype Encoded = Packed(wire: bytes) | Refused

  /** encode_frame: the payload is appended and then masked in place. */
  method PackFrame(f: Outgoing) returns (r: Encoded)
    ensures r == if Encodable(f) then Packed(FrameBytes(f)) else Refused
  {
    hide LengthField;
    var n := |f.payload|;
    if IsControl(f.opcode) && n > MAX_CONTROL_PAYLOAD {
      return Refused;
    }
    if f.mask.Some? && |f.mask.value| != 4 {
      return Refused;
    }
    var maskBit := if f.mask.Some? then 128 else 0;
    var field := PackLength(maskBit, n);
    if field.Refused? {
      return Refused;
    }
    var parts: bytes := [FirstByte(f)] + field.wire;
    if f.mask.Some? {
      parts := parts + f.mask.value;
      var masked := MaskFrom(parts + f.payload, |parts|, f.mask.value);
      assert (parts + f.payload)[|parts|..] == f.payload;
      return Packed(masked);
    }
    return Packed(parts + f.payload);
  }

  method PackLength(maskBit: byte, n: nat) returns (r: Encoded)
    requires maskBit == 0 || maskBit == 128
    ensures r == if n < Capacity(8) then Packed(LengthField(maskBit, n)) else Refused
  {
    Capacities();
    if n < 126 {
      return Packed([maskBit + n]);
    } else if n <= 0xFFFF {
      return Packed([maskBit + 126] + BigEndian(n, 2));
    } else if n < Capacity(8) {
      return Packed([maskBit + 127] + BigEndian(n, 8));
    }
    return Refused;
  }

  /** Mask `parts` in place from `offset` on. */
  method MaskFrom(parts: bytes, offset: nat, key: bytes) returns (r: bytes)
    requires offset <= |parts| && |key| == 4
    ensures r == parts[..offset] + Masked(key, parts[offset..])
  {
    r := parts;
    var n := |parts| - offset;
    var index := 0;
    while index < n
      invariant 0 <= index <= n
      invariant |r| == |parts| && r[..offset] == parts[..offset]
      invariant forall i :: 0 <= i < index ==> r[offset + i] == XorByte(parts[offset + i], key[i % 4])
      invariant forall i :: offset + index <= i < |r| ==> r[i] == parts[i]
    {
      r := r[offset + index := XorByte(r[offset + index], key[index % 4])];
      index := index + 1;
    }
    assert r[offset..] == Masked(key, parts[offset..]);
  }
}
