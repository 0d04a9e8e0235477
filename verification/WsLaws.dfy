/** What frames look like octet for octet (sections 5.2, 5.3 and 5.7 of RFC 6455), said without the encoder's terms. */
module WsLaws {
  import opened Basics
  import opened Bytes
  import opened Xor
  import opened WsWire

  /** "Hello" */
  const HELLO: bytes := [72, 101, 108, 108, 111]

  const KEY: bytes := [0x37, 0xFA, 0x21, 0x3D]

  /** The masked text frame of section 5.7, and whatever follows it. */
  lemma {:induction false} MaskedHello(cap: nat, rest: bytes)
    requires cap >= 5
    ensures FrameBytes(Outgoing(1, true, Some(KEY), HELLO))
         == [0x81, 0x85, 0x37, 0xFA, 0x21, 0x3D, 0x7F, 0x9F, 0x4D, 0x51, 0x58]
    ensures NextFrame(cap, [0x81, 0x85, 0x37, 0xFA, 0x21, 0x3D, 0x7F, 0x9F, 0x4D, 0x51, 0x58] + rest)
         == Got(Frame(true, 1, true, 5, false, HELLO), 11)
  {
    hide NextFrame, Masked, Capacity;
    Capacities();
    HelloMasked();
    FrameRoundTrip(cap, Outgoing(1, true, Some(KEY), HELLO), rest);
  }

  lemma {:induction false} HelloMasked()
    ensures Masked(KEY, HELLO) == [0x7F, 0x9F, 0x4D, 0x51, 0x58]
  {
    hide XorByte;
    XorExamples();
  }

  /** The digits of each pair of octets, from the most significant one down. */
  lemma {:induction false} XorExamples()
    ensures XorByte(72, 0x37) == 0x7F && XorByte(101, 0xFA) == 0x9F && XorByte(108, 0x21) == 0x4D
    ensures XorByte(108, 0x3D) == 0x51 && XorByte(111, 0x37) == 0x58
  {
    hide Power2;
    assert XorBits(0, 0, 1) == 0; assert XorBits(0, 1, 1) == 1;
    assert XorBits(0, 0, 1) == 0; assert XorBits(0, 0, 1) == 0; assert XorBits(0, 0, 1) == 0;
    assert XorBits(1, 0, 2) == 1; assert XorBits(1, 3, 2) == 2;
    assert XorBits(1, 0, 2) == 1; assert XorBits(1, 0, 2) == 1; assert XorBits(1, 0, 2) == 1;
    assert XorBits(2, 1, 3) == 3; assert XorBits(3, 7, 3) == 4;
    assert XorBits(3, 1, 3) == 2; assert XorBits(3, 1, 3) == 2; assert XorBits(3, 1, 3) == 2;
    assert XorBits(4, 3, 4) == 7; assert XorBits(6, 15, 4) == 9;
    assert XorBits(6, 2, 4) == 4; assert XorBits(6, 3, 4) == 5; assert XorBits(6, 3, 4) == 5;
    assert XorBits(9, 6, 5) == 15; assert XorBits(12, 31, 5) == 19;
    assert XorBits(13, 4, 5) == 9; assert XorBits(13, 7, 5) == 10; assert XorBits(13, 6, 5) == 11;
    assert XorBits(18, 13, 6) == 31; assert XorBits(25, 62, 6) == 39;
    assert XorBits(27, 8, 6) == 19; assert XorBits(27, 15, 6) == 20; assert XorBits(27, 13, 6) == 22;
    assert XorBits(36, 27, 7) == 63; assert XorBits(50, 125, 7) == 79;
    assert XorBits(54, 16, 7) == 38; assert XorBits(54, 30, 7) == 40; assert XorBits(55, 27, 7) == 44;
    assert XorBits(72, 55, 8) == 127; assert XorBits(101, 250, 8) == 159;
    assert XorBits(108, 33, 8) == 77; assert XorBits(108, 61, 8) == 81; assert XorBits(111, 55, 8) == 88;
  }

  /** The unmasked frames of section 5.7: a text, its two fragments, a ping and a masked pong. */
  lemma {:induction false} OtherFrames(cap: nat, rest: bytes)
    requires cap >= 5
    ensures NextFrame(cap, [0x81, 0x05, 72, 101, 108, 108, 111] + rest)
         == Got(Frame(true, 1, false, 5, false, HELLO), 7)
    ensures NextFrame(cap, [0x01, 0x03, 72, 101, 108] + rest)
         == Got(Frame(false, 1, false, 3, false, [72, 101, 108]), 5)
    ensures NextFrame(cap, [0x80, 0x02, 108, 111] + rest) == Got(Frame(true, 0, false, 2, false, [108, 111]), 4)
    ensures NextFrame(cap, [0x89, 0x05, 72, 101, 108, 108, 111] + rest)
         == Got(Frame(true, 9, false, 5, false, HELLO), 7)
  {
    hide NextFrame;
    Capacities();
    FrameRoundTrip(cap, Outgoing(1, true, None, HELLO), rest);
    FrameRoundTrip(cap, Outgoing(1, false, None, [72, 101, 108]), rest);
    FrameRoundTrip(cap, Outgoing(0, true, None, [108, 111]), rest);
    FrameRoundTrip(cap, Outgoing(9, true, None, HELLO), rest);
    assert FrameBytes(Outgoing(1, true, None, HELLO)) == [0x81, 0x05, 72, 101, 108, 108, 111];
    assert FrameBytes(Outgoing(1, false, None, [72, 101, 108])) == [0x01, 0x03, 72, 101, 108];
    assert FrameBytes(Outgoing(0, true, None, [108, 111])) == [0x80, 0x02, 108, 111];
    assert FrameBytes(Outgoing(9, true, None, HELLO)) == [0x89, 0x05, 72, 101, 108, 108, 111];
  }

  /** The octets in front of any payload. */
  lemma {:induction false} HeadOctets(f: Outgoing, high: byte, low: byte)
    requires Legal(f)
    ensures var first := f.opcode + if f.fin then 0x80 else 0;
            var mask := if f.mask.Some? then 0x80 else 0;
            var key := if f.mask.Some? then f.mask.value else [];
            && (|f.payload| <= 125 ==> FrameHead(f) == [first, mask + |f.payload|] + key)
            && (126 <= |f.payload| == 256 * high + low ==> FrameHead(f) == [first, mask + 126, high, low] + key)
            && (|f.payload| >= 65536 ==>
                  |FrameHead(f)| == 10 + |key| && FrameHead(f)[..2] == [first, mask + 127]
                  && FromBigEndian(FrameHead(f)[2..10]) == |f.payload|)
    ensures FrameBytes(f) == FrameHead(f) + if f.mask.Some? then Masked(f.mask.value, f.payload) else f.payload
  {
    hide BigEndian, FromBigEndian, Masked;
    Capacities();
    var n := |f.payload|;
    if n >= 65536 {
      BigEndianRoundTrip(n, 8);
      assert FrameHead(f)[2..10] == BigEndian(n, 8);
    } else if n >= 126 {
      BigEndian16(n);
    }
  }

  /** What a receiver refuses at sight of the first octets: reserved bits, reserved opcodes, fragmented control frames
      and control frames longer than 125 bytes. */
  lemma {:induction false} RefusedHeads(cap: nat, s: bytes)
    requires |s| >= 10
    ensures var opcode := s[0] % 16;
            NextFrame(cap, s).Malformed?
            <==> || s[0] % 128 >= 16
                 || 3 <= opcode <= 7 || opcode >= 11
                 || (opcode >= 8 && s[0] < 0x80)
                 || (opcode >= 8 && s[1] % 128 == 126 && 256 * (s[2] as int) + s[3] > 125)
                 || (opcode >= 8 && s[1] % 128 == 127 && FromBigEndian(s[2..10]) > 125)
  {
    hide FromBigEndian;
    if s[1] % 128 == 126 {
      TwoOctets(s[2..4]);
    }
  }

  /** Two octets are read high octet first. */
  lemma {:induction false} TwoOctets(b: bytes)
    requires |b| == 2
    ensures FromBigEndian(b) == 256 * (b[0] as int) + b[1]
  {
    assert b[..1][..0] == [];
    assert FromBigEndian(b[..1]) == b[0];
  }
}
