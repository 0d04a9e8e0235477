/** What well-formed UTF-8 is: the encodings of Unicode scalar values (section 3 of RFC 3629), and nothing else. */
module Utf8Laws {
  import opened Bytes
  import opened Utf8

  /** A code point that is no surrogate. */
  predicate Scalar(c: nat) { c < 0xD800 || 0xE000 <= c < 0x110000 }

  /** The octets of one code point. */
  function Encoded(c: nat): (r: bytes)
    requires Scalar(c)
    ensures 1 <= |r| <= 4
  {
    if c < 0x80 then [c]
    else if c < 0x800 then [0xC0 + c / 64, 0x80 + c % 64]
    else if c < 0x1_0000 then [0xE0 + c / 4096, 0x80 + c / 64 % 64, 0x80 + c % 64]
    else [0xF0 + c / 262144, 0x80 + c / 4096 % 64, 0x80 + c / 64 % 64, 0x80 + c % 64]
  }

  predicate AllScalar(text: seq<nat>) { forall i :: 0 <= i < |text| ==> Scalar(text[i]) }

  function Encoding(text: seq<nat>): bytes
    requires AllScalar(text)
  {
    if text == [] then [] else Encoded(text[0]) + Encoding(text[1..])
  }

  lemma {:induction false} EncodedWidth(c: nat, rest: bytes)
    requires Scalar(c)
    ensures Encoded(c) + rest != [] && Width(Encoded(c) + rest) == |Encoded(c)|
  {
  }

  /** Every text is encoded as well-formed octets. */
  lemma {:induction false} EncodingValid(text: seq<nat>)
    requires AllScalar(text)
    ensures Valid(Encoding(text))
  {
    if text != [] {
      hide Width, Encoded;
      var s, rest := Encoding(text), Encoding(text[1..]);
      EncodedWidth(text[0], rest);
      EncodingValid(text[1..]);
      assert s[|Encoded(text[0])|..] == rest;
    }
  }

  /** The digits to the base 64 that continuation octets carry. */
  lemma {:induction false} Digits(a: nat, b: nat, c: nat, d: nat)
    requires b < 64 && c < 64 && d < 64
    ensures var three, four := 64 * (64 * a + b) + c, 64 * (64 * (64 * a + b) + c) + d;
            && three == 4096 * a + 64 * b + c && four == 262144 * a + 4096 * b + 64 * c + d
            && three / 4096 == a && three / 64 % 64 == b && three % 64 == c
            && four / 262144 == a && four / 4096 % 64 == b && four / 64 % 64 == c && four % 64 == d
  {
    var two := 64 * a + b;
    var three := 64 * two + c;
    var four := 64 * three + d;
    assert two / 64 == a && two % 64 == b;
    assert three / 64 == two && three % 64 == c;
    assert four / 64 == three && four % 64 == d;
    Thrice(three);
    Thrice(four);
  }

  lemma {:induction false} Thrice(n: nat)
    ensures n / 4096 == n / 64 / 64 && n / 262144 == n / 64 / 64 / 64
  {
  }

  /** The code point at the front of well-formed octets. */
  lemma {:induction false} FirstDecodes(s: bytes) returns (c: nat)
    requires s != [] && Width(s) > 0
    ensures Scalar(c) && Encoded(c) == s[..Width(s)]
  {
    var n := Width(s);
    if n == 1 {
      c := s[0];
    } else if n == 2 {
      c := Second(s[0], s[1]);
    } else if n == 3 {
      c := Third(s[0], s[1], s[2]);
    } else {
      c := Fourth(s[0], s[1], s[2], s[3]);
    }
  }

  lemma {:induction false} Second(first: byte, b: byte) returns (c: nat)
    requires 0xC2 <= first < 0xE0 && Tail(b)
    ensures Scalar(c) && Encoded(c) == [first, b]
  {
    c := 64 * (first as int - 0xC0) + (b as int - 0x80);
  }

  lemma {:induction false} Third(first: byte, b: byte, d: byte) returns (c: nat)
    requires 0xE0 <= first < 0xF0 && Tail(b) && Tail(d)
    requires (first == 0xE0 ==> b >= 0xA0) && (first == 0xED ==> b < 0xA0)
    ensures Scalar(c) && Encoded(c) == [first, b, d]
  {
    var x: int, y: int, z: int := first - 0xE0, b - 0x80, d - 0x80;
    Digits(x, y, z, 0);
    c := 64 * (64 * x + y) + z;
  }

  lemma {:induction false} Fourth(first: byte, b: byte, d: byte, e: byte) returns (c: nat)
    requires 0xF0 <= first < 0xF5 && Tail(b) && Tail(d) && Tail(e)
    requires (first == 0xF0 ==> b >= 0x90) && (first == 0xF4 ==> b < 0x90)
    ensures Scalar(c) && Encoded(c) == [first, b, d, e]
  {
    var w: int, x: int, y: int, z: int := first - 0xF0, b - 0x80, d - 0x80, e - 0x80;
    Digits(w, x, y, z);
    c := 64 * (64 * (64 * w + x) + y) + z;
  }

  lemma {:induction false} ValidDecodes(s: bytes) returns (text: seq<nat>)
    requires Valid(s)
    ensures AllScalar(text) && Encoding(text) == s
    decreases |s|
  {
    text := [];
    if s != [] {
      hide Encoded;
      var c := FirstDecodes(s);
      var more := ValidDecodes(s[Width(s)..]);
      text := [c] + more;
      assert text[1..] == more;
      assert s[..Width(s)] + s[Width(s)..] == s;
    }
  }

  /** Octets are well-formed exactly when they encode some text. */
  lemma {:induction false} ValidIff(s: bytes)
    ensures Valid(s) <==> exists text :: AllScalar(text) && Encoding(text) == s
  {
    if Valid(s) {
      var text := ValidDecodes(s);
    }
    if text :| AllScalar(text) && Encoding(text) == s {
      EncodingValid(text);
    }
  }
}
