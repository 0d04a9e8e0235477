/** The heads of MessagePack values: what precedes the contents of a string, an array or a map, or is a value by
    itself. */
module MsgpackWire {
  import opened Bytes
  import Utf8

  /** A head together with its own payload; containers only announce how many items follow. */
  datatype Token =
    | Nil
    | Bool(b: bool)
    | Int(i: int)
    | Float(bits: bytes)
    | Str(utf8: bytes)
    | Bin(data: bytes)
    | Array(count: nat)
    | Map(count: nat)

  datatype Error = NoByte | Truncated | TooDeep | NotUtf8 | Unhashable | Unsupported | OutOfRange

  datatype Read = Got(token: Token, length: nat) | Bad(error: Error)

  datatype Packed = Ok(data: bytes) | Refused(error: Error)

  // ----- Writing heads ------------------------------------------------------------------------------

  predicate Writable(t: Token) {
    match t
    case Nil => true
    case Bool(_) => true
    case Int(i) => -0x8000_0000 <= i <= 0xFFFF_FFFF
    case Float(bits) => |bits| == 4
    case Str(s) => |s| <= 0xFFFF
    case Bin(s) => |s| <= 0xFFFF
    case Array(n) => n <= 0xFFFF
    case Map(n) => n <= 0xFFFF
  }

  function Field16(n: nat): bytes
    requires n < 65536
  {
    [n / 256, n % 256]
  }

  function Field32(n: nat): bytes
    requires n < 0x1_0000_0000
  {
    Field16(n / 65536) + Field16(n % 65536)
  }

  function IntHead(i: int): bytes
    requires Writable(Int(i))
  {
    if 0 <= i <= 0x7F then [i]
    else if -32 <= i < 0 then [i + 256]
    else if 0 <= i <= 0xFF then [0xCC, i]
    else if 0 <= i <= 0xFFFF then [0xCD] + Field16(i)
    else if 0 <= i then [0xCE] + Field32(i)
    else if -128 <= i then [0xD0, i + 256]
    else if -32768 <= i then [0xD1] + Field16(i + 65536)
    else [0xD2] + Field32(i + 0x1_0000_0000)
  }

  function Head(t: Token): (r: bytes)
    requires Writable(t)
    ensures r != []
  {
    match t
    case Nil => [0xC0]
    case Bool(b) => if b then [0xC3] else [0xC2]
    case Int(i) => IntHead(i)
    case Float(bits) => [0xCA] + bits
    case Str(s) =>
      (if |s| <= 31 then [0xA0 + |s|] else if |s| <= 0xFF then [0xD9, |s|] else [0xDA] + Field16(|s|)) + s
    case Bin(s) => (if |s| <= 0xFF then [0xC4, |s|] else [0xC5] + Field16(|s|)) + s
    case Array(n) => if n <= 15 then [0x90 + n] else [0xDC] + Field16(n)
    case Map(n) => if n <= 15 then [0x80 + n] else [0xDE] + Field16(n)
  }

  // ----- Reading heads -------------------------------------------------------------------------------

  /** An unsigned field of `width` bytes, if it is there. */
  predicate Has(s: bytes, start: nat, width: nat) { start + width <= |s| }

  function Get16(s: bytes, start: nat): nat
    requires Has(s, start, 2)
  {
    256 * (s[start] as int) + s[start + 1]
  }

  function Get32(s: bytes, start: nat): (n: nat)
    requires Has(s, start, 4)
    ensures n < 0x1_0000_0000
  {
    65536 * Get16(s, start) + Get16(s, start + 2)
  }

  function Signed(n: nat, range: nat): int { if 2 * n < range then n else n - range }

  function ReadText(s: bytes, start: nat, length: nat): Read {
    if !Has(s, start, length) then Bad(Truncated)
    else if !Utf8.Valid(s[start..start + length]) then Bad(NotUtf8)
    else Got(Str(s[start..start + length]), start + length)
  }

  function ReadData(s: bytes, start: nat, length: nat): Read {
    if !Has(s, start, length) then Bad(Truncated) else Got(Bin(s[start..start + length]), start + length)
  }

  /** The formats with a field of one, two or four bytes behind the type byte. */
  function ReadField(s: bytes): Read
    requires s != []
  {
    var b := s[0];
    var width := if b == 0xCC || b == 0xD0 || b == 0xC4 || b == 0xD9 then 1
                 else if b == 0xCA || b == 0xCE || b == 0xD2 then 4 else 2;
    if !Has(s, 1, width) then Bad(Truncated)
    else if b == 0xC4 then ReadData(s, 2, s[1])
    else if b == 0xC5 then ReadData(s, 3, Get16(s, 1))
    else if b == 0xCA then Got(Float(s[1..5]), 5)
    else if b == 0xCC then Got(Int(s[1]), 2)
    else if b == 0xCD then Got(Int(Get16(s, 1)), 3)
    else if b == 0xCE then Got(Int(Get32(s, 1)), 5)
    else if b == 0xD0 then Got(Int(Signed(s[1], 256)), 2)
    else if b == 0xD1 then Got(Int(Signed(Get16(s, 1), 65536)), 3)
    else if b == 0xD2 then Got(Int(Signed(Get32(s, 1), 0x1_0000_0000)), 5)
    else if b == 0xD9 then ReadText(s, 2, s[1])
    else if b == 0xDA then ReadText(s, 3, Get16(s, 1))
    else if b == 0xDC then Got(Array(Get16(s, 1)), 3)
    else Got(Map(Get16(s, 1)), 3)
  }

  predicate HasField(b: byte) {
    b == 0xC4 || b == 0xC5 || b == 0xCA || 0xCC <= b <= 0xCE || 0xD0 <= b <= 0xD2 || b == 0xD9 || b == 0xDA
    || b == 0xDC || b == 0xDE
  }

  function ReadHead(s: bytes): (r: Read)
    ensures r.Got? ==> 1 <= r.length <= |s|
  {
    if s == [] then Bad(NoByte)
    else
      var b := s[0];
      if b <= 0x7F then Got(Int(b), 1)
      else if b <= 0x8F then Got(Map(b - 0x80), 1)
      else if b <= 0x9F then Got(Array(b - 0x90), 1)
      else if b <= 0xBF then ReadText(s, 1, b - 0xA0)
      else if b == 0xC0 then Got(Nil, 1)
      else if b == 0xC2 then Got(Bool(false), 1)
      else if b == 0xC3 then Got(Bool(true), 1)
      else if HasField(b) then ReadField(s)
      else if b >= 0xE0 then Got(Int((b as int) - 256), 1)
      else Bad(Unsupported)
  }

  /** Tokens the decoder can produce. */
  predicate Readable(t: Token) { Writable(t) && (t.Str? ==> Utf8.Valid(t.utf8)) }

  lemma {:induction false} Split16(n: nat, a: bytes, rest: bytes)
    requires n < 65536
    ensures var s := a + Field16(n) + rest; Has(s, |a|, 2) && Get16(s, |a|) == n
  {
  }

  lemma {:induction false} Split32(n: nat, a: bytes, rest: bytes)
    requires n < 0x1_0000_0000
    ensures var s := a + Field32(n) + rest; Has(s, |a|, 4) && Get32(s, |a|) == n
  {
    var hi, lo := n / 65536, n % 65536;
    var s := a + Field32(n) + rest;
    assert s == a + Field16(hi) + (Field16(lo) + rest);
    Split16(hi, a, Field16(lo) + rest);
    assert s == (a + Field16(hi)) + Field16(lo) + rest;
    Split16(lo, a + Field16(hi), rest);
  }

  /** A written head is read back, whatever follows it. */
  lemma {:induction false} HeadRoundTrip(t: Token, rest: bytes)
    requires Readable(t)
    ensures ReadHead(Head(t) + rest) == Got(t, |Head(t)|)
  {
    hide Field16, Field32, Get16, Get32, Utf8.Valid;
    match t
    case Int(i) => IntRoundTrip(i, rest);
    case Str(s) => StrRoundTrip(s, rest);
    case Bin(s) => BinRoundTrip(s, rest);
    case Array(n) => if n > 15 { Split16(n, [0xDC], rest); Long16(n); }
    case Map(n) => if n > 15 { Split16(n, [0xDE], rest); Long16(n); }
    case _ =>
  }

  lemma {:induction false} IntRoundTrip(i: int, rest: bytes)
    requires Writable(Int(i))
    ensures ReadHead(IntHead(i) + rest) == Got(Int(i), |IntHead(i)|)
  {
    hide Get16, Get32, ReadText, ReadData;
    if 0xFF < i <= 0xFFFF {
      Split16(i, [0xCD], rest);
    } else if 0xFFFF < i {
      Split32(i, [0xCE], rest);
    } else if -32768 <= i < -128 {
      Split16(i + 65536, [0xD1], rest);
    } else if i < -32768 {
      Split32(i + 0x1_0000_0000, [0xD2], rest);
    }
  }

  lemma {:induction false} StrRoundTrip(s: bytes, rest: bytes)
    requires |s| <= 0xFFFF && Utf8.Valid(s)
    ensures ReadHead(Head(Str(s)) + rest) == Got(Str(s), |Head(Str(s))|)
  {
    hide Get16, Utf8.Valid, Field16;
    var h := Head(Str(s)) + rest;
    if |s| <= 31 {
      assert h[1..1 + |s|] == s;
    } else if |s| <= 0xFF {
      assert h[2..2 + |s|] == s;
    } else {
      Split16(|s|, [0xDA], s + rest);
      assert h == [0xDA] + Field16(|s|) + (s + rest);
      assert |Field16(|s|)| == 2 by { Long16(|s|); }
      assert h[3..3 + |s|] == s;
    }
  }

  lemma {:induction false} BinRoundTrip(s: bytes, rest: bytes)
    requires |s| <= 0xFFFF
    ensures ReadHead(Head(Bin(s)) + rest) == Got(Bin(s), |Head(Bin(s))|)
  {
    hide Get16, Field16;
    var h := Head(Bin(s)) + rest;
    if |s| <= 0xFF {
      assert h[2..2 + |s|] == s;
    } else {
      Split16(|s|, [0xC5], s + rest);
      assert h == [0xC5] + Field16(|s|) + (s + rest);
      assert |Field16(|s|)| == 2 by { Long16(|s|); }
      assert h[3..3 + |s|] == s;
    }
  }

  lemma {:induction false} Long16(n: nat)
    requires n < 65536
    ensures |Field16(n)| == 2
  {
  }

  /** What is read can be written again, and never longer than it was. */
  lemma {:induction false} ReadsAreWritable(s: bytes)
    requires ReadHead(s).Got?
    ensures var r := ReadHead(s);
            Readable(r.token) && 1 <= |Head(r.token)| <= r.length <= |s|
  {
    hide Utf8.Valid;
  }
}
