/**
 Standard base64: the encoder of the credential module, and the decoder of section 4
 of RFC 4648 that inverts it.
 */
module Base64 {

  import opened Prelude

  type sextet = x: int | 0 <= x < 64

  const PAD: char := '='

  /** The alphabet of table 1 of RFC 4648. */
  function Digit(n: sextet): (c: char)
    ensures c != PAD && Value(c) == Some(n)
  {
    if n < 26 then (n + 'A' as int) as char
    else if n < 52 then (n - 26 + 'a' as int) as char
    else if n < 62 then (n - 52 + '0' as int) as char
    else if n == 62 then '+'
    else '/'
  }

  function Value(c: char): Option<sextet> {
    if 'A' <= c <= 'Z' then Some(c as int - 'A' as int)
    else if 'a' <= c <= 'z' then Some(c as int - 'a' as int + 26)
    else if '0' <= c <= '9' then Some(c as int - '0' as int + 52)
    else if c == '+' then Some(62)
    else if c == '/' then Some(63)
    else None
  }

  // ---- Encoding ----

  /** Three bytes as one 24-bit number. */
  function Pack(b0: int, b1: int, b2: int): int {
    b0 * 0x1_0000 + b1 * 0x100 + b2
  }

  /** A missing byte counts as zero. */
  function ByteAt(chunk: seq<byte>, i: nat): byte {
    if i < |chunk| then chunk[i] else 0
  }

  function Word(chunk: seq<byte>): int {
    Pack(ByteAt(chunk, 0), ByteAt(chunk, 1), ByteAt(chunk, 2))
  }

  function EncodeChunk(chunk: seq<byte>): (r: string)
    requires 1 <= |chunk| <= 3
    ensures |r| == 4 && PaddedExactly(r, 3 - |chunk|)
  {
    var n := Word(chunk);
    [Digit(n / 0x4_0000 % 64), Digit(n / 0x1000 % 64),
     if |chunk| > 1 then Digit(n / 64 % 64) else PAD,
     if |chunk| > 2 then Digit(n % 64) else PAD]
  }

  function Encode(input: seq<byte>): string {
    if input == [] then []
    else if |input| <= 3 then EncodeChunk(input)
    else EncodeChunk(input[..3]) + Encode(input[3..])
  }

  lemma EncodeStep(out: string, input: seq<byte>, i: nat, end: nat)
    requires i < |input| && end == if i + 3 <= |input| then i + 3 else |input|
    ensures out + Encode(input[i..]) == out + EncodeChunk(input[i..end]) + Encode(input[end..])
  {
    var rest, chunk := input[i..], input[i..end];
    assert rest[..|chunk|] == chunk && rest[|chunk|..] == input[end..];
    assert Encode(rest) == EncodeChunk(chunk) + Encode(input[end..]);
  }

  /** One chunk, pushed character by character. */
  method PushChunk(out0: string, chunk: seq<byte>) returns (out: string)
    requires 1 <= |chunk| <= 3
    ensures out == out0 + EncodeChunk(chunk)
  {
    var n := Pack(ByteAt(chunk, 0), ByteAt(chunk, 1), ByteAt(chunk, 2));
    out := out0 + [Digit(n / 0x4_0000 % 64)];
    out := out + [Digit(n / 0x1000 % 64)];
    out := out + [if |chunk| > 1 then Digit(n / 64 % 64) else PAD];
    out := out + [if |chunk| > 2 then Digit(n % 64) else PAD];
  }

  /** The encoder's loop over three-byte chunks. */
  method EncodeBytes(input: seq<byte>) returns (out: string)
    ensures out == Encode(input)
  {
    out := [];
    var i := 0;
    while i < |input|
      invariant 0 <= i <= |input|
      invariant out + Encode(input[i..]) == Encode(input)
    {
      var end := if i + 3 <= |input| then i + 3 else |input|;
      EncodeStep(out, input, i, end);
      out := PushChunk(out, input[i..end]);
      i := end;
    }
  }

  // ---- Decoding ----

  function First(a: int, b: int): int { a * 4 + b / 16 }

  function Second(b: int, c: int): int { b % 16 * 16 + c / 4 }

  function Third(c: int, d: int): int { c % 4 * 64 + d }

  /** One group of four characters; padding stands for the missing last bytes. */
  function DecodeQuad(q: string): Option<seq<byte>>
    requires |q| == 4
  {
    match (Value(q[0]), Value(q[1]), Value(q[2]), Value(q[3]))
    case (Some(a), Some(b), Some(c), Some(d)) => Some([First(a, b), Second(b, c), Third(c, d)])
    case (Some(a), Some(b), Some(c), None) =>
      if q[3] == PAD && c % 4 == 0 then Some([First(a, b), Second(b, c)]) else None
    case (Some(a), Some(b), None, None) =>
      if q[2] == PAD && q[3] == PAD && b % 16 == 0 then Some([First(a, b)]) else None
    case _ => None
  }

  /** Groups in order; only the last may be padded. */
  function Decode(s: string): Option<seq<byte>> {
    if s == [] then Some([])
    else if |s| < 4 then None
    else
      match (DecodeQuad(s[..4]), Decode(s[4..]))
      case (Some(head), Some(tail)) => if tail == [] || |head| == 3 then Some(head + tail) else None
      case _ => None
  }

  // ---- Laws ----

  lemma Div64(n: int, q: int, r: int)
    requires n == 64 * q + r && 0 <= r < 64
    ensures n / 64 == q && n % 64 == r
  {
  }

  lemma Div4096(n: int, q: int, r: int)
    requires n == 0x1000 * q + r && 0 <= r < 0x1000
    ensures n / 0x1000 == q
  {
  }

  lemma Div262144(n: int, q: int, r: int)
    requires n == 0x4_0000 * q + r && 0 <= r < 0x4_0000
    ensures n / 0x4_0000 == q
  {
  }

  lemma SplitWord(b0: byte, b1: byte, b2: byte)
    ensures var n := Pack(b0, b1, b2);
            && n / 0x4_0000 % 64 == b0 / 4 && n / 0x1000 % 64 == b0 % 4 * 16 + b1 / 16
            && n / 64 % 64 == b1 % 16 * 4 + b2 / 64 && n % 64 == b2 % 64
  {
    var n := Pack(b0, b1, b2);
    Div64(n, b0 * 0x400 + b1 * 4 + b2 / 64, b2 % 64);
    Div4096(n, b0 * 16 + b1 / 16, b1 % 16 * 256 + b2);
    Div262144(n, b0 / 4, b0 % 4 * 0x1_0000 + b1 * 256 + b2);
    Div64(b0 * 0x400 + b1 * 4 + b2 / 64, b0 * 16 + b1 / 16, b1 % 16 * 4 + b2 / 64);
    Div64(b0 * 16 + b1 / 16, b0 / 4, b0 % 4 * 16 + b1 / 16);
  }

  lemma JoinSextets(b0: byte, b1: byte, b2: byte)
    ensures First(b0 / 4, b0 % 4 * 16 + b1 / 16) == b0
    ensures Second(b0 % 4 * 16 + b1 / 16, b1 % 16 * 4 + b2 / 64) == b1
    ensures Third(b1 % 16 * 4 + b2 / 64, b2 % 64) == b2
  {
  }

  /** The four characters of a chunk, in terms of its bytes. */
  lemma ChunkDigits(chunk: seq<byte>)
    requires 1 <= |chunk| <= 3
    ensures var b0, b1, b2 := ByteAt(chunk, 0), ByteAt(chunk, 1), ByteAt(chunk, 2);
            EncodeChunk(chunk) == [Digit(b0 / 4), Digit(b0 % 4 * 16 + b1 / 16),
                                   if |chunk| > 1 then Digit(b1 % 16 * 4 + b2 / 64) else PAD,
                                   if |chunk| > 2 then Digit(b2 % 64) else PAD]
  {
    SplitWord(ByteAt(chunk, 0), ByteAt(chunk, 1), ByteAt(chunk, 2));
  }

  lemma DecodeDigits(s0: sextet, s1: sextet, s2: sextet, s3: sextet)
    ensures DecodeQuad([Digit(s0), Digit(s1), Digit(s2), Digit(s3)])
            == Some([First(s0, s1), Second(s1, s2), Third(s2, s3)])
    ensures s2 % 4 == 0 ==> DecodeQuad([Digit(s0), Digit(s1), Digit(s2), PAD]) == Some([First(s0, s1), Second(s1, s2)])
    ensures s1 % 16 == 0 ==> DecodeQuad([Digit(s0), Digit(s1), PAD, PAD]) == Some([First(s0, s1)])
  {
  }

  lemma PadSextets(b0: byte, b1: byte, b2: byte)
    ensures b1 == 0 ==> (b0 % 4 * 16 + b1 / 16) % 16 == 0
    ensures b2 == 0 ==> (b1 % 16 * 4 + b2 / 64) % 4 == 0
  {
  }

  /** Four characters whose sextets spell the bytes of a chunk decode to it. */
  lemma QuadDecodes(chunk: seq<byte>, q: string, s0: sextet, s1: sextet, s2: sextet, s3: sextet, b: seq<int>)
    requires 1 <= |chunk| <= 3 && b == [First(s0, s1), Second(s1, s2), Third(s2, s3)] && chunk == b[..|chunk|]
    requires q == [Digit(s0), Digit(s1), if |chunk| > 1 then Digit(s2) else PAD, if |chunk| > 2 then Digit(s3) else PAD]
    requires (|chunk| == 1 ==> s1 % 16 == 0) && (|chunk| == 2 ==> s2 % 4 == 0)
    ensures DecodeQuad(q) == Some(chunk)
  {
    DecodeDigits(s0, s1, s2, s3);
    if |chunk| == 1 {
      assert chunk == [b[0]] && q == [Digit(s0), Digit(s1), PAD, PAD];
    } else if |chunk| == 2 {
      assert chunk == [b[0], b[1]] && q == [Digit(s0), Digit(s1), Digit(s2), PAD];
    } else {
      assert chunk == b && q == [Digit(s0), Digit(s1), Digit(s2), Digit(s3)];
    }
  }

  lemma ChunkRoundTrip(chunk: seq<byte>)
    requires 1 <= |chunk| <= 3
    ensures DecodeQuad(EncodeChunk(chunk)) == Some(chunk)
  {
    var b0, b1, b2 := ByteAt(chunk, 0), ByteAt(chunk, 1), ByteAt(chunk, 2);
    ChunkDigits(chunk);
    JoinSextets(b0, b1, b2);
    PadSextets(b0, b1, b2);
    ChunkVia(chunk, b0, b1, b2, b0 / 4, b0 % 4 * 16 + b1 / 16, b1 % 16 * 4 + b2 / 64, b2 % 64);
  }

  lemma ChunkVia(chunk: seq<byte>, b0: byte, b1: byte, b2: byte, s0: sextet, s1: sextet, s2: sextet, s3: sextet)
    requires 1 <= |chunk| <= 3 && b0 == ByteAt(chunk, 0) && b1 == ByteAt(chunk, 1) && b2 == ByteAt(chunk, 2)
    requires First(s0, s1) == b0 && Second(s1, s2) == b1 && Third(s2, s3) == b2
    requires (b1 == 0 ==> s1 % 16 == 0) && (b2 == 0 ==> s2 % 4 == 0)
    requires EncodeChunk(chunk)
             == [Digit(s0), Digit(s1), if |chunk| > 1 then Digit(s2) else PAD, if |chunk| > 2 then Digit(s3) else PAD]
    ensures DecodeQuad(EncodeChunk(chunk)) == Some(chunk)
  {
    var b := [b0, b1, b2];
    assert chunk == b[..|chunk|];
    QuadDecodes(chunk, EncodeChunk(chunk), s0, s1, s2, s3, b);
  }

  /** The decoder recovers every byte string. */
  lemma {:induction false} RoundTrip(input: seq<byte>)
    ensures Decode(Encode(input)) == Some(input)
    decreases |input|
  {
    if input != [] {
      var k := if |input| <= 3 then |input| else 3;
      var head, tail := input[..k], input[k..];
      var s := Encode(input);
      assert input == head + tail;
      assert s == EncodeChunk(head) + Encode(tail);
      assert s[..4] == EncodeChunk(head) && s[4..] == Encode(tail);
      ChunkRoundTrip(head);
      RoundTrip(tail);
    }
  }

  function Quads(n: nat): nat {
    if n == 0 then 0 else if n <= 3 then 1 else 1 + Quads(n - 3)
  }

  function Padding(n: nat): (r: nat)
    ensures r <= 4 * Quads(n)
  {
    if n == 0 then 0 else if n <= 3 then 3 - n else Padding(n - 3)
  }

  /** The padding characters are exactly the last `n`. */
  predicate PaddedExactly(s: string, n: nat) {
    forall i :: 0 <= i < |s| ==> (s[i] == PAD <==> i >= |s| - n)
  }

  lemma PrependUnpadded(head: string, t: string, n: nat)
    requires PaddedExactly(head, 0) && PaddedExactly(t, n) && n <= |t|
    ensures PaddedExactly(head + t, n)
  {
    forall i | 0 <= i < |head + t| ensures (head + t)[i] == PAD <==> i >= |head + t| - n {
      if i >= |head| {
        assert (head + t)[i] == t[i - |head|];
      }
    }
  }

  lemma {:induction false} QuadCount(n: nat)
    ensures Quads(n) == (n + 2) / 3
  {
    if n > 3 {
      QuadCount(n - 3);
    }
  }

  lemma {:induction false} PaddingCount(n: nat)
    ensures Padding(n) == if n % 3 == 0 then 0 else 3 - n % 3
  {
    if n > 3 {
      PaddingCount(n - 3);
    }
  }

  /** Four characters for every three bytes begun; the length modulo three fixes the
      padding, which is exactly at the end. */
  lemma Shape(input: seq<byte>)
    ensures |Encode(input)| == 4 * ((|input| + 2) / 3)
    ensures PaddedExactly(Encode(input), if |input| % 3 == 0 then 0 else 3 - |input| % 3)
  {
    QuadCount(|input|);
    PaddingCount(|input|);
    EncodeShape(input);
  }

  lemma {:induction false} EncodeShape(input: seq<byte>)
    ensures |Encode(input)| == 4 * Quads(|input|) && PaddedExactly(Encode(input), Padding(|input|))
    decreases |input|
  {
    if |input| > 3 {
      EncodeShape(input[3..]);
      var head, rest := EncodeChunk(input[..3]), Encode(input[3..]);
      PrependUnpadded(head, rest, Padding(|input| - 3));
    }
  }

  /** A full chunk and its four characters are one number, read in base 256 and in base 64. */
  lemma ChunkNumber(chunk: seq<byte>)
    requires |chunk| == 3
    ensures var q, b0: int, b1: int, b2: int := EncodeChunk(chunk), chunk[0], chunk[1], chunk[2];
            && Value(q[0]).Some? && Value(q[1]).Some? && Value(q[2]).Some? && Value(q[3]).Some?
            && InBase64(Value(q[0]).value, Value(q[1]).value, Value(q[2]).value, Value(q[3]).value)
               == (b0 * 256 + b1) * 256 + b2
  {
    ChunkDigits(chunk);
  }

  function InBase64(a: int, b: int, c: int, d: int): int { ((a * 64 + b) * 64 + c) * 64 + d }
}
