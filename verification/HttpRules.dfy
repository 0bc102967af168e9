/**
 HTTP access rules: path normalisation, rule parsing and formatting, and the access check.
 Text is a sequence of Unicode code points and `Utf8` its bytes. Normalisation reads the
 bytes of its argument but pushes each of them as one code point, so its result holds
 only code points below 256.
 */
module HttpRules {
  import opened Prelude
  import opened Splitting
  import QueryInjection

  type Char = x: int | 0 <= x < 0x11_0000
  type Text = seq<Char>

  const SLASH: byte := 0x2F
  const DOT: byte := 0x2E
  const STAR: byte := 0x2A
  const PERCENT: byte := 0x25
  const PLUS: byte := 0x2B

  // ---- UTF-8 ----

  function Utf8Char(c: Char): (r: Bytes)
    ensures r != []
  {
    if c < 0x80 then [c]
    else if c < 0x800 then [0xC0 + c / 0x40, 0x80 + c % 0x40]
    else if c < 0x1_0000 then [0xE0 + c / 0x1000, 0x80 + c / 0x40 % 0x40, 0x80 + c % 0x40]
    else [0xF0 + c / 0x4_0000, 0x80 + c / 0x1000 % 0x40, 0x80 + c / 0x40 % 0x40, 0x80 + c % 0x40]
  }

  /** What a lead byte contributes, and six bits from each byte that follows. */
  function LeadBits(b: int): int {
    if b < 0x80 then b else if b < 0xE0 then b - 0xC0 else if b < 0xF0 then b - 0xE0 else b - 0xF0
  }

  function Follow(acc: int, r: Bytes): int
    decreases |r|
  {
    if r == [] then acc else var b: int := r[0]; Follow(acc * 64 + (b - 0x80), r[1..])
  }

  lemma Sixths(c: nat)
    ensures c / 0x40 / 0x40 == c / 0x1000 && c / 0x1000 / 0x40 == c / 0x4_0000
    ensures c == c / 0x40 * 0x40 + c % 0x40 && c / 0x40 == c / 0x1000 * 0x40 + c / 0x40 % 0x40
    ensures c / 0x1000 == c / 0x4_0000 * 0x40 + c / 0x1000 % 0x40
  {
  }

  /** Every character is read back from its bytes. */
  lemma Utf8CharReads(c: Char)
    ensures var r := Utf8Char(c);
            && |r| == (if c < 0x80 then 1 else if c < 0x800 then 2 else if c < 0x1_0000 then 3 else 4)
            && Follow(LeadBits(r[0]), r[1..]) == c
  {
    var r := Utf8Char(c);
    Sixths(c);
    if |r| == 2 {
      assert r[1..][1..] == [];
    } else if |r| == 3 {
      assert r[1..][1..][1..] == [] && r[1..][1..] == [r[2]];
      assert Follow(c / 0x40, r[1..][1..]) == c;
    } else if |r| == 4 {
      assert r[1..][1..][1..][1..] == [] && r[1..][1..][1..] == [r[3]] && r[1..][1..] == [r[2], r[3]];
      assert Follow(c / 0x40, r[1..][1..][1..]) == c;
      assert Follow(c / 0x1000, r[1..][1..]) == c;
    }
  }

  function Utf8(t: Text): Bytes {
    if t == [] then [] else Utf8Char(t[0]) + Utf8(t[1..])
  }

  predicate Ascii(t: Text) { forall i :: 0 <= i < |t| ==> t[i] < 0x80 }

  lemma {:induction false} Utf8Longer(t: Text)
    ensures |Utf8(t)| >= |t| && (|Utf8(t)| == |t| ==> Ascii(t)) && (Ascii(t) ==> Utf8(t) == t)
  {
    if t != [] {
      Utf8Longer(t[1..]);
      assert t == [t[0]] + t[1..];
      assert |Utf8Char(t[0])| == 1 <==> t[0] < 0x80;
    }
  }

  /** The bytes of a text are the text itself exactly when it is ASCII. */
  lemma Utf8FixedIff(t: Text)
    ensures Utf8(t) == t <==> Ascii(t)
  {
    Utf8Longer(t);
  }

  lemma {:induction false} Utf8Append(a: Text, b: Text)
    ensures Utf8(a + b) == Utf8(a) + Utf8(b)
  {
    if a == [] {
      assert a + b == b;
    } else {
      assert (a + b)[1..] == a[1..] + b;
      Utf8Append(a[1..], b);
    }
  }

  /** An ASCII byte occurs in the encoding exactly when the character occurs in the text. */
  lemma {:induction false} Utf8Has(t: Text, c: byte)
    requires c < 0x80
    ensures c in Utf8(t) <==> c in t
  {
    if t != [] {
      Utf8Has(t[1..], c);
      assert t == [t[0]] + t[1..];
      assert c in Utf8Char(t[0]) <==> c == t[0];
    }
  }

  // ---- Percent-decoding ----

  /** `u8::from_str_radix` on two bytes: two hex digits, or a plus sign and one. */
  function HexPair(h: byte, l: byte): Option<byte> {
    var hi, lo := QueryInjection.HexValue(h), QueryInjection.HexValue(l);
    if lo.None? then None
    else if h == PLUS then Some(lo.value)
    else if hi.Some? then Some(hi.value * 16 + lo.value)
    else None
  }

  /** What spells the byte `v`: two hexadecimal digits in any case, or a plus sign and one. */
  lemma HexPairIff(h: byte, l: byte, v: byte)
    ensures HexPair(h, l) == Some(v) <==>
            (exists hi, lo {:trigger HexIs(h, hi), HexIs(l, lo)} :: HexIs(h, hi) && HexIs(l, lo) && v == hi * 16 + lo)
            || (h == '+' as int && HexIs(l, v))
  {
    forall c: byte, d ensures HexIs(c, d) <==> QueryInjection.HexValue(c) == Some(d) {
      QueryInjection.HexValueIff(c, d);
    }
    if HexPair(h, l) == Some(v) && h != PLUS {
      var hi, lo := QueryInjection.HexValue(h).value, QueryInjection.HexValue(l).value;
      assert HexIs(h, hi) && HexIs(l, lo);
    }
  }

  predicate HexIs(c: byte, d: int) {
    0 <= d < 16 && (c == QueryInjection.UPPER_HEX[d] as int || c == QueryInjection.LOWER_HEX[d] as int)
  }

  /** A malformed escape keeps all three bytes; a lone byte after a final `%` is dropped. */
  function Decode(s: Bytes): Bytes {
    if s == [] then []
    else if s[0] != PERCENT then [s[0]] + Decode(s[1..])
    else if |s| < 3 then [PERCENT]
    else
      var v := HexPair(s[1], s[2]);
      (if v.Some? then [v.value] else [PERCENT, s[1], s[2]]) + Decode(s[3..])
  }

  lemma {:induction false} DecodePlain(s: Bytes)
    requires PERCENT !in s
    ensures Decode(s) == s
  {
    if s != [] {
      DecodePlain(s[1..]);
      assert s == [s[0]] + s[1..];
    }
  }

  lemma {:induction false} DecodeAfterPlain(a: Bytes, b: Bytes)
    requires PERCENT !in a
    ensures Decode(a + b) == a + Decode(b)
  {
    if a == [] {
      assert a + b == b;
    } else {
      assert (a + b)[1..] == a[1..] + b;
      DecodeAfterPlain(a[1..], b);
    }
  }

  /** The first percent sign of a text: an escape is its byte, a malformed one keeps its three bytes, and one with
      fewer than two bytes behind it swallows what there is. */
  lemma DecodeFirstPercent(pre: Bytes, post: Bytes)
    requires PERCENT !in pre
    ensures Decode(pre + [PERCENT] + post) == pre + FromPercent(post)
  {
    assert pre + [PERCENT] + post == pre + ([PERCENT] + post);
    DecodeAfterPlain(pre, [PERCENT] + post);
    DecodePercent(post);
  }

  function FromPercent(post: Bytes): Bytes {
    if |post| < 2 then [PERCENT]
    else if HexPair(post[0], post[1]).Some? then [HexPair(post[0], post[1]).value] + Decode(post[2..])
    else [PERCENT, post[0], post[1]] + Decode(post[2..])
  }

  lemma DecodePercent(post: Bytes)
    ensures Decode([PERCENT] + post) == FromPercent(post)
  {
    var rest := [PERCENT] + post;
    if |post| >= 2 {
      assert rest[1] == post[0] && rest[2] == post[1] && rest[3..] == post[2..];
    }
  }

  // ---- Dot segments ----

  const UP: Bytes := [DOT, DOT]

  predicate Proper(seg: Bytes) { seg != [] && seg != [DOT] && seg != UP }

  /** One segment against the stack. */
  function Push(stack: seq<Bytes>, seg: Bytes): seq<Bytes> {
    if seg == UP then (if stack == [] then [] else stack[..|stack| - 1])
    else if Proper(seg) then stack + [seg]
    else stack
  }

  /** The stack after all segments. */
  function Resolve(segs: seq<Bytes>): seq<Bytes> {
    if segs == [] then [] else Push(Resolve(segs[..|segs| - 1]), segs[|segs| - 1])
  }

  /** The same by a scan from the right: each ".." cancels the nearest name to its left not yet cancelled. */
  function Surviving(segs: seq<Bytes>, cancel: nat): seq<Bytes> {
    if segs == [] then []
    else
      var init, seg := segs[..|segs| - 1], segs[|segs| - 1];
      if seg == UP then Surviving(init, cancel + 1)
      else if !Proper(seg) then Surviving(init, cancel)
      else if cancel > 0 then Surviving(init, cancel - 1)
      else Surviving(init, 0) + [seg]
  }

  /** A stack without its last `k` names. */
  function Drop(stack: seq<Bytes>, k: nat): seq<Bytes> {
    if k >= |stack| then [] else stack[..|stack| - k]
  }

  /** The stack discipline is the right-to-left cancellation. */
  lemma {:induction false} StackIsScan(segs: seq<Bytes>, cancel: nat)
    ensures Surviving(segs, cancel) == Drop(Resolve(segs), cancel)
  {
    if segs != [] {
      var init, seg := segs[..|segs| - 1], segs[|segs| - 1];
      StackIsScan(init, if seg == UP then cancel + 1 else if Proper(seg) && cancel > 0 then cancel - 1 else cancel);
    }
  }

  lemma {:induction false} ResolveProper(segs: seq<Bytes>, sep: byte)
    requires forall p :: p in segs ==> sep !in p
    ensures forall p :: p in Resolve(segs) ==> Proper(p) && sep !in p && p in segs
  {
    if segs != [] {
      var init := segs[..|segs| - 1];
      ResolveProper(init, sep);
    }
  }

  /** Names alone resolve to themselves; empty segments around them do not matter. */
  lemma {:induction false} ResolveNames(segs: seq<Bytes>)
    requires forall p :: p in segs ==> Proper(p)
    ensures Resolve([[]] + segs) == segs
  {
    if segs == [] {
      assert [[]] + segs == [[]];
    } else {
      var init, seg := segs[..|segs| - 1], segs[|segs| - 1];
      assert ([[]] + segs)[..|segs|] == [[]] + init;
      ResolveNames(init);
      assert seg in segs && Proper(seg);
    }
  }

  function Path(segs: seq<Bytes>): Bytes { [SLASH] + Join(segs, SLASH) }

  function Normal(decoded: Bytes): Bytes { Path(Resolve(Split(decoded, SLASH))) }

  /** `normalize_path`. */
  function Normalize(path: Text): Bytes { Normal(Decode(Utf8(path))) }

  /** A normal path: a slash, then proper names joined by single slashes. */
  ghost predicate IsNormal(p: Bytes) {
    exists segs :: p == Path(segs) && forall x :: x in segs ==> Proper(x) && SLASH !in x
  }

  /** Every normalised path is normal. */
  lemma NormalizeIsNormal(path: Text)
    ensures IsNormal(Normalize(path)) && Normalize(path)[0] == SLASH
  {
    var segs := Split(Decode(Utf8(path)), SLASH);
    SplitPieces(Decode(Utf8(path)), SLASH);
    ResolveProper(segs, SLASH);
    assert Normalize(path) == Path(Resolve(segs));
  }

  lemma SplitPath(segs: seq<Bytes>)
    requires forall x :: x in segs ==> Proper(x) && SLASH !in x
    ensures Resolve(Split(Path(segs), SLASH)) == segs
  {
    var tail := Join(segs, SLASH);
    assert Path(segs)[1..] == tail;
    assert Split(Path(segs), SLASH) == [[]] + Split(tail, SLASH);
    if segs == [] {
      var one: seq<Bytes>, two: seq<Bytes> := [[]], [[], []];
      assert Split(tail, SLASH) == one && two[..1] == one && one[..0] == [];
      assert Resolve(one) == Push(Resolve(one[..0]), []) == [];
      assert Resolve(two) == Push(Resolve(two[..1]), []) == [];
    } else {
      SplitJoin(segs, SLASH);
      ResolveNames(segs);
    }
  }

  /** A normal path is left alone by dot-segment removal. */
  lemma NormalFixed(p: Bytes)
    requires IsNormal(p)
    ensures Normal(p) == p
  {
    var segs :| p == Path(segs) && forall x :: x in segs ==> Proper(x) && SLASH !in x;
    SplitPath(segs);
  }

  function Utf8Each(segs: seq<Bytes>): seq<Bytes> {
    if segs == [] then [] else [Utf8(segs[0])] + Utf8Each(segs[1..])
  }

  lemma {:induction false} Utf8Join(segs: seq<Bytes>)
    ensures Utf8(Join(segs, SLASH)) == Join(Utf8Each(segs), SLASH) && |Utf8Each(segs)| == |segs|
  {
    if |segs| == 1 {
      assert Utf8Each(segs) == [Utf8(segs[0])];
    } else if segs != [] {
      Utf8Join(segs[1..]);
      var head, rest := segs[0], Join(segs[1..], SLASH);
      Utf8Append(head, [SLASH]);
      Utf8Append(head + [SLASH], rest);
      assert Utf8([SLASH]) == [SLASH] + Utf8([]) == [SLASH];
      assert Utf8Each(segs)[1..] == Utf8Each(segs[1..]);
    }
  }

  /** Bytes that are all ASCII encode only themselves. */
  lemma {:induction false} Utf8AsciiBack(t: Text)
    requires Ascii(Utf8(t))
    ensures Utf8(t) == t
  {
    if t != [] {
      var head, tail := Utf8Char(t[0]), Utf8(t[1..]);
      assert Utf8(t)[0] == head[0];
      forall i | 0 <= i < |tail| ensures tail[i] < 0x80 {
        assert tail[i] == Utf8(t)[|head| + i];
      }
      Utf8AsciiBack(t[1..]);
      assert t == [t[0]] + t[1..];
    }
  }

  lemma Utf8Proper(x: Bytes)
    requires Proper(x) && SLASH !in x
    ensures Proper(Utf8(x)) && SLASH !in Utf8(x)
  {
    Utf8Has(x, SLASH);
    if !Proper(Utf8(x)) {
      Utf8AsciiBack(x);
    }
  }

  lemma {:induction false} Utf8EachProper(segs: seq<Bytes>)
    requires forall x :: x in segs ==> Proper(x) && SLASH !in x
    ensures forall x :: x in Utf8Each(segs) ==> Proper(x) && SLASH !in x
  {
    if segs != [] {
      assert segs[0] in segs;
      Utf8Proper(segs[0]);
      Utf8EachProper(segs[1..]);
    }
  }

  /** Re-encoding keeps a path normal. */
  lemma Utf8Normal(p: Bytes)
    requires IsNormal(p)
    ensures IsNormal(Utf8(p))
  {
    var segs :| p == Path(segs) && forall x :: x in segs ==> Proper(x) && SLASH !in x;
    Utf8Append([SLASH], Join(segs, SLASH));
    assert Utf8([SLASH]) == [SLASH] + Utf8([]) == [SLASH];
    Utf8Join(segs);
    Utf8EachProper(segs);
    assert Utf8(p) == Path(Utf8Each(segs));
  }

  /** Normalising a normal path without escapes yields its own bytes. */
  lemma NormalizeNormal(p: Bytes)
    requires IsNormal(p) && PERCENT !in p
    ensures Normalize(p) == Utf8(p)
  {
    Utf8Has(p, PERCENT);
    DecodePlain(Utf8(p));
    Utf8Normal(p);
    NormalFixed(Utf8(p));
  }

  // ---- No new bytes ----

  lemma {:induction false} SplitBytes(s: Bytes, sep: byte, p: Bytes, x: byte)
    requires p in Split(s, sep) && x in p
    ensures x in s
  {
    if s != [] {
      var t := Split(s[1..], sep);
      assert s == [s[0]] + s[1..];
      if s[0] != sep && p == [s[0]] + t[0] {
        if x != s[0] {
          assert x in t[0];
          SplitBytes(s[1..], sep, t[0], x);
        }
      } else if p in t {
        SplitBytes(s[1..], sep, p, x);
      }
    }
  }

  lemma {:induction false} JoinBytes(items: seq<Bytes>, sep: byte, x: byte) returns (p: Bytes)
    requires x in Join(items, sep) && x != sep
    ensures p in items && x in p
  {
    if |items| == 1 || x in items[0] {
      p := items[0];
    } else {
      p := JoinBytes(items[1..], sep, x);
    }
  }

  lemma NormalBytes(d: Bytes, x: byte)
    requires x in Normal(d) && x != SLASH
    ensures x in d
  {
    var segs := Split(d, SLASH);
    var p := JoinBytes(Resolve(segs), SLASH, x);
    SplitPieces(d, SLASH);
    ResolveProper(segs, SLASH);
    SplitBytes(d, SLASH, p, x);
  }

  lemma IdempotentResult(path: Text)
    requires PERCENT !in path
    ensures Normalize(Normalize(path)) == Normalize(path) <==> Ascii(Normalize(path))
  {
    var r := Normalize(path);
    NormalizeIsNormal(path);
    Utf8Has(path, PERCENT);
    DecodePlain(Utf8(path));
    if PERCENT in r {
      NormalBytes(Utf8(path), PERCENT);
    }
    NormalizeNormal(r);
    Utf8FixedIff(r);
  }

  lemma {:induction false} JoinAscii(items: seq<Bytes>)
    ensures Ascii(Join(items, SLASH)) <==> forall x :: x in items ==> Ascii(x)
  {
    if |items| == 1 {
      assert items == [items[0]];
    } else if items != [] {
      JoinAscii(items[1..]);
      var head, tail := items[0], Join(items[1..], SLASH);
      assert items == [head] + items[1..];
      AsciiConcat(head + [SLASH], tail);
      AsciiConcat(head, [SLASH]);
    }
  }

  lemma AsciiConcat(a: Bytes, b: Bytes)
    ensures Ascii(a + b) <==> Ascii(a) && Ascii(b)
  {
    if Ascii(a + b) {
      forall i | 0 <= i < |a| ensures a[i] < 0x80 {
        assert (a + b)[i] == a[i];
      }
      forall i | 0 <= i < |b| ensures b[i] < 0x80 {
        assert (a + b)[|a| + i] == b[i];
      }
    }
  }

  /**
   Idempotence on paths without escapes holds exactly when every name that no later ".."
   cancels is ASCII: a byte above 127 is pushed as one character and re-encoded as two bytes
   the next time.
   */
  lemma IdempotentIff(path: Text)
    requires PERCENT !in path
    ensures Normalize(Normalize(path)) == Normalize(path) <==>
            forall x :: x in Surviving(Split(Utf8(path), SLASH), 0) ==> Ascii(x)
  {
    IdempotentResult(path);
    Utf8Has(path, PERCENT);
    DecodePlain(Utf8(path));
    var segs := Split(Utf8(path), SLASH);
    StackIsScan(segs, 0);
    assert Drop(Resolve(segs), 0) == Resolve(segs);
    JoinAscii(Resolve(segs));
    AsciiConcat([SLASH], Join(Resolve(segs), SLASH));
  }

  /** In particular it holds on every ASCII path without escapes. */
  lemma AsciiIdempotent(path: Text)
    requires PERCENT !in path && Ascii(path)
    ensures Normalize(Normalize(path)) == Normalize(path)
  {
    var r := Normalize(path);
    Utf8FixedIff(path);
    DecodePlain(path);
    forall i | 0 <= i < |r| ensures r[i] < 0x80 {
      if r[i] != SLASH {
        NormalBytes(path, r[i]);
      }
    }
    IdempotentResult(path);
  }

  /** A path that fails: one Latin letter with an accent. */
  lemma AccentNotIdempotent()
    ensures var path: Text := [0x2F, 0xE9];
            Normalize(path) == [0x2F, 0xC3, 0xA9] && Normalize(Normalize(path)) != Normalize(path)
  {
    var path: Text := [0x2F, 0xE9];
    assert path[1..] == [0xE9] && path[1..][1..] == [];
    assert Utf8(path[1..]) == Utf8Char(0xE9) + Utf8([]) == [0xC3, 0xA9];
    assert Utf8(path) == [0x2F] + [0xC3, 0xA9] == Path([[0xC3, 0xA9]]);
    DecodePlain(Utf8(path));
    SplitPath([[0xC3, 0xA9]]);
    assert Normalize(path)[1] == 0xC3;
    IdempotentResult(path);
  }

  // ---- Paths with escapes ----

  /** How many bytes are ASCII: a measure that re-encoding keeps and decoding lowers. */
  function Light(s: Text): nat {
    if s == [] then 0 else Light(s[1..]) + if s[0] < 0x80 then 1 else 0
  }

  lemma {:induction false} LightConcat(a: Text, b: Text)
    ensures Light(a + b) == Light(a) + Light(b)
  {
    if a == [] {
      assert a + b == b;
    } else {
      assert (a + b)[1..] == a[1..] + b;
      LightConcat(a[1..], b);
    }
  }

  /** Encoding splits no ASCII character, and a byte above 127 never stands alone at the end. */
  lemma {:induction false} Utf8Light(t: Text)
    ensures Light(Utf8(t)) == Light(t) && Paired(Utf8(t))
  {
    if t != [] {
      Utf8Light(t[1..]);
      var head, tail := Utf8Char(t[0]), Utf8(t[1..]);
      LightConcat(head, tail);
      LightChar(t[0]);
      if tail == [] {
        assert head + tail == head;
      } else if |tail| == 1 {
        Utf8Single(t[1..]);
      }
    }
  }

  lemma LightChar(c: Char)
    ensures Light(Utf8Char(c)) == (if c < 0x80 then 1 else 0) && Paired(Utf8Char(c))
  {
    var s := Utf8Char(c);
    assert |s| >= 1 && s[1..] == s[1..];
    if |s| > 1 {
      LightHigh(s);
    }
  }

  lemma {:induction false} LightHigh(s: Bytes)
    requires forall i :: 0 <= i < |s| ==> s[i] >= 0x80
    ensures Light(s) == 0
  {
    if s != [] {
      LightHigh(s[1..]);
    }
  }

  lemma Utf8Single(t: Text)
    requires |Utf8(t)| == 1
    ensures Utf8(t)[0] < 0x80
  {
    Utf8Longer(t);
  }

  /** A last byte above 127 follows another. */
  predicate Paired(s: Bytes) {
    |s| >= 2 && s[|s| - 1] >= 0x80 ==> s[|s| - 2] >= 0x80
  }

  /** All that decoding did was to drop the byte after a final percent sign. */
  predicate Cut(s: Bytes, d: Bytes) {
    |s| >= 2 && s[|s| - 2] == PERCENT && s[|s| - 1] < 0x80 && d == s[..|s| - 1]
  }

  /** The same, lighter by two or more, or cut. */
  predicate Lighter(s: Bytes, d: Bytes) {
    d == s || Light(d) + 2 <= Light(s) || (Cut(s, d) && Light(d) + 1 == Light(s))
  }

  lemma LighterBehind(a: Bytes, b: Bytes, s: Bytes, d: Bytes)
    requires Lighter(s, d) && (b == a || Light(b) + 2 <= Light(a))
    ensures Lighter(a + s, b + d)
  {
    LightConcat(a, s);
    LightConcat(b, d);
    if b == a && d != s && !(Light(d) + 2 <= Light(s)) {
      var all := a + s;
      assert all[|all| - 2] == s[|s| - 2] && all[|all| - 1] == s[|s| - 1];
      assert a + d == all[..|all| - 1];
    }
  }

  /** Decoding changes the bytes of a text only by making them lighter. */
  lemma {:induction false} DecodeLightens(s: Bytes)
    requires Paired(s)
    ensures Lighter(s, Decode(s))
  {
    if s != [] {
      if s[0] != PERCENT {
        DecodeLightens(s[1..]);
        assert s == [s[0]] + s[1..];
        LighterBehind([s[0]], [s[0]], s[1..], Decode(s[1..]));
      } else if |s| == 2 {
        assert s == [PERCENT] + [s[1]] && s[..1] == [PERCENT];
        LightConcat([PERCENT], [s[1]]);
        LightOne(s[1]);
      } else if |s| >= 3 {
        DecodeLightens(s[3..]);
        var head := [PERCENT, s[1], s[2]];
        assert s == head + s[3..];
        if HexPair(s[1], s[2]).Some? {
          EscapeLightens(s[1], s[2]);
          LighterBehind(head, [HexPair(s[1], s[2]).value], s[3..], Decode(s[3..]));
        } else {
          LighterBehind(head, head, s[3..], Decode(s[3..]));
        }
      }
    }
  }

  lemma LightOne(c: byte)
    ensures Light([c]) == if c < 0x80 then 1 else 0
  {
    assert [c][1..] == [];
  }

  lemma EscapeLightens(h: byte, l: byte)
    requires HexPair(h, l).Some?
    ensures Light([PERCENT, h, l]) == 3 && Light([HexPair(h, l).value]) <= 1
  {
    assert h < 0x80 && l < 0x80;
    LightOne(PERCENT);
    LightOne(h);
    LightOne(l);
    LightOne(HexPair(h, l).value);
    LightConcat([PERCENT], [h]);
    LightConcat([PERCENT] + [h], [l]);
    assert [PERCENT] + [h] + [l] == [PERCENT, h, l];
  }

  /** The weight of names in a path, each with its slash. */
  function Weight(segs: seq<Bytes>): nat {
    if segs == [] then 0
    else Weight(segs[..|segs| - 1]) + (var x := segs[|segs| - 1]; if x == [] then 0 else Light(x) + 1)
  }

  lemma {:induction false} ResolveWeight(segs: seq<Bytes>)
    ensures Weight(Resolve(segs)) <= Weight(segs)
  {
    if segs != [] {
      var init, x := segs[..|segs| - 1], segs[|segs| - 1];
      ResolveWeight(init);
      var stack := Resolve(init);
      if x != UP && Proper(x) {
        assert (stack + [x])[..|stack|] == stack;
      }
    }
  }

  lemma {:induction false} WeightCons(x: Bytes, segs: seq<Bytes>)
    ensures Weight([x] + segs) == Weight(segs) + if x == [] then 0 else Light(x) + 1
  {
    if segs == [] {
      assert [x] + segs == [x] && [x][..0] == [];
    } else {
      var all := [x] + segs;
      assert all[..|all| - 1] == [x] + segs[..|segs| - 1];
      WeightCons(x, segs[..|segs| - 1]);
    }
  }

  lemma {:induction false} SplitWeight(s: Bytes)
    ensures Weight(Split(s, SLASH)) <= Light(s) + 1
    ensures s != [] && s[0] == SLASH ==> Weight(Split(s, SLASH)) <= Light(s)
  {
    if s != [] {
      SplitWeight(s[1..]);
      var t := Split(s[1..], SLASH);
      assert t == [t[0]] + t[1..];
      WeightCons(t[0], t[1..]);
      if s[0] == SLASH {
        WeightCons([], t);
      } else {
        WeightCons([s[0]] + t[0], t[1..]);
        LightConcat([s[0]], t[0]);
        SplitHead(s[1..]);
      }
    }
  }

  /** An empty first piece leaves room for a slash. */
  lemma {:induction false} SplitHead(s: Bytes)
    ensures Split(s, SLASH)[0] == [] ==> Weight(Split(s, SLASH)) <= Light(s)
  {
    if s != [] && s[0] == SLASH {
      var t := Split(s[1..], SLASH);
      WeightCons([], t);
      SplitWeight(s[1..]);
    } else if s == [] {
      var one: seq<Bytes> := [[]];
      assert Split(s, SLASH) == one && one[..0] == [];
    }
  }

  lemma {:induction false} JoinWeight(items: seq<Bytes>)
    requires forall x :: x in items ==> x != []
    ensures items != [] ==> Light(Join(items, SLASH)) + 1 == Weight(items)
  {
    if items != [] {
      var rest := items[1..];
      assert items == [items[0]] + rest && items[0] in items;
      assert forall x :: x in rest ==> x in items;
      WeightCons(items[0], rest);
      JoinWeight(rest);
      assert rest == [] ==> Weight(rest) == 0;
      LightConcat(items[0], [SLASH]);
      LightConcat(items[0] + [SLASH], Join(rest, SLASH));
      assert [SLASH][1..] == [];
    }
  }

  /** The normal form of a path that starts with a slash is not heavier than it. */
  lemma NormalLight(d: Bytes)
    requires d != [] && d[0] == SLASH
    ensures Light(Normal(d)) <= Light(d)
  {
    var segs := Split(d, SLASH);
    SplitPieces(d, SLASH);
    ResolveProper(segs, SLASH);
    ResolveWeight(segs);
    SplitWeight(d);
    JoinWeight(Resolve(segs));
    LightConcat([SLASH], Join(Resolve(segs), SLASH));
    assert [SLASH][1..] == [];
  }

  /** Every path: normalising leaves it alone exactly when it is ASCII, normal and free of escapes that decode. */
  lemma FixedIff(p: Text)
    ensures Normalize(p) == p <==> Ascii(p) && IsNormal(p) && Decode(p) == p
  {
    Utf8FixedIff(p);
    if Normalize(p) == p {
      NormalizeIsNormal(p);
      NothingDecoded(p);
      Utf8Normal(p);
      NormalFixed(Utf8(p));
    } else if Ascii(p) && IsNormal(p) && Decode(p) == p {
      NormalFixed(p);
    }
  }

  lemma NothingDecoded(p: Text)
    requires Normalize(p) == p
    ensures Decode(Utf8(p)) == Utf8(p)
  {
    NormalizeIsNormal(p);
    assert p == [SLASH] + p[1..];
    var s := Utf8(p);
    assert s[0] == SLASH && Decode(s)[0] == SLASH;
    Utf8Light(p);
    DecodeLightens(s);
    NormalLight(Decode(s));
  }

  /**
   So for every path, escaped or not: normalising twice is normalising once exactly when every
   name of the decoded path that no later ".." cancels is ASCII, and their path holds no escape.
   */
  lemma EscapedIdempotentIff(path: Text)
    ensures var segs := Surviving(Split(Decode(Utf8(path)), SLASH), 0);
            Normalize(Normalize(path)) == Normalize(path) <==>
            (forall x :: x in segs ==> Ascii(x)) && Decode(Path(segs)) == Path(segs)
  {
    var segs := Split(Decode(Utf8(path)), SLASH);
    NormalizeIsNormal(path);
    FixedIff(Normalize(path));
    StackIsScan(segs, 0);
    assert Drop(Resolve(segs), 0) == Resolve(segs);
    JoinAscii(Resolve(segs));
    AsciiConcat([SLASH], Join(Resolve(segs), SLASH));
  }

  /** A path that is not idempotent: decoding uncovers an escape. */
  lemma EscapeNotIdempotent()
    ensures var path: Text := [0x2F, 0x25, 0x32, 0x35, 0x34, 0x31];
            Normalize(path) == [0x2F, 0x25, 0x34, 0x31] && Normalize(Normalize(path)) != Normalize(path)
  {
    var path: Bytes := [0x2F, 0x25, 0x32, 0x35, 0x34, 0x31];
    var once: Bytes := [0x2F, 0x25, 0x34, 0x31];
    Utf8FixedIff(path);
    assert path[1..] == [0x25, 0x32, 0x35, 0x34, 0x31] && path[1..][3..] == [0x34, 0x31];
    DecodePlain([0x34, 0x31]);
    assert HexPair(0x32, 0x35) == Some(0x25);
    assert Decode(path[1..]) == [0x25] + [0x34, 0x31];
    assert Decode(path) == once;
    assert once == Path([[0x25, 0x34, 0x31]]);
    SplitPath([[0x25, 0x34, 0x31]]);
    assert once[1..] == [0x25, 0x34, 0x31] && once[1..][3..] == [];
    assert HexPair(0x34, 0x31) == Some(0x41);
    assert Decode(once[1..]) == [0x41] + Decode([]);
    assert Decode(once) != once;
    FixedIff(once);
  }

  /** Writing an ASCII character as an escape does not change the normal form. */
  lemma EscapeSame(pre: Text, h: byte, l: byte, post: Text)
    requires PERCENT !in pre && h < 0x80 && l < 0x80
    requires HexPair(h, l).Some? && HexPair(h, l).value < 0x80 && HexPair(h, l).value != PERCENT
    ensures Normalize(pre + [PERCENT, h, l] + post) == Normalize(pre + [HexPair(h, l).value] + post)
  {
    Utf8Has(pre, PERCENT);
    Utf8Three(pre, [PERCENT, h, l], post);
    Utf8Three(pre, [HexPair(h, l).value], post);
    DecodeSame(Utf8(pre), h, l, HexPair(h, l).value, Utf8(post));
  }

  lemma DecodeSame(a: Bytes, h: byte, l: byte, v: byte, b: Bytes)
    requires PERCENT !in a && HexPair(h, l) == Some(v) && v != PERCENT
    ensures Decode(a + [PERCENT, h, l] + b) == Decode(a + [v] + b)
  {
    var long, short := [PERCENT, h, l] + b, [v] + b;
    assert a + [PERCENT, h, l] + b == a + long && a + [v] + b == a + short;
    DecodeAfterPlain(a, long);
    DecodeAfterPlain(a, short);
    assert long[3..] == b && short[1..] == b;
  }

  lemma Utf8Three(a: Text, b: Text, c: Text)
    requires Ascii(b)
    ensures Utf8(a + b + c) == Utf8(a) + b + Utf8(c)
  {
    Utf8Append(a, b);
    Utf8Append(a + b, c);
    Utf8FixedIff(b);
  }

  // ---- The loops of `normalize_path` ----

  lemma DecodeStep(out: Bytes, s: Bytes, i: nat, piece: Bytes, n: nat)
    requires i < n <= |s|
    requires Decode(s[i..]) == piece + Decode(s[n..])
    ensures out + Decode(s[i..]) == out + piece + Decode(s[n..])
  {
  }

  lemma DecodeAt(s: Bytes, i: nat)
    requires i < |s|
    ensures s[i] != PERCENT ==> Decode(s[i..]) == [s[i]] + Decode(s[i + 1..])
    ensures s[i] == PERCENT && i + 2 < |s| ==>
              var v := HexPair(s[i + 1], s[i + 2]);
              Decode(s[i..]) == (if v.Some? then [v.value] else [PERCENT, s[i + 1], s[i + 2]]) + Decode(s[i + 3..])
    ensures s[i] == PERCENT && i + 2 >= |s| ==> Decode(s[i..]) == [PERCENT]
  {
    var rest := s[i..];
    assert rest[0] == s[i] && rest[1..] == s[i + 1..];
    if i + 2 < |s| {
      assert rest[1] == s[i + 1] && rest[2] == s[i + 2] && rest[3..] == s[i + 3..];
    }
  }

  method DecodePath(s: Bytes) returns (decoded: Bytes)
    ensures decoded == Decode(s)
  {
    decoded := [];
    var i := 0;
    while i < |s|
      invariant 0 <= i <= |s| && decoded + Decode(s[i..]) == Decode(s)
    {
      DecodeAt(s, i);
      ghost var before := decoded;
      if s[i] != PERCENT {
        decoded := decoded + [s[i]];
        DecodeStep(before, s, i, [s[i]], i + 1);
        i := i + 1;
      } else if i + 2 < |s| {
        var v := HexPair(s[i + 1], s[i + 2]);
        var piece := if v.Some? then [v.value] else [PERCENT, s[i + 1], s[i + 2]];
        decoded := decoded + piece;
        DecodeStep(before, s, i, piece, i + 3);
        i := i + 3;
      } else {
        decoded := decoded + [PERCENT];
        return;
      }
    }
  }

  /** `normalize_path`: decode, keep a stack of segments, and join. */
  method NormalizePath(path: Text) returns (result: Bytes)
    ensures result == Normalize(path)
    ensures IsNormal(result)
  {
    NormalizeIsNormal(path);
    var decoded := DecodePath(Utf8(path));
    var pieces := Split(decoded, SLASH);
    var segments: seq<Bytes> := [];
    for i := 0 to |pieces|
      invariant segments == Resolve(pieces[..i])
    {
      assert pieces[..i + 1][..i] == pieces[..i];
      var seg := pieces[i];
      if seg == UP {
        if segments != [] {
          segments := segments[..|segments| - 1];
        }
      } else if seg != [] && seg != [DOT] {
        segments := segments + [seg];
      }
    }
    assert pieces[..|pieces|] == pieces;
    result := [SLASH] + Join(segments, SLASH);
  }

  // ---- Rules ----

  datatype Rule = Rule(verb: Text, host: Text, path: Text)

  /** `char::is_whitespace`. */
  predicate Space(c: Char) {
    9 <= c <= 13 || c == 0x20 || c == 0x85 || c == 0xA0 || c == 0x1680 || 0x2000 <= c <= 0x200A
    || c == 0x2028 || c == 0x2029 || c == 0x202F || c == 0x205F || c == 0x3000
  }

  predicate Slash(c: Char) { c == SLASH }

  predicate NoSpace(t: Text) { forall i :: 0 <= i < |t| ==> !Space(t[i]) }

  /** The first index whose character satisfies `f`, or the length. */
  function First(t: Text, f: Char -> bool): (n: nat)
    ensures n <= |t| && (n < |t| ==> f(t[n])) && forall i :: 0 <= i < n ==> !f(t[i])
  {
    if t == [] || f(t[0]) then 0 else 1 + First(t[1..], f)
  }

  function TrimStart(t: Text): (r: Text)
    ensures r != [] ==> !Space(r[0])
  {
    if t != [] && Space(t[0]) then TrimStart(t[1..]) else t
  }

  function TrimEnd(t: Text): (r: Text)
    ensures r <= t && (r != [] ==> !Space(r[|r| - 1]))
  {
    if t != [] && Space(t[|t| - 1]) then TrimEnd(t[..|t| - 1]) else t
  }

  function Trim(t: Text): (r: Text)
    ensures r != [] ==> !Space(r[0]) && !Space(r[|r| - 1])
  {
    TrimEnd(TrimStart(t))
  }

  /** What a character becomes in upper case: `char::to_uppercase`, one or more characters. */
  type Case = Char -> Text

  function Upper(t: Text, up: Case): Text {
    if t == [] then [] else up(t[0]) + Upper(t[1..], up)
  }

  /** Upper case as Unicode has it: ASCII letters by their table, and a result that is in upper case and no blank. */
  ghost predicate Uppercases(up: Case) {
    && (forall c: Char {:trigger up(c)} :: c < 0x80 ==> up(c) == [if 0x61 <= c <= 0x7A then c - 32 else c])
    && (forall c: Char {:trigger up(c)} ::
          up(c) != [] && forall d :: d in up(c) ==> up(d) == [d] && (Space(d) ==> Space(c)))
  }

  lemma {:induction false} UpperFixed(t: Text, up: Case)
    requires forall d :: d in t ==> up(d) == [d]
    ensures Upper(t, up) == t
  {
    if t != [] {
      UpperFixed(t[1..], up);
      assert t == [t[0]] + t[1..];
    }
  }

  lemma {:induction false} UpperChars(t: Text, up: Case)
    requires Uppercases(up) && NoSpace(t)
    ensures NoSpace(Upper(t, up)) && (t != [] ==> Upper(t, up) != []) && forall d :: d in Upper(t, up) ==> up(d) == [d]
  {
    if t != [] {
      UpperChars(t[1..], up);
      var head, tail := up(t[0]), Upper(t[1..], up);
      forall i | 0 <= i < |head + tail| ensures !Space((head + tail)[i]) {
        if i < |head| {
          assert head[i] in head;
        }
      }
    }
  }

  predicate EndsStar(t: Text) { t != [] && t[|t| - 1] == STAR }

  /** A rule path: normalised, with a final star put back if decoding swallowed it. */
  function RulePath(p: Text): Bytes {
    var n := Normalize(p);
    if EndsStar(p) && !EndsStar(n) then n + [STAR] else n
  }

  const ANY: Text := [SLASH, STAR]

  /** The rule of a verb and what follows it. */
  function RuleOf(verb: Text, rest: Text, up: Case): Rule {
    var pos := First(rest, Slash);
    Rule(Upper(verb, up), rest[..pos], if pos == |rest| then ANY else RulePath(rest[pos..]))
  }

  /** `HttpRule::parse`: "METHOD host/path". */
  function Parse(s: Text, up: Case): Option<Rule> {
    var t := Trim(s);
    var i := First(t, Space);
    if i == |t| then None
    else
      var rest := Trim(t[i + 1..]);
      if rest == [] then None else Some(RuleOf(t[..i], rest, up))
  }

  /** `format_http_rule`. */
  function Format(r: Rule): Text { r.verb + [0x20] + r.host + r.path }

  lemma {:induction false} DecodeEnd(s: Bytes)
    requires EndsStar(s)
    ensures Decode(s) != [] && Decode(s)[|Decode(s)| - 1] in {STAR, PERCENT}
  {
    if s[0] != PERCENT {
      if |s| > 1 {
        DecodeEnd(s[1..]);
      }
    } else if |s| > 3 {
      DecodeEnd(s[3..]);
    }
  }

  lemma {:induction false} SplitEnd(d: Bytes, sep: byte)
    requires d != [] && d[|d| - 1] != sep
    ensures var t := Split(d, sep); var last := t[|t| - 1]; last != [] && last[|last| - 1] == d[|d| - 1]
  {
    if |d| > 1 {
      SplitEnd(d[1..], sep);
    }
  }

  lemma JoinEnd(items: seq<Bytes>, last: Bytes, sep: byte)
    requires last != []
    ensures var j := Join(items + [last], sep); j != [] && j[|j| - 1] == last[|last| - 1]
  {
    if items != [] {
      JoinSnoc(items, last, sep);
    } else {
      assert items + [last] == [last];
    }
  }

  /** The last byte survives normalisation when it is neither a slash nor a dot. */
  lemma NormalEnd(d: Bytes)
    requires d != [] && d[|d| - 1] != SLASH && d[|d| - 1] != DOT
    ensures var n := Normal(d); n[|n| - 1] == d[|d| - 1]
  {
    SplitEnd(d, SLASH);
    var segs := Split(d, SLASH);
    var init, last := segs[..|segs| - 1], segs[|segs| - 1];
    assert Proper(last);
    assert Resolve(segs) == Resolve(init) + [last];
    JoinEnd(Resolve(init), last, SLASH);
  }

  lemma Utf8End(t: Text)
    requires EndsStar(t)
    ensures EndsStar(Utf8(t))
  {
    var init := t[..|t| - 1];
    assert t == init + [STAR];
    Utf8Append(init, [STAR]);
    assert Utf8([STAR]) == [STAR] + Utf8([]) == [STAR];
  }

  /** A star is put back only behind a stray percent sign. */
  lemma StarPutBack(p: Text)
    requires EndsStar(p) && !EndsStar(Normalize(p))
    ensures var n := Normalize(p);
            IsNormal(n) && n[|n| - 1] == PERCENT && RulePath(p) == n + [STAR] && IsNormal(n + [STAR])
  {
    NormalizeIsNormal(p);
    Utf8End(p);
    DecodeEnd(Utf8(p));
    NormalEnd(Decode(Utf8(p)));
    var n := Normalize(p);
    var segs :| n == Path(segs) && forall x :: x in segs ==> Proper(x) && SLASH !in x;
    StarBehind(segs);
  }

  /** A star behind a percent sign keeps a path normal. */
  lemma StarBehind(segs: seq<Bytes>)
    requires forall x :: x in segs ==> Proper(x) && SLASH !in x
    requires Path(segs)[|Path(segs)| - 1] == PERCENT
    ensures IsNormal(Path(segs) + [STAR])
  {
    assert segs != [];
    var init, last := segs[..|segs| - 1], segs[|segs| - 1];
    assert segs == init + [last] && last in segs;
    var more := init + [last + [STAR]];
    if init != [] {
      JoinSnoc(init, last, SLASH);
      JoinSnoc(init, last + [STAR], SLASH);
    } else {
      assert segs == [last] && more == [last + [STAR]];
    }
    assert Path(segs) + [STAR] == Path(more);
    assert (last + [STAR])[|last|] == STAR;
    assert Proper(last + [STAR]) && SLASH !in last + [STAR];
    assert forall x :: x in more ==> x in init || x == last + [STAR];
  }

  /** Nor does taking it away. */
  lemma StarAway(segs: seq<Bytes>)
    requires forall x :: x in segs ==> Proper(x) && SLASH !in x
    requires var p := Path(segs); |p| >= 2 && p[|p| - 1] == STAR && p[|p| - 2] == PERCENT
    ensures IsNormal(Path(segs)[..|Path(segs)| - 1])
  {
    var p := Path(segs);
    assert segs != [];
    var init, last := segs[..|segs| - 1], segs[|segs| - 1];
    assert segs == init + [last] && last in segs && last != [];
    if init != [] {
      JoinSnoc(init, last, SLASH);
      assert p == ([SLASH] + Join(init, SLASH) + [SLASH]) + last;
    } else {
      assert segs == [last] && p == [SLASH] + last;
    }
    assert |last| > 1;
    var cut := last[..|last| - 1];
    assert cut[|cut| - 1] == p[|p| - 2] && last == cut + [STAR];
    var less := init + [cut];
    if init != [] {
      JoinSnoc(init, cut, SLASH);
    } else {
      assert less == [cut];
    }
    assert p[..|p| - 1] == Path(less);
    assert Proper(cut) && SLASH !in cut;
    assert forall x :: x in less ==> x in init || x == cut;
  }

  /** No escape is left to decode; a star behind a final percent sign is cut and put back. */
  predicate Settled(p: Bytes) {
    Decode(p) == p || (EndsStar(p) && Decode(p) + [STAR] == p)
  }

  /** Every text: reading it as a rule path leaves it alone exactly when it is ASCII, normal and settled. */
  lemma RulePathFixedIff(p: Text)
    ensures RulePath(p) == p <==> Ascii(p) && IsNormal(p) && Settled(p)
  {
    FixedIff(p);
    if EndsStar(p) && !EndsStar(Normalize(p)) {
      StarPutBack(p);
      if RulePath(p) == p {
        StarOnlyCut(p, Normalize(p));
      }
    }
    if Ascii(p) && IsNormal(p) && EndsStar(p) && Decode(p) + [STAR] == p {
      CutFixed(p);
    }
  }

  lemma StarOnlyCut(p: Text, n: Bytes)
    requires p == n + [STAR] && n == Normalize(p) && !EndsStar(n) && IsNormal(n) && IsNormal(n + [STAR])
    ensures Ascii(p) && Decode(p) == n
  {
    var s := Utf8(p);
    NormalizeIsNormal(p);
    assert p[0] == n[0] == SLASH;
    Utf8Append(n, [STAR]);
    Utf8FixedIff([STAR]);
    assert s == Utf8(n) + [STAR];
    assert Utf8(n)[0] == SLASH;
    LightConcat(n, [STAR]);
    LightOne(STAR);
    Utf8Light(p);
    DecodeLightens(s);
    NormalLight(Decode(s));
    if Decode(s) == s {
      Utf8Normal(n + [STAR]);
      NormalFixed(s);
    }
    assert Decode(s) == Utf8(n);
    Utf8Normal(n);
    NormalFixed(Utf8(n));
    Utf8FixedIff(n);
  }

  lemma CutFixed(p: Bytes)
    requires Ascii(p) && IsNormal(p) && EndsStar(p) && Decode(p) + [STAR] == p
    ensures RulePath(p) == p
  {
    var d := Decode(p);
    Utf8FixedIff(p);
    LightConcat(d, [STAR]);
    LightOne(STAR);
    Utf8Light(p);
    DecodeLightens(p);
    assert Cut(p, d);
    var segs :| p == Path(segs) && forall x :: x in segs ==> Proper(x) && SLASH !in x;
    StarAway(segs);
    assert d == p[..|p| - 1];
    NormalFixed(d);
  }

  lemma RulePathNormal(p: Text)
    ensures IsNormal(RulePath(p))
  {
    NormalizeIsNormal(p);
    if EndsStar(p) && !EndsStar(Normalize(p)) {
      StarPutBack(p);
    }
  }

  lemma AnyNormal()
    ensures IsNormal(ANY)
  {
    var segs: seq<Bytes> := [[STAR]];
    assert ANY == Path(segs);
  }

  lemma VerbShape(verb: Text, up: Case)
    requires Uppercases(up) && NoSpace(verb) && verb != []
    ensures var v := Upper(verb, up); v != [] && NoSpace(v) && Upper(v, up) == v
  {
    UpperChars(verb, up);
    UpperFixed(Upper(verb, up), up);
  }

  ghost predicate NormalText(path: Text) {
    exists p: Bytes :: path == p && IsNormal(p)
  }

  lemma PathShape(rest: Text, pos: nat)
    requires pos <= |rest|
    ensures NormalText(if pos == |rest| then ANY else RulePath(rest[pos..]))
  {
    if pos == |rest| {
      AnyNormal();
    } else {
      RulePathNormal(rest[pos..]);
    }
  }

  lemma HostShape(rest: Text)
    ensures First(rest[..First(rest, Slash)], Slash) == First(rest, Slash)
  {
  }

  lemma TokenShape(t: Text)
    requires t != [] && !Space(t[0])
    ensures var verb := t[..First(t, Space)]; NoSpace(verb) && verb != []
  {
  }

  /** A verb in upper case without blanks, a host without slashes or a leading blank, and a normal path. */
  ghost predicate Shaped(r: Rule, up: Case) {
    && r.verb != [] && NoSpace(r.verb) && Upper(r.verb, up) == r.verb
    && First(r.host, Slash) == |r.host| && (r.host != [] ==> !Space(r.host[0])) && NormalText(r.path)
  }

  lemma RuleShape(verb: Text, rest: Text, up: Case)
    requires Uppercases(up) && NoSpace(verb) && verb != [] && rest != [] && !Space(rest[0])
    ensures Shaped(RuleOf(verb, rest, up), up)
  {
    VerbShape(verb, up);
    HostShape(rest);
    PathShape(rest, First(rest, Slash));
  }

  /** What every parsed rule looks like. */
  lemma ParsedShape(s: Text, r: Rule, up: Case)
    requires Uppercases(up) && Parse(s, up) == Some(r)
    ensures Shaped(r, up)
  {
    var t := Trim(s);
    var i := First(t, Space);
    TokenShape(t);
    RuleShape(t[..i], Trim(t[i + 1..]), up);
  }

  lemma TrimNothing(t: Text)
    requires t != [] && !Space(t[0]) && !Space(t[|t| - 1])
    ensures Trim(t) == t
  {
  }

  lemma FirstIs(t: Text, f: Char -> bool, n: nat)
    requires n < |t| && f(t[n]) && forall i :: 0 <= i < n ==> !f(t[i])
    ensures First(t, f) == n
  {
  }

  lemma FirstAfter(a: Text, c: Char, b: Text, f: Char -> bool)
    requires First(a, f) == |a| && f(c)
    ensures First(a + [c] + b, f) == |a|
  {
    var t := a + [c] + b;
    forall i | 0 <= i < |a| ensures !f(t[i]) {
      assert t[i] == a[i];
    }
    assert t[|a|] == c;
    FirstIs(t, f, |a|);
  }

  /** A rule text without stray blanks splits at its one blank. */
  lemma ParseParts(f: Text, verb: Text, rest: Text)
    requires f == verb + [0x20] + rest && verb != [] && NoSpace(verb) && rest != [] && !Space(rest[0])
             && !Space(rest[|rest| - 1])
    ensures Trim(f) == f && First(f, Space) == |verb| && f[..|verb|] == verb && Trim(f[|verb| + 1..]) == rest
  {
    assert f[0] == verb[0] && f[|f| - 1] == rest[|rest| - 1];
    TrimNothing(f);
    FirstAfter(verb, 0x20, rest, Space);
    assert f[|verb| + 1..] == rest;
    TrimNothing(rest);
  }

  /** Host and path split at the first slash. */
  lemma HostParts(rest: Text, host: Text, path: Text)
    requires rest == host + path && First(host, Slash) == |host| && path != [] && path[0] == SLASH
    ensures First(rest, Slash) == |host| && rest[..|host|] == host && rest[|host|..] == path
  {
    forall i | 0 <= i < |host| ensures !Slash(rest[i]) {
      assert rest[i] == host[i];
    }
    assert rest[|host|] == path[0];
    FirstIs(rest, Slash, |host|);
  }

  lemma {:induction false} TrimEndBehind(g: Text, path: Text)
    requires path != [] && !Space(path[0])
    ensures TrimEnd(g + path) == g + TrimEnd(path) && TrimEnd(path) != [] && TrimEnd(path)[0] == path[0]
    decreases |path|
  {
    if Space(path[|path| - 1]) {
      assert (g + path)[..|g + path| - 1] == g + path[..|path| - 1];
      TrimEndBehind(g, path[..|path| - 1]);
    }
  }

  lemma TrimFormat(f: Text, verb: Text, rest: Text, path: Text)
    requires verb != [] && !Space(verb[0]) && path != [] && path[0] == SLASH
    requires f == verb + [0x20] + rest + path
    ensures Trim(f) == verb + [0x20] + (rest + TrimEnd(path)) && TrimEnd(path) != [] && TrimEnd(path)[0] == SLASH
  {
    assert f[0] == verb[0];
    TrimEndBehind(verb + [0x20] + rest, path);
  }

  /** Parsing a formatted rule keeps verb and host and reads the path again, without blanks at its end. */
  lemma Reparsed(r: Rule, up: Case)
    requires r.verb != [] && NoSpace(r.verb) && Upper(r.verb, up) == r.verb && (r.host != [] ==> !Space(r.host[0]))
    requires First(r.host, Slash) == |r.host| && r.path != [] && r.path[0] == SLASH
    ensures Parse(Format(r), up) == Some(Rule(r.verb, r.host, RulePath(TrimEnd(r.path))))
  {
    var path := TrimEnd(r.path);
    TrimFormat(Format(r), r.verb, r.host, r.path);
    ParseTrimmed(Format(r), r.verb, r.host, path, up);
  }

  lemma ParseTrimmed(f: Text, verb: Text, host: Text, path: Text, up: Case)
    requires verb != [] && NoSpace(verb) && First(host, Slash) == |host| && (host != [] ==> !Space(host[0]))
    requires path != [] && path[0] == SLASH && !Space(path[|path| - 1]) && Trim(f) == verb + [0x20] + (host + path)
    ensures Parse(f, up) == Some(Rule(Upper(verb, up), host, RulePath(path)))
  {
    var t, rest := Trim(f), host + path;
    assert rest[0] == (if host != [] then host[0] else path[0]) && rest[|rest| - 1] == path[|path| - 1];
    ParseParts(t, verb, rest);
    HostParts(rest, host, path);
    ParseIs(f, t, verb, rest, host, path, up);
  }

  lemma ParseIs(f: Text, t: Text, verb: Text, rest: Text, host: Text, path: Text, up: Case)
    requires Trim(f) == t && First(t, Space) == |verb| < |t| && t[..|verb|] == verb && Trim(t[|verb| + 1..]) == rest
    requires First(rest, Slash) == |host| < |rest| && rest[..|host|] == host && rest[|host|..] == path
    ensures Parse(f, up) == Some(Rule(Upper(verb, up), host, RulePath(path)))
  {
  }

  /** Every byte from 0x80 to 0xBF follows 0xC2 or 0xC3, as in the encoding of a text below 256. */
  predicate Led(s: Bytes) {
    forall i :: 0 <= i < |s| && 0x80 <= s[i] < 0xC0 ==> i > 0 && s[i - 1] in {0xC2, 0xC3}
  }

  lemma LedConcat(a: Bytes, b: Bytes)
    requires Led(a) && Led(b)
    ensures Led(a + b)
  {
    var s := a + b;
    forall i | 0 <= i < |s| && 0x80 <= s[i] < 0xC0 ensures i > 0 && s[i - 1] in {0xC2, 0xC3} {
      if i < |a| {
        assert s[i] == a[i] && s[i - 1] == a[i - 1];
      } else {
        assert s[i] == b[i - |a|] && s[i - 1] == b[i - |a| - 1];
      }
    }
  }

  lemma {:induction false} Utf8Led(q: Bytes)
    ensures Led(Utf8(q))
  {
    if q != [] {
      Utf8Led(q[1..]);
      LedConcat(Utf8Char(q[0]), Utf8(q[1..]));
    }
  }

  lemma {:induction false} SplitLed(s: Bytes, sep: byte)
    requires sep < 0x80 && forall i :: 0 < i < |s| && 0x80 <= s[i] < 0xC0 ==> s[i - 1] in {0xC2, 0xC3}
    ensures var t := Split(s, sep);
            && (forall k :: 0 < k < |t| ==> Led(t[k]))
            && (s != [] && 0x80 <= s[0] < 0xC0 ==> t[0] != [] && t[0][0] == s[0] && Led(t[0][1..]))
            && (!(s != [] && 0x80 <= s[0] < 0xC0) ==> Led(t[0]))
            && (t[0] != [] ==> s != [] && t[0][0] == s[0])
  {
    if s != [] {
      SplitLed(s[1..], sep);
      var t := Split(s[1..], sep);
      if s[0] != sep {
        var head := [s[0]] + t[0];
        assert head[1..] == t[0];
        if s[0] in {0xC2, 0xC3} && t[0] != [] && 0x80 <= t[0][0] < 0xC0 {
          LedPair(s[0], t[0]);
        } else if !(0x80 <= s[0] < 0xC0) {
          LedConcat([s[0]], t[0]);
        }
      }
    }
  }

  lemma LedPair(lead: byte, x: Bytes)
    requires lead in {0xC2, 0xC3} && x != [] && Led(x[1..])
    ensures Led([lead] + x)
  {
    var s := [lead] + x;
    forall i | 0 <= i < |s| && 0x80 <= s[i] < 0xC0 ensures i > 0 && s[i - 1] in {0xC2, 0xC3} {
      if i > 1 {
        assert s[i] == x[1..][i - 2] && s[i - 1] == x[1..][i - 3];
      }
    }
  }

  lemma {:induction false} JoinLed(items: seq<Bytes>)
    requires forall x :: x in items ==> Led(x)
    ensures Led(Join(items, SLASH))
  {
    if items != [] {
      assert items[0] in items;
      JoinLed(items[1..]);
      LedConcat(items[0], [SLASH]);
      LedConcat(items[0] + [SLASH], Join(items[1..], SLASH));
    }
  }

  lemma NormalLed(s: Bytes)
    requires Led(s)
    ensures Led(Normal(s))
  {
    var segs := Split(s, SLASH);
    SplitLed(s, SLASH);
    SplitPieces(s, SLASH);
    ResolveProper(segs, SLASH);
    forall x | x in Resolve(segs) ensures Led(x) {
      var k :| 0 <= k < |segs| && segs[k] == x;
    }
    JoinLed(Resolve(segs));
    LedConcat([SLASH], Join(Resolve(segs), SLASH));
  }

  /** Normalising a path that starts with a slash keeps its weight only if nothing is decoded. */
  lemma NormalizeLight(q: Bytes)
    requires q != [] && q[0] == SLASH
    ensures Light(Normalize(q)) <= Light(q)
    ensures Light(Normalize(q)) == Light(q) ==> Normalize(q) == Normal(Utf8(q))
  {
    var s := Utf8(q);
    assert q == [SLASH] + q[1..];
    assert s[0] == SLASH && Decode(s)[0] == SLASH;
    Utf8Light(q);
    DecodeLightens(s);
    NormalLight(Decode(s));
  }

  /** No path without a blank at its end is read as itself followed by blanks. */
  lemma BlanksLost(q: Bytes, b: Bytes)
    requires q != [] && q[0] == SLASH && b != [] && Blanks(b)
    ensures RulePath(q) != q + b
  {
    if RulePath(q) == q + b {
      var last := b[|b| - 1];
      assert (q + b)[|q + b| - 1] == last && Space(last);
      assert Normalize(q) == q + b;
      LightConcat(q, b);
      NormalizeLight(q);
      if last < 0x80 {
        LightLast(b);
      } else {
        Utf8Led(q);
        NormalLed(Utf8(q));
        BlankAlone(q, b);
      }
    }
  }

  predicate Blanks(b: Bytes) { forall i :: 0 <= i < |b| ==> Space(b[i]) }

  lemma LightLast(b: Bytes)
    requires b != [] && b[|b| - 1] < 0x80
    ensures Light(b) >= 1
  {
    var last := b[|b| - 1];
    assert b == b[..|b| - 1] + [last];
    LightConcat(b[..|b| - 1], [last]);
    LightOne(last);
  }

  /** The encoding of a text that ends in 0xC2 or 0xC3 ends in 0x82 or 0x83, which is no blank. */
  lemma LeadEnd(q: Bytes)
    requires q != [] && q[|q| - 1] in {0xC2, 0xC3}
    ensures var n := Normal(Utf8(q)); n[|n| - 1] in {0x82, 0x83}
  {
    var s := Utf8(q);
    assert s != [] && s[|s| - 1] in {0x82, 0x83} by {
      Utf8Last(q, q[|q| - 1]);
    }
    NormalEnd(s);
  }

  lemma Utf8Last(q: Bytes, c: byte)
    requires q != [] && q[|q| - 1] == c && c in {0xC2, 0xC3}
    ensures var s := Utf8(q); s != [] && s[|s| - 1] == 0x80 + c % 0x40
  {
    var init := q[..|q| - 1];
    assert q == init + [c];
    Utf8Append(init, [c]);
    assert [c][1..] == [] && Utf8([c]) == Utf8Char(c) + [];
    assert Utf8(q) == Utf8(init) + [0xC0 + c / 0x40, 0x80 + c % 0x40];
  }

  lemma BlankAlone(q: Bytes, b: Bytes)
    requires q != [] && b != [] && Led(q + b) && Blanks(b) && 0x80 <= b[|b| - 1]
    ensures Normal(Utf8(q)) != q + b
  {
    var p := q + b;
    assert p[|p| - 1] == b[|b| - 1] && p[|p| - 2] in {0xC2, 0xC3};
    if |b| == 1 {
      assert p[|p| - 2] == q[|q| - 1];
      LeadEnd(q);
    }
  }

  lemma TrimmedLost(p: Bytes)
    requires p != [] && p[0] == SLASH && Space(p[|p| - 1])
    ensures RulePath(TrimEnd(p)) != p
  {
    var q, b := TrimmedParts(p);
    BlanksLost(q, b);
  }

  lemma TrimmedParts(p: Bytes) returns (q: Bytes, b: Bytes)
    requires p != [] && p[0] == SLASH && Space(p[|p| - 1])
    ensures q == TrimEnd(p) && p == q + b && q != [] && q[0] == SLASH && b != [] && Blanks(b)
  {
    TrimEndCut(p);
    var n := |TrimEnd(p)|;
    q, b := p[..n], p[n..];
    assert n > 0 by {
      assert !Space(p[0]);
    }
  }

  /** A normal path is read the same after its blanks are trimmed exactly when it is ASCII and settled and has none. */
  lemma RereadIff(p: Bytes)
    requires IsNormal(p)
    ensures p != [] && (RulePath(TrimEnd(p)) == p <==> Ascii(p) && Settled(p) && !Space(p[|p| - 1]))
  {
    assert p[0] == SLASH;
    if Space(p[|p| - 1]) {
      TrimmedLost(p);
    } else {
      assert TrimEnd(p) == p;
      RulePathFixedIff(p);
    }
  }

  /** A parsed rule survives formatting and parsing exactly when its path is ASCII and settled and ends in no blank. */
  lemma ReparseIff(s: Text, r: Rule, up: Case)
    requires Uppercases(up) && Parse(s, up) == Some(r)
    ensures r.path != []
    ensures Parse(Format(r), up) == Some(r) <==> Ascii(r.path) && Settled(r.path) && !Space(r.path[|r.path| - 1])
  {
    ParsedShape(s, r, up);
    var p: Bytes :| r.path == p && IsNormal(p);
    RereadIff(p);
    Reparsed(r, up);
  }

  lemma {:induction false} TrimEndCut(t: Text)
    ensures TrimEnd(t) <= t && forall i :: |TrimEnd(t)| <= i < |t| ==> Space(t[i])
    ensures t != [] && Space(t[|t| - 1]) ==> TrimEnd(t) < t
  {
    if t != [] && Space(t[|t| - 1]) {
      TrimEndCut(t[..|t| - 1]);
    }
  }

  // ---- The access check ----

  function LowerChar(c: Char): Char { if 0x41 <= c <= 0x5A then c + 32 else c }

  /** `eq_ignore_ascii_case`. */
  predicate SameFold(a: Text, b: Text) {
    |a| == |b| && forall i :: 0 <= i < |a| ==> LowerChar(a[i]) == LowerChar(b[i])
  }

  /** `prefix_or_exact_match`. */
  predicate PathMatch(pattern: Text, value: Text) {
    pattern == ANY || pattern == [STAR]
    || (if EndsStar(pattern) then pattern[..|pattern| - 1] <= value else pattern == value)
  }

  predicate Matches(r: Rule, verb: Text, host: Text, path: Text) {
    && (r.verb == [STAR] || SameFold(r.verb, verb))
    && (r.host == [STAR] || SameFold(r.host, host))
    && PathMatch(r.path, Normalize(path))
  }

  /** Two texts agree but for the case of ASCII letters. */
  lemma SameFoldIff(a: Text, b: Text)
    ensures SameFold(a, b) <==>
            |a| == |b| && forall i :: 0 <= i < |a| ==>
              || a[i] == b[i]
              || (0x41 <= a[i] <= 0x5A && b[i] == a[i] + 32)
              || (0x61 <= a[i] <= 0x7A && b[i] == a[i] - 32)
  {
  }

  /** A pattern with a final star matches what begins with the rest of it, any other only itself; a star alone
      or behind a slash matches everything. */
  lemma PathMatchIff(pattern: Text, value: Text)
    ensures PathMatch(pattern, value) <==>
            || pattern == [0x2A] || pattern == [0x2F, 0x2A] || pattern == value
            || exists prefix, tail :: Splits(prefix, tail, pattern, value)
  {
    if PathMatch(pattern, value) && EndsStar(pattern) && pattern != ANY {
      var prefix := pattern[..|pattern| - 1];
      if prefix <= value {
        assert Splits(prefix, value[|prefix|..], pattern, value);
      }
    }
    if prefix, tail :| Splits(prefix, tail, pattern, value) {
      assert pattern[..|pattern| - 1] == prefix;
      assert prefix <= value;
    }
    if pattern == value && EndsStar(pattern) {
      assert pattern[..|pattern| - 1] <= value;
    }
  }

  /** The pattern is `prefix` and a star, and the value goes on from it. */
  predicate Splits(prefix: Text, tail: Text, pattern: Text, value: Text) {
    pattern == prefix + [0x2A] && value == prefix + tail
  }

  /** On normalised paths a slash and a star is no exception: they all begin with a slash. */
  lemma StarIsPrefix(pattern: Text, path: Text)
    requires EndsStar(pattern) && pattern != [STAR]
    ensures PathMatch(pattern, Normalize(path)) <==> pattern[..|pattern| - 1] <= Normalize(path)
  {
    NormalizeIsNormal(path);
    if pattern == ANY {
      assert pattern[..|pattern| - 1] == [SLASH];
    }
  }

  // ---- What a rule text means ----

  predicate Blank(t: Text) { forall i :: 0 <= i < |t| ==> Space(t[i]) }

  lemma {:induction false} TrimStartParts(s: Text) returns (a: Text)
    ensures s == a + TrimStart(s) && Blank(a)
  {
    a := [];
    if s != [] && Space(s[0]) {
      var rest := TrimStartParts(s[1..]);
      a := [s[0]] + rest;
      assert s == [s[0]] + s[1..];
    }
  }

  lemma {:induction false} TrimEndParts(s: Text) returns (b: Text)
    ensures s == TrimEnd(s) + b && Blank(b)
  {
    b := [];
    if s != [] && Space(s[|s| - 1]) {
      var rest := TrimEndParts(s[..|s| - 1]);
      b := rest + [s[|s| - 1]];
      assert s == s[..|s| - 1] + [s[|s| - 1]];
    }
  }

  /** A text is blanks, its trimmed form, and blanks. */
  lemma TrimParts(s: Text) returns (a: Text, b: Text)
    ensures s == a + Trim(s) + b && Blank(a) && Blank(b)
  {
    a := TrimStartParts(s);
    b := TrimEndParts(TrimStart(s));
    assert a + (Trim(s) + b) == a + Trim(s) + b;
  }

  /** A blank stands between two other characters. */
  predicate Between(s: Text, i: int, k: int, j: int) {
    0 <= i < k < j < |s| && !Space(s[i]) && Space(s[k]) && !Space(s[j])
  }

  /** A text is a rule exactly when it holds two words. */
  lemma ParsesIff(s: Text, up: Case)
    ensures Parse(s, up).Some? <==> exists i, k, j :: Between(s, i, k, j)
  {
    var a, b := TrimParts(s);
    var t := Trim(s);
    var k := First(t, Space);
    if k < |t| {
      SecondWord(t, k);
      assert Between(s, |a|, |a| + k, |a| + |t| - 1);
    } else {
      forall i, m, j ensures !Between(s, i, m, j) {
        if Between(s, i, m, j) {
          BlankOutside(s, a, t, b, i);
          BlankOutside(s, a, t, b, j);
        }
      }
    }
  }

  /** What follows a blank inside a trimmed text is not blank. */
  lemma SecondWord(t: Text, k: nat)
    requires k < |t| && Space(t[k]) && !Space(t[|t| - 1])
    ensures Trim(t[k + 1..]) != []
  {
    var rest := t[k + 1..];
    assert rest[|rest| - 1] == t[|t| - 1];
    var a, b := TrimParts(rest);
  }

  lemma BlankOutside(s: Text, a: Text, t: Text, b: Text, i: nat)
    requires s == a + t + b && Blank(a) && Blank(b) && i < |s| && !Space(s[i])
    ensures |a| <= i < |a| + |t| && s[i] == t[i - |a|]
  {
  }

  /** "METHOD host/path" is read into its three parts, the path as a rule path. */
  lemma RuleReads(verb: Text, host: Text, path: Text, up: Case)
    requires verb != [] && NoSpace(verb) && First(host, Slash) == |host| && (host != [] ==> !Space(host[0]))
    requires path != [] && path[0] == SLASH && !Space(path[|path| - 1])
    ensures Parse(verb + [0x20] + (host + path), up) == Some(Rule(Upper(verb, up), host, RulePath(path)))
  {
    var f, rest := verb + [0x20] + (host + path), host + path;
    assert rest[0] == (if host != [] then host[0] else path[0]) && rest[|rest| - 1] == path[|path| - 1];
    ParseParts(f, verb, rest);
    ParseTrimmed(f, verb, host, path, up);
  }

  /** Without a path a rule covers the whole host. */
  lemma HostAloneReads(verb: Text, host: Text, up: Case)
    requires verb != [] && NoSpace(verb) && host != [] && First(host, Slash) == |host|
    requires !Space(host[0]) && !Space(host[|host| - 1])
    ensures Parse(verb + [0x20] + host, up) == Some(Rule(Upper(verb, up), host, [0x2F, 0x2A]))
  {
    var f := verb + [0x20] + host;
    ParseParts(f, verb, host);
    assert host[..|host|] == host;
  }

  /** The wildcard at the end of a rule path survives. */
  lemma RulePathKeepsStar(path: Text)
    ensures EndsStar(path) ==> EndsStar(RulePath(path))
  {
  }

  /** A rule path that needs no rewriting: normal, ASCII, without escapes or a blank at its end. */
  ghost predicate PlainPath(path: Bytes) {
    IsNormal(path) && Ascii(path) && PERCENT !in path && path != [] && path[0] == SLASH && !Space(path[|path| - 1])
  }

  lemma PlainPathReads(path: Bytes)
    requires PlainPath(path)
    ensures RulePath(path) == path
  {
    DecodePlain(path);
    RulePathFixedIff(path);
  }

  /** `name` is a star or the same as `asked` but for the case of ASCII letters. */
  predicate Names(name: Text, asked: Text) {
    name == [0x2A] || SameFold(name, asked)
  }

  /** The request's normal form is the path, or begins with it when the path ends in a star. */
  predicate Reaches(path: Text, request: Text) {
    if path != [] && path[|path| - 1] == 0x2A then path[..|path| - 1] <= Normalize(request)
    else Normalize(request) == path
  }

  lemma PlainPathMatches(path: Bytes, request: Text)
    requires PlainPath(path)
    ensures PathMatch(path, Normalize(request)) <==> Reaches(path, request)
  {
    if EndsStar(path) {
      StarIsPrefix(path, request);
    }
  }

  /** A rule matches when its verb, its host and its path all do, and only then. */
  lemma MatchesIff(r: Rule, path: Bytes, verb: Text, host: Text, request: Text)
    requires r.path == path && PlainPath(path)
    ensures Matches(r, verb, host, request) <==> Names(r.verb, verb) && Names(r.host, host) && Reaches(path, request)
  {
    PlainPathMatches(path, request);
  }

  /** From the text of a rule with a plain path to the requests it is about. */
  lemma RuleMeans(verb: Text, host: Text, path: Bytes, up: Case, verb': Text, host': Text, request: Text)
    requires verb != [] && NoSpace(verb) && First(host, Slash) == |host| && (host != [] ==> !Space(host[0]))
    requires PlainPath(path)
    ensures var rule := Parse(verb + [0x20] + (host + path), up);
            && rule.Some?
            && (Matches(rule.value, verb', host', request) <==>
                Names(Upper(verb, up), verb') && Names(host, host') && Reaches(path, request))
  {
    RuleReads(verb, host, path, up);
    PlainPathReads(path);
    MatchesIff(Rule(Upper(verb, up), host, path), path, verb', host', request);
  }

  /** Deny rules win; then an allow rule is needed if there are any. */
  ghost predicate Allowed(allow: seq<Rule>, deny: seq<Rule>, verb: Text, host: Text, path: Text) {
    && (forall r :: r in deny ==> !Matches(r, verb, host, path))
    && (allow == [] || exists r :: r in allow && Matches(r, verb, host, path))
  }

  /** `http_acl_check`. */
  method HttpAclCheck(allow: seq<Rule>, deny: seq<Rule>, verb: Text, host: Text, path: Text) returns (ok: bool)
    ensures ok <==> Allowed(allow, deny, verb, host, path)
  {
    for i := 0 to |deny|
      invariant forall j :: 0 <= j < i ==> !Matches(deny[j], verb, host, path)
    {
      if Matches(deny[i], verb, host, path) {
        assert deny[i] in deny;
        return false;
      }
    }
    if allow == [] && deny == [] {
      return true;
    }
    if allow == [] {
      return true;
    }
    for i := 0 to |allow|
      invariant forall j :: 0 <= j < i ==> !Matches(allow[j], verb, host, path)
    {
      if Matches(allow[i], verb, host, path) {
        assert allow[i] in allow;
        return true;
      }
    }
    return false;
  }

  /** A rule list written to a profile and read back. */
  function Reload(rules: seq<Rule>, up: Case): Option<seq<Rule>> {
    if rules == [] then Some([])
    else
      var r, rest := Parse(Format(rules[0]), up), Reload(rules[1..], up);
      if r.None? || rest.None? then None else Some([r.value] + rest.value)
  }

  /** Rules the format can carry. */
  ghost predicate Carried(r: Rule, up: Case) {
    && (exists s :: Parse(s, up) == Some(r))
    && r.path != [] && Ascii(r.path) && Settled(r.path) && !Space(r.path[|r.path| - 1])
  }

  predicate Survives(r: Rule, up: Case) { Parse(Format(r), up) == Some(r) }

  lemma CarriedSurvives(r: Rule, up: Case)
    requires Uppercases(up) && Carried(r, up)
    ensures Survives(r, up)
  {
    var s :| Parse(s, up) == Some(r);
    ReparseIff(s, r, up);
  }

  lemma {:induction false} ReloadSame(rules: seq<Rule>, up: Case)
    requires forall r :: r in rules ==> Survives(r, up)
    ensures Reload(rules, up) == Some(rules)
  {
    if rules != [] {
      assert Survives(rules[0], up);
      ReloadSame(rules[1..], up);
      assert rules == [rules[0]] + rules[1..];
    }
  }

  /** Access decisions are the same before and after a profile is written and read back. */
  lemma DecisionsSurvive(allow: seq<Rule>, deny: seq<Rule>, verb: Text, host: Text, path: Text, up: Case)
    requires Uppercases(up) && forall r :: r in allow + deny ==> Carried(r, up)
    ensures Reload(allow, up).Some? && Reload(deny, up).Some?
    ensures Allowed(Reload(allow, up).value, Reload(deny, up).value, verb, host, path) <==>
              Allowed(allow, deny, verb, host, path)
  {
    forall r | r in allow + deny ensures Survives(r, up) {
      CarriedSurvives(r, up);
    }
    assert forall r :: r in allow || r in deny ==> r in allow + deny;
    ReloadSame(allow, up);
    ReloadSame(deny, up);
  }
}
