/**
 Injecting a secret as a query parameter: percent-coding, splitting a query into its
 items, and replacing the targeted parameter. Text is a sequence of bytes.
 */
module QueryInjection {

  import opened Prelude
  import opened Splitting


  const PERCENT: byte := 0x25
  const AMP: byte := 0x26
  const EQ: byte := 0x3D

  // ---- Percent-coding (section 2.1 and section 2.3 of RFC 3986) ----

  predicate Unreserved(b: byte) {
    || (0x41 <= b <= 0x5A) || (0x61 <= b <= 0x7A) || (0x30 <= b <= 0x39)
    || b == 0x2D || b == 0x5F || b == 0x2E || b == 0x7E
  }

  function HexDigit(n: int): byte
    requires 0 <= n < 16
  {
    if n < 10 then 0x30 + n else 0x41 + (n - 10)
  }

  /** `to_digit(16)`: either case. */
  function HexValue(c: byte): Option<int> {
    if 0x30 <= c <= 0x39 then Some(c - 0x30)
    else if 0x41 <= c <= 0x46 then Some(c - 0x41 + 10)
    else if 0x61 <= c <= 0x66 then Some(c - 0x61 + 10)
    else None
  }

  function EncodeByte(b: byte): Bytes {
    if Unreserved(b) then [b] else [PERCENT, HexDigit(b / 16), HexDigit(b % 16)]
  }

  /** Letters, digits and four marks stay as they are; every other byte takes three. */
  lemma EncodeByteIff(b: byte)
    ensures EncodeByte(b) == [b] <==>
            || 'A' as int <= b <= 'Z' as int || 'a' as int <= b <= 'z' as int || '0' as int <= b <= '9' as int
            || b == '-' as int || b == '.' as int || b == '_' as int || b == '~' as int
    ensures EncodeByte(b) != [b] ==> |EncodeByte(b)| == 3 && EncodeByte(b)[0] == '%' as int
  {
  }

  function Encode(s: Bytes): Bytes {
    if s == [] then [] else EncodeByte(s[0]) + Encode(s[1..])
  }

  /** A valid escape at the front of `s`. */
  predicate Escape(s: Bytes) {
    |s| > 2 && s[0] == PERCENT && HexValue(s[1]).Some? && HexValue(s[2]).Some?
  }

  function Decode(s: Bytes): Bytes {
    if s == [] then []
    else if Escape(s) then [HexValue(s[1]).value * 16 + HexValue(s[2]).value] + Decode(s[3..])
    else [s[0]] + Decode(s[1..])
  }

  lemma EncodeStep(out: Bytes, bytes: Bytes, i: nat)
    requires i < |bytes|
    ensures out + Encode(bytes[i..]) == out + EncodeByte(bytes[i]) + Encode(bytes[i + 1..])
  {
    var rest := bytes[i..];
    assert rest[0] == bytes[i] && rest[1..] == bytes[i + 1..];
    assert Encode(rest) == EncodeByte(rest[0]) + Encode(rest[1..]);
  }

  method UrlencodeBytes(bytes: Bytes) returns (out: Bytes)
    ensures out == Encode(bytes)
  {
    out := [];
    for i := 0 to |bytes|
      invariant out + Encode(bytes[i..]) == Encode(bytes)
    {
      EncodeStep(out, bytes, i);
      var b := bytes[i];
      if Unreserved(b) {
        out := out + [b];
      } else {
        out := out + [PERCENT, HexDigit(b / 16), HexDigit(b % 16)];
      }
    }
  }

  /** Decoding at `i`: the byte produced and where to go on. */
  lemma DecodeStep(out: Bytes, s: Bytes, i: nat, v: byte, n: nat)
    requires i < |s|
    requires if Escape(s[i..])
             then i + 3 <= |s| && v == HexValue(s[i + 1]).value * 16 + HexValue(s[i + 2]).value && n == i + 3
             else v == s[i] && n == i + 1
    ensures out + Decode(s[i..]) == out + [v] + Decode(s[n..])
  {
    var rest := s[i..];
    if Escape(rest) {
      assert rest[1] == s[i + 1] && rest[2] == s[i + 2] && rest[3..] == s[n..];
    } else {
      assert rest[1..] == s[n..];
    }
    assert Decode(rest) == [v] + Decode(s[n..]);
  }

  method PercentDecodeLossy(s: Bytes) returns (out: Bytes)
    ensures out == Decode(s)
  {
    out := [];
    var i := 0;
    while i < |s|
      invariant 0 <= i <= |s|
      invariant out + Decode(s[i..]) == Decode(s)
    {
      if s[i] == PERCENT && i + 2 < |s| {
        var hi, lo := HexValue(s[i + 1]), HexValue(s[i + 2]);
        if hi.Some? && lo.Some? {
          var v := hi.value * 16 + lo.value;
          DecodeStep(out, s, i, v, i + 3);
          out := out + [v];
          i := i + 3;
          continue;
        }
      }
      DecodeStep(out, s, i, s[i], i + 1);
      out := out + [s[i]];
      i := i + 1;
    }
  }

  lemma HexRoundTrip(n: int)
    requires 0 <= n < 16
    ensures HexValue(HexDigit(n)) == Some(n) && Unreserved(HexDigit(n))
  {
  }

  /** The digits of section 2.1 of RFC 3986, upper case and lower case. */
  const UPPER_HEX: string := "0123456789ABCDEF"
  const LOWER_HEX: string := "0123456789abcdef"

  lemma HexValueIff(c: byte, v: int)
    ensures HexValue(c) == Some(v) <==>
            0 <= v < 16 && (c == UPPER_HEX[v] as int || c == LOWER_HEX[v] as int)
  {
    if 0 <= v < 16 {
      HexCharacters(v);
    }
  }

  lemma HexCharacters(v: int)
    requires 0 <= v < 16
    ensures UPPER_HEX[v] as int == if v < 10 then 0x30 + v else 0x41 + v - 10
    ensures LOWER_HEX[v] as int == if v < 10 then 0x30 + v else 0x61 + v - 10
  {
  }

  /** An escape in either case is the byte it spells; a percent sign that starts none is kept. */
  lemma {:induction false} DecodeFirstPercent(pre: Bytes, post: Bytes)
    requires PERCENT !in pre
    ensures var rest := [PERCENT] + post;
            Decode(pre + rest) ==
            if Escape(rest) then pre + [HexValue(post[0]).value * 16 + HexValue(post[1]).value] + Decode(post[2..])
            else pre + [PERCENT] + Decode(post)
  {
    var rest := [PERCENT] + post;
    if pre == [] {
      assert pre + rest == rest && rest[1..] == post;
      if Escape(rest) {
        assert rest[3..] == post[2..];
      }
    } else {
      assert (pre + rest)[0] == pre[0] && (pre + rest)[1..] == pre[1..] + rest;
      DecodeFirstPercent(pre[1..], post);
      assert [pre[0]] + pre[1..] == pre;
    }
  }

  /** Text without a percent sign is left alone. */
  lemma {:induction false} DecodeNoPercent(s: Bytes)
    requires PERCENT !in s
    ensures Decode(s) == s
  {
    if s != [] {
      DecodeNoPercent(s[1..]);
      assert s == [s[0]] + s[1..];
    }
  }

  /** Decoding undoes encoding, for every byte string. */
  lemma {:induction false} DecodeEncode(s: Bytes)
    ensures Decode(Encode(s)) == s
  {
    if s != [] {
      var b := s[0];
      var head, tail, e := EncodeByte(b), Encode(s[1..]), Encode(s);
      assert e == head + tail;
      DecodeEncode(s[1..]);
      if Unreserved(b) {
        assert e[0] == b && e[1..] == tail;
      } else {
        HexRoundTrip(b / 16);
        HexRoundTrip(b % 16);
        assert e[0] == PERCENT && e[1] == HexDigit(b / 16) && e[2] == HexDigit(b % 16) && e[3..] == tail;
      }
    }
  }

  /** Nothing encoded can break out of its item. */
  lemma {:induction false} EncodeClean(s: Bytes)
    ensures forall b :: b in Encode(s) ==> Unreserved(b) || b == PERCENT
    ensures AMP !in Encode(s) && EQ !in Encode(s)
  {
    if s != [] {
      HexRoundTrip(s[0] / 16);
      HexRoundTrip(s[0] % 16);
      EncodeClean(s[1..]);
    }
  }

  // ---- Query items ----

  /** The token before the first `=`. */
  function Name(item: Bytes): Bytes {
    Split(item, EQ)[0]
  }

  /** What follows the first `=`, if there is one. */
  function ValueOf(item: Bytes): Bytes {
    var n := Name(item);
    if |n| < |item| then item[|n| + 1..] else []
  }

  /** An item is its name alone, or its name, the first equals sign and its value. */
  lemma ItemParts(item: Bytes)
    ensures EQ !in Name(item)
    ensures item == if EQ in item then Name(item) + [EQ] + ValueOf(item) else Name(item)
  {
    SplitPieces(item, EQ);
    NameIsPrefix(item);
  }

  lemma NamePushed(b: byte, rest: Bytes)
    requires b != EQ
    ensures Name([b] + rest) == [b] + Name(rest)
  {
    assert ([b] + rest)[1..] == rest;
  }

  lemma {:induction false} NameIsPrefix(item: Bytes)
    ensures Name(item) <= item && (|Name(item)| < |item| ==> item[|Name(item)|] == EQ)
    ensures EQ in item <==> |Name(item)| < |item|
  {
    if item == [] || item[0] == EQ {
      assert Name(item) == [];
    } else {
      var rest := item[1..];
      NameIsPrefix(rest);
      assert item == [item[0]] + rest;
      NamePushed(item[0], rest);
    }
  }

  predicate IsTarget(item: Bytes, param: Bytes) {
    Decode(Name(item)) == param
  }

  function KeepOthers(items: seq<Bytes>, param: Bytes): (r: seq<Bytes>)
    ensures forall p :: p in r <==> p in items && p != [] && !IsTarget(p, param)
  {
    if items == [] then []
    else
      var rest := KeepOthers(items[1..], param);
      if items[0] != [] && !IsTarget(items[0], param) then [items[0]] + rest else rest
  }

  function Pair(param: Bytes, secret: Bytes): Bytes {
    Encode(param) + [EQ] + Encode(secret)
  }

  predicate HasTarget(query: Option<Bytes>, param: Bytes) {
    query.Some? && exists p :: p in Split(query.value, AMP) && IsTarget(p, param)
  }

  /** The items of the old query that survive. */
  function Kept(query: Option<Bytes>, param: Bytes): seq<Bytes> {
    if query.None? then [] else KeepOthers(Split(query.value, AMP), param)
  }

  function Injected(query: Option<Bytes>, param: Bytes, secret: Bytes): Bytes {
    var kept := Join(Kept(query, param), AMP);
    if kept != [] then kept + [AMP] + Pair(param, secret) else Pair(param, secret)
  }

  datatype OnExisting = Replace | AddOnly
  datatype Applied = Written | Skipped | Unbuildable

  class Request {
    var query: Option<Bytes>

    constructor (q: Option<Bytes>)
      ensures query == q
    {
      query := q;
    }

    /** `set_query`; `builds` is whether the URI builder accepts the new query. */
    method SetQuery(param: Bytes, secret: Bytes, onExisting: OnExisting, builds: bool) returns (r: Applied)
      modifies this
      ensures r == Skipped <==> onExisting == AddOnly && HasTarget(old(query), param)
      ensures r == Written ==> query == Some(Injected(old(query), param, secret))
      ensures r != Written ==> query == old(query)
      ensures r == Unbuildable <==> !builds && r != Skipped
    {
      var enc := UrlencodeBytes(param);
      if onExisting == AddOnly && query.Some? {
        var found := AnyTarget(Split(query.value, AMP), param);
        if found {
          return Skipped;
        }
      }
      var encSecret := UrlencodeBytes(secret);
      var pair := enc + [EQ] + encSecret;
      var kept := [];
      if query.Some? {
        kept := FilterOthers(Split(query.value, AMP), param);
      }
      var joined := Join(kept, AMP);
      var newQuery := if joined != [] then joined + [AMP] + pair else pair;
      if !builds {
        return Unbuildable;
      }
      query := Some(newQuery);
      return Written;
    }
  }

  method AnyTarget(items: seq<Bytes>, param: Bytes) returns (found: bool)
    ensures found <==> exists p :: p in items && IsTarget(p, param)
  {
    for i := 0 to |items|
      invariant forall j :: 0 <= j < i ==> !IsTarget(items[j], param)
    {
      var name := PercentDecodeLossy(Name(items[i]));
      if name == param {
        assert items[i] in items && IsTarget(items[i], param);
        return true;
      }
    }
    return false;
  }

  lemma KeepStep(kept: seq<Bytes>, items: seq<Bytes>, i: nat, param: Bytes)
    requires i < |items|
    ensures kept + KeepOthers(items[i..], param)
            == (if items[i] != [] && !IsTarget(items[i], param) then kept + [items[i]] else kept)
            + KeepOthers(items[i + 1..], param)
  {
    var rest := items[i..];
    assert rest[0] == items[i] && rest[1..] == items[i + 1..];
  }

  method FilterOthers(items: seq<Bytes>, param: Bytes) returns (kept: seq<Bytes>)
    ensures kept == KeepOthers(items, param)
  {
    kept := [];
    for i := 0 to |items|
      invariant kept + KeepOthers(items[i..], param) == KeepOthers(items, param)
    {
      var name := PercentDecodeLossy(Name(items[i]));
      KeepStep(kept, items, i, param);
      if items[i] != [] && name != param {
        kept := kept + [items[i]];
      }
    }
    assert items[|items|..] == [] && kept + [] == kept;
  }

  // ---- What the injected query is ----

  lemma PairReads(param: Bytes, secret: Bytes)
    ensures Decode(Name(Pair(param, secret))) == param
    ensures Decode(ValueOf(Pair(param, secret))) == secret
    ensures AMP !in Pair(param, secret) && Pair(param, secret) != []
  {
    EncodeClean(param);
    EncodeClean(secret);
    SplitFirst(Encode(param), Encode(secret), EQ);
    var pair := Pair(param, secret);
    assert Name(pair) == Encode(param);
    assert pair[|Encode(param)| + 1..] == Encode(secret);
    DecodeEncode(param);
    DecodeEncode(secret);
  }

  /** Reading the injected query back gives the old non-empty items that were not the
      parameter, in order, then one item that is it and carries the secret; nothing else
      in it decodes to the parameter's name. */
  lemma InjectedReads(query: Option<Bytes>, param: Bytes, secret: Bytes)
    ensures Split(Injected(query, param, secret), AMP) == Kept(query, param) + [Pair(param, secret)]
    ensures Decode(Name(Pair(param, secret))) == param && Decode(ValueOf(Pair(param, secret))) == secret
    ensures forall p :: p in Kept(query, param) ==> p != [] && !IsTarget(p, param)
  {
    var kept, pair := Kept(query, param), Pair(param, secret);
    PairReads(param, secret);
    if query.Some? {
      SplitPieces(query.value, AMP);
    }
    JoinNonEmpty(kept, AMP);
    SplitJoin(kept + [pair], AMP);
    if kept != [] {
      JoinSnoc(kept, pair, AMP);
    } else {
      assert kept + [pair] == [pair];
    }
  }

  lemma {:induction false} KeepOthersFixed(items: seq<Bytes>, last: Bytes, param: Bytes)
    requires forall p :: p in items ==> p != [] && !IsTarget(p, param)
    requires IsTarget(last, param)
    ensures KeepOthers(items + [last], param) == items
  {
    var all := items + [last];
    if items == [] {
      assert all[1..] == [];
    } else {
      assert all[0] == items[0] && all[1..] == items[1..] + [last] && items[0] in items;
      assert forall p :: p in items[1..] ==> p in items;
      KeepOthersFixed(items[1..], last, param);
    }
  }

  /** Injecting again changes nothing, and an add-only rule then skips. */
  lemma InjectTwice(query: Option<Bytes>, param: Bytes, secret: Bytes)
    ensures Injected(Some(Injected(query, param, secret)), param, secret) == Injected(query, param, secret)
    ensures HasTarget(Some(Injected(query, param, secret)), param)
  {
    var q := Injected(query, param, secret);
    var kept, pair := Kept(query, param), Pair(param, secret);
    InjectedReads(query, param, secret);
    KeepOthersFixed(kept, pair, param);
    assert Kept(Some(q), param) == kept;
    assert pair in Split(q, AMP);
  }
}
