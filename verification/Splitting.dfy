/** Splitting byte strings at a separator and joining them again. */
module Splitting {
  import opened Prelude

  type Bytes = seq<byte>

  /** `split(sep)`: always at least one piece. */
  function Split(s: Bytes, sep: byte): (r: seq<Bytes>)
    ensures r != []
  {
    if s == [] then [[]]
    else
      var t := Split(s[1..], sep);
      if s[0] == sep then [[]] + t else [[s[0]] + t[0]] + t[1..]
  }

  function Join(items: seq<Bytes>, sep: byte): Bytes {
    if items == [] then []
    else if |items| == 1 then items[0]
    else items[0] + [sep] + Join(items[1..], sep)
  }

  lemma {:induction false} SplitPieces(s: Bytes, sep: byte)
    ensures forall p :: p in Split(s, sep) ==> sep !in p
  {
    if s != [] {
      SplitPieces(s[1..], sep);
      var t := Split(s[1..], sep);
      assert sep !in t[0];
    }
  }

  lemma {:induction false} SplitFirst(p: Bytes, rest: Bytes, sep: byte)
    requires sep !in p
    ensures Split(p + [sep] + rest, sep) == [p] + Split(rest, sep)
    ensures Split(p, sep) == [p]
    decreases |p|
  {
    var s := p + [sep] + rest;
    if p == [] {
      assert s[1..] == rest;
    } else {
      assert s[1..] == p[1..] + [sep] + rest;
      SplitFirst(p[1..], rest, sep);
      assert [p[0]] + p[1..] == p;
    }
  }

  /** Pieces without the separator survive joining and splitting. */
  lemma {:induction false} SplitJoin(items: seq<Bytes>, sep: byte)
    requires items != [] && forall p :: p in items ==> sep !in p
    ensures Split(Join(items, sep), sep) == items
  {
    if |items| == 1 {
      SplitFirst(items[0], [], sep);
    } else {
      SplitJoin(items[1..], sep);
      SplitFirst(items[0], Join(items[1..], sep), sep);
      assert items == [items[0]] + items[1..];
    }
  }

  lemma {:induction false} JoinNonEmpty(items: seq<Bytes>, sep: byte)
    requires forall p :: p in items ==> p != []
    ensures Join(items, sep) == [] <==> items == []
  {
    if |items| > 0 {
      assert items[0] in items;
    }
  }

  lemma {:induction false} JoinSnoc(items: seq<Bytes>, last: Bytes, sep: byte)
    requires items != []
    ensures Join(items + [last], sep) == Join(items, sep) + [sep] + last
  {
    assert (items + [last])[1..] == items[1..] + [last];
    if |items| > 1 {
      JoinSnoc(items[1..], last, sep);
      assert items[0] + [sep] + (Join(items[1..], sep) + [sep] + last)
             == items[0] + [sep] + Join(items[1..], sep) + [sep] + last;
    } else {
      assert Join([last], sep) == last;
    }
  }
}
