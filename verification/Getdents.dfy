/**
 Sorted directory listings served in pages: the record format of `linux_dirent64`, and the
 per-process cache that hands out as many whole records as fit each buffer.
 */
module Getdents {
  import opened Prelude
  import opened LittleEndian
  import opened Buffers

  const DT_DIR: byte := 4
  const NAME_MAX := 255

  datatype Item = Item(name: seq<byte>, kind: byte, ino: u64)

  // ---- Name order ----

  /** Byte-wise lexicographic order, as `str::cmp`. */
  predicate Before(a: seq<byte>, b: seq<byte>) {
    a == [] || (b != [] && (a[0] < b[0] || (a[0] == b[0] && Before(a[1..], b[1..]))))
  }

  lemma {:induction false} BeforeTotal(a: seq<byte>, b: seq<byte>)
    ensures Before(a, b) || Before(b, a)
  {
    if a != [] && b != [] && a[0] == b[0] {
      BeforeTotal(a[1..], b[1..]);
    }
  }

  lemma {:induction false} BeforeTransitive(a: seq<byte>, b: seq<byte>, c: seq<byte>)
    requires Before(a, b) && Before(b, c)
    ensures Before(a, c)
  {
    if a != [] && a[0] == b[0] == c[0] {
      BeforeTransitive(a[1..], b[1..], c[1..]);
    }
  }

  /** A prefix comes first; otherwise the first byte that differs decides. */
  lemma {:induction false} BeforeIff(a: seq<byte>, b: seq<byte>)
    ensures Before(a, b) <==> a <= b || exists i :: Differ(a, b, i) && a[i] < b[i]
  {
    if a != [] && b != [] && a[0] == b[0] {
      var a', b' := a[1..], b[1..];
      BeforeIff(a', b');
      assert a == [a[0]] + a' && b == [b[0]] + b';
      forall i ensures Differ(a, b, i) <==> Differ(a', b', i - 1) {
        DifferLater(a, b, i);
      }
      if i :| Differ(a', b', i) && a'[i] < b'[i] {
        assert Differ(a, b, i + 1) && a[i + 1] < b[i + 1];
      }
      if i :| Differ(a, b, i) && a[i] < b[i] {
        assert Differ(a', b', i - 1) && a'[i - 1] < b'[i - 1];
      }
    } else if a != [] && b != [] {
      assert Differ(a, b, 0) && forall i :: Differ(a, b, i) ==> i == 0;
    }
  }

  /** `i` is the first place at which both have a byte and it is not the same. */
  predicate Differ(a: seq<byte>, b: seq<byte>, i: int) {
    0 <= i < |a| && i < |b| && a[i] != b[i] && forall j :: 0 <= j < i ==> a[j] == b[j]
  }

  lemma DifferLater(a: seq<byte>, b: seq<byte>, i: int)
    requires a != [] && b != [] && a[0] == b[0]
    ensures Differ(a, b, i) <==> Differ(a[1..], b[1..], i - 1)
  {
    var a', b' := a[1..], b[1..];
    if Differ(a, b, i) {
      forall j | 0 <= j < i - 1 ensures a'[j] == b'[j] {
        assert a[j + 1] == b[j + 1];
      }
    }
    if Differ(a', b', i - 1) {
      forall j | 0 <= j < i ensures a[j] == b[j] {
        if j > 0 {
          assert a'[j - 1] == b'[j - 1];
        }
      }
    }
  }

  ghost predicate Sorted(s: seq<Item>) {
    forall i, j :: 0 <= i < j < |s| ==> Before(s[i].name, s[j].name)
  }

  /** `x` in front of the first item not before it: a stable insertion. */
  function Insert(x: Item, s: seq<Item>): seq<Item> {
    if s == [] || Before(x.name, s[0].name) then [x] + s else [s[0]] + Insert(x, s[1..])
  }

  /** The stable sort by name. */
  function Sort(s: seq<Item>): seq<Item> {
    if s == [] then [] else Insert(s[0], Sort(s[1..]))
  }

  lemma SortedCons(x: Item, s: seq<Item>)
    requires Sorted(s) && forall y :: y in s ==> Before(x.name, y.name)
    ensures Sorted([x] + s)
  {
    var t := [x] + s;
    forall i, j | 0 <= i < j < |t| ensures Before(t[i].name, t[j].name) {
      assert t[j] == s[j - 1] && s[j - 1] in s;
      if i > 0 {
        assert t[i] == s[i - 1];
      }
    }
  }

  lemma {:induction false} InsertSorts(x: Item, s: seq<Item>)
    requires Sorted(s)
    ensures Sorted(Insert(x, s)) && multiset(Insert(x, s)) == multiset(s) + multiset{x}
  {
    if s == [] {
    } else if Before(x.name, s[0].name) {
      forall y | y in s ensures Before(x.name, y.name) {
        if y != s[0] {
          BeforeTransitive(x.name, s[0].name, y.name);
        }
      }
      SortedCons(x, s);
    } else {
      var rest := s[1..];
      InsertSorts(x, rest);
      assert s == [s[0]] + rest;
      BeforeTotal(x.name, s[0].name);
      forall y | y in Insert(x, rest) ensures Before(s[0].name, y.name) {
        assert y in multiset(Insert(x, rest));
        assert y == x || y in rest;
      }
      SortedCons(s[0], Insert(x, rest));
    }
  }

  /** Sorting orders the listing and loses nothing. */
  lemma {:induction false} SortSorts(s: seq<Item>)
    ensures Sorted(Sort(s)) && multiset(Sort(s)) == multiset(s)
  {
    if s != [] {
      SortSorts(s[1..]);
      InsertSorts(s[0], Sort(s[1..]));
      assert s == [s[0]] + s[1..];
    }
  }

  // ---- Records ----

  /** The record length: header, name and NUL, rounded up to eight. */
  function RecLen(n: nat): nat {
    (19 + n + 1 + 7) / 8 * 8
  }

  lemma RecLenFits(n: nat)
    requires n <= NAME_MAX
    ensures RecLen(n) % 8 == 0 && 20 + n <= RecLen(n) <= 280 < 0x1_0000
  {
  }

  function Zeros(n: nat): (r: seq<byte>)
    ensures |r| == n && forall i :: 0 <= i < n ==> r[i] == 0
  {
    seq(n, _ => 0)
  }

  function Record(ino: u64, off: nat, kind: byte, name: seq<byte>): (r: seq<byte>)
    requires |name| <= NAME_MAX
    ensures |r| == RecLen(|name|)
  {
    Le(ino, 8) + Le(off, 8) + Le(RecLen(|name|), 2) + [kind] + name + Zeros(RecLen(|name|) - 19 - |name|)
  }

  /** `build_dirent64`: fill a zeroed buffer field by field; None for a name that is too long. */
  method BuildDirent64(ino: u64, off: nat, kind: byte, name: seq<byte>) returns (r: Option<seq<byte>>)
    ensures r == if |name| > NAME_MAX then None else Some(Record(ino, off, kind, name))
  {
    if |name| > NAME_MAX {
      return None;
    }
    var reclen := RecLen(|name|);
    var buf := new byte[reclen](_ => 0);
    assert buf[..] == Zeros(reclen);
    WriteAll(buf, 0, Le(ino, 8));
    assert buf[..] == Le(ino, 8) + Zeros(reclen - 8);
    WriteAll(buf, 8, Le(off, 8));
    assert buf[..] == Le(ino, 8) + Le(off, 8) + Zeros(reclen - 16);
    WriteAll(buf, 16, Le(reclen, 2));
    assert buf[..] == Le(ino, 8) + Le(off, 8) + Le(reclen, 2) + Zeros(reclen - 18);
    buf[18] := kind;
    assert buf[..] == Le(ino, 8) + Le(off, 8) + Le(reclen, 2) + [kind] + Zeros(reclen - 19);
    WriteAll(buf, 19, name);
    assert buf[..] == Record(ino, off, kind, name);
    r := Some(buf[..]);
  }

  /** The records of a sorted listing; positions count from one and names that are too long are dropped. */
  function Records(items: seq<Item>, first: nat): seq<seq<byte>> {
    if items == [] then []
    else
      (if |items[0].name| > NAME_MAX then [] else [Record(items[0].ino, first, items[0].kind, items[0].name)])
      + Records(items[1..], first + 1)
  }

  /** Build the records of a sorted listing one by one, leaving out those that cannot be built. */
  method BuildRecords(items: seq<Item>) returns (entries: seq<seq<byte>>)
    ensures entries == Records(items, 1)
  {
    entries := [];
    assert items[0..] == items;
    for i := 0 to |items|
      invariant Records(items, 1) == entries + Records(items[i..], i + 1)
    {
      assert items[i..][1..] == items[i + 1..];
      var r := BuildDirent64(items[i].ino, i + 1, items[i].kind, items[i].name);
      if r.Some? {
        entries := entries + [r.value];
      }
    }
  }

  function Concat(rs: seq<seq<byte>>): seq<byte> {
    if rs == [] then [] else rs[0] + Concat(rs[1..])
  }

  lemma {:induction false} ConcatAppend(a: seq<seq<byte>>, b: seq<seq<byte>>)
    ensures Concat(a + b) == Concat(a) + Concat(b)
  {
    if a == [] {
      assert a + b == b;
    } else {
      assert (a + b)[1..] == a[1..] + b;
      ConcatAppend(a[1..], b);
    }
  }

  // ---- Reading records back ----

  /** What a reader of the stream sees of an entry. */
  datatype Entry = Entry(ino: nat, off: nat, kind: byte, name: seq<byte>)

  /** The name up to its NUL. */
  function CString(s: seq<byte>): seq<byte> {
    if s == [] || s[0] == 0 then [] else [s[0]] + CString(s[1..])
  }

  /** Walk a buffer by record length, as `readdir` does. */
  function Walk(s: seq<byte>): seq<Entry> {
    if |s| < 20 then []
    else
      var reclen := FromLe(s[16..18]);
      if reclen < 20 || reclen > |s| then []
      else [Entry(FromLe(s[0..8]), FromLe(s[8..16]), s[18], CString(s[19..reclen]))] + Walk(s[reclen..])
  }

  /** The entries a listing means. */
  function Entries(items: seq<Item>, first: nat): seq<Entry> {
    if items == [] then []
    else
      (if |items[0].name| > NAME_MAX then [] else [Entry(items[0].ino, first, items[0].kind, items[0].name)])
      + Entries(items[1..], first + 1)
  }

  predicate NoNul(s: seq<byte>) { 0 !in s }

  lemma {:induction false} CStringPadded(name: seq<byte>, n: nat)
    requires NoNul(name)
    ensures CString(name + Zeros(n)) == name
  {
    if name == [] {
      assert name + Zeros(n) == Zeros(n);
    } else {
      assert (name + Zeros(n))[1..] == name[1..] + Zeros(n);
      CStringPadded(name[1..], n);
    }
  }

  lemma RecordFields(ino: u64, off: nat, kind: byte, name: seq<byte>, rest: seq<byte>)
    requires |name| <= NAME_MAX
    ensures var s, n := Record(ino, off, kind, name) + rest, RecLen(|name|);
            && |s| >= n >= 20 + |name| && s[0..8] == Le(ino, 8) && s[8..16] == Le(off, 8) && s[16..18] == Le(n, 2)
            && s[18] == kind
            && s[19..n] == name + Zeros(n - 19 - |name|) && s[n..] == rest
  {
    var s, n := Record(ino, off, kind, name) + rest, RecLen(|name|);
    var head, pad := Le(ino, 8) + Le(off, 8) + Le(n, 2) + [kind], Zeros(n - 19 - |name|);
    assert s == head + (name + pad) + rest;
    assert s[..19] == head && s[19..n] == name + pad;
    assert s[0..8] == head[0..8] && s[8..16] == head[8..16] && s[16..18] == head[16..18];
  }

  /** A record at the front of a buffer is read back exactly. */
  lemma WalkRecord(ino: u64, off: nat, kind: byte, name: seq<byte>, rest: seq<byte>)
    requires |name| <= NAME_MAX && NoNul(name) && off < 0x1_0000_0000_0000_0000
    ensures Walk(Record(ino, off, kind, name) + rest) == [Entry(ino, off, kind, name)] + Walk(rest)
  {
    var n := RecLen(|name|);
    RecLenFits(|name|);
    RecordFields(ino, off, kind, name, rest);
    PowFacts();
    FromLeLe(ino, 8);
    FromLeLe(off, 8);
    FromLeLe(n, 2);
    CStringPadded(name, n - 19 - |name|);
  }

  /** Walking the whole stream recovers every inode, position, type and name. */
  lemma {:induction false} WalkRecords(items: seq<Item>, first: nat)
    requires forall i :: 0 <= i < |items| ==> NoNul(items[i].name)
    requires first + |items| < 0x1_0000_0000_0000_0000
    ensures Walk(Concat(Records(items, first))) == Entries(items, first)
  {
    if items != [] {
      var x := items[0];
      WalkRecords(items[1..], first + 1);
      if |x.name| <= NAME_MAX {
        var r := Record(x.ino, first, x.kind, x.name);
        assert Records(items, first)[0] == r && Records(items, first)[1..] == Records(items[1..], first + 1);
        WalkRecord(x.ino, first, x.kind, x.name, Concat(Records(items[1..], first + 1)));
      } else {
        assert Records(items, first) == Records(items[1..], first + 1);
        assert Entries(items, first) == Entries(items[1..], first + 1);
      }
    }
  }

  // ---- Serving pages ----

  /** The directory as read on the first call: inodes of "." and "..", then the entries in any order. */
  datatype Listing = Listing(dot: u64, dotdot: u64, items: seq<Item>)

  const DOT: seq<byte> := [0x2E]

  /** What the listing contains, "." and ".." first, before sorting. */
  function Names(l: Listing): seq<Item> {
    [Item(DOT, DT_DIR, l.dot), Item(DOT + DOT, DT_DIR, l.dotdot)] + l.items
  }

  /** All records of a directory, in name order. */
  function AllRecords(l: Listing): seq<seq<byte>> {
    Records(Sort(Names(l)), 1)
  }

  /** How many records from the front fit in `room` bytes. */
  function Fits(rs: seq<seq<byte>>, room: int): (n: nat)
    ensures n <= |rs|
  {
    if rs == [] || |rs[0]| > room then 0 else 1 + Fits(rs[1..], room - |rs[0]|)
  }

  /** No more than fit, and no fewer: the next record would be too much. */
  lemma {:induction false} FitsLongest(rs: seq<seq<byte>>, room: nat)
    ensures var n := Fits(rs, room);
            |Concat(rs[..n])| <= room && (n < |rs| ==> |Concat(rs[..n + 1])| > room)
  {
    if rs != [] && |rs[0]| <= room {
      var rest := rs[1..];
      FitsLongest(rest, room - |rs[0]|);
      var n := Fits(rest, room - |rs[0]|);
      assert rs[..n + 1][1..] == rest[..n];
      if n < |rest| {
        assert rs[..n + 2][1..] == rest[..n + 1];
      }
    } else if rs != [] {
      assert rs[..1][1..] == [] && Concat(rs[..1]) == rs[0] + Concat([]);
    }
  }

  datatype Key = Key(fd: int, path: string)

  /** `Continue` lets the kernel run the call; `Bytes` is what was written, its length the return value. */
  datatype Reply = Continue | Bytes(data: seq<byte>)

  type Cache = map<Key, seq<seq<byte>>>

  /** One getdents call on a readable buffer: the cache afterwards and the reply. */
  function Serve(cache: Cache, key: Key, size: nat, listing: Option<Listing>): (Cache, Reply) {
    if key !in cache && listing.None? then (cache, Continue)
    else
      var rs := if key in cache then cache[key] else AllRecords(listing.value);
      if rs == [] then (cache - {key}, Bytes([]))
      else var n := Fits(rs, size); (cache[key := rs[n..]], Bytes(Concat(rs[..n])))
  }

  /** Pack as many records as fit, from the front. */
  method Pack(entries: seq<seq<byte>>, size: nat) returns (result: seq<byte>, consumed: nat)
    ensures consumed == Fits(entries, size) && result == Concat(entries[..consumed])
  {
    result, consumed := [], 0;
    while consumed < |entries| && |result| + |entries[consumed]| <= size
      invariant consumed <= |entries| && |result| <= size && result == Concat(entries[..consumed])
      invariant Fits(entries, size) == consumed + Fits(entries[consumed..], size - |result|)
    {
      assert entries[consumed..][1..] == entries[consumed + 1..];
      assert entries[..consumed + 1] == entries[..consumed] + [entries[consumed]];
      ConcatAppend(entries[..consumed], [entries[consumed]]);
      result := result + entries[consumed];
      consumed := consumed + 1;
    }
  }

  class Directories {
    var cache: Cache

    constructor ()
      ensures cache == map[]
    {
      cache := map[];
    }

    /** `handle_sorted_getdents`; a failed write to the child falls back to the kernel. */
    method Getdents(key: Key, size: nat, listing: Option<Listing>, writable: bool) returns (reply: Reply)
      modifies this
      ensures var served := Serve(old(cache), key, size, listing);
              cache == served.0 && reply == if !writable && served.1 != Bytes([]) then Continue else served.1
    {
      if key !in cache {
        if listing.None? {
          return Continue;
        }
        var records := BuildRecords(Sort(Names(listing.value)));
        cache := cache[key := records];
      }
      var entries := cache[key];
      if entries == [] {
        cache := cache - {key};
        return Bytes([]);
      }
      var result, consumed := Pack(entries, size);
      if consumed > 0 {
        cache := cache[key := entries[consumed..]];
      }
      assert entries[0..] == entries;
      if result != [] && !writable {
        return Continue;
      }
      reply := Bytes(result);
    }
  }

  // ---- A whole reading of the directory ----

  /** The replies to successive calls with buffers of the given sizes. */
  function Replies(cache: Cache, key: Key, listing: Option<Listing>, sizes: seq<nat>): seq<Reply>
    decreases |sizes|
  {
    if sizes == [] then []
    else var served := Serve(cache, key, sizes[0], listing); [served.1] + Replies(served.0, key, listing, sizes[1..])
  }

  predicate Ended(rs: seq<Reply>) { Bytes([]) in rs }

  /** The bytes delivered before the first empty reply. */
  function Delivered(rs: seq<Reply>): seq<byte> {
    if rs == [] || rs[0] == Bytes([]) || rs[0].Continue? then [] else rs[0].data + Delivered(rs[1..])
  }

  ghost predicate Roomy(rs: seq<seq<byte>>, sizes: seq<nat>) {
    && (forall i :: 0 <= i < |rs| ==> 0 < |rs[i]|)
    && forall i, j :: 0 <= i < |rs| && 0 <= j < |sizes| ==> |rs[i]| <= sizes[j]
  }

  lemma FitsSome(rs: seq<seq<byte>>, room: nat)
    requires rs != [] && 0 < |rs[0]| <= room
    ensures Fits(rs, room) > 0 && Concat(rs[..Fits(rs, room)]) != []
  {
    var taken := rs[..Fits(rs, room)];
    assert taken[0] == rs[0];
  }

  lemma NextReply(r: Reply, rs: seq<Reply>)
    requires r.Bytes? && r.data != []
    ensures Ended([r] + rs) == Ended(rs) && Delivered([r] + rs) == r.data + Delivered(rs)
  {
  }

  lemma PageTaken(rs: seq<seq<byte>>, n: nat)
    requires n <= |rs|
    ensures Concat(rs) == Concat(rs[..n]) + Concat(rs[n..])
  {
    assert rs == rs[..n] + rs[n..];
    ConcatAppend(rs[..n], rs[n..]);
  }

  /** From a cached directory: pages until the records run out, then an empty reply. */
  lemma {:induction false} PagesDrain(cache: Cache, key: Key, listing: Option<Listing>, sizes: seq<nat>)
    requires key in cache && Roomy(cache[key], sizes)
    ensures var out := Replies(cache, key, listing, sizes);
            && (Ended(out) ==> Delivered(out) == Concat(cache[key]))
            && (|sizes| > |cache[key]| ==> Ended(out))
    decreases |sizes|
  {
    if sizes != [] {
      var rs := cache[key];
      if rs != [] {
        var n := Fits(rs, sizes[0]);
        FitsSome(rs, sizes[0]);
        var next := cache[key := rs[n..]];
        assert Roomy(next[key], sizes[1..]);
        PagesDrain(next, key, listing, sizes[1..]);
        NextReply(Bytes(Concat(rs[..n])), Replies(next, key, listing, sizes[1..]));
        PageTaken(rs, n);
      }
    }
  }

  /** Every record is non-empty and at most 280 bytes. */
  lemma {:induction false} RecordSizes(items: seq<Item>, first: nat, i: nat)
    requires i < |Records(items, first)|
    ensures 0 < |Records(items, first)[i]| <= 280 && |Records(items, first)[i]| % 8 == 0
  {
    if |items[0].name| > NAME_MAX {
      RecordSizes(items[1..], first + 1, i);
    } else if i == 0 {
      RecLenFits(|items[0].name|);
    } else {
      RecordSizes(items[1..], first + 1, i - 1);
    }
  }

  /** Buffers of 280 bytes hold any record of any directory. */
  lemma BigEnough(l: Listing, sizes: seq<nat>)
    requires forall j :: 0 <= j < |sizes| ==> sizes[j] >= 280
    ensures Roomy(AllRecords(l), sizes)
  {
    var rs := AllRecords(l);
    forall i | 0 <= i < |rs| ensures 0 < |rs[i]| <= 280 {
      RecordSizes(Sort(Names(l)), 1, i);
    }
  }

  /**
   A whole reading: with buffers that hold any record, the bytes delivered before the first
   empty reply are exactly all records in name order, the end comes after at most one call
   per record, and walking the bytes recovers the sorted listing.
   */
  lemma ReadsWholeDirectory(cache: Cache, key: Key, l: Listing, sizes: seq<nat>)
    requires key !in cache && Roomy(AllRecords(l), sizes)
    requires forall i :: 0 <= i < |l.items| ==> NoNul(l.items[i].name)
    requires |l.items| + 3 < 0x1_0000_0000_0000_0000
    ensures var out := Replies(cache, key, Some(l), sizes);
            && (Ended(out) ==>
                  Delivered(out) == Concat(AllRecords(l)) && Walk(Delivered(out)) == Entries(Sort(Names(l)), 1))
            && (|sizes| > |AllRecords(l)| ==> Ended(out))
    ensures Sorted(Sort(Names(l))) && multiset(Sort(Names(l))) == multiset(Names(l))
  {
    var cached := cache[key := AllRecords(l)];
    FirstCallCaches(cache, key, l, sizes);
    PagesDrain(cached, key, Some(l), sizes);
    SortSorts(Names(l));
    SortKeepsNames(l);
    WalkRecords(Sort(Names(l)), 1);
  }

  /** A reader is shown this name with this type and inode. */
  ghost predicate Shows(shown: seq<Entry>, name: seq<byte>, kind: byte, ino: u64) {
    exists e :: e in shown && e.name == name && e.kind == kind && e.ino == ino
  }

  lemma {:induction false} EntryShownIff(items: seq<Item>, first: nat, x: Item)
    ensures Shows(Entries(items, first), x.name, x.kind, x.ino) <==> |x.name| <= NAME_MAX && x in items
  {
    if items != [] {
      EntryShownIff(items[1..], first + 1, x);
      var y, rest := items[0], Entries(items[1..], first + 1);
      var e := Entry(y.ino, first, y.kind, y.name);
      assert items == [y] + items[1..];
      assert Entries(items, first) == if |y.name| > NAME_MAX then rest else [e] + rest;
      if y == x && |x.name| <= NAME_MAX {
        assert e in Entries(items, first);
      }
    }
  }

  lemma {:induction false} EntriesCount(items: seq<Item>, first: nat)
    ensures |Entries(items, first)| <= |items|
    ensures |Entries(items, first)| == |items| <==> forall x :: x in items ==> |x.name| <= NAME_MAX
  {
    if items != [] {
      EntriesCount(items[1..], first + 1);
      assert items == [items[0]] + items[1..];
    }
  }

  /** `e` is the entry of item `x`. */
  predicate Tells(e: Entry, x: Item) {
    e.name == x.name && e.kind == x.kind && e.ino == x.ino
  }

  lemma {:induction false} OnlyItemsShown(items: seq<Item>, first: nat, e: Entry) returns (x: Item)
    requires e in Entries(items, first)
    ensures x in items && Tells(e, x)
  {
    if |items[0].name| <= NAME_MAX && e == Entry(items[0].ino, first, items[0].kind, items[0].name) {
      x := items[0];
    } else {
      assert e in Entries(items[1..], first + 1);
      x := OnlyItemsShown(items[1..], first + 1, e);
    }
  }

  lemma SortedNames(l: Listing)
    ensures |Sort(Names(l))| == |l.items| + 2 && forall x :: x in Sort(Names(l)) <==> x in Names(l)
  {
    var sorted, names := Sort(Names(l)), Names(l);
    SortSorts(names);
    assert |multiset(sorted)| == |multiset(names)|;
    forall x ensures x in sorted <==> x in names {
      assert x in sorted <==> x in multiset(sorted);
    }
  }

  lemma NamesAre(l: Listing, x: Item)
    ensures x in Names(l) <==> x == Item([0x2E], 4, l.dot) || x == Item([0x2E, 0x2E], 4, l.dotdot) || x in l.items
  {
    assert DOT + DOT == [0x2E, 0x2E];
    assert Names(l)[0] == Item([0x2E], 4, l.dot) && Names(l)[1] == Item([0x2E, 0x2E], 4, l.dotdot);
    if x in l.items {
      var i :| 0 <= i < |l.items| && l.items[i] == x;
      assert Names(l)[i + 2] == x;
    }
  }

  /** A reader is shown an item of the listing, "." and ".." included, exactly when its name is at most 255 bytes. */
  lemma ShownIff(l: Listing, x: Item)
    requires x == Item([0x2E], 4, l.dot) || x == Item([0x2E, 0x2E], 4, l.dotdot) || x in l.items
    ensures Shows(Entries(Sort(Names(l)), 1), x.name, x.kind, x.ino) <==> |x.name| <= 255
  {
    SortedNames(l);
    NamesAre(l, x);
    EntryShownIff(Sort(Names(l)), 1, x);
  }

  /** And nothing else is shown. */
  lemma NothingElseShown(l: Listing, e: Entry) returns (x: Item)
    requires e in Entries(Sort(Names(l)), 1)
    ensures Tells(e, x) && (x == Item([0x2E], 4, l.dot) || x == Item([0x2E, 0x2E], 4, l.dotdot) || x in l.items)
  {
    x := OnlyItemsShown(Sort(Names(l)), 1, e);
    SortedNames(l);
    NamesAre(l, x);
  }

  /** So the listing is complete exactly when all names fit. */
  lemma ListingCompleteIff(l: Listing)
    ensures |Entries(Sort(Names(l)), 1)| == |l.items| + 2 <==> forall x :: x in l.items ==> |x.name| <= 255
  {
    var sorted := Sort(Names(l));
    SortedNames(l);
    EntriesCount(sorted, 1);
    forall x | x in sorted && |x.name| > 255 ensures x in l.items {
      NamesAre(l, x);
    }
    forall x | x in l.items ensures x in sorted {
      NamesAre(l, x);
    }
  }

  /** After the empty reply the directory is forgotten, and the next call reads it anew. */
  lemma EndStartsOver(cache: Cache, key: Key, l: Listing, size: nat, sizes: seq<nat>)
    requires key in cache && cache[key] == []
    ensures Replies(cache, key, Some(l), [size] + sizes) == [Bytes([])] + Replies(cache - {key}, key, Some(l), sizes)
    ensures key !in cache - {key}
  {
    assert ([size] + sizes)[1..] == sizes;
  }

  /** The first call behaves as if the listing had been cached before it. */
  lemma FirstCallCaches(cache: Cache, key: Key, l: Listing, sizes: seq<nat>)
    requires key !in cache
    ensures Replies(cache, key, Some(l), sizes) == Replies(cache[key := AllRecords(l)], key, Some(l), sizes)
  {
    if sizes != [] {
      var a, b := Serve(cache, key, sizes[0], Some(l)), Serve(cache[key := AllRecords(l)], key, sizes[0], Some(l));
      assert a.1 == b.1;
      assert a.0 == b.0;
    }
  }

  lemma SortKeepsNames(l: Listing)
    requires forall i :: 0 <= i < |l.items| ==> NoNul(l.items[i].name)
    ensures |Sort(Names(l))| == |l.items| + 2
    ensures forall i :: 0 <= i < |Sort(Names(l))| ==> NoNul(Sort(Names(l))[i].name)
  {
    var sorted, names := Sort(Names(l)), Names(l);
    SortSorts(names);
    assert |multiset(sorted)| == |multiset(names)|;
    forall i | 0 <= i < |sorted| ensures NoNul(sorted[i].name) {
      assert sorted[i] in multiset(names);
      assert sorted[i] in names;
    }
  }

  /** A call on one open directory leaves every other listing alone. */
  lemma OthersKept(cache: Cache, key: Key, size: nat, listing: Option<Listing>, other: Key)
    requires other != key
    ensures var after := Serve(cache, key, size, listing).0;
            (other in after <==> other in cache) && (other in cache ==> after[other] == cache[other])
  {
  }
}
