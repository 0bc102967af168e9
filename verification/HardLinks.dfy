/**
 Unpacking an image export: ordinary entries first, then hard links in rounds until every
 link is made or a full sweep makes none. The file system is the host's, addressed by
 absolute places; an archive path is a list of components that may hold "..", and the code
 only compares components, so a path it accepts can still lead out of the root.
 */
module HardLinks {

  import opened Prelude

  /** An absolute place, as components. */
  type Place = seq<string>

  /** A path of an archive as its components are read: "." is dropped unless a relative path starts with it. */
  datatype Raw = Raw(absolute: bool, comps: seq<string>)

  datatype Entry =
    | Node(path: Raw, isDir: bool)
    | Link(path: Raw, target: Option<Raw>)

  // ---- Where paths lead ----

  /** `rootfs.join(p)`: an absolute path replaces the root. */
  function Joined(root: Place, p: Raw): Place {
    if p.absolute then p.comps else root + p.comps
  }

  /** `starts_with(rootfs)`: components are compared one by one, and ".." is one of them. */
  predicate Under(root: Place, p: Raw) {
    root <= Joined(root, p)
  }

  /** One component of a walk through directories. */
  function Enter(at: Place, c: string): Place {
    if c == ".." then (if at == [] then [] else at[..|at| - 1]) else if c == "." then at else at + [c]
  }

  /** Where the kernel ends up: each ".." leaves a directory. */
  function Land(p: Place): Place {
    if p == [] then [] else Enter(Land(p[..|p| - 1]), p[|p| - 1])
  }

  /** The place a path names. */
  function Spot(root: Place, p: Raw): Place {
    Land(Joined(root, p))
  }

  predicate Inside(root: Place, at: Place) {
    root <= at
  }

  predicate Plain(p: Place) {
    forall i :: 0 <= i < |p| ==> p[i] != ".." && p[i] != "."
  }

  lemma {:induction false} LandPlain(p: Place)
    requires Plain(p)
    ensures Land(p) == p
  {
    if p != [] {
      var init, c := p[..|p| - 1], p[|p| - 1];
      LandPlain(init);
      assert c != ".." && c != ".";
      assert Enter(init, c) == init + [c] == p;
    }
  }

  /** A name followed by ".." leads back. */
  lemma NameThenUp(p: Place, name: string)
    requires name != ".." && name != "."
    ensures Land(p + [name] + [".."]) == Land(p) && Land(p + ["."]) == Land(p)
  {
    var q := p + [name];
    assert (q + [".."])[..|q|] == q && q[..|p|] == p && (p + ["."])[..|p|] == p;
    assert Land(q) == Land(p) + [name];
  }

  /** The text of the test and where the path leads differ only through dots. */
  lemma PlainStays(root: Place, p: Raw)
    requires Plain(root) && Plain(p.comps) && Under(root, p)
    ensures Inside(root, Spot(root, p))
  {
    LandPlain(Joined(root, p));
  }

  // ---- What an archive asks for ----

  /** What an unpack does to the file system. */
  datatype Act = Created(at: Place) | Linked(src: Place, dest: Place)

  predicate ActInside(root: Place, a: Act) {
    match a
    case Created(at) => Inside(root, at)
    case Linked(src, dest) => Inside(root, src) && Inside(root, dest)
  }

  /** An entry the unpack acts on: its path, and the target of a link, pass the test. */
  predicate Considered(root: Place, e: Entry) {
    Under(root, e.path) && (e.Link? ==> e.target.Some? && Under(root, e.target.value))
  }

  function ActOf(root: Place, e: Entry): Act
    requires Considered(root, e)
  {
    if e.Node? then Created(Spot(root, e.path)) else Linked(Spot(root, e.target.value), Spot(root, e.path))
  }

  /** No entry acted on climbs out of the root. */
  predicate NoClimb(root: Place, archive: seq<Entry>) {
    forall i :: 0 <= i < |archive| && Considered(root, archive[i]) ==> ActInside(root, ActOf(root, archive[i]))
  }

  predicate Contained(root: Place, log: seq<Act>) {
    forall i :: 0 <= i < |log| ==> ActInside(root, log[i])
  }

  /** Some entry asks for this act. */
  ghost predicate AskedFor(root: Place, archive: seq<Entry>, a: Act) {
    exists i :: 0 <= i < |archive| && Considered(root, archive[i]) && ActOf(root, archive[i]) == a
  }

  /** `log` holds acts of the archive only, and all but those of the links in `due`. */
  ghost predicate Traced(root: Place, archive: seq<Entry>, log: seq<Act>, due: set<Raw>) {
    && (forall a :: a in log ==> AskedFor(root, archive, a))
    && (forall i :: 0 <= i < |archive| && Considered(root, archive[i])
                    && !(archive[i].Link? && archive[i].path in due) ==>
                      ActOf(root, archive[i]) in log)
  }

  /** With nothing due, the acts stay inside the root exactly when no entry climbs. */
  lemma TracedContained(root: Place, archive: seq<Entry>, log: seq<Act>, due: set<Raw>)
    requires Traced(root, archive, log, due)
    ensures NoClimb(root, archive) ==> Contained(root, log)
    ensures due == {} && Contained(root, log) ==> NoClimb(root, archive)
    ensures Contained(root, log) ==>
              forall e :: e in archive && e.Node? && Under(root, e.path) ==> Inside(root, Spot(root, e.path))
  {
    if Contained(root, log) {
      forall e | e in archive && e.Node? && Under(root, e.path) ensures Inside(root, Spot(root, e.path)) {
        var i :| 0 <= i < |archive| && archive[i] == e;
        var k :| 0 <= k < |log| && log[k] == ActOf(root, archive[i]);
      }
    }
    if NoClimb(root, archive) {
      forall k | 0 <= k < |log| ensures ActInside(root, log[k]) {
        assert log[k] in log;
        var i :| 0 <= i < |archive| && Considered(root, archive[i]) && ActOf(root, archive[i]) == log[k];
      }
    }
    if due == {} && Contained(root, log) {
      forall i | 0 <= i < |archive| && Considered(root, archive[i]) ensures ActInside(root, ActOf(root, archive[i])) {
        var k :| 0 <= k < |log| && log[k] == ActOf(root, archive[i]);
      }
    }
  }

  // ---- The archive as a table of places ----

  /** What an entry puts at its place: something new, a link, or a link whose target fails the test. */
  datatype Item = Made(isDir: bool) | Named(target: Option<Place>) | Escapes

  function ItemOf(root: Place, e: Entry): Item {
    match e
    case Node(_, isDir) => Made(isDir)
    case Link(_, target) =>
      if target.None? then Named(None)
      else if Under(root, target.value) then Named(Some(Spot(root, target.value)))
      else Escapes
  }

  function At(root: Place, e: Entry): Place {
    Spot(root, e.path)
  }

  function Table(root: Place, archive: seq<Entry>): map<Place, Item> {
    if archive == [] then map[]
    else
      var e, t := archive[|archive| - 1], Table(root, archive[..|archive| - 1]);
      if Under(root, e.path) then t[At(root, e) := ItemOf(root, e)] else t
  }

  /** No two entries name the same place. */
  predicate Distinct(root: Place, archive: seq<Entry>) {
    forall i, j :: 0 <= i < j < |archive| && Under(root, archive[i].path) && Under(root, archive[j].path) ==>
                   At(root, archive[i]) != At(root, archive[j])
  }

  /** Entry `i` passes the test and is what the table has at `p`. */
  ghost predicate Puts(root: Place, archive: seq<Entry>, i: int, p: Place, x: Item) {
    0 <= i < |archive| && Under(root, archive[i].path) && At(root, archive[i]) == p && ItemOf(root, archive[i]) == x
  }

  lemma DistinctPrefix(root: Place, archive: seq<Entry>, n: nat)
    requires Distinct(root, archive) && n <= |archive|
    ensures Distinct(root, archive[..n])
  {
    var init := archive[..n];
    forall i, j | 0 <= i < j < |init| && Under(root, init[i].path) && Under(root, init[j].path)
      ensures At(root, init[i]) != At(root, init[j])
    {
      assert init[i] == archive[i] && init[j] == archive[j];
    }
  }

  lemma TableHolds(root: Place, archive: seq<Entry>, i: nat)
    requires Distinct(root, archive) && i < |archive| && Under(root, archive[i].path)
    ensures var p := At(root, archive[i]);
            p in Table(root, archive) && Table(root, archive)[p] == ItemOf(root, archive[i])
  {
    TableHoldsAt(root, archive, i, At(root, archive[i]), ItemOf(root, archive[i]));
  }

  lemma {:induction false} TableHoldsAt(root: Place, archive: seq<Entry>, i: nat, p: Place, x: Item)
    requires Distinct(root, archive) && Puts(root, archive, i, p, x)
    ensures p in Table(root, archive) && Table(root, archive)[p] == x
    decreases |archive|
  {
    var n := |archive| - 1;
    if i < n {
      var init, e := archive[..n], archive[n];
      DistinctPrefix(root, archive, n);
      assert init[i] == archive[i];
      assert Under(root, e.path) ==> At(root, e) != p;
      TableHoldsAt(root, init, i, p, x);
    }
  }

  lemma {:induction false} TableFrom(root: Place, archive: seq<Entry>, p: Place) returns (i: int)
    requires p in Table(root, archive)
    ensures Puts(root, archive, i, p, Table(root, archive)[p])
  {
    var n := |archive| - 1;
    if Under(root, archive[n].path) && p == At(root, archive[n]) {
      i := n;
    } else {
      i := TableFrom(root, archive[..n], p);
    }
  }

  lemma TableHas(root: Place, archive: seq<Entry>)
    requires Distinct(root, archive)
    ensures forall i :: 0 <= i < |archive| && Under(root, archive[i].path) ==>
                        At(root, archive[i]) in Table(root, archive)
                        && Table(root, archive)[At(root, archive[i])] == ItemOf(root, archive[i])
    ensures forall p :: p in Table(root, archive) ==> exists i :: Puts(root, archive, i, p, Table(root, archive)[p])
  {
    forall i | 0 <= i < |archive| && Under(root, archive[i].path)
      ensures At(root, archive[i]) in Table(root, archive)
              && Table(root, archive)[At(root, archive[i])] == ItemOf(root, archive[i])
    {
      TableHolds(root, archive, i);
    }
    forall p | p in Table(root, archive) ensures exists i :: Puts(root, archive, i, p, Table(root, archive)[p]) {
      var i := TableFrom(root, archive, p);
    }
  }

  // ---- What a link means ----

  /** An inode: made by the entry at `origin`, or there before. */
  datatype Inode = Fresh(origin: Place, isDir: bool) | Given(id: int, isDir: bool)

  type Files = map<Place, Inode>

  /** `fs::hard_link` finds a file to link. */
  predicate Linkable(fs: Files, src: Place) {
    src in fs && !fs[src].isDir
  }

  /** The file reached from `p` by following at most `n` links: one the archive makes, or one the host has. */
  function Chain(t: map<Place, Item>, host: Files, p: Place, n: nat): Option<Place>
    decreases n
  {
    if p !in t then (if Linkable(host, p) then Some(p) else None)
    else
      match t[p]
      case Made(isDir) => if isDir then None else Some(p)
      case Named(target) => if n == 0 || target.None? then None else Chain(t, host, target.value, n - 1)
      case Escapes => None
  }

  ghost predicate Resolves(t: map<Place, Item>, host: Files, p: Place) {
    exists n: nat :: Chain(t, host, p, n).Some?
  }

  lemma {:induction false} ChainMonotone(t: map<Place, Item>, host: Files, p: Place, n: nat, m: nat)
    requires n <= m && Chain(t, host, p, n).Some?
    ensures Chain(t, host, p, m) == Chain(t, host, p, n)
    decreases n
  {
    if p in t && t[p].Named? {
      ChainMonotone(t, host, t[p].target.value, n - 1, m - 1);
    }
  }

  /** Following links from `p` ends at the file `x`. */
  ghost predicate LeadsTo(t: map<Place, Item>, host: Files, p: Place, x: Place) {
    exists n: nat :: Chain(t, host, p, n) == Some(x)
  }

  lemma LeadsToUnique(t: map<Place, Item>, host: Files, p: Place, x: Place, y: Place)
    requires LeadsTo(t, host, p, x) && LeadsTo(t, host, p, y)
    ensures x == y
  {
    var n: nat :| Chain(t, host, p, n) == Some(x);
    var m: nat :| Chain(t, host, p, m) == Some(y);
    ChainMonotone(t, host, p, n, n + m);
    ChainMonotone(t, host, p, m, n + m);
  }

  /** The file at the end of a chain. */
  predicate IsFile(t: map<Place, Item>, host: Files, x: Place, ino: Inode) {
    !ino.isDir && if x in t then ino == Fresh(x, false) else x in host && ino == host[x]
  }

  /** The inode the entry at `p` should have. */
  ghost predicate Right(t: map<Place, Item>, host: Files, p: Place, ino: Inode)
    requires p in t
  {
    if t[p].Made? then ino == Fresh(p, t[p].isDir) else exists x :: LeadsTo(t, host, p, x) && IsFile(t, host, x, ino)
  }

  /** The links of an archive. */
  function Links(t: map<Place, Item>): set<Place> {
    set p | p in t && !t[p].Made?
  }

  /** The links whose target fails the test. */
  function Escaping(t: map<Place, Item>): set<Place> {
    set p | p in t && t[p].Escapes?
  }

  predicate SameAt(p: Place, fs: Files, fs': Files) {
    (p in fs <==> p in fs') && (p in fs ==> fs[p] == fs'[p])
  }

  /** Places no entry names hold what the host had there. */
  ghost predicate Elsewhere(t: map<Place, Item>, host: Files, fs: Files) {
    forall p :: p !in t ==> SameAt(p, fs, host)
  }

  /**
   What an unpack may answer when no link's place is taken on the host. Links whose target
   fails the test are skipped, but a sweep with nothing else to make fails. So it succeeds
   exactly when every other link's chain ends at a file and there is such a link if there is
   any link at all; each made link has its file's inode, the links reported are exactly the
   others that lead nowhere, and the rest of the host is untouched.
   */
  ghost predicate Answer(t: map<Place, Item>, host: Files, ok: bool, fs: Files, unresolved: set<Place>) {
    && (ok <==> && (forall p :: p in Links(t) - Escaping(t) ==> Resolves(t, host, p))
                && (Links(t) != {} ==> Links(t) != Escaping(t)))
    && (ok ==> forall p :: p in t ==> (p in fs <==> p !in Escaping(t)))
    && (forall p :: p in t && p in fs ==> Right(t, host, p, fs[p]))
    && (forall p :: p in unresolved <==> p in Links(t) - Escaping(t) && !Resolves(t, host, p))
    && Elsewhere(t, host, fs)
  }

  /** With every target passing the test: success exactly when every chain ends at a file. */
  lemma AnswerNoEscape(t: map<Place, Item>, host: Files, ok: bool, fs: Files, unresolved: set<Place>)
    requires Answer(t, host, ok, fs, unresolved) && Escaping(t) == {}
    ensures ok <==> forall p :: p in t && !t[p].Made? ==> Resolves(t, host, p)
    ensures ok ==> forall p :: p in t ==> p in fs
  {
    assert forall p :: p in t && !t[p].Made? ==> p in Links(t) - Escaping(t);
  }

  /** The answer depends only on what the archive contains, not on the order it lists it in. */
  lemma AnswerUnique(t: map<Place, Item>, host: Files, ok: bool, fs: Files, u: set<Place>, ok': bool, fs': Files,
                     u': set<Place>)
    requires Answer(t, host, ok, fs, u) && Answer(t, host, ok', fs', u')
    ensures ok == ok' && u == u' && (ok ==> fs == fs')
  {
    if ok {
      forall p | p in fs ensures p in fs' && fs[p] == fs'[p] {
        if p in t && !t[p].Made? {
          var x :| LeadsTo(t, host, p, x) && IsFile(t, host, x, fs[p]);
          var y :| LeadsTo(t, host, p, y) && IsFile(t, host, y, fs'[p]);
          LeadsToUnique(t, host, p, x, y);
        }
      }
      assert forall p :: p in fs' ==> p in fs;
    }
  }

  lemma TableOrderFree(root: Place, a: seq<Entry>, b: seq<Entry>)
    requires Distinct(root, a) && Distinct(root, b) && multiset(a) == multiset(b)
    ensures Table(root, a) == Table(root, b)
  {
    TableWithin(root, a, b);
    TableWithin(root, b, a);
  }

  lemma TableWithin(root: Place, a: seq<Entry>, b: seq<Entry>)
    requires Distinct(root, a) && Distinct(root, b) && multiset(a) == multiset(b)
    ensures forall p :: p in Table(root, a) ==> p in Table(root, b) && Table(root, b)[p] == Table(root, a)[p]
  {
    TableHas(root, a);
    TableHas(root, b);
    forall p | p in Table(root, a) ensures p in Table(root, b) && Table(root, b)[p] == Table(root, a)[p] {
      var i :| Puts(root, a, i, p, Table(root, a)[p]);
      assert a[i] in multiset(a);
      var j :| 0 <= j < |b| && b[j] == a[i];
      assert At(root, b[j]) in Table(root, b);
    }
  }

  // ---- The state between rounds ----

  function Elems<T>(s: seq<T>): set<T> {
    set p | p in s
  }

  /** The host has nothing at the place of a link. */
  ghost predicate Vacant(t: map<Place, Item>, host: Files) {
    forall p :: p in t && !t[p].Made? ==> p !in host
  }

  /** A fresh root is vacant for every archive whose links lie below it. */
  lemma FreshVacant(root: Place, archive: seq<Entry>, host: Files)
    requires forall p :: p in host ==> !(root < p)
    requires forall i :: 0 <= i < |archive| && archive[i].Link? && Under(root, archive[i].path) ==>
               root < At(root, archive[i])
    ensures Vacant(Table(root, archive), host)
  {
    var t := Table(root, archive);
    forall p | p in t && !t[p].Made? ensures p !in host {
      var i := TableFrom(root, archive, p);
    }
  }

  /** Everything unpacked so far is right, exactly the links in `todo` are missing, and the rest is as it was. */
  ghost predicate Progress(t: map<Place, Item>, host: Files, fs: Files, todo: set<Place>) {
    && (forall p :: p in t ==> (p in fs <==> p !in todo))
    && (forall p :: p in t && p in fs ==> Right(t, host, p, fs[p]))
    && (forall p :: p in todo ==> p in t && !t[p].Made?)
    && Elsewhere(t, host, fs)
  }

  lemma LinkFollowsTarget(t: map<Place, Item>, host: Files, fs: Files, todo: set<Place>, p: Place, src: Place)
    requires Progress(t, host, fs, todo) && p in todo && t[p] == Named(Some(src)) && Linkable(fs, src)
    ensures Progress(t, host, fs[p := fs[src]], todo - {p})
  {
    assert exists x :: LeadsTo(t, host, p, x) && IsFile(t, host, x, fs[src]) by {
      if src in t && !t[src].Made? {
        var x :| LeadsTo(t, host, src, x) && IsFile(t, host, x, fs[src]);
        var n: nat :| Chain(t, host, src, n) == Some(x);
        assert Chain(t, host, p, n + 1) == Some(x);
        assert LeadsTo(t, host, p, x);
      } else {
        assert Chain(t, host, p, 1) == Some(src);
        assert LeadsTo(t, host, p, src) && IsFile(t, host, src, fs[src]);
      }
    }
  }

  /** None of these links can be made from what is there. */
  ghost predicate Stuck(t: map<Place, Item>, fs: Files, links: set<Place>) {
    forall q :: q in links && q in t && t[q].Named? && t[q].target.Some? ==> !Linkable(fs, t[q].target.value)
  }

  /** A sweep that could make no link proves that every remaining chain is broken. */
  lemma {:induction false} StuckNeverResolves(t: map<Place, Item>, host: Files, fs: Files, todo: set<Place>, p: Place,
                                              n: nat)
    requires Progress(t, host, fs, todo) && p in todo && Stuck(t, fs, todo)
    ensures Chain(t, host, p, n).None?
    decreases n
  {
    if n > 0 && t[p].Named? && t[p].target.Some? {
      var q := t[p].target.value;
      if q in todo {
        StuckNeverResolves(t, host, fs, todo, q, n - 1);
      } else {
        assert !Linkable(fs, q);
      }
    }
  }

  lemma MadeLinksResolve(t: map<Place, Item>, host: Files, fs: Files, todo: set<Place>)
    requires Progress(t, host, fs, todo)
    ensures forall p :: p in t && !t[p].Made? && p !in todo ==> Resolves(t, host, p)
  {
    forall p | p in t && !t[p].Made? && p !in todo ensures Resolves(t, host, p) {
      var x :| LeadsTo(t, host, p, x) && IsFile(t, host, x, fs[p]);
      var n: nat :| Chain(t, host, p, n) == Some(x);
    }
  }

  // ---- Pass 1 ----

  /** The paths of the links that pass the test. */
  function LinkPaths(root: Place, archive: seq<Entry>): set<Raw> {
    set i | 0 <= i < |archive| && archive[i].Link? && Under(root, archive[i].path) :: archive[i].path
  }

  /** One entry of pass 1. */
  function Unpacked(root: Place, fs: Files, e: Entry): Files {
    if e.Node? && Under(root, e.path) then fs[At(root, e) := Fresh(At(root, e), e.isDir)] else fs
  }

  /** The files after the ordinary entries. */
  function Nodes(root: Place, archive: seq<Entry>, host: Files): Files {
    if archive == [] then host else Unpacked(root, Nodes(root, archive[..|archive| - 1], host), archive[|archive| - 1])
  }

  lemma UnpackedElsewhere(root: Place, fs: Files, e: Entry, p: Place)
    requires e.Node? && Under(root, e.path) ==> At(root, e) != p
    ensures SameAt(p, Unpacked(root, fs, e), fs)
  {
  }

  /** Whatever ordinary entries did not touch is as it was. */
  lemma {:induction false} NodesElsewhere(root: Place, archive: seq<Entry>, host: Files, p: Place)
    requires forall i :: 0 <= i < |archive| && archive[i].Node? && Under(root, archive[i].path) ==>
               At(root, archive[i]) != p
    ensures SameAt(p, Nodes(root, archive, host), host)
  {
    if archive != [] {
      var n := |archive| - 1;
      NodesElsewhere(root, archive[..n], host, p);
      UnpackedElsewhere(root, Nodes(root, archive[..n], host), archive[n], p);
    }
  }

  lemma {:induction false} NodesMade(root: Place, archive: seq<Entry>, host: Files, i: nat, p: Place, isDir: bool)
    requires Distinct(root, archive) && Puts(root, archive, i, p, Made(isDir))
    ensures var fs := Nodes(root, archive, host); p in fs && fs[p] == Fresh(p, isDir)
    decreases |archive|
  {
    var n := |archive| - 1;
    var init, e := archive[..n], archive[n];
    if i < n {
      DistinctPrefix(root, archive, n);
      assert init[i] == archive[i];
      NodesMade(root, init, host, i, p, isDir);
      UnpackedElsewhere(root, Nodes(root, init, host), e, p);
    }
  }

  lemma NodesProgress(root: Place, archive: seq<Entry>, host: Files)
    requires Distinct(root, archive) && Vacant(Table(root, archive), host)
    ensures Progress(Table(root, archive), host, Nodes(root, archive, host), Links(Table(root, archive)))
  {
    var t, fs := Table(root, archive), Nodes(root, archive, host);
    forall p | p !in t || !t[p].Made? ensures SameAt(p, fs, host) {
      forall i | 0 <= i < |archive| && archive[i].Node? && Under(root, archive[i].path)
        ensures At(root, archive[i]) != p
      {
        TableHolds(root, archive, i);
      }
      NodesElsewhere(root, archive, host, p);
    }
    forall p | p in t && t[p].Made? ensures p in fs && fs[p] == Fresh(p, t[p].isDir) {
      var i := TableFrom(root, archive, p);
      NodesMade(root, archive, host, i, p, t[p].isDir);
    }
  }

  /** The links put off, and the acts of the ordinary entries, in archive order. */
  function Deferred(root: Place, archive: seq<Entry>): seq<Raw> {
    if archive == [] then []
    else
      var e, rest := archive[|archive| - 1], Deferred(root, archive[..|archive| - 1]);
      if e.Link? && Under(root, e.path) then rest + [e.path] else rest
  }

  function NodeActs(root: Place, archive: seq<Entry>): seq<Act> {
    if archive == [] then []
    else
      var e, rest := archive[|archive| - 1], NodeActs(root, archive[..|archive| - 1]);
      if e.Node? && Under(root, e.path) then rest + [Created(At(root, e))] else rest
  }

  lemma LinkPathsSnoc(root: Place, archive: seq<Entry>, more: set<Raw>)
    requires archive != []
    requires var e := archive[|archive| - 1]; more == if e.Link? && Under(root, e.path) then {e.path} else {}
    ensures LinkPaths(root, archive) == LinkPaths(root, archive[..|archive| - 1]) + more
  {
    var n := |archive| - 1;
    var init := archive[..n];
    forall p | p in LinkPaths(root, archive) ensures p in LinkPaths(root, init) + more {
      var i :| 0 <= i < |archive| && archive[i].Link? && Under(root, archive[i].path) && archive[i].path == p;
      if i < n {
        assert init[i] == archive[i];
      }
    }
    forall p | p in LinkPaths(root, init) ensures p in LinkPaths(root, archive) {
      var i :| 0 <= i < n && init[i].Link? && Under(root, init[i].path) && init[i].path == p;
      assert init[i] == archive[i];
    }
  }

  lemma {:induction false} DeferredLinks(root: Place, archive: seq<Entry>)
    ensures Elems(Deferred(root, archive)) == LinkPaths(root, archive)
  {
    if archive != [] {
      var n := |archive| - 1;
      var e, init := archive[n], archive[..n];
      DeferredLinks(root, init);
      var more := if e.Link? && Under(root, e.path) then {e.path} else {};
      assert Elems(Deferred(root, archive)) == Elems(Deferred(root, init)) + more;
      LinkPathsSnoc(root, archive, more);
    }
  }

  lemma {:induction false} NodeActsFrom(root: Place, archive: seq<Entry>, a: Act) returns (i: int)
    requires a in NodeActs(root, archive)
    ensures 0 <= i < |archive| && Considered(root, archive[i]) && ActOf(root, archive[i]) == a
  {
    var n := |archive| - 1;
    if a in NodeActs(root, archive[..n]) {
      i := NodeActsFrom(root, archive[..n], a);
    } else {
      i := n;
    }
  }

  lemma {:induction false} NodeActsHave(root: Place, archive: seq<Entry>, i: nat)
    requires i < |archive| && archive[i].Node? && Under(root, archive[i].path)
    ensures Created(At(root, archive[i])) in NodeActs(root, archive)
    decreases |archive|
  {
    var n := |archive| - 1;
    if i < n {
      assert archive[..n][i] == archive[i];
      NodeActsHave(root, archive[..n], i);
    }
  }

  lemma NodesTraced(root: Place, archive: seq<Entry>)
    ensures Traced(root, archive, NodeActs(root, archive), LinkPaths(root, archive))
  {
    forall a | a in NodeActs(root, archive)
      ensures AskedFor(root, archive, a)
    {
      var i := NodeActsFrom(root, archive, a);
    }
    forall i | 0 <= i < |archive| && Considered(root, archive[i])
               && !(archive[i].Link? && archive[i].path in LinkPaths(root, archive))
      ensures ActOf(root, archive[i]) in NodeActs(root, archive)
    {
      NodeActsHave(root, archive, i);
    }
  }

  /** Pass 1: every entry that passes the test and is not a hard link. */
  method UnpackNodes(root: Place, archive: seq<Entry>, host: Files)
    returns (fs: Files, deferred: seq<Raw>, log: seq<Act>)
    ensures fs == Nodes(root, archive, host) && deferred == Deferred(root, archive)
    ensures Elems(deferred) == LinkPaths(root, archive) && Traced(root, archive, log, Elems(deferred))
    ensures Distinct(root, archive) && Vacant(Table(root, archive), host) ==>
              Progress(Table(root, archive), host, fs, Links(Table(root, archive)))
  {
    fs, deferred, log := host, [], [];
    for i := 0 to |archive|
      invariant fs == Nodes(root, archive[..i], host)
      invariant deferred == Deferred(root, archive[..i]) && log == NodeActs(root, archive[..i])
    {
      var e := archive[i];
      assert archive[..i + 1][..i] == archive[..i];
      if !Under(root, e.path) {
        continue;
      }
      if e.Link? {
        deferred := deferred + [e.path];
      } else {
        fs := fs[Spot(root, e.path) := Fresh(Spot(root, e.path), e.isDir)];
        log := log + [Created(Spot(root, e.path))];
      }
    }
    assert archive[..|archive|] == archive;
    DeferredLinks(root, archive);
    NodesTraced(root, archive);
    if Distinct(root, archive) && Vacant(Table(root, archive), host) {
      NodesProgress(root, archive, host);
    }
  }

  // ---- One round ----

  function Places(root: Place, rs: seq<Raw>): set<Place> {
    set r | r in rs :: Spot(root, r)
  }

  lemma PlacesSnoc(root: Place, rs: seq<Raw>, r: Raw)
    ensures Places(root, rs + [r]) == Places(root, rs) + {Spot(root, r)}
  {
  }

  /** Among paths of the archive's links, the place tells the path. */
  lemma SamePlace(root: Place, archive: seq<Entry>, rs: seq<Raw>, i: nat)
    requires Distinct(root, archive) && Elems(rs) <= LinkPaths(root, archive)
    requires i < |archive| && archive[i].Link? && Under(root, archive[i].path)
    ensures At(root, archive[i]) in Places(root, rs) <==> archive[i].path in rs
  {
    if At(root, archive[i]) in Places(root, rs) {
      var r :| r in rs && Spot(root, r) == At(root, archive[i]);
      assert r in Elems(rs);
      var j :| 0 <= j < |archive| && archive[j].Link? && Under(root, archive[j].path) && archive[j].path == r;
      assert i == j;
    }
  }

  /** The acts of a sweep so far: entries before `i` have been looked at. */
  ghost predicate Swept(root: Place, archive: seq<Entry>, i: nat, log: seq<Act>, targets: set<Raw>,
                        remaining: seq<Raw>, made: bool)
  {
    && (forall a :: a in log ==> AskedFor(root, archive, a))
    && Logged(root, archive, i, log, targets, remaining)
    && Waiting(root, archive, i, targets, remaining, made)
  }

  ghost predicate Logged(root: Place, archive: seq<Entry>, i: nat, log: seq<Act>, targets: set<Raw>,
                         remaining: seq<Raw>)
  {
    forall j :: 0 <= j < |archive| && Considered(root, archive[j])
                && !Awaited(archive[j], j < i, targets, remaining) ==>
                  ActOf(root, archive[j]) in log
  }

  /** A link not looked at yet, or kept. */
  predicate Awaited(e: Entry, seen: bool, targets: set<Raw>, remaining: seq<Raw>) {
    e.Link? && e.path in targets && (!seen || e.path in remaining)
  }

  ghost predicate Waiting(root: Place, archive: seq<Entry>, i: nat, targets: set<Raw>, remaining: seq<Raw>,
                          made: bool)
  {
    && Elems(remaining) <= targets
    && (forall j :: i <= j < |archive| && Under(root, archive[j].path) ==> archive[j].path !in remaining)
    && (made ==>
          exists j :: 0 <= j < i <= |archive| && Under(root, archive[j].path)
                      && archive[j].path in targets && archive[j].path !in remaining)
  }

  /** An entry that is no target, or whose target fails the test, is passed over. */
  lemma SweptPasses(root: Place, archive: seq<Entry>, i: nat, log: seq<Act>, targets: set<Raw>, remaining: seq<Raw>,
                    made: bool)
    requires i < |archive| && Swept(root, archive, i, log, targets, remaining, made)
    requires archive[i].Node? || archive[i].path !in targets || !Considered(root, archive[i])
    ensures Swept(root, archive, i + 1, log, targets, remaining, made)
  {
  }

  /** A link that cannot be made is kept. */
  lemma SweptKeeps(root: Place, archive: seq<Entry>, i: nat, log: seq<Act>, targets: set<Raw>, remaining: seq<Raw>,
                   made: bool)
    requires Distinct(root, archive) && i < |archive| && Swept(root, archive, i, log, targets, remaining, made)
    requires archive[i].Link? && Under(root, archive[i].path) && archive[i].path in targets
    ensures Swept(root, archive, i + 1, log, targets, remaining + [archive[i].path], made)
  {
    WaitingKeeps(root, archive, i, targets, remaining, made);
  }

  lemma WaitingKeeps(root: Place, archive: seq<Entry>, i: nat, targets: set<Raw>, remaining: seq<Raw>, made: bool)
    requires Distinct(root, archive) && i < |archive| && Waiting(root, archive, i, targets, remaining, made)
    requires archive[i].Link? && Under(root, archive[i].path) && archive[i].path in targets
    ensures Waiting(root, archive, i + 1, targets, remaining + [archive[i].path], made)
  {
    var after := remaining + [archive[i].path];
    assert Elems(after) == Elems(remaining) + {archive[i].path};
    forall j | i + 1 <= j < |archive| && Under(root, archive[j].path) ensures archive[j].path !in after {
      assert At(root, archive[i]) != At(root, archive[j]);
    }
    if made {
      var j :| 0 <= j < i && Under(root, archive[j].path) && archive[j].path in targets
               && archive[j].path !in remaining;
      assert At(root, archive[j]) != At(root, archive[i]);
      assert archive[j].path !in after;
    }
  }

  /** A link that is made is logged. */
  lemma SweptMakes(root: Place, archive: seq<Entry>, i: nat, log: seq<Act>, targets: set<Raw>, remaining: seq<Raw>,
                   made: bool, act: Act)
    requires i < |archive| && Swept(root, archive, i, log, targets, remaining, made)
    requires archive[i].Link? && Considered(root, archive[i]) && archive[i].path in targets
             && act == ActOf(root, archive[i])
    ensures Swept(root, archive, i + 1, log + [act], targets, remaining, true)
  {
    assert act in log + [act] && AskedFor(root, archive, act);
    WaitingMakes(root, archive, i, targets, remaining, made);
    LoggedMakes(root, archive, i, log, targets, remaining, act);
  }

  lemma LoggedMakes(root: Place, archive: seq<Entry>, i: nat, log: seq<Act>, targets: set<Raw>, remaining: seq<Raw>,
                    act: Act)
    requires i < |archive| && Logged(root, archive, i, log, targets, remaining)
    requires Considered(root, archive[i]) && act == ActOf(root, archive[i])
    ensures Logged(root, archive, i + 1, log + [act], targets, remaining)
  {
  }

  lemma WaitingMakes(root: Place, archive: seq<Entry>, i: nat, targets: set<Raw>, remaining: seq<Raw>, made: bool)
    requires i < |archive| && Waiting(root, archive, i, targets, remaining, made)
    requires Under(root, archive[i].path) && archive[i].path in targets
    ensures Waiting(root, archive, i + 1, targets, remaining, true) && archive[i].path !in remaining
  {
    assert archive[i].path !in remaining;
  }

  /** The end of a sweep: what it traced, and that it shrank the list if it made a link. */
  lemma SweptEnds(root: Place, archive: seq<Entry>, log: seq<Act>, targets: set<Raw>, remaining: seq<Raw>, made: bool)
    requires Swept(root, archive, |archive|, log, targets, remaining, made)
    ensures Traced(root, archive, log, Elems(remaining)) && Elems(remaining) <= targets
    ensures made ==> Elems(remaining) < targets
  {
  }

  /** The links a sweep has to make, by place, and what earlier sweeps dropped. */
  datatype Sweep = Sweep(t: map<Place, Item>, host: Files, targets: set<Place>, lost: set<Place>, esc: set<Place>)

  /** Entries before `i` have been looked at: what is still due is in `left`. */
  ghost predicate Seen(root: Place, archive: seq<Entry>, i: nat, due: set<Place>, left: set<Place>) {
    && (forall j :: 0 <= j < i <= |archive| && archive[j].Link? && Under(root, archive[j].path)
                    && At(root, archive[j]) in due ==>
          At(root, archive[j]) in left)
    && (forall j :: i <= j < |archive| && Under(root, archive[j].path) ==> At(root, archive[j]) !in left)
  }

  ghost predicate Ahead(root: Place, archive: seq<Entry>, i: nat, targets: set<Place>, todo: set<Place>) {
    forall j :: i <= j < |archive| && Under(root, archive[j].path) && At(root, archive[j]) in targets ==>
      At(root, archive[j]) in todo
  }

  /** The books of a sweep: `todo` are the links still missing. */
  ghost predicate Tally(w: Sweep, todo: set<Place>, fs: Files, left: set<Place>, made: bool) {
    && Progress(w.t, w.host, fs, todo) && todo <= w.targets + w.lost && w.lost + w.targets * w.esc <= todo
    && left <= w.targets * todo - w.esc
    && if made then exists x :: x in w.targets - w.esc && x !in todo
       else todo == w.targets + w.lost && Stuck(w.t, fs, left)
  }

  lemma SeenKeeps(root: Place, archive: seq<Entry>, i: nat, due: set<Place>, left: set<Place>)
    requires Distinct(root, archive) && i < |archive| && Under(root, archive[i].path)
             && Seen(root, archive, i, due, left)
    ensures Seen(root, archive, i + 1, due, left + {At(root, archive[i])})
  {
  }

  lemma SeenPasses(root: Place, archive: seq<Entry>, i: nat, due: set<Place>, left: set<Place>, less: set<Place>)
    requires i < |archive| && Seen(root, archive, i, due, left) && less <= due
    requires archive[i].Link? && Under(root, archive[i].path) ==> At(root, archive[i]) !in less
    ensures Seen(root, archive, i + 1, less, left)
  {
  }

  lemma AheadMakes(root: Place, archive: seq<Entry>, i: nat, targets: set<Place>, todo: set<Place>)
    requires Distinct(root, archive) && i < |archive| && Under(root, archive[i].path)
             && Ahead(root, archive, i, targets, todo)
    ensures Ahead(root, archive, i + 1, targets, todo - {At(root, archive[i])})
  {
  }

  /** A link that cannot be made yet is kept for the next sweep. */
  lemma TallyKeeps(w: Sweep, todo: set<Place>, fs: Files, left: set<Place>, made: bool, p: Place)
    requires Tally(w, todo, fs, left, made) && p in w.targets * todo - w.esc
    requires p in w.t && w.t[p].Named? && (w.t[p].target.Some? ==> !Linkable(fs, w.t[p].target.value))
    ensures Tally(w, todo, fs, left + {p}, made)
  {
  }

  /** A link whose target is there is made. */
  lemma TallyMakes(w: Sweep, todo: set<Place>, fs: Files, left: set<Place>, made: bool, p: Place, src: Place)
    requires Tally(w, todo, fs, left, made) && p in w.targets * todo - w.esc && p !in w.lost && p !in left
    requires p in w.t && w.t[p] == Named(Some(src)) && Linkable(fs, src)
    ensures Tally(w, todo - {p}, fs[p := fs[src]], left, true)
  {
    LinkFollowsTarget(w.t, w.host, fs, todo, p, src);
    assert p in w.targets - w.esc && p !in todo - {p};
  }

  lemma TallyEnds(root: Place, archive: seq<Entry>, w: Sweep, todo: set<Place>, fs: Files, left: set<Place>, made: bool)
    requires w.t == Table(root, archive) && w.lost <= w.esc
    requires Tally(w, todo, fs, left, made) && Seen(root, archive, |archive|, w.targets * todo - w.esc, left)
    ensures todo == left + (w.lost + w.targets * w.esc)
    ensures made ==> exists x :: x in w.targets - w.esc && x !in left
    ensures !made ==> left == w.targets - w.esc
  {
    forall p | p in w.targets * todo - w.esc ensures p in left {
      var j := TableFrom(root, archive, p);
    }
    if made {
      var x :| x in w.targets - w.esc && x !in todo;
      assert x !in left;
    }
  }

  /** Part way through a sweep when no link's place was taken. */
  ghost predicate CalmSweep(root: Place, archive: seq<Entry>, i: nat, w: Sweep, todo: set<Place>, fs: Files,
                            remaining: seq<Raw>, made: bool)
  {
    && w.t == Table(root, archive) && w.esc == Escaping(w.t) && w.lost <= w.esc
    && Tally(w, todo, fs, Places(root, remaining), made)
    && Seen(root, archive, i, w.targets * todo - w.esc, Places(root, remaining))
    && Ahead(root, archive, i, w.targets, todo)
  }

  lemma CalmPasses(root: Place, archive: seq<Entry>, i: nat, w: Sweep, todo: set<Place>, fs: Files,
                   remaining: seq<Raw>, made: bool)
    requires Distinct(root, archive) && i < |archive| && CalmSweep(root, archive, i, w, todo, fs, remaining, made)
    requires var e := archive[i];
             e.Link? && Under(root, e.path) ==> At(root, e) !in w.targets || ItemOf(root, e).Escapes?
    ensures CalmSweep(root, archive, i + 1, w, todo, fs, remaining, made)
  {
    var due := w.targets * todo - w.esc;
    if Under(root, archive[i].path) {
      TableHolds(root, archive, i);
    }
    SeenPasses(root, archive, i, due, Places(root, remaining), due);
  }

  lemma CalmKeeps(root: Place, archive: seq<Entry>, i: nat, w: Sweep, todo: set<Place>, fs: Files, remaining: seq<Raw>,
                  made: bool)
    requires Distinct(root, archive) && i < |archive| && CalmSweep(root, archive, i, w, todo, fs, remaining, made)
    requires var e := archive[i]; e.Link? && Under(root, e.path) && At(root, e) in w.targets && ItemOf(root, e).Named?
    requires var x := ItemOf(root, archive[i]); x.target.Some? ==> !Linkable(fs, x.target.value)
    ensures CalmSweep(root, archive, i + 1, w, todo, fs, remaining + [archive[i].path], made)
  {
    TableHolds(root, archive, i);
    PlacesSnoc(root, remaining, archive[i].path);
    TallyKeeps(w, todo, fs, Places(root, remaining), made, At(root, archive[i]));
    SeenKeeps(root, archive, i, w.targets * todo - w.esc, Places(root, remaining));
  }

  lemma CalmMakes(root: Place, archive: seq<Entry>, i: nat, w: Sweep, todo: set<Place>, fs: Files, remaining: seq<Raw>,
                  made: bool, src: Place)
    requires Distinct(root, archive) && i < |archive| && CalmSweep(root, archive, i, w, todo, fs, remaining, made)
    requires var e := archive[i];
             && e.Link? && Under(root, e.path) && At(root, e) in w.targets
             && ItemOf(root, e) == Named(Some(src))
    requires Linkable(fs, src)
    ensures var p := At(root, archive[i]);
            CalmSweep(root, archive, i + 1, w, todo - {p}, fs[p := fs[src]], remaining, true)
  {
    var p := At(root, archive[i]);
    TableHolds(root, archive, i);
    TallyMakes(w, todo, fs, Places(root, remaining), made, p, src);
    SeenPasses(root, archive, i, w.targets * todo - w.esc, Places(root, remaining), w.targets * (todo - {p}) - w.esc);
    AheadMakes(root, archive, i, w.targets, todo);
  }

  /** A link due then has nothing at its place. */
  lemma CalmFree(root: Place, archive: seq<Entry>, i: nat, w: Sweep, todo: set<Place>, fs: Files, remaining: seq<Raw>,
                 made: bool)
    requires Distinct(root, archive) && i < |archive| && CalmSweep(root, archive, i, w, todo, fs, remaining, made)
    requires Under(root, archive[i].path) && At(root, archive[i]) in w.targets
    ensures At(root, archive[i]) !in fs
  {
    TableHolds(root, archive, i);
  }

  /** What such a sweep leaves. */
  ghost predicate Left(t: map<Place, Item>, host: Files, fs: Files, targets: set<Place>, lost: set<Place>,
                       left: set<Place>, made: bool)
  {
    && Progress(t, host, fs, left + (lost + targets * Escaping(t))) && left <= targets - Escaping(t)
    && if made then exists x :: x in targets - Escaping(t) && x !in left
       else left == targets - Escaping(t) && Stuck(t, fs, left)
  }

  /** A sweep part way, with its books when no link's place was taken. */
  ghost predicate Going(root: Place, archive: seq<Entry>, i: nat, deferred: seq<Raw>, calm: bool, w: Sweep,
                        todo: set<Place>, fs: Files, remaining: seq<Raw>, log: seq<Act>, made: bool)
  {
    && Distinct(root, archive) && Elems(deferred) <= LinkPaths(root, archive) && w.targets == Places(root, deferred)
    && Swept(root, archive, i, log, Elems(deferred), remaining, made)
    && (calm ==> CalmSweep(root, archive, i, w, todo, fs, remaining, made))
  }

  lemma GoesPast(root: Place, archive: seq<Entry>, i: nat, deferred: seq<Raw>, calm: bool, w: Sweep,
                 todo: set<Place>, fs: Files, remaining: seq<Raw>, log: seq<Act>, made: bool)
    requires i < |archive| && Going(root, archive, i, deferred, calm, w, todo, fs, remaining, log, made)
    requires var e := archive[i];
             !e.Link? || e.path !in Elems(deferred) || (e.target.Some? && !Under(root, e.target.value))
    ensures Going(root, archive, i + 1, deferred, calm, w, todo, fs, remaining, log, made)
  {
    var e := archive[i];
    SweptPasses(root, archive, i, log, Elems(deferred), remaining, made);
    if calm {
      if e.Link? && Under(root, e.path) {
        SamePlace(root, archive, deferred, i);
      }
      CalmPasses(root, archive, i, w, todo, fs, remaining, made);
    }
  }

  lemma GoesKeeping(root: Place, archive: seq<Entry>, i: nat, deferred: seq<Raw>, calm: bool, w: Sweep,
                    todo: set<Place>, fs: Files, remaining: seq<Raw>, log: seq<Act>, made: bool)
    requires i < |archive| && Going(root, archive, i, deferred, calm, w, todo, fs, remaining, log, made)
    requires var e := archive[i];
             && e.Link? && Under(root, e.path) && e.path in deferred
             && (e.target.Some? ==> Under(root, e.target.value))
    requires var e := archive[i]; calm && e.target.Some? ==> !Linkable(fs, Spot(root, e.target.value))
    ensures Going(root, archive, i + 1, deferred, calm, w, todo, fs, remaining + [archive[i].path], log, made)
  {
    SweptKeeps(root, archive, i, log, Elems(deferred), remaining, made);
    if calm {
      CalmKeeps(root, archive, i, w, todo, fs, remaining, made);
    }
  }

  lemma GoesMaking(root: Place, archive: seq<Entry>, i: nat, deferred: seq<Raw>, calm: bool, w: Sweep,
                   todo: set<Place>, fs: Files, remaining: seq<Raw>, log: seq<Act>, made: bool, src: Place, dest: Place)
    requires i < |archive| && Going(root, archive, i, deferred, calm, w, todo, fs, remaining, log, made)
    requires var e := archive[i]; e.Link? && Considered(root, e) && e.path in deferred
    requires src == Spot(root, archive[i].target.value) && dest == Spot(root, archive[i].path) && Linkable(fs, src)
    ensures Going(root, archive, i + 1, deferred, calm, w, todo - {dest}, fs[dest := fs[src]], remaining,
                  log + [Linked(src, dest)], true)
  {
    SweptMakes(root, archive, i, log, Elems(deferred), remaining, made, Linked(src, dest));
    if calm {
      CalmMakes(root, archive, i, w, todo, fs, remaining, made, src);
    }
  }

  lemma GoesFree(root: Place, archive: seq<Entry>, i: nat, deferred: seq<Raw>, w: Sweep,
                 todo: set<Place>, fs: Files, remaining: seq<Raw>, log: seq<Act>, made: bool)
    requires i < |archive| && Going(root, archive, i, deferred, true, w, todo, fs, remaining, log, made)
    requires archive[i].Link? && Under(root, archive[i].path) && archive[i].path in deferred
    ensures Spot(root, archive[i].path) !in fs
  {
    CalmFree(root, archive, i, w, todo, fs, remaining, made);
  }

  lemma GoesToEnd(root: Place, archive: seq<Entry>, deferred: seq<Raw>, calm: bool, w: Sweep,
                  todo: set<Place>, fs: Files, remaining: seq<Raw>, log: seq<Act>, made: bool)
    requires Going(root, archive, |archive|, deferred, calm, w, todo, fs, remaining, log, made)
    ensures Traced(root, archive, log, Elems(remaining))
    ensures Elems(remaining) <= Elems(deferred) && (made ==> Elems(remaining) < Elems(deferred))
    ensures calm ==> Left(Table(root, archive), w.host, fs, Places(root, deferred), w.lost, Places(root, remaining),
                          made)
  {
    SweptEnds(root, archive, log, Elems(deferred), remaining, made);
    if calm {
      TallyEnds(root, archive, w, todo, fs, Places(root, remaining), made);
    }
  }

  lemma GoesOff(root: Place, archive: seq<Entry>, deferred: seq<Raw>, calm: bool, w: Sweep, fs: Files, log: seq<Act>)
    requires Distinct(root, archive) && Elems(deferred) <= LinkPaths(root, archive)
             && Traced(root, archive, log, Elems(deferred))
    requires w.t == Table(root, archive) && w.targets == Places(root, deferred) && w.esc == Escaping(w.t)
    requires calm ==> Progress(w.t, w.host, fs, w.targets + w.lost) && w.lost <= w.esc
    ensures Going(root, archive, 0, deferred, calm, w, w.targets + w.lost, fs, [], log, false)
  {
    assert Places(root, []) == {};
  }

  /** What a sweep has done so far. */
  datatype Tour = Tour(fs: Files, remaining: seq<Raw>, log: seq<Act>, applied: nat)

  /** One entry of a sweep over the links with paths in `targets`. A file already at the place of a link is removed. */
  function Visit(root: Place, e: Entry, targets: set<Raw>, s: Tour): Tour {
    if !e.Link? || e.path !in targets then s
    else if e.target.None? then s.(remaining := s.remaining + [e.path])
    else if !Under(root, e.target.value) || !Under(root, e.path) then s
    else
      var src, dest := Spot(root, e.target.value), Spot(root, e.path);
      var fs := if dest in s.fs && !s.fs[dest].isDir then s.fs - {dest} else s.fs;
      if Linkable(fs, src) && dest !in fs
      then Tour(fs[dest := fs[src]], s.remaining, s.log + [Linked(src, dest)], s.applied + 1)
      else s.(fs := fs, remaining := s.remaining + [e.path])
  }

  /** A sweep over the whole archive. */
  function Tours(root: Place, archive: seq<Entry>, targets: set<Raw>, s: Tour): Tour {
    if archive == [] then s
    else Visit(root, archive[|archive| - 1], targets, Tours(root, archive[..|archive| - 1], targets, s))
  }

  /** The sweep as the code runs it, for any archive. */
  method Round(root: Place, archive: seq<Entry>, fs0: Files, deferred: seq<Raw>, log0: seq<Act>)
    returns (fs: Files, remaining: seq<Raw>, log: seq<Act>, applied: nat)
    ensures Tour(fs, remaining, log, applied) == Tours(root, archive, Elems(deferred), Tour(fs0, [], log0, 0))
  {
    fs, remaining, log, applied := fs0, [], log0, 0;
    var targets := Elems(deferred);
    for i := 0 to |archive|
      invariant Tour(fs, remaining, log, applied) == Tours(root, archive[..i], targets, Tour(fs0, [], log0, 0))
    {
      var e := archive[i];
      assert archive[..i + 1][..i] == archive[..i] && archive[..i + 1][i] == e;
      if !e.Link? || e.path !in targets {
        continue;
      }
      if e.target.None? {
        remaining := remaining + [e.path];
        continue;
      }
      if !Under(root, e.target.value) || !Under(root, e.path) {
        continue;
      }
      var src, dest := Spot(root, e.target.value), Spot(root, e.path);
      if dest in fs && !fs[dest].isDir {
        fs := fs - {dest};
      }
      if Linkable(fs, src) && dest !in fs {
        fs := fs[dest := fs[src]];
        log := log + [Linked(src, dest)];
        applied := applied + 1;
      } else {
        remaining := remaining + [e.path];
      }
    }
    assert archive[..|archive|] == archive;
  }

  /** The sweep's invariant after `i` entries. */
  ghost predicate Goes(root: Place, archive: seq<Entry>, i: nat, deferred: seq<Raw>, calm: bool, w: Sweep, s: Tour) {
    exists todo :: GoingTo(root, archive, i, deferred, calm, w, todo, s)
  }

  ghost predicate GoingTo(root: Place, archive: seq<Entry>, i: nat, deferred: seq<Raw>, calm: bool, w: Sweep,
                          todo: set<Place>, s: Tour)
  {
    Going(root, archive, i, deferred, calm, w, todo, s.fs, s.remaining, s.log, s.applied > 0)
  }

  /** One visit keeps it: only the place of a link that is made is no longer to do. */
  lemma VisitGoes(root: Place, archive: seq<Entry>, i: nat, deferred: seq<Raw>, calm: bool, w: Sweep, s: Tour)
    requires i < |archive| && Goes(root, archive, i, deferred, calm, w, s)
    ensures Goes(root, archive, i + 1, deferred, calm, w, Visit(root, archive[i], Elems(deferred), s))
  {
    var todo :| GoingTo(root, archive, i, deferred, calm, w, todo, s);
    var todo' := VisitGoing(root, archive, i, deferred, calm, w, todo, s);
  }

  lemma VisitGoing(root: Place, archive: seq<Entry>, i: nat, deferred: seq<Raw>, calm: bool, w: Sweep,
                   todo: set<Place>, s: Tour) returns (todo': set<Place>)
    requires i < |archive| && GoingTo(root, archive, i, deferred, calm, w, todo, s)
    ensures GoingTo(root, archive, i + 1, deferred, calm, w, todo', Visit(root, archive[i], Elems(deferred), s))
  {
    var e := archive[i];
    todo' := todo;
    if e.Link? && e.path in deferred {
      assert e.path in Elems(deferred);
      assert Under(root, e.path);
    }
    if !e.Link? || e.path !in deferred || (e.target.Some? && !Under(root, e.target.value)) {
      GoesPast(root, archive, i, deferred, calm, w, todo, s.fs, s.remaining, s.log, s.applied > 0);
    } else if e.target.None? {
      GoesKeeping(root, archive, i, deferred, calm, w, todo, s.fs, s.remaining, s.log, s.applied > 0);
    } else {
      var src, dest := Spot(root, e.target.value), Spot(root, e.path);
      if calm {
        GoesFree(root, archive, i, deferred, w, todo, s.fs, s.remaining, s.log, s.applied > 0);
      }
      var fs := if dest in s.fs && !s.fs[dest].isDir then s.fs - {dest} else s.fs;
      if Linkable(fs, src) && dest !in fs {
        GoesMaking(root, archive, i, deferred, calm, w, todo, fs, s.remaining, s.log, s.applied > 0, src, dest);
        todo' := todo - {dest};
      } else {
        GoesKeeping(root, archive, i, deferred, calm, w, todo, fs, s.remaining, s.log, s.applied > 0);
      }
    }
  }

  /** A property every visit keeps holds after every part of a sweep. */
  lemma {:induction false} TourKeeps(root: Place, archive: seq<Entry>, i: nat, targets: set<Raw>, s: Tour,
                                     keeps: (nat, Tour) -> bool)
    requires i <= |archive| && keeps(0, s)
    requires forall k: nat, t :: k < |archive| && keeps(k, t) ==> keeps(k + 1, Visit(root, archive[k], targets, t))
    ensures keeps(i, Tours(root, archive[..i], targets, s))
  {
    if i > 0 {
      TourKeeps(root, archive, i - 1, targets, s, keeps);
      assert archive[..i][..i - 1] == archive[..i - 1] && archive[..i][i - 1] == archive[i - 1];
    }
  }

  lemma TourGoes(root: Place, archive: seq<Entry>, deferred: seq<Raw>, calm: bool, w: Sweep, s: Tour)
    requires Goes(root, archive, 0, deferred, calm, w, s)
    ensures Goes(root, archive, |archive|, deferred, calm, w, Tours(root, archive, Elems(deferred), s))
  {
    var targets := Elems(deferred);
    var keeps := (i: nat, r: Tour) => Goes(root, archive, i, deferred, calm, w, r);
    forall k: nat, r | k < |archive| && keeps(k, r) ensures keeps(k + 1, Visit(root, archive[k], targets, r)) {
      VisitGoes(root, archive, k, deferred, calm, w, r);
    }
    TourKeeps(root, archive, |archive|, targets, s, keeps);
    assert archive[..|archive|] == archive;
  }

  /**
   What a sweep leaves when entries name distinct places. `calm` says no link's place was
   taken on the host; `lost` are then the links earlier sweeps dropped.
   */
  lemma RoundLeaves(root: Place, archive: seq<Entry>, fs0: Files, deferred: seq<Raw>, log0: seq<Act>,
                    calm: bool, host: Files, lost: set<Place>)
    requires Distinct(root, archive) && Elems(deferred) <= LinkPaths(root, archive)
             && Traced(root, archive, log0, Elems(deferred))
    requires var t := Table(root, archive);
             calm ==> Progress(t, host, fs0, Places(root, deferred) + lost) && lost <= Escaping(t)
    ensures var r := Tours(root, archive, Elems(deferred), Tour(fs0, [], log0, 0));
            && Traced(root, archive, r.log, Elems(r.remaining))
            && Elems(r.remaining) <= Elems(deferred) && (r.applied > 0 ==> Elems(r.remaining) < Elems(deferred))
            && (calm ==> Left(Table(root, archive), host, r.fs, Places(root, deferred), lost,
                              Places(root, r.remaining), r.applied > 0))
  {
    var t := Table(root, archive);
    var w := Sweep(t, host, Places(root, deferred), lost, Escaping(t));
    GoesOff(root, archive, deferred, calm, w, fs0, log0);
    var s := Tour(fs0, [], log0, 0);
    assert GoingTo(root, archive, 0, deferred, calm, w, w.targets + lost, s);
    TourGoes(root, archive, deferred, calm, w, s);
    var r := Tours(root, archive, Elems(deferred), s);
    var todo :| GoingTo(root, archive, |archive|, deferred, calm, w, todo, r);
    GoesToEnd(root, archive, deferred, calm, w, todo, r.fs, r.remaining, r.log, r.applied > 0);
  }

  // ---- All rounds ----

  /** Between sweeps: at first all links are due, later the escaping ones are lost and some other link was made. */
  ghost predicate Between(t: map<Place, Item>, due: set<Place>, lost: set<Place>, first: bool) {
    && due + lost <= Links(t) && lost <= Escaping(t)
    && if first then lost == {} && due == Links(t)
       else lost == Escaping(t) && due !! Escaping(t) && Links(t) != Escaping(t)
  }

  lemma SweepContinues(t: map<Place, Item>, before: set<Place>, after: set<Place>, lost: set<Place>, first: bool)
    requires Between(t, before, lost, first) && after <= before - Escaping(t)
    requires exists x :: x in before - Escaping(t) && x !in after
    ensures Between(t, after, lost + before * Escaping(t), false)
  {
    assert Escaping(t) <= Links(t);
    if first {
      assert before * Escaping(t) == Escaping(t);
    }
  }

  /** Links left over by a sweep that made none lead nowhere. */
  lemma StuckSweep(t: map<Place, Item>, host: Files, fs: Files, remaining: set<Place>, lost: set<Place>)
    requires Progress(t, host, fs, remaining + lost) && lost <= Escaping(t) && Stuck(t, fs, remaining)
    ensures forall p :: p in remaining + lost ==> !Resolves(t, host, p)
  {
    forall p | p in remaining + lost ensures !Resolves(t, host, p) {
      forall n ensures Chain(t, host, p, n).None? {
        StuckNeverResolves(t, host, fs, remaining + lost, p, n);
      }
    }
  }

  /** A sweep that made nothing: what it reports leads nowhere, and it was right to fail. */
  lemma FailedAnswer(t: map<Place, Item>, host: Files, fs: Files, before: set<Place>, remaining: set<Place>,
                     lost: set<Place>, first: bool)
    requires Between(t, before, lost, first) && before != {} && Left(t, host, fs, before, lost, remaining, false)
    ensures Answer(t, host, false, fs, remaining)
  {
    var gone := lost + before * Escaping(t);
    assert Escaping(t) <= Links(t);
    assert gone == Escaping(t);
    StuckSweep(t, host, fs, remaining, gone);
    MadeLinksResolve(t, host, fs, remaining + gone);
    if remaining == {} {
      assert first && before == Escaping(t);
    } else {
      var p :| p in remaining;
      assert p in Links(t) - Escaping(t) && !Resolves(t, host, p);
    }
  }

  /** Nothing left to make. */
  lemma FinishedAnswer(t: map<Place, Item>, host: Files, fs: Files, lost: set<Place>, first: bool)
    requires Between(t, {}, lost, first) && Progress(t, host, fs, {} + lost)
    ensures Answer(t, host, true, fs, {})
  {
    assert Escaping(t) <= Links(t);
    MadeLinksResolve(t, host, fs, lost);
    assert forall p :: p in Links(t) - Escaping(t) ==> Resolves(t, host, p);
  }

  lemma {:induction false} SubsetSmaller<T>(a: set<T>, b: set<T>)
    requires a < b
    ensures |a| < |b|
  {
    assert b == a + (b - a);
    assert |b - a| > 0 by {
      var x :| x in b && x !in a;
      assert x in b - a;
    }
  }

  lemma NonEmpty<T>(a: set<T>, x: T)
    requires x in a
    ensures |a| >= 1
  {
  }

  /** All link paths are due at first, by place. */
  lemma AllDue(root: Place, archive: seq<Entry>, deferred: seq<Raw>)
    requires Distinct(root, archive) && Elems(deferred) == LinkPaths(root, archive)
    ensures Places(root, deferred) == Links(Table(root, archive))
  {
    var t := Table(root, archive);
    forall p | p in Links(t) ensures p in Places(root, deferred) {
      var i := TableFrom(root, archive, p);
      assert archive[i].path in Elems(deferred);
    }
    forall r | r in deferred ensures Spot(root, r) in Links(t) {
      assert r in Elems(deferred);
      var i :| 0 <= i < |archive| && archive[i].Link? && Under(root, archive[i].path) && archive[i].path == r;
      TableHolds(root, archive, i);
    }
  }

  /** What an unpack promises: what it did stays in the root if no entry climbs, and on success only then; ordinary
      entries alone decide it one way; with no link's place taken, the answer above. */
  ghost predicate Promised(root: Place, archive: seq<Entry>, host: Files, ok: bool, fs: Files, unresolved: seq<Raw>,
                           log: seq<Act>)
  {
    && (NoClimb(root, archive) ==> Contained(root, log))
    && (ok ==> (Contained(root, log) <==> NoClimb(root, archive)))
    && (Contained(root, log) ==>
          forall e :: e in archive && e.Node? && Under(root, e.path) ==> Inside(root, At(root, e)))
    && (Vacant(Table(root, archive), host) ==> Answer(Table(root, archive), host, ok, fs, Places(root, unresolved)))
  }

  /**
   The whole unpack, for any archive whose entries name distinct places. Rounds never
   outnumber the links.
   */
  method UnpackRootfs(root: Place, archive: seq<Entry>, host: Files)
    returns (ok: bool, fs: Files, unresolved: seq<Raw>, log: seq<Act>, rounds: nat)
    requires Distinct(root, archive)
    ensures Promised(root, archive, host, ok, fs, unresolved, log)
    ensures rounds <= |LinkPaths(root, archive)|
  {
    ghost var t := Table(root, archive);
    ghost var calm := Vacant(t, host);
    var deferred;
    fs, deferred, log := UnpackNodes(root, archive, host);
    AllDue(root, archive, deferred);
    rounds := 0;
    ghost var lost: set<Place> := {};
    assert Places(root, deferred) + lost == Links(t);
    while deferred != []
      invariant Elems(deferred) <= LinkPaths(root, archive) && Traced(root, archive, log, Elems(deferred))
      invariant rounds + |Elems(deferred)| <= |LinkPaths(root, archive)|
      invariant calm ==>
                  && Progress(t, host, fs, Places(root, deferred) + lost)
                  && Between(t, Places(root, deferred), lost, rounds == 0)
      decreases |Elems(deferred)|
    {
      ghost var before := Places(root, deferred);
      NonEmpty(Elems(deferred), deferred[0]);
      assert Spot(root, deferred[0]) in before;
      var remaining, applied;
      RoundLeaves(root, archive, fs, deferred, log, calm, host, lost);
      fs, remaining, log, applied := Round(root, archive, fs, deferred, log);
      TracedContained(root, archive, log, Elems(remaining));
      if applied == 0 {
        if calm {
          FailedAnswer(t, host, fs, before, Places(root, remaining), lost, rounds == 0);
        }
        return false, fs, remaining, log, rounds + 1;
      }
      if calm {
        SweepContinues(t, before, Places(root, remaining), lost, rounds == 0);
      }
      SubsetSmaller(Elems(remaining), Elems(deferred));
      rounds, lost, deferred := rounds + 1, lost + before * Escaping(t), remaining;
    }
    TracedContained(root, archive, log, Elems(deferred));
    assert Places(root, deferred) == {} && Places(root, []) == {};
    if calm {
      FinishedAnswer(t, host, fs, lost, rounds == 0);
    }
    return true, fs, [], log, rounds;
  }

  // ---- Entries that share a place ----

  /** The files and the links due after `n` sweeps, while the loop is still going. */
  function Due(root: Place, archive: seq<Entry>, fs: Files, deferred: seq<Raw>, n: nat): Option<(Files, seq<Raw>)>
    decreases n
  {
    if deferred == [] then None
    else if n == 0 then Some((fs, deferred))
    else
      var r := Tours(root, archive, Elems(deferred), Tour(fs, [], [], 0));
      if r.applied == 0 then None else Due(root, archive, r.fs, r.remaining, n - 1)
  }

  /** No two links of the archive have the same path. */
  predicate LinksApart(archive: seq<Entry>) {
    forall i, j :: 0 <= i < j < |archive| && archive[i].Link? && archive[j].Link? ==> archive[i].path != archive[j].path
  }

  /** After `i` entries only links met are kept, and a link that was made is not. */
  ghost predicate Shrinking(archive: seq<Entry>, i: nat, targets: set<Raw>, r: Tour) {
    && i <= |archive|
    && (forall p :: p in r.remaining ==>
          p in targets && exists k :: 0 <= k < i && archive[k].Link? && archive[k].path == p)
    && (r.applied > 0 ==>
          exists k :: 0 <= k < i && archive[k].Link? && archive[k].path in targets && archive[k].path !in r.remaining)
  }

  lemma VisitShrinks(root: Place, archive: seq<Entry>, i: nat, targets: set<Raw>, s: Tour)
    requires LinksApart(archive) && i < |archive| && Shrinking(archive, i, targets, s)
    ensures Shrinking(archive, i + 1, targets, Visit(root, archive[i], targets, s))
  {
    var e, r := archive[i], Visit(root, archive[i], targets, s);
    if s.applied > 0 {
      var k :| 0 <= k < i && archive[k].Link? && archive[k].path in targets && archive[k].path !in s.remaining;
      assert archive[k].path !in r.remaining;
    } else if r.applied > 0 {
      assert e.Link? && e.path in targets && r.remaining == s.remaining;
      assert e.path !in s.remaining;
    }
  }

  /** The loop ends, after at most one sweep for each link due, when no two links have the same path. */
  lemma {:induction false} LinksApartEnds(root: Place, archive: seq<Entry>, fs: Files, deferred: seq<Raw>, n: nat)
    requires LinksApart(archive) && n >= |Elems(deferred)|
    ensures Due(root, archive, fs, deferred, n).None?
    decreases n
  {
    if deferred != [] {
      NonEmpty(Elems(deferred), deferred[0]);
      var r := Tours(root, archive, Elems(deferred), Tour(fs, [], [], 0));
      var keeps := (i: nat, t: Tour) => Shrinking(archive, i, Elems(deferred), t);
      forall k: nat, t | k < |archive| && keeps(k, t)
        ensures keeps(k + 1, Visit(root, archive[k], Elems(deferred), t))
      {
        VisitShrinks(root, archive, k, Elems(deferred), t);
      }
      TourKeeps(root, archive, |archive|, Elems(deferred), Tour(fs, [], [], 0), keeps);
      assert archive[..|archive|] == archive;
      if r.applied > 0 {
        SubsetSmaller(Elems(r.remaining), Elems(deferred));
        LinksApartEnds(root, archive, r.fs, r.remaining, n - 1);
      }
    }
  }

  /**
   Entries `a` and `b` are links of one path. The target of `a` is a file that no link
   replaces; that of `b` is nowhere, and no link makes it; the path itself names no directory.
   */
  ghost predicate Rivals(root: Place, archive: seq<Entry>, fs: Files, a: nat, b: nat) {
    && a < |archive| && b < |archive| && archive[a].Link? && archive[b].Link? && archive[a].path == archive[b].path
    && Considered(root, archive[a]) && Considered(root, archive[b])
    && Endures(fs, Spot(root, archive[a].target.value), Spot(root, archive[b].target.value), At(root, archive[a]))
    && (forall k :: 0 <= k < |archive| && archive[k].Link? ==>
          At(root, archive[k]) != Spot(root, archive[a].target.value)
          && At(root, archive[k]) != Spot(root, archive[b].target.value))
  }

  predicate Endures(fs: Files, file: Place, nowhere: Place, dest: Place) {
    Linkable(fs, file) && nowhere !in fs && (dest in fs ==> !fs[dest].isDir)
  }

  /** After `i` entries the three places are as they were, `a` has been made and `b` kept. */
  ghost predicate Contested(root: Place, archive: seq<Entry>, a: nat, b: nat, i: nat, s: Tour)
    requires a < |archive| && b < |archive| && Considered(root, archive[a]) && Considered(root, archive[b])
    requires archive[a].Link? && archive[b].Link?
  {
    && Endures(s.fs, Spot(root, archive[a].target.value), Spot(root, archive[b].target.value), At(root, archive[a]))
    && (i > a ==> s.applied > 0) && (i > b ==> archive[b].path in s.remaining)
  }

  /** A visit of a link away from `file` and `nowhere` keeps them, and no list gets shorter. */
  lemma VisitEndures(root: Place, e: Entry, targets: set<Raw>, s: Tour, file: Place, nowhere: Place, dest: Place)
    requires Endures(s.fs, file, nowhere, dest)
    requires e.Link? ==> At(root, e) != file && At(root, e) != nowhere
    ensures var r := Visit(root, e, targets, s);
            Endures(r.fs, file, nowhere, dest) && r.applied >= s.applied && s.remaining <= r.remaining
  {
  }

  lemma VisitMakes(root: Place, e: Entry, targets: set<Raw>, s: Tour)
    requires e.Link? && e.path in targets && Considered(root, e)
    requires var src, dest := Spot(root, e.target.value), At(root, e);
             src != dest && Linkable(s.fs, src) && (dest in s.fs ==> !s.fs[dest].isDir)
    ensures Visit(root, e, targets, s).applied > 0
  {
  }

  lemma VisitKeeps(root: Place, e: Entry, targets: set<Raw>, s: Tour)
    requires e.Link? && e.path in targets && Considered(root, e) && Spot(root, e.target.value) !in s.fs
    ensures e.path in Visit(root, e, targets, s).remaining
  {
  }

  lemma VisitContested(root: Place, archive: seq<Entry>, fs: Files, targets: set<Raw>, a: nat, b: nat, i: nat, s: Tour)
    requires Rivals(root, archive, fs, a, b) && archive[a].path in targets
    requires i < |archive| && Contested(root, archive, a, b, i, s)
    ensures Contested(root, archive, a, b, i + 1, Visit(root, archive[i], targets, s))
  {
    var file, nowhere := Spot(root, archive[a].target.value), Spot(root, archive[b].target.value);
    VisitEndures(root, archive[i], targets, s, file, nowhere, At(root, archive[a]));
    if i == a {
      VisitMakes(root, archive[a], targets, s);
    }
    if i == b {
      VisitKeeps(root, archive[b], targets, s);
    }
  }

  lemma TourContested(root: Place, archive: seq<Entry>, fs: Files, targets: set<Raw>, a: nat, b: nat)
    requires Rivals(root, archive, fs, a, b) && archive[a].path in targets
    ensures var r := Tours(root, archive, targets, Tour(fs, [], [], 0));
            Rivals(root, archive, r.fs, a, b) && r.applied > 0 && archive[b].path in r.remaining
  {
    var s := Tour(fs, [], [], 0);
    var keeps := (i: nat, t: Tour) => Contested(root, archive, a, b, i, t);
    forall k: nat, t | k < |archive| && keeps(k, t) ensures keeps(k + 1, Visit(root, archive[k], targets, t)) {
      VisitContested(root, archive, fs, targets, a, b, k, t);
    }
    TourKeeps(root, archive, |archive|, targets, s, keeps);
    assert archive[..|archive|] == archive;
    assert Contested(root, archive, a, b, |archive|, Tours(root, archive, targets, s));
  }

  lemma {:induction false} RivalsStayDue(root: Place, archive: seq<Entry>, fs: Files, deferred: seq<Raw>,
                                         a: nat, b: nat, n: nat)
    requires Rivals(root, archive, fs, a, b) && archive[a].path in deferred
    ensures Due(root, archive, fs, deferred, n).Some?
    decreases n
  {
    if n > 0 {
      var r := Tours(root, archive, Elems(deferred), Tour(fs, [], [], 0));
      TourContested(root, archive, fs, Elems(deferred), a, b);
      RivalsStayDue(root, archive, r.fs, r.remaining, a, b, n - 1);
    }
  }

  /** With such a pair, in either order and among any other entries on any host, a link is due after any number
      of sweeps: the loop never ends. */
  lemma RivalsNeverEnd(root: Place, archive: seq<Entry>, host: Files, a: nat, b: nat, n: nat)
    requires Rivals(root, archive, Nodes(root, archive, host), a, b)
    ensures Due(root, archive, Nodes(root, archive, host), Deferred(root, archive), n).Some?
  {
    DeferredLinks(root, archive);
    assert archive[a].path in LinkPaths(root, archive);
    assert archive[a].path in Elems(Deferred(root, archive));
    RivalsStayDue(root, archive, Nodes(root, archive, host), Deferred(root, archive), a, b, n);
  }

  /** The smallest such archive: "p" linked to a file "a" and to "b", which is nowhere. */
  function RivalLinks(): seq<Entry> {
    [File("a"), LinkTo("p", Raw(false, ["a"])), LinkTo("p", Raw(false, ["b"]))]
  }

  lemma RivalLinksNeverEnd(n: nat)
    ensures Due(["r"], RivalLinks(), Nodes(["r"], RivalLinks(), map[]), Deferred(["r"], RivalLinks()), n).Some?
  {
    var s := RivalLinks();
    OneName("a");
    OneName("b");
    OneName("p");
    assert s[..2] == [s[0], s[1]] && s[..2][..1] == [s[0]] && s[..2][..1][..0] == [];
    assert Nodes(["r"], s[..2][..1], map[]) == Unpacked(["r"], map[], s[0]);
    assert Nodes(["r"], s[..2], map[]) == Nodes(["r"], s[..2][..1], map[]);
    assert Nodes(["r"], s, map[]) == map[["r", "a"] := Fresh(["r", "a"], false)];
    RivalsNeverEnd(["r"], s, map[], 1, 2, n);
  }

  // ---- Paths that climb ----

  /** "../x" passes the test of the root "r" and names a place beside it. */
  lemma DotDotClimbs()
    ensures var p := Raw(false, ["..", "x"]); Under(["r"], p) && Spot(["r"], p) == ["x"] && !Inside(["r"], ["x"])
  {
    var q: Place := ["r", "..", "x"];
    assert ["r"] + ["..", "x"] == q;
    assert q[..2] == ["r", ".."] && q[..2][..1] == ["r"] && q[..2][..1][..0] == [];
    assert Land(["r"]) == ["r"] && Land(["r", ".."]) == [];
  }

  /** An ordinary entry "../x" is created outside the root whatever else happens. */
  lemma DotDotEntry(archive: seq<Entry>, host: Files, ok: bool, fs: Files, unresolved: seq<Raw>, log: seq<Act>)
    requires Node(Raw(false, ["..", "x"]), false) in archive && Promised(["r"], archive, host, ok, fs, unresolved, log)
    ensures !Contained(["r"], log)
  {
    DotDotClimbs();
  }

  function File(name: string): Entry { Node(Raw(false, [name]), false) }

  function LinkTo(name: string, target: Raw): Entry { Link(Raw(false, [name]), Some(target)) }

  lemma OneName(name: string)
    requires name != ".." && name != "."
    ensures Under(["r"], Raw(false, [name])) && Spot(["r"], Raw(false, [name])) == ["r", name]
  {
    assert ["r"] + [name] == ["r", name];
    assert Plain(["r", name]);
    LandPlain(["r", name]);
  }

  /** A file "a", a link "b" to it, and a link "c". */
  function Three(target: Raw): seq<Entry> {
    [File("a"), LinkTo("b", Raw(false, ["a"])), LinkTo("c", target)]
  }

  lemma ThreeTable(target: Raw)
    ensures Table(["r"], Three(target)) ==
            map[["r", "a"] := Made(false), ["r", "b"] := Named(Some(["r", "a"])),
                ["r", "c"] := ItemOf(["r"], LinkTo("c", target))]
  {
    OneName("a");
    OneName("b");
    OneName("c");
    var s := Three(target);
    assert s[..2] == [s[0], s[1]] && s[..2][..1] == [s[0]] && s[..2][..1][..0] == [];
    assert Table(["r"], s[..2][..1]) == map[["r", "a"] := Made(false)];
    assert Table(["r"], s[..2]) == Table(["r"], s[..2][..1])[["r", "b"] := ItemOf(["r"], s[1])];
  }

  lemma OutsideAnswer(x: int, ok: bool, fs: Files, u: set<Place>)
    requires Answer(map[["r", "a"] := Made(false), ["r", "b"] := Named(Some(["r", "a"])),
                        ["r", "c"] := Named(Some(["x"]))],
                    map[["x"] := Given(x, false)], ok, fs, u)
    ensures ok && ["r", "c"] in fs && fs[["r", "c"]] == Given(x, false)
  {
    var t := map[["r", "a"] := Made(false), ["r", "b"] := Named(Some(["r", "a"])), ["r", "c"] := Named(Some(["x"]))];
    var host: Files := map[["x"] := Given(x, false)];
    assert Chain(t, host, ["r", "b"], 1) == Some(["r", "a"]) && Chain(t, host, ["r", "c"], 1) == Some(["x"]);
    assert Resolves(t, host, ["r", "b"]) && Resolves(t, host, ["r", "c"]);
    assert Links(t) == {["r", "b"], ["r", "c"]} && Escaping(t) == {};
    var y :| LeadsTo(t, host, ["r", "c"], y) && IsFile(t, host, y, fs[["r", "c"]]);
    LeadsToUnique(t, host, ["r", "c"], y, ["x"]);
  }

  /** With a host file at "../x", a link to it is made: the unpack succeeds and "c" is the host's file. */
  lemma DotDotLink(x: int, ok: bool, fs: Files, unresolved: seq<Raw>, log: seq<Act>)
    requires Promised(["r"], Three(Raw(false, ["..", "x"])), map[["x"] := Given(x, false)], ok, fs, unresolved, log)
    ensures ok && ["r", "c"] in fs && fs[["r", "c"]] == Given(x, false) && !Contained(["r"], log)
  {
    var target := Raw(false, ["..", "x"]);
    DotDotClimbs();
    ThreeTable(target);
    OutsideAnswer(x, ok, fs, Places(["r"], unresolved));
    OneName("c");
    var e := Three(target)[2];
    assert Considered(["r"], e) && ActOf(["r"], e) == Linked(["x"], ["r", "c"]);
  }

  lemma SkippedAnswer(ok: bool, fs: Files, u: set<Place>)
    requires Answer(map[["r", "a"] := Made(false), ["r", "b"] := Named(Some(["r", "a"])), ["r", "c"] := Escapes],
                    map[], ok, fs, u)
    ensures ok && ["r", "b"] in fs && ["r", "c"] !in fs && u == {}
  {
    var t := map[["r", "a"] := Made(false), ["r", "b"] := Named(Some(["r", "a"])), ["r", "c"] := Escapes];
    assert Chain(t, map[], ["r", "b"], 1) == Some(["r", "a"]);
    assert Resolves(t, map[], ["r", "b"]);
    assert Links(t) == {["r", "b"], ["r", "c"]} && Escaping(t) == {["r", "c"]};
  }

  /** A link out of the root by an absolute path is skipped: the unpack succeeds without it. */
  lemma AbsoluteLinkSkipped(ok: bool, fs: Files, unresolved: seq<Raw>, log: seq<Act>)
    requires Promised(["r"], Three(Raw(true, ["x"])), map[], ok, fs, unresolved, log)
    ensures ok && ["r", "b"] in fs && ["r", "c"] !in fs && Places(["r"], unresolved) == {}
  {
    ThreeTable(Raw(true, ["x"]));
    SkippedAnswer(ok, fs, Places(["r"], unresolved));
  }
}
