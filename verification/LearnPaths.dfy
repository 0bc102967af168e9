/**
 Path generalisation of the learn command: collapsing directories with many observed paths,
 honouring explicit prefixes, and dropping paths a shorter one already grants. A path is its
 sequence of components and the root is the empty sequence; a grant on a path covers
 everything beneath it. Which directories are sensitive is a parameter.
 */
module LearnPaths {
  import opened Prelude

  type Path = seq<string>

  /** `p` lies at or beneath one of the granted paths. */
  ghost predicate Covered(p: Path, granted: seq<Path>) {
    exists i :: 0 <= i < |granted| && granted[i] <= p
  }

  function Parent(p: Path): Path
    requires p != []
  {
    p[..|p| - 1]
  }

  // ---- Subsumption ----

  /** A strict ancestor of `p` is listed. */
  predicate Subsumed(p: Path, paths: seq<Path>)
    decreases |p|
  {
    p != [] && (Parent(p) in paths || Subsumed(Parent(p), paths))
  }

  lemma {:induction false} SubsumedIff(p: Path, paths: seq<Path>)
    ensures Subsumed(p, paths) <==> exists a :: a in paths && a < p
    decreases |p|
  {
    if p != [] {
      var q := Parent(p);
      SubsumedIff(q, paths);
      forall a | a in paths && a < p ensures Subsumed(p, paths) {
        assert a <= q;
        if a != q {
          assert a < q;
        }
      }
      if Subsumed(p, paths) {
        if q in paths {
          assert q < p;
        } else {
          var a :| a in paths && a < q;
          assert a < p;
        }
      }
    }
  }

  function Keep(paths: seq<Path>, all: seq<Path>): (r: seq<Path>)
    ensures forall p :: p in r <==> p in paths && !Subsumed(p, all)
  {
    if paths == [] then []
    else if Subsumed(paths[0], all) then Keep(paths[1..], all)
    else [paths[0]] + Keep(paths[1..], all)
  }

  /** `dedup_subsumed`. */
  function DedupSubsumed(paths: seq<Path>): seq<Path> { Keep(paths, paths) }

  /** Above every listed path stands one that is kept. */
  lemma {:induction false} KeptAbove(p: Path, paths: seq<Path>) returns (a: Path)
    requires p in paths
    ensures a in DedupSubsumed(paths) && a <= p
    decreases |p|
  {
    SubsumedIff(p, paths);
    if Subsumed(p, paths) {
      var b :| b in paths && b < p;
      a := KeptAbove(b, paths);
    } else {
      a := p;
    }
  }

  /** Dropping subsumed paths grants exactly the same subtree. */
  lemma DedupSameSubtree(paths: seq<Path>, q: Path)
    ensures Covered(q, DedupSubsumed(paths)) <==> Covered(q, paths)
  {
    var kept := DedupSubsumed(paths);
    if Covered(q, kept) {
      var i :| 0 <= i < |kept| && kept[i] <= q;
      assert kept[i] in kept && kept[i] in paths;
      var j :| 0 <= j < |paths| && paths[j] == kept[i];
    }
    if Covered(q, paths) {
      var i :| 0 <= i < |paths| && paths[i] <= q;
      var a := KeptAbove(paths[i], paths);
      var j :| 0 <= j < |kept| && kept[j] == a;
      assert kept[j] <= q;
    }
  }

  /** No path kept is beneath another. */
  ghost predicate Antichain(paths: seq<Path>) {
    forall p, q :: p in paths && q in paths && p <= q ==> p == q
  }

  lemma DedupAntichain(paths: seq<Path>)
    ensures Antichain(DedupSubsumed(paths))
  {
    var kept := DedupSubsumed(paths);
    forall p, q | p in kept && q in kept && p <= q ensures p == q {
      SubsumedIff(q, paths);
      assert p in paths;
    }
  }

  // ---- Collapsing ----

  /** How many of the paths sit directly in `dir`. */
  function Count(paths: seq<Path>, dir: Path): nat {
    if paths == [] then 0
    else Count(paths[..|paths| - 1], dir) + (var p := paths[|paths| - 1]; if p != [] && Parent(p) == dir then 1 else 0)
  }

  /** The length of a path as text. */
  function TextLen(p: Path): nat {
    if p == [] then 0 else TextLen(p[..|p| - 1]) + 1 + |p[|p| - 1]|
  }

  /** The longest explicit prefix of `p`, the last of equals. */
  function Forced(p: Path, force: seq<Path>): (r: Option<Path>)
    ensures r.Some? ==> r.value in force && r.value <= p
    ensures forall f :: f in force && f <= p ==> r.Some? && TextLen(f) <= TextLen(r.value)
  {
    if force == [] then None
    else
      var best, f := Forced(p, force[..|force| - 1]), force[|force| - 1];
      if f <= p && (best.None? || TextLen(best.value) <= TextLen(f)) then Some(f) else best
  }

  /** What a path is collapsed to. */
  function Target(p: Path, paths: seq<Path>, n: nat, force: seq<Path>, normal: Path -> bool): Path {
    var forced := Forced(p, force);
    if forced.Some? then forced.value
    else if p != [] && Count(paths, Parent(p)) >= n && normal(Parent(p)) then Parent(p)
    else p
  }

  method LongestPrefix(p: Path, force: seq<Path>) returns (best: Option<Path>)
    ensures best == Forced(p, force)
  {
    best := None;
    for i := 0 to |force|
      invariant best == Forced(p, force[..i])
    {
      assert force[..i + 1][..i] == force[..i];
      if force[i] <= p && (best.None? || TextLen(best.value) <= TextLen(force[i])) {
        best := Some(force[i]);
      }
    }
    assert force[..|force|] == force;
  }

  method CountParents(paths: seq<Path>) returns (counts: map<Path, nat>)
    ensures forall d :: (if d in counts then counts[d] else 0) == Count(paths, d)
  {
    counts := map[];
    for i := 0 to |paths|
      invariant forall d :: (if d in counts then counts[d] else 0) == Count(paths[..i], d)
    {
      assert paths[..i + 1][..i] == paths[..i];
      if paths[i] != [] {
        var parent := Parent(paths[i]);
        counts := counts[parent := (if parent in counts then counts[parent] else 0) + 1];
      }
    }
    assert paths[..|paths|] == paths;
  }

  /** `collapse_by_threshold`: count, then collect the target of every path. */
  method CollapseByThreshold(paths: seq<Path>, n: nat, force: seq<Path>, normal: Path -> bool) returns (out: set<Path>)
    ensures out == set i | 0 <= i < |paths| :: Target(paths[i], paths, n, force, normal)
  {
    var counts := CountParents(paths);
    out := {};
    for i := 0 to |paths|
      invariant out == set j | 0 <= j < i :: Target(paths[j], paths, n, force, normal)
    {
      var p := paths[i];
      var forced := LongestPrefix(p, force);
      var target: Path;
      if forced.Some? {
        target := forced.value;
      } else if p != [] {
        var parent := Parent(p);
        if (if parent in counts then counts[parent] else 0) >= n {
          target := parent;
        } else {
          out := out + {p};
          continue;
        }
      } else {
        out := out + {p};
        continue;
      }
      if normal(target) {
        out := out + {target};
      } else if forced.Some? {
        out := out + {target};
      } else {
        out := out + {p};
      }
    }
  }

  /** Each path is collapsed to itself or an ancestor. */
  lemma TargetAbove(p: Path, paths: seq<Path>, n: nat, force: seq<Path>, normal: Path -> bool)
    ensures Target(p, paths, n, force, normal) <= p
  {
  }

  ghost predicate Lists(s: seq<Path>, out: set<Path>) { forall p :: p in s <==> p in out }

  /**
   Collapse then drop what is subsumed: an antichain that covers every input path, in which a
   sensitive directory appears only if it was an input or an explicit prefix, and a directory
   that was neither has at least `n` of the paths directly in it.
   */
  lemma CollapseThenDedup(paths: seq<Path>, n: nat, force: seq<Path>, normal: Path -> bool, out: set<Path>,
                          listed: seq<Path>)
    requires out == set i | 0 <= i < |paths| :: Target(paths[i], paths, n, force, normal)
    requires Lists(listed, out)
    ensures Antichain(DedupSubsumed(listed))
    ensures forall p :: p in paths ==> Covered(p, DedupSubsumed(listed))
    ensures forall d :: d in DedupSubsumed(listed) && !normal(d) ==> d in paths || d in force
    ensures forall d :: d in DedupSubsumed(listed) ==> d in paths || d in force || Count(paths, d) >= n
  {
    DedupAntichain(listed);
    forall p | p in paths ensures Covered(p, DedupSubsumed(listed)) {
      var i :| 0 <= i < |paths| && paths[i] == p;
      var t := Target(paths[i], paths, n, force, normal);
      assert t in out && t in listed;
      TargetAbove(p, paths, n, force, normal);
      var a := KeptAbove(t, listed);
      var kept := DedupSubsumed(listed);
      var j :| 0 <= j < |kept| && kept[j] == a;
      assert kept[j] <= p;
    }
    forall d | d in DedupSubsumed(listed)
      ensures d in paths || d in force || (normal(d) && Count(paths, d) >= n)
    {
      assert d in listed && d in out;
      var i :| 0 <= i < |paths| && Target(paths[i], paths, n, force, normal) == d;
    }
  }

  // ---- What is collapsed ----

  /** The paths that sit directly in `dir`. */
  ghost function Within(paths: seq<Path>, dir: Path): set<int> {
    set i | 0 <= i < |paths| && |paths[i]| == |dir| + 1 && dir < paths[i]
  }

  lemma {:induction false} CountIs(paths: seq<Path>, dir: Path)
    ensures Count(paths, dir) == |Within(paths, dir)|
  {
    if paths == [] {
      assert Within(paths, dir) == {};
    } else {
      var n := |paths| - 1;
      var p := paths[n];
      CountIs(paths[..n], dir);
      var here := p != [] && Parent(p) == dir;
      assert here <==> |p| == |dir| + 1 && dir < p by {
        if |p| == |dir| + 1 && dir < p {
          assert p[..|dir|] == dir;
        }
      }
      assert Within(paths, dir) == Within(paths[..n], dir) + if here then {n} else {};
    }
  }

  /** A path as text. */
  function Text(p: Path): string {
    if p == [] then "" else Text(p[..|p| - 1]) + "/" + p[|p| - 1]
  }

  lemma {:induction false} TextLenIs(p: Path)
    ensures TextLen(p) == |Text(p)|
  {
    if p != [] {
      TextLenIs(p[..|p| - 1]);
    }
  }

  /** `f` is an explicit prefix of `p` and none is longer. */
  ghost predicate LongestForced(f: Path, p: Path, force: seq<Path>) {
    f in force && f <= p && forall g :: g in force && g <= p ==> |Text(g)| <= |Text(f)|
  }

  /** The parent of `p` is an ordinary directory with `n` or more of the paths in it. */
  ghost predicate Crowded(p: Path, paths: seq<Path>, n: nat, normal: Path -> bool) {
    p != [] && normal(p[..|p| - 1]) && |Within(paths, p[..|p| - 1])| >= n
  }

  /**
   Where each path goes: to its longest explicit prefix if it has one, else to its directory if that is crowded,
   else nowhere. What it goes to is collected, and still granted once subsumed paths are dropped.
   */
  lemma EachPathCollapses(paths: seq<Path>, n: nat, force: seq<Path>, normal: Path -> bool, out: set<Path>,
                          listed: seq<Path>, p: Path)
    requires out == set i | 0 <= i < |paths| :: Target(paths[i], paths, n, force, normal)
    requires Lists(listed, out) && p in paths
    ensures (exists f :: f in force && f <= p) ==>
              exists f :: LongestForced(f, p, force) && f in out && Covered(f, DedupSubsumed(listed))
    ensures (forall f :: f in force ==> !(f <= p)) && Crowded(p, paths, n, normal) ==>
              p[..|p| - 1] in out && Covered(p[..|p| - 1], DedupSubsumed(listed))
    ensures (forall f :: f in force ==> !(f <= p)) && !Crowded(p, paths, n, normal) ==> p in out
  {
    var i :| 0 <= i < |paths| && paths[i] == p;
    var t := Target(paths[i], paths, n, force, normal);
    assert t in out && t in listed;
    var a := KeptAbove(t, listed);
    assert Covered(t, DedupSubsumed(listed)) by {
      var kept := DedupSubsumed(listed);
      var j :| 0 <= j < |kept| && kept[j] == a;
    }
    if p != [] {
      CountIs(paths, Parent(p));
    }
    var forced := Forced(p, force);
    if forced.Some? {
      forall g | g in force && g <= p ensures |Text(g)| <= |Text(forced.value)| {
        TextLenIs(g);
        TextLenIs(forced.value);
      }
      assert LongestForced(forced.value, p, force);
    }
  }
}
