/**
 Placement of the stubs on the trampoline architectures: each stub goes into the slack after
 the last symbol of the mapping, and the first word of the function becomes a jump to it.
 Offsets are relative to the base of the mapping.
 */
module VdsoPatch {
  import opened Prelude
  import opened Buffers
  import opened LittleEndian
  import opened VdsoEncoders
  import opened VdsoMemory

  datatype Arch = Arm | Riscv

  /** A dynamic symbol: its name, `st_value` and `st_size`. */
  datatype Symbol = Symbol(name: string, value: nat, size: nat)

  /** An entry of `vdso_targets` with the stub generated for it. */
  datatype Job = Job(name: string, alt: string, stub: seq<byte>)

  /** A stub written at `at` and the jump written at `entry`. */
  datatype Placement = Placement(entry: nat, at: nat, stub: seq<byte>, word: u32)

  /** Symbol `i` is the last of the first `k` to give `name` a value. */
  ghost predicate Binds(syms: seq<Symbol>, i: int, k: nat, name: string, value: nat) {
    && 0 <= i < k <= |syms| && syms[i].name == name && syms[i].value == value && value != 0 && name != ""
    && forall j :: i < j < k && syms[j].name == name ==> syms[j].value == 0
  }

  ghost predicate Bound(syms: seq<Symbol>, k: nat, name: string, value: nat) {
    exists i :: Binds(syms, i, k, name, value)
  }

  lemma BoundUnique(syms: seq<Symbol>, k: nat, name: string, v: nat, w: nat)
    requires Bound(syms, k, name, v) && Bound(syms, k, name, w)
    ensures v == w
  {
    var i :| Binds(syms, i, k, name, v);
    var j :| Binds(syms, j, k, name, w);
  }

  /** The entry a job redirects: its name's symbol, or else its alternative name's. */
  ghost predicate Target(syms: seq<Symbol>, job: Job, entry: nat) {
    || Bound(syms, |syms|, job.name, entry)
    || ((forall v :: !Bound(syms, |syms|, job.name, v)) && Bound(syms, |syms|, job.alt, entry))
  }

  /** The entry and stub of every job that has one, in order. */
  ghost function Wanted(syms: seq<Symbol>, jobs: seq<Job>): seq<(nat, seq<byte>)> {
    if jobs == [] then []
    else
      var rest := Wanted(syms, jobs[1..]);
      if exists entry :: Target(syms, jobs[0], entry)
      then var entry :| Target(syms, jobs[0], entry); [(entry, jobs[0].stub)] + rest
      else rest
  }

  lemma BoundLater(syms: seq<Symbol>, k: nat, name: string, value: nat)
    requires Bound(syms, k, name, value) && k < |syms| && (syms[k].name != name || syms[k].value == 0)
    ensures Bound(syms, k + 1, name, value)
  {
    var i :| Binds(syms, i, k, name, value);
    assert Binds(syms, i, k + 1, name, value);
  }

  /** The table binds each name to its last symbol with a value, and leaves no such name out. */
  ghost predicate Table(syms: seq<Symbol>, symbols: map<string, nat>) {
    && (forall n :: n in symbols ==> Bound(syms, |syms|, n, symbols[n]))
    && forall i :: 0 <= i < |syms| && syms[i].value != 0 && syms[i].name != "" ==> syms[i].name in symbols
  }

  /** `parse_vdso_symbols`: a later symbol of the same name replaces an earlier one. */
  method ParseSymbols(syms: seq<Symbol>) returns (symbols: map<string, nat>)
    ensures Table(syms, symbols)
  {
    symbols := map[];
    for k := 0 to |syms|
      invariant forall n :: n in symbols ==> Bound(syms, k, n, symbols[n])
      invariant forall i :: 0 <= i < k && syms[i].value != 0 && syms[i].name != "" ==> syms[i].name in symbols
      invariant "" !in symbols
    {
      ghost var before := symbols;
      if syms[k].value != 0 && syms[k].name != "" {
        assert Binds(syms, k, k + 1, syms[k].name, syms[k].value);
        symbols := symbols[syms[k].name := syms[k].value];
      }
      forall n | n in symbols ensures Bound(syms, k + 1, n, symbols[n]) {
        if n in before && (n != syms[k].name || syms[k].value == 0) {
          BoundLater(syms, k, n, symbols[n]);
        }
      }
    }
  }

  /** `vdso_tramp_start`: past every symbol, rounded up to 16. None when there is no symbol. */
  method TrampStart(syms: seq<Symbol>) returns (r: Option<nat>)
    ensures r.None? <==> forall i :: 0 <= i < |syms| ==> syms[i].value == 0
    ensures r.Some? ==> r.value % 16 == 0
    ensures r.Some? ==> forall i :: 0 <= i < |syms| && syms[i].value != 0 ==> syms[i].value + syms[i].size <= r.value
    ensures r.Some? ==> exists i :: 0 <= i < |syms| && syms[i].value != 0 && r.value < syms[i].value + syms[i].size + 16
  {
    var best: Option<nat> := None;
    for k := 0 to |syms|
      invariant best.None? <==> forall i :: 0 <= i < k ==> syms[i].value == 0
      invariant best.Some? ==>
                  forall i :: 0 <= i < k && syms[i].value != 0 ==> syms[i].value + syms[i].size <= best.value
      invariant best.Some? ==>
                  exists i :: 0 <= i < k && syms[i].value != 0 && best.value == syms[i].value + syms[i].size
    {
      if syms[k].value != 0 {
        var end := syms[k].value + syms[k].size;
        if best.None? || end > best.value {
          best := Some(end);
        }
      }
    }
    r := if best.None? then None else Some((best.value + 15) / 16 * 16);
  }

  /** How a jump is encoded, and where control goes from a word that is one. */
  type Encoder = (u64, u64) -> Option<u32>
  type Reader = (u64, u32) -> Option<u64>

  function ArmTarget(from: u64, w: u32): Option<u64> {
    if IsArmBranch(w) then Some(Wrap(from + ArmBranchOffset(w))) else None
  }

  function RiscvTarget(from: u64, w: u32): Option<u64> {
    if IsRiscvJump(w) then Some(Wrap(from + RiscvJumpOffset(w))) else None
  }

  function JumpWord(arch: Arch): Encoder {
    if arch.Arm? then ArmBranch else RiscvJump
  }

  function JumpTarget(arch: Arch): Reader {
    if arch.Arm? then ArmTarget else RiscvTarget
  }

  /** The jump from an entry to a stub, both as offsets in the mapping. */
  type Reach = (nat, nat) -> Option<u32>

  function ReachOf(jump: Encoder, base: u64): Reach {
    (entry: nat, at: nat) => jump(At(base, entry), At(base, at))
  }

  /** Encoded jumps land where they were meant to. */
  ghost predicate Lands(jump: Encoder, target: Reader) {
    forall from: u64, to: u64 {:trigger jump(from, to)} :: jump(from, to).Some? ==>
      target(from, jump(from, to).value) == Some(to)
  }

  /** The same of jumps between offsets. */
  ghost predicate Arrives(reach: Reach, target: Reader, base: u64) {
    forall entry: nat, at: nat {:trigger reach(entry, at)} :: reach(entry, at).Some? ==>
      target(At(base, entry), reach(entry, at).value) == Some(At(base, at))
  }

  lemma ArmLands(from: u64, to: u64)
    requires ArmBranch(from, to).Some?
    ensures ArmTarget(from, ArmBranch(from, to).value) == Some(to)
  {
    ArmBranchLands(from, to);
  }

  lemma RiscvLands(from: u64, to: u64)
    requires RiscvJump(from, to).Some?
    ensures RiscvTarget(from, RiscvJump(from, to).value) == Some(to)
  {
    RiscvJumpLands(from, to);
  }

  lemma JumpLands(arch: Arch)
    ensures Lands(JumpWord(arch), JumpTarget(arch))
  {
    forall from: u64, to: u64 {:trigger JumpWord(arch)(from, to)} | JumpWord(arch)(from, to).Some?
      ensures JumpTarget(arch)(from, JumpWord(arch)(from, to).value) == Some(to)
    {
      if arch.Arm? {
        ArmLands(from, to);
      } else {
        RiscvLands(from, to);
      }
    }
  }

  /** Every stub is aligned, between `start` and `next`, and after every entry word. */
  ghost predicate Placed(p: Placement, start: nat, next: nat) {
    p.entry + 4 <= start <= p.at && p.at % 4 == 0 && p.at + |p.stub| <= next
  }

  ghost predicate Laid(placed: seq<Placement>, start: nat, next: nat) {
    && (forall i :: 0 <= i < |placed| ==> Placed(placed[i], start, next))
    && forall i, j :: 0 <= i < j < |placed| ==> placed[i].at + |placed[i].stub| <= placed[j].at
  }

  /** Each entry holds a jump to its stub. */
  ghost predicate Linked(target: Reader, base: u64, placed: seq<Placement>) {
    forall i :: 0 <= i < |placed| ==>
      target(At(base, placed[i].entry), placed[i].word) == Some(At(base, placed[i].at))
  }

  ghost predicate EntriesApart(placed: seq<Placement>) {
    forall i, j :: 0 <= i < j < |placed| ==>
      placed[i].entry + 4 <= placed[j].entry || placed[j].entry + 4 <= placed[i].entry
  }

  /** Bytes `bytes` stand at `at`. */
  ghost predicate Stands(m: seq<byte>, at: nat, bytes: seq<byte>) {
    at + |bytes| <= |m| && m[at..at + |bytes|] == bytes
  }

  /** All stubs stand whole and, when entries do not overlap, so do all jumps. */
  ghost predicate Written(m: seq<byte>, placed: seq<Placement>) {
    && (forall i :: 0 <= i < |placed| ==> Stands(m, placed[i].at, placed[i].stub))
    && (EntriesApart(placed) ==> forall i :: 0 <= i < |placed| ==> Stands(m, placed[i].entry, Le(placed[i].word, 4)))
  }

  /** Outside stubs and entry words nothing has changed. */
  ghost predicate Elsewhere(before: seq<byte>, after: seq<byte>, placed: seq<Placement>) {
    && |before| == |after|
    && forall x :: 0 <= x < |before| && (forall i :: 0 <= i < |placed| ==> !Covers(placed[i], x)) ==>
         after[x] == before[x]
  }

  predicate Covers(p: Placement, x: int) {
    p.entry <= x < p.entry + 4 || p.at <= x < p.at + |p.stub|
  }

  lemma OverKeeps(m: seq<byte>, at: nat, bytes: seq<byte>, lo: nat, part: seq<byte>)
    requires at + |bytes| <= |m| && Stands(m, lo, part) && (lo + |part| <= at || at + |bytes| <= lo)
    ensures Stands(Over(m, at, bytes), lo, part)
  {
    forall i | 0 <= i < |part| ensures Over(m, at, bytes)[lo + i] == part[i] {
      assert m[lo + i] == m[lo..lo + |part|][i];
    }
  }

  lemma OverStands(m: seq<byte>, at: nat, bytes: seq<byte>)
    requires at + |bytes| <= |m|
    ensures Stands(Over(m, at, bytes), at, bytes)
  {
  }

  // ---- The loop ----

  /** The symbol a job patches, by either of its names. */
  function Lookup(symbols: map<string, nat>, job: Job): Option<nat> {
    if job.name in symbols then Some(symbols[job.name])
    else if job.alt in symbols then Some(symbols[job.alt])
    else None
  }

  /** The next multiple of four. */
  function Aligned(n: nat): (r: nat)
    ensures n <= r < n + 4 && r % 4 == 0
  {
    if n % 4 == 0 then n else n + 4 - n % 4
  }

  /** The placements of the jobs from offset `off` on, and whether all of them were made. */
  function Plan(reach: Reach, symbols: map<string, nat>, jobs: seq<Job>, off: nat, size: nat)
    : (seq<Placement>, bool)
  {
    if jobs == [] then ([], true)
    else
      var found := Lookup(symbols, jobs[0]);
      if found.None? then Plan(reach, symbols, jobs[1..], off, size)
      else
        var stub := jobs[0].stub;
        var word := reach(found.value, off);
        if off + |stub| > size || word.None? then ([], false)
        else
          var rest := Plan(reach, symbols, jobs[1..], Aligned(off + |stub|), size);
          ([Placement(found.value, off, stub, word.value)] + rest.0, rest.1)
  }

  ghost predicate Below(symbols: map<string, nat>, start: nat) {
    forall n :: n in symbols ==> symbols[n] + 4 <= start
  }

  lemma LaidCons(target: Reader, base: u64, p: Placement, rest: seq<Placement>, start: nat, next: nat)
    requires Placed(p, start, next) && Laid(rest, start, next) && Linked(target, base, rest)
    requires target(At(base, p.entry), p.word) == Some(At(base, p.at))
    requires forall i :: 0 <= i < |rest| ==> p.at + |p.stub| <= rest[i].at
    ensures Laid([p] + rest, start, next) && Linked(target, base, [p] + rest)
  {
  }

  /** Stubs are pairwise disjoint, aligned, inside the mapping and clear of every entry word. */
  lemma {:induction false} PlanLaid(reach: Reach, target: Reader, base: u64, symbols: map<string, nat>,
                                    jobs: seq<Job>, start: nat, off: nat, size: nat)
    requires Arrives(reach, target, base) && Below(symbols, start) && start <= off && off % 4 == 0
    ensures var placed := Plan(reach, symbols, jobs, off, size).0;
            && Laid(placed, start, size) && Linked(target, base, placed)
            && forall i :: 0 <= i < |placed| ==> off <= placed[i].at
    decreases |jobs|
  {
    if jobs != [] {
      var found := Lookup(symbols, jobs[0]);
      if found.None? {
        PlanLaid(reach, target, base, symbols, jobs[1..], start, off, size);
      } else {
        var stub := jobs[0].stub;
        var word := reach(found.value, off);
        if off + |stub| <= size && word.Some? {
          var next := Aligned(off + |stub|);
          PlanLaid(reach, target, base, symbols, jobs[1..], start, next, size);
          var p, rest := Placement(found.value, off, stub, word.value),
                         Plan(reach, symbols, jobs[1..], next, size).0;
          LaidCons(target, base, p, rest, start, size);
          assert Plan(reach, symbols, jobs, off, size).0 == [p] + rest;
        }
      }
    }
  }

  /** The entry and stub of every job whose symbol exists, in order. */
  function Found(symbols: map<string, nat>, jobs: seq<Job>): seq<(nat, seq<byte>)> {
    if jobs == [] then []
    else
      var found := Lookup(symbols, jobs[0]);
      (if found.Some? then [(found.value, jobs[0].stub)] else []) + Found(symbols, jobs[1..])
  }

  /** A plan places the first jobs in order, and all of them exactly when it reports success. */
  lemma {:induction false} PlanComplete(reach: Reach, symbols: map<string, nat>, jobs: seq<Job>, off: nat,
                                        size: nat)
    ensures var plan, found := Plan(reach, symbols, jobs, off, size), Found(symbols, jobs);
            && |plan.0| <= |found| && (plan.1 <==> |plan.0| == |found|)
            && forall i :: 0 <= i < |plan.0| ==> (plan.0[i].entry, plan.0[i].stub) == found[i]
    decreases |jobs|
  {
    if jobs != [] {
      var found := Lookup(symbols, jobs[0]);
      if found.None? {
        PlanComplete(reach, symbols, jobs[1..], off, size);
        assert Found(symbols, jobs) == Found(symbols, jobs[1..]);
      } else if off + |jobs[0].stub| <= size && reach(found.value, off).Some? {
        PlanComplete(reach, symbols, jobs[1..], Aligned(off + |jobs[0].stub|), size);
      }
    }
  }

  /** The first multiple of four behind stubs placed from `start` on. */
  function FreeAt(placed: seq<Placement>, start: nat): nat {
    if placed == [] then start else FreeAt(placed[1..], Aligned(start + |placed[0].stub|))
  }

  /** Stubs follow one another from `start` with no gap but for alignment. */
  predicate Packed(placed: seq<Placement>, start: nat) {
    placed == [] || (placed[0].at == start && Packed(placed[1..], Aligned(start + |placed[0].stub|)))
  }

  /** Why a plan stops: the next stub runs past the mapping or its jump cannot reach it. */
  predicate Refused(reach: Reach, size: nat, at: nat, target: (nat, seq<byte>)) {
    at + |target.1| > size || reach(target.0, at).None?
  }

  /** Packed stubs, and on failure a reason at the next job. */
  ghost predicate Explained(reach: Reach, size: nat, start: nat, wanted: seq<(nat, seq<byte>)>, ok: bool,
                            placed: seq<Placement>)
  {
    && Packed(placed, start)
    && (!ok ==> |placed| < |wanted| && Refused(reach, size, FreeAt(placed, start), wanted[|placed|]))
  }

  lemma ExplainedCons(reach: Reach, size: nat, p: Placement, rest: seq<Placement>, start: nat, next: nat,
                      w: (nat, seq<byte>), wanted: seq<(nat, seq<byte>)>, ok: bool)
    requires p.at == start && next == Aligned(p.at + |p.stub|) && Explained(reach, size, next, wanted, ok, rest)
    ensures Explained(reach, size, start, [w] + wanted, ok, [p] + rest)
  {
    assert ([p] + rest)[1..] == rest;
    if !ok {
      assert ([w] + wanted)[|rest| + 1] == wanted[|rest|];
    }
  }

  /** A plan packs its stubs, and one that fails stops at the first job it has to refuse. */
  lemma {:induction false} PlanPacked(reach: Reach, symbols: map<string, nat>, jobs: seq<Job>, off: nat,
                                      size: nat)
    ensures var plan := Plan(reach, symbols, jobs, off, size);
            Explained(reach, size, off, Found(symbols, jobs), plan.1, plan.0)
    decreases |jobs|
  {
    if jobs != [] {
      var found, stub := Lookup(symbols, jobs[0]), jobs[0].stub;
      if found.None? {
        PlanPacked(reach, symbols, jobs[1..], off, size);
        assert Found(symbols, jobs) == Found(symbols, jobs[1..]);
      } else {
        var word := reach(found.value, off);
        if off + |stub| <= size && word.Some? {
          var next := Aligned(off + |stub|);
          PlanPacked(reach, symbols, jobs[1..], next, size);
          var rest := Plan(reach, symbols, jobs[1..], next, size);
          ExplainedCons(reach, size, Placement(found.value, off, stub, word.value), rest.0, off, next,
                        (found.value, stub), Found(symbols, jobs[1..]), rest.1);
        }
      }
    }
  }

  /** The entry and stub of each placement. */
  function Pairs(placed: seq<Placement>): (r: seq<(nat, seq<byte>)>)
    ensures |r| == |placed| && forall i :: 0 <= i < |r| ==> r[i] == (placed[i].entry, placed[i].stub)
  {
    seq(|placed|, i requires 0 <= i < |placed| => (placed[i].entry, placed[i].stub))
  }

  /** The placements are the first of the jobs with a symbol, all of them on success; a failure names its cause. */
  ghost predicate Serves(arch: Arch, base: u64, size: nat, start: nat, wanted: seq<(nat, seq<byte>)>, ok: bool,
                         placed: seq<Placement>)
  {
    && Pairs(placed) <= wanted && Packed(placed, start)
    && (ok <==> Pairs(placed) == wanted)
    && (!ok ==> Refused(ReachOf(JumpWord(arch), base), size, FreeAt(placed, start), wanted[|placed|]))
  }

  lemma PlanServes(arch: Arch, base: u64, symbols: map<string, nat>, jobs: seq<Job>, start: nat, size: nat)
    ensures var plan := Plan(ReachOf(JumpWord(arch), base), symbols, jobs, start, size);
            Serves(arch, base, size, start, Found(symbols, jobs), plan.1, plan.0)
  {
    PlanComplete(ReachOf(JumpWord(arch), base), symbols, jobs, start, size);
    PlanPacked(ReachOf(JumpWord(arch), base), symbols, jobs, start, size);
  }

  lemma {:induction false} FoundIsWanted(syms: seq<Symbol>, symbols: map<string, nat>, jobs: seq<Job>)
    requires Table(syms, symbols)
    ensures Found(symbols, jobs) == Wanted(syms, jobs)
  {
    if jobs != [] {
      FoundIsWanted(syms, symbols, jobs[1..]);
      LookupIsTarget(syms, symbols, jobs[0]);
    }
  }

  lemma LookupIsTarget(syms: seq<Symbol>, symbols: map<string, nat>, job: Job)
    requires Table(syms, symbols)
    ensures forall e: nat :: Target(syms, job, e) <==> Lookup(symbols, job) == Some(e)
  {
    forall n, v | Bound(syms, |syms|, n, v) ensures n in symbols && symbols[n] == v {
      var i :| Binds(syms, i, |syms|, n, v);
      BoundUnique(syms, |syms|, n, v, symbols[n]);
    }
  }

  /** Writing a stub in the slack and then a jump below it keeps all that stands. */
  lemma WrittenStep(m: seq<byte>, placed: seq<Placement>, p: Placement, start: nat)
    requires Laid(placed, start, p.at) && Placed(p, start, |m|) && Written(m, placed)
    ensures Written(Over(Over(m, p.at, p.stub), p.entry, Le(p.word, 4)), placed + [p])
  {
    var m1 := Over(m, p.at, p.stub);
    var m2 := Over(m1, p.entry, Le(p.word, 4));
    var all := placed + [p];
    OverStands(m, p.at, p.stub);
    OverKeeps(m1, p.entry, Le(p.word, 4), p.at, p.stub);
    OverStands(m1, p.entry, Le(p.word, 4));
    forall i | 0 <= i < |placed| ensures Stands(m2, all[i].at, all[i].stub) {
      OverKeeps(m, p.at, p.stub, placed[i].at, placed[i].stub);
      OverKeeps(m1, p.entry, Le(p.word, 4), placed[i].at, placed[i].stub);
    }
    if EntriesApart(all) {
      assert forall i, j :: 0 <= i < j < |placed| ==> all[i] == placed[i] && all[j] == placed[j];
      forall i | 0 <= i < |placed| ensures Stands(m2, all[i].entry, Le(all[i].word, 4)) {
        OverKeeps(m, p.at, p.stub, placed[i].entry, Le(placed[i].word, 4));
        assert all[i] == placed[i] && all[|placed|] == p;
        OverKeeps(m1, p.entry, Le(p.word, 4), placed[i].entry, Le(placed[i].word, 4));
      }
    }
  }

  lemma ElsewhereStep(before: seq<byte>, m: seq<byte>, placed: seq<Placement>, p: Placement)
    requires Elsewhere(before, m, placed) && p.at + |p.stub| <= |m| && p.entry + 4 <= |m|
    ensures Elsewhere(before, Over(Over(m, p.at, p.stub), p.entry, Le(p.word, 4)), placed + [p])
  {
    var m2 := Over(Over(m, p.at, p.stub), p.entry, Le(p.word, 4));
    var all := placed + [p];
    forall x | 0 <= x < |before| && (forall i :: 0 <= i < |all| ==> !Covers(all[i], x)) ensures m2[x] == before[x] {
      assert !Covers(all[|placed|], x);
      forall i | 0 <= i < |placed| ensures !Covers(placed[i], x) {
        assert !Covers(all[i], x);
      }
    }
  }

  /** What holds between two targets: all stubs so far stand below `off`, all else is as before. */
  ghost predicate Underway(before: seq<byte>, m: seq<byte>, placed: seq<Placement>, start: nat, off: nat) {
    start <= off && off % 4 == 0 && Laid(placed, start, off) && Written(m, placed) && Elsewhere(before, m, placed)
  }

  lemma UnderwayStep(before: seq<byte>, m: seq<byte>, placed: seq<Placement>, p: Placement, start: nat)
    requires Underway(before, m, placed, start, p.at) && Placed(p, start, |m|)
    ensures Underway(before, Over(Over(m, p.at, p.stub), p.entry, Le(p.word, 4)), placed + [p], start,
                     Aligned(p.at + |p.stub|))
  {
    WrittenStep(m, placed, p, start);
    ElsewhereStep(before, m, placed, p);
  }

  /** `placed` followed by the plan for the remaining jobs is the plan for all. */
  ghost predicate Follows(reach: Reach, symbols: map<string, nat>, jobs: seq<Job>, start: nat, size: nat,
                          k: nat, placed: seq<Placement>, off: nat)
    requires k <= |jobs|
  {
    var all, rest := Plan(reach, symbols, jobs, start, size), Plan(reach, symbols, jobs[k..], off, size);
    all.0 == placed + rest.0 && all.1 == rest.1
  }

  /** One job of the loop: whether it is not refused, and the placements and the offset after it. */
  function JobStep(reach: Reach, symbols: map<string, nat>, job: Job, placed: seq<Placement>, off: nat,
                   size: nat): (bool, seq<Placement>, nat)
  {
    var found := Lookup(symbols, job);
    if found.None? then (true, placed, off)
    else
      var word := reach(found.value, off);
      if off + |job.stub| > size || word.None? then (false, placed, off)
      else (true, placed + [Placement(found.value, off, job.stub, word.value)], Aligned(off + |job.stub|))
  }

  lemma FollowsStep(reach: Reach, symbols: map<string, nat>, jobs: seq<Job>, start: nat, size: nat,
                    k: nat, placed: seq<Placement>, off: nat)
    requires k < |jobs| && Follows(reach, symbols, jobs, start, size, k, placed, off)
    ensures var (ok, placed', off') := JobStep(reach, symbols, jobs[k], placed, off, size);
            if ok then Follows(reach, symbols, jobs, start, size, k + 1, placed', off')
            else Plan(reach, symbols, jobs, start, size) == (placed', false)
  {
    assert jobs[k..][0] == jobs[k] && jobs[k..][1..] == jobs[k + 1..];
    assert placed + [] == placed;
  }

  /** Below `start` only entry words have changed. */
  ghost predicate SlackOnly(before: seq<byte>, after: seq<byte>, placed: seq<Placement>, start: nat) {
    && |before| == |after|
    && forall x :: 0 <= x < |before| && x < start && (forall i :: 0 <= i < |placed| ==> !Covers(placed[i], x)) ==>
         after[x] == before[x]
  }

  /** What a refused target leaves: the targets before it whole, and no other entry touched. */
  ghost predicate Halted(before: seq<byte>, after: seq<byte>, placed: seq<Placement>, start: nat) {
    Written(after, placed) && SlackOnly(before, after, placed, start)
  }

  lemma NotYetWritten(before: seq<byte>, m: seq<byte>, placed: seq<Placement>, start: nat, off: nat)
    requires Underway(before, m, placed, start, off)
    ensures Halted(before, m, placed, start)
  {
  }

  /** A stub written past `off` shows neither below `start` nor in the targets already placed. */
  lemma StubInSlack(before: seq<byte>, m: seq<byte>, placed: seq<Placement>, start: nat, off: nat, stub: seq<byte>)
    requires Underway(before, m, placed, start, off) && off + |stub| <= |m|
    ensures Halted(before, Over(m, off, stub), placed, start)
  {
    forall i | 0 <= i < |placed| ensures Stands(Over(m, off, stub), placed[i].at, placed[i].stub) {
      OverKeeps(m, off, stub, placed[i].at, placed[i].stub);
    }
    if EntriesApart(placed) {
      forall i | 0 <= i < |placed| ensures Stands(Over(m, off, stub), placed[i].entry, Le(placed[i].word, 4)) {
        OverKeeps(m, off, stub, placed[i].entry, Le(placed[i].word, 4));
      }
    }
  }

  lemma NextSettles(before: seq<byte>, m: seq<byte>, m': seq<byte>, placed: seq<Placement>, start: nat,
                    off: nat, entry: nat, stub: seq<byte>, word: Option<u32>)
    requires Underway(before, m, placed, start, off) && entry + 4 <= start && off + |stub| <= |m|
    requires m' == if word.None? then Over(m, off, stub) else Over(Over(m, off, stub), entry, Le(word.value, 4))
    ensures word.None? ==> Halted(before, m', placed, start)
    ensures word.Some? ==>
              Underway(before, m', placed + [Placement(entry, off, stub, word.value)], start,
                       Aligned(off + |stub|))
  {
    if word.None? {
      StubInSlack(before, m, placed, start, off, stub);
    } else {
      UnderwayStep(before, m, placed, Placement(entry, off, stub, word.value), start);
    }
  }

  /** Write a stub, then the jump to it; no jump is written when the stub is out of its reach. */
  method PlaceOne(reach: Reach, mem: array<byte>, entry: nat, off: nat, stub: seq<byte>)
    returns (word: Option<u32>)
    requires entry + 4 <= off && off + |stub| <= mem.Length
    modifies mem
    ensures word == reach(entry, off)
    ensures mem[..] == if word.None? then Over(old(mem[..]), off, stub)
                       else Over(Over(old(mem[..]), off, stub), entry, Le(word.value, 4))
  {
    WriteAll(mem, off, stub);
    word := reach(entry, off);
    if word.Some? {
      WriteAll(mem, entry, Le(word.value, 4));
    }
  }

  /** One target of the loop: refused when the stub runs past the mapping or is out of reach. */
  method PlaceNext(reach: Reach, mem: array<byte>, entry: nat, off: nat, stub: seq<byte>,
                   ghost before: seq<byte>, ghost placed: seq<Placement>, ghost start: nat)
    returns (word: Option<u32>)
    requires Underway(before, mem[..], placed, start, off) && entry + 4 <= start
    modifies mem
    ensures word == if off + |stub| > mem.Length then None else reach(entry, off)
    ensures word.None? ==> Halted(before, mem[..], placed, start)
    ensures word.Some? ==>
              Underway(before, mem[..], placed + [Placement(entry, off, stub, word.value)], start,
                       Aligned(off + |stub|))
  {
    ghost var m := mem[..];
    if off + |stub| > mem.Length {
      NotYetWritten(before, m, placed, start, off);
      return None;
    }
    word := PlaceOne(reach, mem, entry, off, stub);
    NextSettles(before, m, mem[..], placed, start, off, entry, stub, word);
  }

  /** The body of the loop: a job whose symbol is missing is passed over. */
  method PlaceJob(reach: Reach, mem: array<byte>, symbols: map<string, nat>, job: Job,
                  placed: seq<Placement>, off: nat, ghost before: seq<byte>, ghost start: nat)
    returns (ok: bool, placed': seq<Placement>, off': nat)
    requires Below(symbols, start) && Underway(before, mem[..], placed, start, off)
    modifies mem
    ensures (ok, placed', off') == JobStep(reach, symbols, job, placed, off, mem.Length)
    ensures if ok then Underway(before, mem[..], placed', start, off') else Halted(before, mem[..], placed', start)
  {
    var found := Lookup(symbols, job);
    if found.None? {
      return true, placed, off;
    }
    var word := PlaceNext(reach, mem, found.value, off, job.stub, before, placed, start);
    if word.None? {
      return false, placed, off;
    }
    return true, placed + [Placement(found.value, off, job.stub, word.value)], Aligned(off + |job.stub|);
  }

  /** The loop of `patch` over the targets. */
  method PlaceAll(reach: Reach, mem: array<byte>, symbols: map<string, nat>, start: nat, jobs: seq<Job>)
    returns (ok: bool, placed: seq<Placement>)
    requires start % 4 == 0 && Below(symbols, start)
    modifies mem
    ensures (placed, ok) == Plan(reach, symbols, jobs, start, mem.Length)
    ensures ok ==> Written(mem[..], placed) && Elsewhere(old(mem[..]), mem[..], placed)
    ensures !ok ==> Halted(old(mem[..]), mem[..], placed, start)
  {
    ok, placed := true, [];
    var off: nat := start;
    ghost var before := mem[..];
    assert jobs[0..] == jobs;
    for k := 0 to |jobs|
      invariant ok && Underway(before, mem[..], placed, start, off)
      invariant Follows(reach, symbols, jobs, start, mem.Length, k, placed, off)
    {
      FollowsStep(reach, symbols, jobs, start, mem.Length, k, placed, off);
      ok, placed, off := PlaceJob(reach, mem, symbols, jobs[k], placed, off, before, start);
      if !ok {
        return;
      }
    }
    assert jobs[|jobs|..] == [] && placed + [] == placed;
  }

  /** The placements are disjoint, aligned, inside the mapping, and each entry jumps to its stub. */
  ghost predicate Sound(arch: Arch, base: u64, placed: seq<Placement>, size: nat) {
    (exists start: nat :: Laid(placed, start, size)) && Linked(JumpTarget(arch), base, placed)
  }

  lemma PlanGood(arch: Arch, base: u64, symbols: map<string, nat>, jobs: seq<Job>, start: nat, size: nat)
    requires Below(symbols, start) && start % 4 == 0
    ensures Sound(arch, base, Plan(ReachOf(JumpWord(arch), base), symbols, jobs, start, size).0, size)
  {
    ReachArrives(arch, base);
    PlanLaid(ReachOf(JumpWord(arch), base), JumpTarget(arch), base, symbols, jobs, start, start, size);
  }

  lemma ReachArrives(arch: Arch, base: u64)
    ensures Arrives(ReachOf(JumpWord(arch), base), JumpTarget(arch), base)
  {
    JumpLands(arch);
  }

  /** Where the slack begins: the least multiple of 16 behind every symbol, zero when there is none. */
  ghost predicate Slack(syms: seq<Symbol>, start: nat) {
    && start % 16 == 0
    && (forall i :: 0 <= i < |syms| && syms[i].value != 0 ==> syms[i].value + syms[i].size <= start)
    && (start == 0 || exists i :: 0 <= i < |syms| && syms[i].value != 0 && start < syms[i].value + syms[i].size + 16)
  }

  ghost predicate Spacious(syms: seq<Symbol>) {
    forall i :: 0 <= i < |syms| && syms[i].value != 0 ==> syms[i].size >= 4
  }

  /** Every symbol in the table ends before the trampoline area. */
  lemma SymbolsBelow(syms: seq<Symbol>, symbols: map<string, nat>, start: nat)
    requires Spacious(syms) && Slack(syms, start) && Table(syms, symbols)
    ensures Below(symbols, start)
  {
    forall n | n in symbols ensures symbols[n] + 4 <= start {
      var i :| Binds(syms, i, |syms|, n, symbols[n]);
    }
  }

  method SlackStart(syms: seq<Symbol>) returns (start: nat)
    ensures Slack(syms, start)
  {
    var first := TrampStart(syms);
    start := if first.None? then 0 else first.value;
  }

  /** The redirection of all jobs from a given table and start of the slack. */
  method Redirect(arch: Arch, base: u64, mem: array<byte>, symbols: map<string, nat>, start: nat, jobs: seq<Job>)
    returns (ok: bool, placed: seq<Placement>)
    requires start % 4 == 0 && Below(symbols, start)
    modifies mem
    ensures Serves(arch, base, mem.Length, start, Found(symbols, jobs), ok, placed)
    ensures Sound(arch, base, placed, mem.Length) && Written(mem[..], placed)
    ensures ok ==> Elsewhere(old(mem[..]), mem[..], placed)
  {
    PlanGood(arch, base, symbols, jobs, start, mem.Length);
    PlanServes(arch, base, symbols, jobs, start, mem.Length);
    ok, placed := PlaceAll(ReachOf(JumpWord(arch), base), mem, symbols, start, jobs);
  }

  /**
   `patch` on a trampoline architecture, given that every symbol spans at least the four bytes
   of a jump. The jobs whose symbol exists are redirected in order, all of them exactly on
   success. Each entry then holds a jump to its whole stub; the stubs are packed, aligned,
   disjoint, inside the mapping and clear of all entries; nothing else has changed. On failure
   the targets already redirected are just as whole.
   */
  method Patch(arch: Arch, base: u64, mem: array<byte>, syms: seq<Symbol>, jobs: seq<Job>)
    returns (ok: bool, placed: seq<Placement>)
    requires Spacious(syms)
    modifies mem
    ensures exists start :: Slack(syms, start) && Serves(arch, base, mem.Length, start, Wanted(syms, jobs), ok, placed)
    ensures Sound(arch, base, placed, mem.Length) && Written(mem[..], placed)
    ensures ok ==> Elsewhere(old(mem[..]), mem[..], placed)
  {
    var symbols := ParseSymbols(syms);
    var start := SlackStart(syms);
    SymbolsBelow(syms, symbols, start);
    FoundIsWanted(syms, symbols, jobs);
    ok, placed := Redirect(arch, base, mem, symbols, start, jobs);
  }
}
