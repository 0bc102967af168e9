/**
 The complete seccomp filter: architecture check, argument block, notification and
 deny jump tables, and four shared returns reached by computed u8 distances.
 */
module FilterAssembly {
  import opened Prelude
  import opened Bpf
  import ArgFilters

  datatype AsmError = Overlap(nr: u32) | TooLarge(total: nat)
  datatype AsmResult = Ok(prog: seq<SockFilter>) | Err(error: AsmError)

  const MAX_BPF_INSNS: nat := 4096

  function Total(notif: seq<u32>, deny: seq<u32>, arg: seq<SockFilter>): nat {
    2 + |arg| + 1 + |notif| + |deny| + 4
  }

  /** One JEQ per syscall number, each jumping to the shared return at `target`. */
  function JumpTable(nrs: seq<u32>, base: nat, target: nat): (r: seq<SockFilter>)
    requires base + |nrs| <= target
    ensures |r| == |nrs|
    ensures forall i :: 0 <= i < |nrs| ==> r[i] == JumpEq(nrs[i], AsU8(target - (base + i + 1)), 0)
  {
    if nrs == [] then []
    else
      var n := |nrs| - 1;
      JumpTable(nrs[..n], base, target) + [JumpEq(nrs[n], AsU8(target - (base + n + 1)), 0)]
  }

  const RETURNS: seq<SockFilter> :=
    [Return(SECCOMP_RET_ALLOW), Return(SECCOMP_RET_USER_NOTIF), Return(RET_EPERM), Return(SECCOMP_RET_KILL_PROCESS)]

  function ArchCheck(arch: u32, total: nat): seq<SockFilter>
    requires total >= 3
  {
    [LoadAbs(OFFSET_ARCH), JumpEq(arch, 0, AsU8(total - 1 - 2))]
  }

  function Assembled(arch: u32, notif: seq<u32>, deny: seq<u32>, arg: seq<SockFilter>): seq<SockFilter> {
    var total := Total(notif, deny, arg);
    var notifBase := 2 + |arg| + 1;
    ArchCheck(arch, total) + arg + [LoadAbs(OFFSET_NR)]
    + JumpTable(notif, notifBase, total - 3)
    + JumpTable(deny, notifBase + |notif|, total - 2)
    + RETURNS
  }

  lemma FourReturns(p: seq<SockFilter>)
    ensures p + [Return(SECCOMP_RET_ALLOW)] + [Return(SECCOMP_RET_USER_NOTIF)] + [Return(RET_EPERM)]
            + [Return(SECCOMP_RET_KILL_PROCESS)]
            == p + RETURNS
  {
  }

  /** The assembler: refuses a syscall on both lists and an oversized program. */
  method AssembleFilter(arch: u32, notif: seq<u32>, deny: seq<u32>, arg: seq<SockFilter>) returns (r: AsmResult)
    ensures r.Ok? <==> (forall nr :: nr in notif ==> nr !in deny) && Total(notif, deny, arg) <= MAX_BPF_INSNS
    ensures r.Ok? ==> r.prog == Assembled(arch, notif, deny, arg)
    ensures r.Err? && r.error.Overlap? ==> r.error.nr in notif && r.error.nr in deny
    ensures r.Err? && r.error.TooLarge? ==>
              (forall nr :: nr in notif ==> nr !in deny) && r.error.total == |arg| + |notif| + |deny| + 7 > 4096
  {
    for i := 0 to |notif|
      invariant forall j :: 0 <= j < i ==> notif[j] !in deny
    {
      if notif[i] in deny {
        return Err(Overlap(notif[i]));
      }
    }
    var total := 2 + |arg| + 1 + |notif| + |deny| + 4;
    if total > MAX_BPF_INSNS {
      return Err(TooLarge(total));
    }
    var retKill := total - 1;
    var prog := [LoadAbs(OFFSET_ARCH)];
    prog := prog + [JumpEq(arch, 0, AsU8(retKill - 2))];
    prog := prog + arg;
    prog := prog + [LoadAbs(OFFSET_NR)];
    ghost var head := prog;
    var retNotif := total - 3;
    var notifBase := 2 + |arg| + 1;
    prog := EmitTable(prog, notif, notifBase, retNotif);
    var retErrno := total - 2;
    var denyBase := notifBase + |notif|;
    prog := EmitTable(prog, deny, denyBase, retErrno);
    assert head == ArchCheck(arch, total) + arg + [LoadAbs(OFFSET_NR)];
    FourReturns(prog);
    prog := prog + [Return(SECCOMP_RET_ALLOW)];
    prog := prog + [Return(SECCOMP_RET_USER_NOTIF)];
    prog := prog + [Return(RET_EPERM)];
    prog := prog + [Return(SECCOMP_RET_KILL_PROCESS)];
    r := Ok(prog);
  }

  /** The notification and deny loops. */
  method EmitTable(prog0: seq<SockFilter>, nrs: seq<u32>, base: nat, target: nat) returns (prog: seq<SockFilter>)
    requires base + |nrs| <= target
    ensures prog == prog0 + JumpTable(nrs, base, target)
  {
    prog := prog0;
    for i := 0 to |nrs|
      invariant prog == prog0 + JumpTable(nrs[..i], base, target)
    {
      var pos := base + i;
      prog := prog + [JumpEq(nrs[i], AsU8(target - (pos + 1)), 0)];
      assert nrs[..i + 1][..i] == nrs[..i];
    }
    assert nrs[..|nrs|] == nrs;
  }

  // ---- What the filter is meant to decide ----

  /** Foreign architectures die; the argument policy goes first; then notification,
      then the blocklist; anything else is allowed. */
  function Decision(arch: u32, notif: seq<u32>, deny: seq<u32>, argVerdict: Option<u32>, d: SeccompData): u32 {
    if d.arch != arch then SECCOMP_RET_KILL_PROCESS
    else if argVerdict.Some? then argVerdict.value
    else if d.nr in notif then SECCOMP_RET_USER_NOTIF
    else if d.nr in deny then RET_EPERM
    else SECCOMP_RET_ALLOW
  }

  /** Where everything sits in an assembled program. */
  predicate LaidOut(p: seq<SockFilter>, arch: u32, notif: seq<u32>, deny: seq<u32>, arg: seq<SockFilter>) {
    var total := Total(notif, deny, arg);
    var nb := 2 + |arg| + 1;
    var db := nb + |notif|;
    && |p| == total
    && p[0] == LoadAbs(OFFSET_ARCH) && p[1] == JumpEq(arch, 0, AsU8(total - 3))
    && p[2..2 + |arg|] == arg
    && p[nb - 1] == LoadAbs(OFFSET_NR)
    && (forall i :: 0 <= i < |notif| ==> p[nb + i] == JumpEq(notif[i], AsU8(total - 3 - (nb + i + 1)), 0))
    && (forall i :: 0 <= i < |deny| ==> p[db + i] == JumpEq(deny[i], AsU8(total - 2 - (db + i + 1)), 0))
    && p[total - 4..] == RETURNS
  }

  /** Reading the head of a concatenation. */
  lemma HeadAt(check: seq<SockFilter>, arg: seq<SockFilter>, load: seq<SockFilter>, rest: seq<SockFilter>,
               p: seq<SockFilter>)
    requires |check| == 2 && |load| == 1 && p == check + arg + load + rest
    ensures p[0] == check[0] && p[1] == check[1] && p[2..2 + |arg|] == arg && p[2 + |arg|] == load[0]
  {
  }

  /** Reading the tables after the head. */
  lemma SegmentsAt(head: seq<SockFilter>, t1: seq<SockFilter>, t2: seq<SockFilter>, end: seq<SockFilter>,
                   p: seq<SockFilter>)
    requires p == head + t1 + t2 + end
    ensures forall i {:trigger t1[i]} :: 0 <= i < |t1| ==> p[|head| + i] == t1[i]
    ensures forall i {:trigger t2[i]} :: 0 <= i < |t2| ==> p[|head| + |t1| + i] == t2[i]
    ensures p[|head| + |t1| + |t2|..] == end
  {
  }

  lemma Layout(arch: u32, notif: seq<u32>, deny: seq<u32>, arg: seq<SockFilter>)
    ensures LaidOut(Assembled(arch, notif, deny, arg), arch, notif, deny, arg)
  {
    var total, nb := Total(notif, deny, arg), 2 + |arg| + 1;
    var t1, t2 := JumpTable(notif, nb, total - 3), JumpTable(deny, nb + |notif|, total - 2);
    LayoutFrom(Assembled(arch, notif, deny, arg), arch, notif, deny, arg, t1, t2);
  }

  lemma LayoutFrom(p: seq<SockFilter>, arch: u32, notif: seq<u32>, deny: seq<u32>, arg: seq<SockFilter>,
                   t1: seq<SockFilter>, t2: seq<SockFilter>)
    requires |t1| == |notif| && |t2| == |deny|
    requires var total, nb := Total(notif, deny, arg), 2 + |arg| + 1;
             && p == ArchCheck(arch, total) + arg + [LoadAbs(OFFSET_NR)] + t1 + t2 + RETURNS
             && (forall i :: 0 <= i < |t1| ==> t1[i] == JumpEq(notif[i], AsU8(total - 3 - (nb + i + 1)), 0))
             && (forall i :: 0 <= i < |t2| ==> t2[i] == JumpEq(deny[i], AsU8(total - 2 - (nb + |notif| + i + 1)), 0))
    ensures LaidOut(p, arch, notif, deny, arg)
  {
    var check, load := ArchCheck(arch, Total(notif, deny, arg)), [LoadAbs(OFFSET_NR)];
    assert p == check + arg + load + (t1 + t2 + RETURNS);
    HeadAt(check, arg, load, t1 + t2 + RETURNS, p);
    SegmentsAt(check + arg + load, t1, t2, RETURNS, p);
  }

  /** Running a jump table: a listed number reaches the target, any other the code after. */
  lemma {:induction false} TableRuns(p: seq<SockFilter>, nrs: seq<u32>, base: nat, target: nat, i: nat, nr: u32,
                                     d: SeccompData)
    requires i <= |nrs| && base + |nrs| <= target < |p| && target - base <= 256
    requires forall j :: 0 <= j < |nrs| ==> p[base + j] == JumpEq(nrs[j], AsU8(target - (base + j + 1)), 0)
    ensures Exec(p, base + i, nr, d) == Exec(p, if nr in nrs[i..] then target else base + |nrs|, nr, d)
    decreases |nrs| - i
  {
    if i < |nrs| {
      assert nrs[i..] == [nrs[i]] + nrs[i + 1..];
      var ins := p[base + i];
      assert ins == JumpEq(nrs[i], AsU8(target - (base + i + 1)), 0);
      if nr == nrs[i] {
        assert Exec(p, base + i, nr, d) == Exec(p, target, nr, d);
      } else {
        assert Exec(p, base + i, nr, d) == Exec(p, base + i + 1, nr, d);
        TableRuns(p, nrs, base, target, i + 1, nr, d);
      }
    }
  }

  /** From the syscall-number load on: notification first, then deny, then allow. */
  lemma TailRuns(p: seq<SockFilter>, arch: u32, notif: seq<u32>, deny: seq<u32>, arg: seq<SockFilter>, acc: u32,
                 d: SeccompData)
    requires LaidOut(p, arch, notif, deny, arg) && |p| <= 258
    ensures Exec(p, 2 + |arg|, acc, d)
            == Ret(if d.nr in notif then SECCOMP_RET_USER_NOTIF else if d.nr in deny then RET_EPERM
                   else SECCOMP_RET_ALLOW)
  {
    var total, nb := |p|, 2 + |arg| + 1;
    assert Exec(p, nb - 1, acc, d) == Exec(p, nb, d.nr, d);
    TableRuns(p, notif, nb, total - 3, 0, d.nr, d);
    TableRuns(p, deny, nb + |notif|, total - 2, 0, d.nr, d);
    assert notif[0..] == notif && deny[0..] == deny;
    var rets := p[total - 4..];
    assert p[total - 4] == rets[0] && p[total - 3] == rets[1] && p[total - 2] == rets[2];
  }

  /** The architecture check, when its distance fits. */
  lemma ArchRuns(p: seq<SockFilter>, arch: u32, notif: seq<u32>, deny: seq<u32>, arg: seq<SockFilter>, d: SeccompData)
    requires LaidOut(p, arch, notif, deny, arg) && |p| <= 258
    ensures Exec(p, 0, 0, d) == if d.arch == arch then Exec(p, 2, d.arch, d) else Ret(SECCOMP_RET_KILL_PROCESS)
  {
    assert Exec(p, 0, 0, d) == Exec(p, 1, d.arch, d);
    if d.arch != arch {
      assert Exec(p, 1, d.arch, d) == Exec(p, |p| - 1, d.arch, d);
      assert p[|p| - 1] == p[|p| - 4..][3];
    }
  }

  /** A filter whose distances all fit decides exactly the policy. */
  lemma AssembledMeaning(arch: u32, notif: seq<u32>, deny: seq<u32>, arg: seq<SockFilter>, d: SeccompData,
                         v: Option<u32>)
    requires Total(notif, deny, arg) <= 258 && Gives(arg, d, v)
    ensures Exec(Assembled(arch, notif, deny, arg), 0, 0, d) == Ret(Decision(arch, notif, deny, v, d))
  {
    Layout(arch, notif, deny, arg);
    MeaningFromLayout(Assembled(arch, notif, deny, arg), arch, notif, deny, arg, d, v);
  }

  lemma MeaningFromLayout(p: seq<SockFilter>, arch: u32, notif: seq<u32>, deny: seq<u32>, arg: seq<SockFilter>,
                          d: SeccompData, v: Option<u32>)
    requires LaidOut(p, arch, notif, deny, arg) && |p| <= 258 && Gives(arg, d, v)
    ensures Exec(p, 0, 0, d) == Ret(Decision(arch, notif, deny, v, d))
  {
    ArchRuns(p, arch, notif, deny, arg, d);
    if d.arch == arch {
      ArgRuns(p, arg, d.arch, d);
      var o := Exec(arg, 0, d.arch, d);
      if o.End? {
        TailRuns(p, arch, notif, deny, arg, o.acc, d);
      }
    }
  }

  /** The argument block in place: its verdict, or on to the code behind it. */
  lemma ArgRuns(p: seq<SockFilter>, arg: seq<SockFilter>, acc: u32, d: SeccompData)
    requires 2 + |arg| <= |p| && p[2..2 + |arg|] == arg && !Exec(arg, 0, acc, d).Fault?
    ensures var o := Exec(arg, 0, acc, d); Exec(p, 2, acc, d) == if o.End? then Exec(p, 2 + |arg|, o.acc, d) else o
  {
    var rest := p[2 + |arg|..];
    assert p[2..] == arg + rest;
    EnterAt(p, 2, arg + rest, acc, d);
    InFront(p, 2 + |arg|, arg, rest, acc, d);
  }

  lemma InFront(p: seq<SockFilter>, i: nat, b: seq<SockFilter>, c: seq<SockFilter>, acc: u32, d: SeccompData)
    requires !Exec(b, 0, acc, d).Fault? && i <= |p| && c == p[i..]
    ensures var o := Exec(b, 0, acc, d); Exec(b + c, 0, acc, d) == if o.End? then Exec(p, i, o.acc, d) else o
  {
    ExecSeq(b, c, acc, d);
    if Exec(b, 0, acc, d).End? {
      EnterAt(p, i, c, Exec(b, 0, acc, d).acc, d);
    }
  }

  /** Entering a program part way runs the rest alone. */
  lemma EnterAt(p: seq<SockFilter>, i: nat, b: seq<SockFilter>, acc: u32, d: SeccompData)
    requires i <= |p| && b == p[i..]
    ensures Exec(p, i, acc, d) == Exec(b, 0, acc, d)
  {
    assert p == p[..i] + b;
    ExecShift(p[..i], b, 0, acc, d);
  }

  // ---- Beyond 258 instructions ----

  predicate NoKill(b: seq<SockFilter>) {
    forall i :: 0 <= i < |b| && b[i].code == 0x06 ==> b[i].k != SECCOMP_RET_KILL_PROCESS
  }

  /** Entered anywhere between the architecture check and the last return, the program
      never kills: truncated distances only ever shorten a jump. */
  lemma {:induction false} NeverKills(p: seq<SockFilter>, arch: u32, notif: seq<u32>, deny: seq<u32>,
                                      arg: seq<SockFilter>,
                                      pc: nat, acc: u32, d: SeccompData)
    requires LaidOut(p, arch, notif, deny, arg) && Contained(arg) && NoKill(arg)
    requires 2 <= pc <= |p| - 2
    ensures Exec(p, pc, acc, d) != Ret(SECCOMP_RET_KILL_PROCESS)
    decreases |p| - pc
  {
    StepInside(p, arch, notif, deny, arg, pc, acc, d);
    var e := Step(p[pc], acc, d);
    if e.Goto? {
      NeverKills(p, arch, notif, deny, arg, pc + 1 + e.skip, e.acc, d);
    }
  }

  lemma StepInside(p: seq<SockFilter>, arch: u32, notif: seq<u32>, deny: seq<u32>, arg: seq<SockFilter>, pc: nat,
                   acc: u32, d: SeccompData)
    requires LaidOut(p, arch, notif, deny, arg) && Contained(arg) && NoKill(arg)
    requires 2 <= pc <= |p| - 2
    ensures var e := Step(p[pc], acc, d);
            if e.Goto? then pc + 1 + e.skip <= |p| - 2 else e.outcome != Ret(SECCOMP_RET_KILL_PROCESS)
  {
    var total, nb := |p|, 2 + |arg| + 1;
    var db := nb + |notif|;
    if pc < 2 + |arg| {
      var i := pc - 2;
      assert p[pc] == p[2..2 + |arg|][i] == arg[i];
      ContainedStep(arg[i], |arg| - i - 1, acc, d);
    } else if pc < nb {
    } else if pc < db {
      var i := pc - nb;
      assert p[nb + i] == JumpEq(notif[i], AsU8(total - 3 - (nb + i + 1)), 0);
    } else if pc < db + |deny| {
      var i := pc - db;
      assert p[db + i] == JumpEq(deny[i], AsU8(total - 2 - (db + i + 1)), 0);
    } else {
      assert p[pc] == p[total - 4..][pc - (total - 4)];
    }
  }

  /** Past 258 instructions the architecture check misses its target. */
  lemma LongFilterMissesKill(arch: u32, notif: seq<u32>, deny: seq<u32>, arg: seq<SockFilter>, d: SeccompData)
    requires Contained(arg) && NoKill(arg) && Total(notif, deny, arg) > 258 && d.arch != arch
    ensures Exec(Assembled(arch, notif, deny, arg), 0, 0, d) != Ret(SECCOMP_RET_KILL_PROCESS)
  {
    Layout(arch, notif, deny, arg);
    var p := Assembled(arch, notif, deny, arg);
    var landing := 2 + AsU8(|p| - 3);
    assert Exec(p, 0, 0, d) == Exec(p, 1, d.arch, d) == Exec(p, landing, d.arch, d);
    NeverKills(p, arch, notif, deny, arg, landing, d.arch, d);
  }

  /** The exact condition: for any contained argument block and any meaning of it, the
      assembled filter decides the policy on every input if and only if it has at most
      258 instructions. The assembler itself only refuses more than 4096. */
  lemma AssembledCorrectIff(arch: u32, notif: seq<u32>, deny: seq<u32>, arg: seq<SockFilter>,
                            v: SeccompData -> Option<u32>)
    requires Contained(arg) && NoKill(arg) && forall d :: Gives(arg, d, v(d))
    ensures Total(notif, deny, arg) <= 258 <==>
            forall d :: Exec(Assembled(arch, notif, deny, arg), 0, 0, d) == Ret(Decision(arch, notif, deny, v(d), d))
  {
    if Total(notif, deny, arg) <= 258 {
      forall d ensures Exec(Assembled(arch, notif, deny, arg), 0, 0, d) == Ret(Decision(arch, notif, deny, v(d), d)) {
        AssembledMeaning(arch, notif, deny, arg, d, v(d));
      }
    } else {
      var zero := Arg(0, 0);
      var d := SeccompData(0, if arch == 0 then 1 else 0, zero, zero, zero, zero);
      LongFilterMissesKill(arch, notif, deny, arg, d);
      assert Decision(arch, notif, deny, v(d), d) == SECCOMP_RET_KILL_PROCESS;
    }
  }

  // ---- The filter sandlock installs ----

  lemma MaskBlockContained(nr: u32, off: u32, mask: u32, verdict: u32)
    requires off in {16, 24, 32, 40} && verdict != SECCOMP_RET_KILL_PROCESS
    ensures Contained(ArgFilters.MaskBlock(nr, off, mask, verdict))
            && NoKill(ArgFilters.MaskBlock(nr, off, mask, verdict))
  {
  }

  lemma {:induction false} CmdTestsContained(cmds: seq<u32>)
    ensures Contained(ArgFilters.CmdTests(cmds)) && NoKill(ArgFilters.CmdTests(cmds))
  {
    if cmds != [] {
      var n := |cmds| - 1;
      var pair := [JumpEq(cmds[n], 0, 1), Return(RET_EPERM)];
      CmdTestsContained(cmds[..n]);
      ContainedConcat(ArgFilters.CmdTests(cmds[..n]), pair);
      assert ArgFilters.CmdTests(cmds) == ArgFilters.CmdTests(cmds[..n]) + pair;
    }
  }

  lemma CmdBlockContained(nr: u32, off: u32, cmds: seq<u32>)
    requires off in {16, 24, 32, 40} && |cmds| <= 127
    ensures Contained(ArgFilters.CmdBlock(nr, off, cmds)) && NoKill(ArgFilters.CmdBlock(nr, off, cmds))
  {
    CmdTestsContained(cmds);
    var b, tests := ArgFilters.CmdBlock(nr, off, cmds), ArgFilters.CmdTests(cmds);
    forall i | 0 <= i < |b| ensures ContainedAt(b[i], |b| - i - 1) {
      if i >= 3 {
        assert ContainedAt(tests[i - 3], |tests| - (i - 3) - 1);
      }
    }
  }

  lemma SocketBlockContained(nr: u32, types: seq<u32>)
    requires |types| <= 249
    ensures Contained(ArgFilters.SocketBlock(nr, types)) && NoKill(ArgFilters.SocketBlock(nr, types))
  {
    if types != [] {
      var b, n := ArgFilters.SocketBlock(nr, types), |types|;
      forall i | 0 <= i < |b| ensures ContainedAt(b[i], |b| - i - 1) && (b[i].code == 0x06 ==> b[i].k == RET_EPERM) {
        if 7 <= i < 7 + n {
          assert b[i] == ArgFilters.TypeTest(types, i - 7);
        }
      }
    }
  }

  lemma ArgProgramContained(sys: ArgFilters.Sysno, ioctls: seq<u32>, prctls: seq<u32>, types: seq<u32>)
    requires |ioctls| <= 127 && |prctls| <= 127 && |types| <= 249
    ensures Contained(ArgFilters.ArgProgram(sys, ioctls, prctls, types))
    ensures NoKill(ArgFilters.ArgProgram(sys, ioctls, prctls, types))
  {
    var b1 := ArgFilters.MaskBlock(sys.clone, OFFSET_ARGS0_LO, ArgFilters.CLONE_NS_FLAGS, RET_EPERM);
    var b2 := ArgFilters.CmdBlock(sys.ioctl, OFFSET_ARGS1_LO, ioctls);
    var b3 := ArgFilters.CmdBlock(sys.prctl, OFFSET_ARGS0_LO, prctls);
    var b4 := ArgFilters.SocketBlock(sys.socket, types);
    var b5 := ArgFilters.MaskBlock(sys.wait4, OFFSET_ARGS2_LO, ArgFilters.WNOHANG_OR_WNOWAIT, SECCOMP_RET_ALLOW);
    var b6 := ArgFilters.MaskBlock(sys.waitid, OFFSET_ARGS3_LO, ArgFilters.WNOHANG_OR_WNOWAIT, SECCOMP_RET_ALLOW);
    MaskBlockContained(sys.clone, OFFSET_ARGS0_LO, ArgFilters.CLONE_NS_FLAGS, RET_EPERM);
    CmdBlockContained(sys.ioctl, OFFSET_ARGS1_LO, ioctls);
    CmdBlockContained(sys.prctl, OFFSET_ARGS0_LO, prctls);
    SocketBlockContained(sys.socket, types);
    MaskBlockContained(sys.wait4, OFFSET_ARGS2_LO, ArgFilters.WNOHANG_OR_WNOWAIT, SECCOMP_RET_ALLOW);
    MaskBlockContained(sys.waitid, OFFSET_ARGS3_LO, ArgFilters.WNOHANG_OR_WNOWAIT, SECCOMP_RET_ALLOW);
    ContainedConcat(b1, b2);
    ContainedConcat(b1 + b2, b3);
    ContainedConcat(b1 + b2 + b3, b4);
    ContainedConcat(b1 + b2 + b3 + b4, b5);
    ContainedConcat(b1 + b2 + b3 + b4 + b5, b6);
  }

  /** The installed filter, from the shipped lists and any notification and deny lists:
      it decides the sandbox's whole syscall policy on every input if and only if the two
      lists together hold at most 190 numbers (191 once a net rule exists). */
  lemma SandboxFilterCorrectIff(arch: u32, sys: ArgFilters.Sysno, netAllowPresent: bool, netDeny: bool,
                                notif: seq<u32>, deny: seq<u32>)
    ensures var types := ArgFilters.BlockedTypes(netAllowPresent, netDeny);
            var arg := ArgFilters.ArgProgram(sys, ArgFilters.DANGEROUS_IOCTLS, ArgFilters.DANGEROUS_PRCTL_OPS, types);
            |notif| + |deny| + |types| <= 192 <==>
            forall d :: Exec(Assembled(arch, notif, deny, arg), 0, 0, d) ==
                        Ret(Decision(arch, notif, deny,
                                     ArgFilters.ArgVerdict(sys, ArgFilters.DANGEROUS_IOCTLS,
                                                           ArgFilters.DANGEROUS_PRCTL_OPS, types, d), d))
  {
    var types := ArgFilters.BlockedTypes(netAllowPresent, netDeny);
    var ioctls, prctls := ArgFilters.DANGEROUS_IOCTLS, ArgFilters.DANGEROUS_PRCTL_OPS;
    var arg := ArgFilters.ArgProgram(sys, ioctls, prctls, types);
    var v := (d: SeccompData) => ArgFilters.ArgVerdict(sys, ioctls, prctls, types, d);
    ArgProgramContained(sys, ioctls, prctls, types);
    forall d ensures Gives(arg, d, v(d)) {
      ArgFilters.ArgProgramMeaning(sys, ioctls, prctls, types, d);
    }
    AssembledCorrectIff(arch, notif, deny, arg, v);
    assert |arg| == 59 + |types|;
    assert forall d :: v(d) == ArgFilters.ArgVerdict(sys, ioctls, prctls, types, d);
  }

  /** The same filter in the kernel's terms: foreign calls die, refused arguments fail, polling waits pass, and only
      then do the two lists decide. */
  lemma InstalledFilterDecides(arch: u32, sys: ArgFilters.Sysno, netAllowPresent: bool, netDeny: bool,
                               notif: seq<u32>, deny: seq<u32>, arg: seq<SockFilter>, d: SeccompData)
    requires ArgFilters.Enforces(arg, sys, netAllowPresent || netDeny) && Total(notif, deny, arg) <= 258
    ensures Exec(Assembled(arch, notif, deny, arg), 0, 0, d)
            == Ret(if d.arch != arch then 0x8000_0000
                   else if ArgFilters.Refused(sys, netAllowPresent || netDeny, d) then 0x5_0001
                   else if ArgFilters.Polls(sys, d) then 0x7FFF_0000
                   else if d.nr in notif then 0x7FC0_0000
                   else if d.nr in deny then 0x5_0001
                   else 0x7FFF_0000)
  {
    var v := if ArgFilters.Refused(sys, netAllowPresent || netDeny, d) then Some(0x5_0001)
             else if ArgFilters.Polls(sys, d) then Some(0x7FFF_0000)
             else None;
    AssembledMeaning(arch, notif, deny, arg, d, v);
  }
}
