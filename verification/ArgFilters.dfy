/**
 The seccomp argument filters: the block the planner emits, and what it decides.
 `ArgProgram` is the emitted program for any command lists; `ArgFilters` is the
 loop that emits it for the lists sandlock ships.
 */
module ArgFilters {
  import opened Prelude
  import opened Bpf
  import opened Bits

  /** Syscall numbers of the target architecture. */
  datatype Sysno = Sysno(clone: u32, ioctl: u32, prctl: u32, socket: u32, wait4: u32, waitid: u32)

  const CLONE_NEWNS: u32 := 0x0002_0000
  const CLONE_NEWCGROUP: u32 := 0x0200_0000
  const CLONE_NEWUTS: u32 := 0x0400_0000
  const CLONE_NEWIPC: u32 := 0x0800_0000
  const CLONE_NEWUSER: u32 := 0x1000_0000
  const CLONE_NEWPID: u32 := 0x2000_0000
  const CLONE_NEWNET: u32 := 0x4000_0000
  const CLONE_NS_FLAGS: u32 :=
    CLONE_NEWNS + CLONE_NEWCGROUP + CLONE_NEWUTS + CLONE_NEWIPC + CLONE_NEWUSER + CLONE_NEWPID + CLONE_NEWNET

  const DANGEROUS_IOCTLS: seq<u32> :=
    [0x5412, 0x541C, 0x8910, 0x8912, 0x8913, 0x8915, 0x8917, 0x8919, 0x891B, 0x8927, 0x8933, 0x8946]
  const DANGEROUS_PRCTL_OPS: seq<u32> := [4, 28, 0x5961_6d61]

  const AF_INET: u32 := 2
  const AF_INET6: u32 := 10
  const SOCK_RAW: u32 := 3
  const SOCK_DGRAM: u32 := 2
  const SOCK_TYPE_MASK: u32 := 0xFF
  const WNOHANG_OR_WNOWAIT: u32 := 0x0100_0001

  // ---- The emitted code ----

  /** LD NR; JEQ nr; LD field; JSET mask; RET verdict. */
  function MaskBlock(nr: u32, off: u32, mask: u32, verdict: u32): seq<SockFilter> {
    [LoadAbs(OFFSET_NR), JumpEq(nr, 0, 3), LoadAbs(off), JumpSet(mask, 0, 1), Return(verdict)]
  }

  /** [JEQ cmd; RET EPERM] for each command. */
  function CmdTests(cmds: seq<u32>): (r: seq<SockFilter>)
    ensures |r| == 2 * |cmds|
  {
    if cmds == [] then []
    else
      CmdTests(cmds[..|cmds| - 1]) + [JumpEq(cmds[|cmds| - 1], 0, 1)] + [Return(RET_EPERM)]
  }

  function CmdBlock(nr: u32, off: u32, cmds: seq<u32>): seq<SockFilter> {
    [LoadAbs(OFFSET_NR), JumpEq(nr, 0, AsU8(1 + |cmds| * 2)), LoadAbs(off)] + CmdTests(cmds)
  }

  /** The first `i` type tests: a match jumps over the tests that remain. */
  function TypeTests(types: seq<u32>, i: nat): (r: seq<SockFilter>)
    requires i <= |types|
    ensures |r| == i
    ensures forall j :: 0 <= j < i ==> r[j] == TypeTest(types, j)
  {
    if i == 0 then [] else TypeTests(types, i - 1) + [TypeTest(types, i - 1)]
  }

  function TypeTest(types: seq<u32>, i: nat): SockFilter
    requires i < |types|
  {
    var remaining := |types| - i - 1;
    JumpEq(types[i], AsU8(remaining), if remaining == 0 then 1 else 0)
  }

  function SocketHead(nr: u32, n: nat): seq<SockFilter> {
    var after_domain := 2 + n + 1;
    [LoadAbs(OFFSET_NR), JumpEq(nr, 0, AsU8(3 + after_domain)), LoadAbs(OFFSET_ARGS0_LO),
     JumpEq(AF_INET, 1, 0), JumpEq(AF_INET6, 0, AsU8(after_domain)),
     LoadAbs(OFFSET_ARGS1_LO), AluAnd(SOCK_TYPE_MASK)]
  }

  function SocketBlock(nr: u32, types: seq<u32>): seq<SockFilter> {
    if types == [] then []
    else SocketHead(nr, |types|) + TypeTests(types, |types|) + [Return(RET_EPERM)]
  }

  function ArgProgram(sys: Sysno, ioctls: seq<u32>, prctls: seq<u32>, types: seq<u32>): seq<SockFilter> {
    MaskBlock(sys.clone, OFFSET_ARGS0_LO, CLONE_NS_FLAGS, RET_EPERM)
    + CmdBlock(sys.ioctl, OFFSET_ARGS1_LO, ioctls)
    + CmdBlock(sys.prctl, OFFSET_ARGS0_LO, prctls)
    + SocketBlock(sys.socket, types)
    + MaskBlock(sys.wait4, OFFSET_ARGS2_LO, WNOHANG_OR_WNOWAIT, SECCOMP_RET_ALLOW)
    + MaskBlock(sys.waitid, OFFSET_ARGS3_LO, WNOHANG_OR_WNOWAIT, SECCOMP_RET_ALLOW)
  }

  // ---- What it is meant to decide ----

  predicate DeniesClone(sys: Sysno, d: SeccompData) {
    d.nr == sys.clone && And(d.a0.lo, CLONE_NS_FLAGS) != 0
  }

  predicate DeniesSocket(sys: Sysno, types: seq<u32>, d: SeccompData) {
    d.nr == sys.socket && d.a0.lo in {AF_INET, AF_INET6} && And(d.a1.lo, SOCK_TYPE_MASK) in types
  }

  /** The argument policy's denials, said without any program. */
  predicate Denied(sys: Sysno, ioctls: seq<u32>, prctls: seq<u32>, types: seq<u32>, d: SeccompData) {
    || DeniesClone(sys, d)
    || (d.nr == sys.ioctl && d.a1.lo in ioctls)
    || (d.nr == sys.prctl && d.a0.lo in prctls)
    || DeniesSocket(sys, types, d)
  }

  /** A wait that cannot block: it needs no notification. */
  predicate NonBlockingWait(sys: Sysno, d: SeccompData) {
    || (d.nr == sys.wait4 && And(d.a2.lo, WNOHANG_OR_WNOWAIT) != 0)
    || (d.nr == sys.waitid && And(d.a3.lo, WNOHANG_OR_WNOWAIT) != 0)
  }

  // ---- Each block means its clause ----

  lemma MaskBlockMeaning(nr: u32, off: u32, mask: u32, verdict: u32, acc: u32, d: SeccompData)
    requires Load(d, off).Some?
    ensures var o := Exec(MaskBlock(nr, off, mask, verdict), 0, acc, d);
            o == if d.nr != nr then End(d.nr)
                 else if And(Load(d, off).value, mask) != 0 then Ret(verdict)
                 else End(Load(d, off).value)
  {
    var b := MaskBlock(nr, off, mask, verdict);
    assert Exec(b, 0, acc, d) == Exec(b, 1, d.nr, d);
    if d.nr == nr {
      var w := Load(d, off).value;
      assert Exec(b, 1, d.nr, d) == Exec(b, 2, d.nr, d) == Exec(b, 3, w, d);
      if And(w, mask) != 0 {
        assert Exec(b, 3, w, d) == Exec(b, 4, w, d);
      } else {
        assert Exec(b, 3, w, d) == Exec(b, 5, w, d);
      }
    } else {
      assert Exec(b, 1, d.nr, d) == Exec(b, 5, d.nr, d);
    }
  }

  lemma {:induction false} CmdTestsMeaning(cmds: seq<u32>, acc: u32, d: SeccompData)
    ensures Exec(CmdTests(cmds), 0, acc, d) == if acc in cmds then Ret(RET_EPERM) else End(acc)
  {
    if cmds != [] {
      var n := |cmds| - 1;
      var front, last := cmds[..n], cmds[n];
      var pair := [JumpEq(last, 0, 1), Return(RET_EPERM)];
      assert CmdTests(cmds) == CmdTests(front) + pair;
      assert cmds == front + [last];
      CmdTestsMeaning(front, acc, d);
      ExecSeq(CmdTests(front), pair, acc, d);
      assert Exec(pair, 0, acc, d) == Exec(pair, if acc == last then 1 else 2, acc, d);
    }
  }

  lemma CmdBlockMeaning(nr: u32, off: u32, cmds: seq<u32>, acc: u32, d: SeccompData)
    requires |cmds| <= 127 && Load(d, off).Some?
    ensures var o := Exec(CmdBlock(nr, off, cmds), 0, acc, d);
            if d.nr == nr && Load(d, off).value in cmds then o == Ret(RET_EPERM) else o.End?
  {
    var b := CmdBlock(nr, off, cmds);
    var head := b[..3];
    var w := Load(d, off).value;
    assert b == head + CmdTests(cmds);
    assert Exec(b, 0, acc, d) == Exec(b, 1, d.nr, d);
    if d.nr == nr {
      assert Exec(b, 1, d.nr, d) == Exec(b, 2, d.nr, d) == Exec(b, 3, w, d);
      ExecShift(head, CmdTests(cmds), 0, w, d);
      CmdTestsMeaning(cmds, w, d);
    } else {
      assert Exec(b, 1, d.nr, d) == Exec(b, |b|, d.nr, d);
    }
  }

  lemma {:induction false} TypeTestsMeaning(types: seq<u32>, i: nat, acc: u32, d: SeccompData)
    requires 0 < |types| <= 249 && i < |types|
    ensures Exec(TypeTests(types, |types|) + [Return(RET_EPERM)], i, acc, d)
            == if acc in types[i..] then Ret(RET_EPERM) else End(acc)
    decreases |types| - i
  {
    var n := |types|;
    var b := TypeTests(types, n) + [Return(RET_EPERM)];
    assert b[i] == TypeTest(types, i) && b[n] == Return(RET_EPERM);
    assert types[i..] == [types[i]] + types[i + 1..];
    if acc == types[i] {
      assert Exec(b, i, acc, d) == Exec(b, n, acc, d);
    } else if i == n - 1 {
      assert Exec(b, i, acc, d) == Exec(b, n + 1, acc, d);
    } else {
      assert Exec(b, i, acc, d) == Exec(b, i + 1, acc, d);
      TypeTestsMeaning(types, i + 1, acc, d);
    }
  }

  lemma SocketBlockMeaning(sys: Sysno, types: seq<u32>, acc: u32, d: SeccompData)
    requires |types| <= 249
    ensures var o := Exec(SocketBlock(sys.socket, types), 0, acc, d);
            if DeniesSocket(sys, types, d) then o == Ret(RET_EPERM) else o.End?
  {
    if types != [] {
      var b := SocketBlock(sys.socket, types);
      var head, tests := SocketHead(sys.socket, |types|), TypeTests(types, |types|) + [Return(RET_EPERM)];
      assert b == head + tests && |head| == 7 && |b| == 8 + |types|;
      assert forall i :: 0 <= i < 7 ==> b[i] == head[i];
      SocketHeadRuns(sys, types, b, acc, d);
      if d.nr == sys.socket && d.a0.lo in {AF_INET, AF_INET6} {
        var masked := And(d.a1.lo, SOCK_TYPE_MASK);
        ExecShift(head, tests, 0, masked, d);
        TypeTestsMeaning(types, 0, masked, d);
        assert types[0..] == types;
      }
    }
  }

  /** The domain checks: the two inet domains reach the type tests, all else the end. */
  lemma SocketHeadRuns(sys: Sysno, types: seq<u32>, b: seq<SockFilter>, acc: u32, d: SeccompData)
    requires 0 < |types| <= 249 && |b| == 8 + |types|
    requires forall i :: 0 <= i < 7 ==> b[i] == SocketHead(sys.socket, |types|)[i]
    ensures var o := Exec(b, 0, acc, d);
            if d.nr == sys.socket && d.a0.lo in {AF_INET, AF_INET6}
            then o == Exec(b, 7, And(d.a1.lo, SOCK_TYPE_MASK), d)
            else o.End?
  {
    assert Exec(b, 0, acc, d) == Exec(b, 1, d.nr, d);
    if d.nr != sys.socket {
      assert Exec(b, 1, d.nr, d) == Exec(b, |b|, d.nr, d);
    } else {
      var dom, ty := d.a0.lo, d.a1.lo;
      assert Exec(b, 1, d.nr, d) == Exec(b, 2, d.nr, d) == Exec(b, 3, dom, d);
      assert Exec(b, 5, dom, d) == Exec(b, 6, ty, d) == Exec(b, 7, And(ty, SOCK_TYPE_MASK), d);
      if dom == AF_INET {
        assert Exec(b, 3, dom, d) == Exec(b, 5, dom, d);
      } else if dom == AF_INET6 {
        assert Exec(b, 3, dom, d) == Exec(b, 4, dom, d) == Exec(b, 5, dom, d);
      } else {
        assert Exec(b, 3, dom, d) == Exec(b, 4, dom, d) == Exec(b, |b|, dom, d);
      }
    }
  }

  function When(hit: bool, verdict: u32): Option<u32> {
    if hit then Some(verdict) else None
  }

  lemma MaskBlockGives(nr: u32, off: u32, mask: u32, verdict: u32, d: SeccompData)
    requires Load(d, off).Some?
    ensures Gives(MaskBlock(nr, off, mask, verdict), d, When(d.nr == nr && And(Load(d, off).value, mask) != 0, verdict))
  {
    forall acc {
      MaskBlockMeaning(nr, off, mask, verdict, acc, d);
    }
  }

  lemma CmdBlockGives(nr: u32, off: u32, cmds: seq<u32>, d: SeccompData)
    requires |cmds| <= 127 && Load(d, off).Some?
    ensures Gives(CmdBlock(nr, off, cmds), d, When(d.nr == nr && Load(d, off).value in cmds, RET_EPERM))
  {
    forall acc {
      CmdBlockMeaning(nr, off, cmds, acc, d);
    }
  }

  lemma SocketBlockGives(sys: Sysno, types: seq<u32>, d: SeccompData)
    requires |types| <= 249
    ensures Gives(SocketBlock(sys.socket, types), d, When(DeniesSocket(sys, types, d), RET_EPERM))
  {
    forall acc {
      SocketBlockMeaning(sys, types, acc, d);
    }
  }

  /** The verdict of the argument policy, if it has one. */
  function ArgVerdict(sys: Sysno, ioctls: seq<u32>, prctls: seq<u32>, types: seq<u32>, d: SeccompData): Option<u32> {
    if Denied(sys, ioctls, prctls, types, d) then Some(RET_EPERM)
    else if NonBlockingWait(sys, d) then Some(SECCOMP_RET_ALLOW)
    else None
  }

  /** The whole argument program, on every input and from any accumulator: it denies
      exactly the denied calls, allows exactly the non-blocking waits among the rest,
      and otherwise runs to its end. */
  lemma ArgProgramMeaning(sys: Sysno, ioctls: seq<u32>, prctls: seq<u32>, types: seq<u32>, d: SeccompData)
    requires |ioctls| <= 127 && |prctls| <= 127 && |types| <= 249
    ensures Gives(ArgProgram(sys, ioctls, prctls, types), d, ArgVerdict(sys, ioctls, prctls, types, d))
  {
    var b1 := MaskBlock(sys.clone, OFFSET_ARGS0_LO, CLONE_NS_FLAGS, RET_EPERM);
    var b2 := CmdBlock(sys.ioctl, OFFSET_ARGS1_LO, ioctls);
    var b3 := CmdBlock(sys.prctl, OFFSET_ARGS0_LO, prctls);
    var b4 := SocketBlock(sys.socket, types);
    var b5 := MaskBlock(sys.wait4, OFFSET_ARGS2_LO, WNOHANG_OR_WNOWAIT, SECCOMP_RET_ALLOW);
    var b6 := MaskBlock(sys.waitid, OFFSET_ARGS3_LO, WNOHANG_OR_WNOWAIT, SECCOMP_RET_ALLOW);
    var v1 := When(DeniesClone(sys, d), RET_EPERM);
    var v2 := When(d.nr == sys.ioctl && d.a1.lo in ioctls, RET_EPERM);
    var v3 := When(d.nr == sys.prctl && d.a0.lo in prctls, RET_EPERM);
    var v4 := When(DeniesSocket(sys, types, d), RET_EPERM);
    var v5 := When(d.nr == sys.wait4 && And(d.a2.lo, WNOHANG_OR_WNOWAIT) != 0, SECCOMP_RET_ALLOW);
    var v6 := When(d.nr == sys.waitid && And(d.a3.lo, WNOHANG_OR_WNOWAIT) != 0, SECCOMP_RET_ALLOW);
    MaskBlockGives(sys.clone, OFFSET_ARGS0_LO, CLONE_NS_FLAGS, RET_EPERM, d);
    CmdBlockGives(sys.ioctl, OFFSET_ARGS1_LO, ioctls, d);
    CmdBlockGives(sys.prctl, OFFSET_ARGS0_LO, prctls, d);
    SocketBlockGives(sys, types, d);
    MaskBlockGives(sys.wait4, OFFSET_ARGS2_LO, WNOHANG_OR_WNOWAIT, SECCOMP_RET_ALLOW, d);
    MaskBlockGives(sys.waitid, OFFSET_ARGS3_LO, WNOHANG_OR_WNOWAIT, SECCOMP_RET_ALLOW, d);
    var w2 := if v1.Some? then v1 else v2;
    var w3 := if w2.Some? then w2 else v3;
    var w4 := if w3.Some? then w3 else v4;
    var w5 := if w4.Some? then w4 else v5;
    GivesSeq(b1, b2, d, v1, v2);
    GivesSeq(b1 + b2, b3, d, w2, v3);
    GivesSeq(b1 + b2 + b3, b4, d, w3, v4);
    GivesSeq(b1 + b2 + b3 + b4, b5, d, w4, v5);
    GivesSeq(b1 + b2 + b3 + b4 + b5, b6, d, w5, v6);
  }

  // ---- What the shipped lists decide ----

  lemma BitOfOne(i: nat)
    ensures Bit(1, i) <==> i == 0
  {
    if i > 0 {
      NoBits(i - 1);
    }
  }

  /** Seven namespace flags: mount, then cgroup, uts, ipc, user, pid and net. */
  predicate NamespaceBit(i: nat) {
    i == 17 || 25 <= i <= 30
  }

  lemma NamespaceBits(i: nat)
    ensures Bit(CLONE_NS_FLAGS, i) <==> NamespaceBit(i)
  {
    assert Pow2(17) == 0x2_0000 && Pow2(8) == 256 && Pow2(6) == 64;
    BitShifted(0x3F01, 17, i);
    if i >= 17 {
      LowAndHigh(63, i - 17);
    }
  }

  /** The bits of `1 + 256 * q`. */
  lemma LowAndHigh(q: nat, i: nat)
    requires q == 63
    ensures Bit(1 + 256 * q, i) <==> i == 0 || 8 <= i < 14
  {
    assert Pow2(7) == 128 && Pow2(6) == 64;
    if i > 0 {
      assert (1 + 256 * q) / 2 == q * Pow2(7);
      BitShifted(q, 7, i - 1);
      if i >= 8 {
        BitsOfOnes(6, i - 8);
      }
    }
  }

  /** WNOHANG is bit 0 and WNOWAIT bit 24. */
  lemma WaitBits(i: nat)
    ensures Bit(WNOHANG_OR_WNOWAIT, i) <==> i == 0 || i == 24
  {
    Pow2Sum(15, 8);
    assert Pow2(15) == 0x8000 && Pow2(8) == 256;
    if i > 0 {
      assert WNOHANG_OR_WNOWAIT / 2 == 1 * Pow2(23);
      BitShifted(1, 23, i - 1);
      if i >= 24 {
        BitOfOne(i - 24);
      }
    }
  }

  /** TIOCSTI, TIOCLINUX, the nine SIOCGIF queries by name, list, flags, four addresses, hardware and index, and
      SIOCETHTOOL. */
  predicate TerminalOrInterface(cmd: u32) {
    || cmd == 0x5412 || cmd == 0x541C
    || cmd == 0x8910 || cmd == 0x8912 || (0x8913 <= cmd <= 0x891B && cmd % 2 == 1) || cmd == 0x8927 || cmd == 0x8933
    || cmd == 0x8946
  }

  /** A socket of the internet families that a sandbox may not make: raw always, datagram without any net rule. */
  predicate ForbiddenSocket(anyNetRule: bool, domain: u32, kind: u32) {
    (domain == 2 || domain == 10) && (kind % 256 == 3 || (kind % 256 == 2 && !anyNetRule))
  }

  /** What a sandbox refuses by its arguments, in the kernel's terms. */
  ghost predicate Refused(sys: Sysno, anyNetRule: bool, d: SeccompData) {
    || (d.nr == sys.clone && exists i: nat :: Bit(d.a0.lo, i) && NamespaceBit(i))
    || (d.nr == sys.ioctl && TerminalOrInterface(d.a1.lo))
    || (d.nr == sys.prctl && (d.a0.lo == 4 || d.a0.lo == 28 || d.a0.lo == 0x5961_6d61))
    || (d.nr == sys.socket && ForbiddenSocket(anyNetRule, d.a0.lo, d.a1.lo))
  }

  /** A wait with WNOHANG or WNOWAIT. */
  predicate Polls(sys: Sysno, d: SeccompData) {
    || (d.nr == sys.wait4 && (Bit(d.a2.lo, 0) || Bit(d.a2.lo, 24)))
    || (d.nr == sys.waitid && (Bit(d.a3.lo, 0) || Bit(d.a3.lo, 24)))
  }

  lemma CloneMeans(sys: Sysno, d: SeccompData)
    ensures And(d.a0.lo, CLONE_NS_FLAGS) != 0 <==> exists i: nat :: Bit(d.a0.lo, i) && NamespaceBit(i)
  {
    AndNonZeroIff(d.a0.lo, CLONE_NS_FLAGS);
    forall i: nat ensures Bit(CLONE_NS_FLAGS, i) <==> NamespaceBit(i) {
      NamespaceBits(i);
    }
  }

  lemma WaitMeans(w: u32)
    ensures And(w, WNOHANG_OR_WNOWAIT) != 0 <==> Bit(w, 0) || Bit(w, 24)
  {
    AndNonZeroIff(w, WNOHANG_OR_WNOWAIT);
    WaitBits(0);
    WaitBits(24);
    forall i: nat | Bit(w, i) && Bit(WNOHANG_OR_WNOWAIT, i) ensures i == 0 || i == 24 {
      WaitBits(i);
    }
  }

  lemma SocketMeans(netAllowPresent: bool, netDeny: bool, domain: u32, kind: u32)
    ensures domain in {AF_INET, AF_INET6} && And(kind, SOCK_TYPE_MASK) in BlockedTypes(netAllowPresent, netDeny)
            <==> ForbiddenSocket(netAllowPresent || netDeny, domain, kind)
  {
    AndLowByte(kind);
  }

  lemma ListsMean(cmd: u32)
    ensures cmd in DANGEROUS_IOCTLS <==> TerminalOrInterface(cmd)
    ensures cmd in DANGEROUS_PRCTL_OPS <==> cmd == 4 || cmd == 28 || cmd == 0x5961_6d61
  {
  }

  /** The shipped program run from any accumulator: EPERM exactly for what is refused, ALLOW exactly for polling
      waits that are not, and otherwise on to the code behind it. */
  ghost predicate Enforces(insns: seq<SockFilter>, sys: Sysno, anyNetRule: bool) {
    forall acc: u32, d: SeccompData {:trigger Exec(insns, 0, acc, d)} ::
      var o := Exec(insns, 0, acc, d);
      if Refused(sys, anyNetRule, d) then o == Ret(0x5_0001)
      else if Polls(sys, d) then o == Ret(0x7FFF_0000)
      else o.End?
  }

  lemma ShippedEnforces(insns: seq<SockFilter>, sys: Sysno, netAllowPresent: bool, netDeny: bool)
    requires insns == ArgProgram(sys, DANGEROUS_IOCTLS, DANGEROUS_PRCTL_OPS, BlockedTypes(netAllowPresent, netDeny))
    ensures Enforces(insns, sys, netAllowPresent || netDeny)
  {
    forall acc: u32, d: SeccompData
      ensures var o := Exec(insns, 0, acc, d);
              if Refused(sys, netAllowPresent || netDeny, d) then o == Ret(0x5_0001)
              else if Polls(sys, d) then o == Ret(0x7FFF_0000)
              else o.End?
    {
      VerdictMeans(sys, netAllowPresent, netDeny, d);
      ArgProgramMeaning(sys, DANGEROUS_IOCTLS, DANGEROUS_PRCTL_OPS, BlockedTypes(netAllowPresent, netDeny), d);
    }
  }

  lemma VerdictMeans(sys: Sysno, netAllowPresent: bool, netDeny: bool, d: SeccompData)
    ensures ArgVerdict(sys, DANGEROUS_IOCTLS, DANGEROUS_PRCTL_OPS, BlockedTypes(netAllowPresent, netDeny), d)
            == if Refused(sys, netAllowPresent || netDeny, d) then Some(0x5_0001)
               else if Polls(sys, d) then Some(0x7FFF_0000)
               else None
  {
    CloneMeans(sys, d);
    ListsMean(d.a0.lo);
    ListsMean(d.a1.lo);
    SocketMeans(netAllowPresent, netDeny, d.a0.lo, d.a1.lo);
    WaitMeans(d.a2.lo);
    WaitMeans(d.a3.lo);
  }

  // ---- The emitter ----

  /** Socket types refused on inet domains: raw always, datagram with no net rule. */
  function BlockedTypes(netAllowPresent: bool, netDeny: bool): seq<u32> {
    if !netAllowPresent && !netDeny then [SOCK_RAW, SOCK_DGRAM] else [SOCK_RAW]
  }

  method ArgFilters(sys: Sysno, netAllowPresent: bool, netDeny: bool) returns (insns: seq<SockFilter>)
    ensures insns == ArgProgram(sys, DANGEROUS_IOCTLS, DANGEROUS_PRCTL_OPS, BlockedTypes(netAllowPresent, netDeny))
    ensures Enforces(insns, sys, netAllowPresent || netDeny)
  {
    insns := [];
    insns := insns + [LoadAbs(OFFSET_NR)];
    insns := insns + [JumpEq(sys.clone, 0, 3)];
    insns := insns + [LoadAbs(OFFSET_ARGS0_LO)];
    insns := insns + [JumpSet(CLONE_NS_FLAGS, 0, 1)];
    insns := insns + [Return(RET_EPERM)];
    ghost var p1 := MaskBlock(sys.clone, OFFSET_ARGS0_LO, CLONE_NS_FLAGS, RET_EPERM);
    assert insns == p1;

    insns := EmitCmds(insns, sys.ioctl, OFFSET_ARGS1_LO, DANGEROUS_IOCTLS);
    insns := EmitCmds(insns, sys.prctl, OFFSET_ARGS0_LO, DANGEROUS_PRCTL_OPS);
    ghost var p3 := insns;

    var blocked := [SOCK_RAW];
    if !netAllowPresent && !netDeny {
      blocked := blocked + [SOCK_DGRAM];
    }
    assert blocked == BlockedTypes(netAllowPresent, netDeny);
    insns := EmitSocket(insns, sys.socket, blocked);
    assert insns == p3 + SocketBlock(sys.socket, blocked);

    insns := EmitWait(insns, sys.wait4, OFFSET_ARGS2_LO);
    insns := EmitWait(insns, sys.waitid, OFFSET_ARGS3_LO);
    ShippedEnforces(insns, sys, netAllowPresent, netDeny);
  }

  /** The ioctl and prctl loops: a load, the skip over the list, and a pair per command. */
  method EmitCmds(insns0: seq<SockFilter>, nr: u32, off: u32, cmds: seq<u32>) returns (insns: seq<SockFilter>)
    ensures insns == insns0 + CmdBlock(nr, off, cmds)
  {
    var skip_count := AsU8(1 + |cmds| * 2);
    insns := insns0;
    insns := insns + [LoadAbs(OFFSET_NR)];
    insns := insns + [JumpEq(nr, 0, skip_count)];
    insns := insns + [LoadAbs(off)];
    ghost var head := [LoadAbs(OFFSET_NR), JumpEq(nr, 0, skip_count), LoadAbs(off)];
    assert insns == insns0 + head + CmdTests(cmds[..0]);
    for i := 0 to |cmds|
      invariant insns == insns0 + head + CmdTests(cmds[..i])
    {
      insns := insns + [JumpEq(cmds[i], 0, 1)];
      insns := insns + [Return(RET_EPERM)];
      assert cmds[..i + 1][..i] == cmds[..i];
    }
    assert cmds[..|cmds|] == cmds;
  }

  lemma SocketHeadPushed(p: seq<SockFilter>, nr: u32, n: nat)
    ensures p + [LoadAbs(OFFSET_NR)] + [JumpEq(nr, 0, AsU8(3 + (2 + n + 1)))] + [LoadAbs(OFFSET_ARGS0_LO)]
            + [JumpEq(AF_INET, 1, 0)]
            + [JumpEq(AF_INET6, 0, AsU8(2 + n + 1))] + [LoadAbs(OFFSET_ARGS1_LO)] + [AluAnd(SOCK_TYPE_MASK)]
            == p + SocketHead(nr, n)
  {
  }

  method EmitSocket(insns0: seq<SockFilter>, nr: u32, types: seq<u32>) returns (insns: seq<SockFilter>)
    ensures insns == insns0 + SocketBlock(nr, types)
  {
    insns := insns0;
    if types != [] {
      var n := |types|;
      var after_domain := 2 + n + 1;
      var skip_all := AsU8(3 + after_domain);
      insns := insns + [LoadAbs(OFFSET_NR)];
      insns := insns + [JumpEq(nr, 0, skip_all)];
      insns := insns + [LoadAbs(OFFSET_ARGS0_LO)];
      insns := insns + [JumpEq(AF_INET, 1, 0)];
      insns := insns + [JumpEq(AF_INET6, 0, AsU8(after_domain))];
      insns := insns + [LoadAbs(OFFSET_ARGS1_LO)];
      insns := insns + [AluAnd(SOCK_TYPE_MASK)];
      SocketHeadPushed(insns0, nr, n);
      for i := 0 to n
        invariant insns == insns0 + SocketHead(nr, n) + TypeTests(types, i)
      {
        var remaining := n - i - 1;
        var jf := if remaining == 0 then 1 else 0;
        insns := insns + [JumpEq(types[i], AsU8(remaining), jf)];
      }
      insns := insns + [Return(RET_EPERM)];
    }
  }

  method EmitWait(insns0: seq<SockFilter>, nr: u32, off: u32) returns (insns: seq<SockFilter>)
    ensures insns == insns0 + MaskBlock(nr, off, WNOHANG_OR_WNOWAIT, SECCOMP_RET_ALLOW)
  {
    insns := insns0;
    insns := insns + [LoadAbs(OFFSET_NR)];
    insns := insns + [JumpEq(nr, 0, 3)];
    insns := insns + [LoadAbs(off)];
    insns := insns + [JumpSet(WNOHANG_OR_WNOWAIT, 0, 1)];
    insns := insns + [Return(SECCOMP_RET_ALLOW)];
  }
}
