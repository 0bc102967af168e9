/**
 Classic BPF as seccomp runs it: the instruction format, an interpreter for the
 instructions sandlock emits, and the laws by which straight-line blocks compose.
 */
module Bpf {

  import opened Prelude
  import opened Bits

  /** One `struct sock_filter`; jump distances are the u8 fields of the wire format. */
  datatype SockFilter = SockFilter(code: u16, jt: u8, jf: u8, k: u32)

  type u8 = byte

  /** Bitwise AND, bit by bit from the low end. Flag words below are written as sums of
      distinct bits. */
  function And(a: u32, b: u32): (r: u32)
    ensures r <= a && r <= b
  {
    if a == 0 || b == 0 then 0 else (a % 2) * (b % 2) + 2 * And(a / 2, b / 2)
  }

  /** A bit of the product of two remainders, and what is above it. */
  lemma ProductBit(x: nat, y: nat, high: nat, n: nat)
    requires n == (x % 2) * (y % 2) + 2 * high
    ensures n / 2 == high && (n % 2 == 1 <==> x % 2 == 1 && y % 2 == 1)
  {
    if x % 2 == 1 {
      assert n == y % 2 + 2 * high;
    } else {
      assert n == 2 * high;
    }
  }

  /** The AND has exactly the bits both words have. */
  lemma {:induction false} AndBits(a: u32, b: u32, i: nat)
    ensures Bit(And(a, b), i) <==> Bit(a, i) && Bit(b, i)
    decreases i
  {
    if a == 0 || b == 0 {
      NoBits(i);
    } else {
      ProductBit(a, b, And(a / 2, b / 2), And(a, b));
      if i > 0 {
        AndBits(a / 2, b / 2, i - 1);
      }
    }
  }

  /** A mask test succeeds exactly when some bit of the mask is set. */
  lemma AndNonZeroIff(a: u32, b: u32)
    ensures And(a, b) != 0 <==> exists i: nat :: Bit(a, i) && Bit(b, i)
  {
    if And(a, b) != 0 {
      var i := HasBit(And(a, b));
      AndBits(a, b, i);
    }
    forall i: nat | Bit(a, i) && Bit(b, i) ensures And(a, b) != 0 {
      AndBits(a, b, i);
      NoBits(i);
    }
  }

  lemma AndOdd(a: u32, m: u32)
    requires m % 2 == 1
    ensures And(a, m) == a % 2 + 2 * And(a / 2, m / 2)
  {
  }

  /** Masking with `k` ones keeps the remainder. */
  lemma {:induction false} AndOnes(a: u32, k: nat)
    requires Pow2(k) <= 0x1_0000_0000
    ensures Pow2(k) >= 1 && And(a, Pow2(k) - 1) == a % Pow2(k)
    decreases k
  {
    if k > 0 {
      AndOnes(a / 2, k - 1);
      var q := Pow2(k - 1);
      assert (2 * q - 1) / 2 == q - 1;
      AndOdd(a, 2 * q - 1);
      ModDouble(a, q);
    }
  }

  /** Masking with 0xFF keeps the low byte. */
  lemma AndLowByte(a: u32)
    ensures And(a, 0xFF) == a % 256
  {
    assert Pow2(8) == 256;
    AndOnes(a, 8);
  }

  const BPF_LD: u16 := 0x00
  const BPF_W: u16 := 0x00
  const BPF_ABS: u16 := 0x20
  const BPF_JMP: u16 := 0x05
  const BPF_JEQ: u16 := 0x10
  const BPF_JSET: u16 := 0x40
  const BPF_K: u16 := 0x00
  const BPF_RET: u16 := 0x06
  const BPF_ALU: u16 := 0x04
  const BPF_AND: u16 := 0x50

  const OFFSET_NR: u32 := 0
  const OFFSET_ARCH: u32 := 4
  const OFFSET_ARGS0_LO: u32 := 16
  const OFFSET_ARGS1_LO: u32 := 24
  const OFFSET_ARGS2_LO: u32 := 32
  const OFFSET_ARGS3_LO: u32 := 40

  const SECCOMP_RET_ALLOW: u32 := 0x7FFF_0000
  const SECCOMP_RET_USER_NOTIF: u32 := 0x7FC0_0000
  const SECCOMP_RET_ERRNO: u32 := 0x0005_0000
  const SECCOMP_RET_KILL_PROCESS: u32 := 0x8000_0000
  const EPERM: u32 := 1

  /** The deny verdict: `SECCOMP_RET_ERRNO + EPERM`. */
  const RET_EPERM: u32 := SECCOMP_RET_ERRNO + EPERM

  function Stmt(code: u16, k: u32): SockFilter {
    SockFilter(code, 0, 0, k)
  }

  function Jump(code: u16, k: u32, jt: u8, jf: u8): SockFilter {
    SockFilter(code, jt, jf, k)
  }

  function LoadAbs(off: u32): SockFilter {
    Stmt(BPF_LD + BPF_W + BPF_ABS, off)
  }

  function JumpEq(k: u32, jt: u8, jf: u8): SockFilter {
    Jump(BPF_JMP + BPF_JEQ + BPF_K, k, jt, jf)
  }

  function JumpSet(k: u32, jt: u8, jf: u8): SockFilter {
    Jump(BPF_JMP + BPF_JSET + BPF_K, k, jt, jf)
  }

  function AluAnd(k: u32): SockFilter {
    Stmt(BPF_ALU + BPF_AND + BPF_K, k)
  }

  function Return(k: u32): SockFilter {
    Stmt(BPF_RET + BPF_K, k)
  }

  /** The cast `n as u8`: keeps the low eight bits. */
  function AsU8(n: nat): u8 {
    n % 256
  }

  /** A 64-bit syscall argument as the two words a 32-bit load can see. */
  datatype Arg = Arg(lo: u32, hi: u32)

  /** The fields of `struct seccomp_data` the filters load. */
  datatype SeccompData = SeccompData(nr: u32, arch: u32, a0: Arg, a1: Arg, a2: Arg, a3: Arg)

  function Load(d: SeccompData, off: u32): Option<u32> {
    if off == 0 then Some(d.nr)
    else if off == 4 then Some(d.arch)
    else if off == 16 then Some(d.a0.lo)
    else if off == 20 then Some(d.a0.hi)
    else if off == 24 then Some(d.a1.lo)
    else if off == 28 then Some(d.a1.hi)
    else if off == 32 then Some(d.a2.lo)
    else if off == 36 then Some(d.a2.hi)
    else if off == 40 then Some(d.a3.lo)
    else if off == 44 then Some(d.a3.hi)
    else None
  }

  /** Ret: a verdict. End: control reached the end of the block. Fault: a bad
      instruction or load, or a jump past the end. */
  datatype Outcome = Ret(verdict: u32) | End(acc: u32) | Fault

  /** What one instruction does: stop, or go on `skip` instructions after the next. */
  datatype Effect = Halt(outcome: Outcome) | Goto(skip: nat, acc: u32)

  function Step(i: SockFilter, acc: u32, d: SeccompData): Effect {
    if i.code == 0x20 then
      match Load(d, i.k)
      case Some(w) => Goto(0, w)
      case None => Halt(Fault)
    else if i.code == 0x15 then Goto(if acc == i.k then i.jt else i.jf, acc)
    else if i.code == 0x45 then Goto(if And(acc, i.k) != 0 then i.jt else i.jf, acc)
    else if i.code == 0x54 then Goto(0, And(acc, i.k))
    else if i.code == 0x06 then Halt(Ret(i.k))
    else Halt(Fault)
  }

  function Exec(prog: seq<SockFilter>, pc: nat, acc: u32, d: SeccompData): Outcome
    decreases |prog| - pc
  {
    if pc > |prog| then Fault
    else if pc == |prog| then End(acc)
    else
      match Step(prog[pc], acc, d)
      case Halt(o) => o
      case Goto(skip, a) => Exec(prog, pc + 1 + skip, a, d)
  }

  /** Code before the program counter is irrelevant: jumps only go forward. */
  lemma {:induction false} ExecShift(pre: seq<SockFilter>, b: seq<SockFilter>, pc: nat, acc: u32, d: SeccompData)
    ensures Exec(pre + b, |pre| + pc, acc, d) == Exec(b, pc, acc, d)
    decreases |b| - pc
  {
    if pc < |b| {
      assert (pre + b)[|pre| + pc] == b[pc];
      var e := Step(b[pc], acc, d);
      if e.Goto? {
        ExecShift(pre, b, pc + 1 + e.skip, e.acc, d);
      }
    }
  }

  /** Appending code does not change a block that stays inside itself: its verdicts
      stand, and falling off its end continues with the appended code. */
  lemma {:induction false} ExecPrefix(b: seq<SockFilter>, post: seq<SockFilter>, pc: nat, acc: u32, d: SeccompData)
    requires pc <= |b| && !Exec(b, pc, acc, d).Fault?
    ensures Exec(b + post, pc, acc, d) ==
            match Exec(b, pc, acc, d)
            case Ret(k) => Ret(k)
            case End(a) => Exec(b + post, |b|, a, d)
    decreases |b| - pc
  {
    if pc < |b| {
      assert (b + post)[pc] == b[pc];
      var e := Step(b[pc], acc, d);
      if e.Goto? {
        ExecPrefix(b, post, pc + 1 + e.skip, e.acc, d);
      }
    }
  }

  /** Sequential composition of blocks. */
  lemma ExecSeq(a: seq<SockFilter>, b: seq<SockFilter>, acc: u32, d: SeccompData)
    requires !Exec(a, 0, acc, d).Fault?
    ensures Exec(a + b, 0, acc, d) ==
            match Exec(a, 0, acc, d)
            case Ret(k) => Ret(k)
            case End(x) => Exec(b, 0, x, d)
  {
    ExecPrefix(a, b, 0, acc, d);
    match Exec(a, 0, acc, d)
    case Ret(_) =>
    case End(x) => ExecShift(a, b, 0, x, d);
  }

  /** On input `d` the block's verdict is `v`, or it runs to its end when `v` is None,
      whatever the accumulator holds on entry. */
  ghost predicate Gives(b: seq<SockFilter>, d: SeccompData, v: Option<u32>) {
    forall acc :: match v
                  case Some(k) => Exec(b, 0, acc, d) == Ret(k)
                  case None => Exec(b, 0, acc, d).End?
  }

  /** In a sequence of blocks the first verdict wins. */
  lemma GivesSeq(a: seq<SockFilter>, b: seq<SockFilter>, d: SeccompData, va: Option<u32>, vb: Option<u32>)
    requires Gives(a, d, va) && Gives(b, d, vb)
    ensures Gives(a + b, d, if va.Some? then va else vb)
  {
    forall acc
      ensures match if va.Some? then va else vb
              case Some(k) => Exec(a + b, 0, acc, d) == Ret(k)
              case None => Exec(a + b, 0, acc, d).End?
    {
      ExecSeq(a, b, acc, d);
    }
  }

  /** Every instruction is one the interpreter knows, loads a readable word, and both
      branches of every jump stay within the block or land on its end. */
  predicate Contained(b: seq<SockFilter>) {
    forall i :: 0 <= i < |b| ==> ContainedAt(b[i], |b| - i - 1)
  }

  predicate ContainedAt(i: SockFilter, room: nat) {
    || (i.code == 0x20 && i.k in {0, 4, 16, 20, 24, 28, 32, 36, 40, 44})
    || ((i.code == 0x15 || i.code == 0x45) && i.jt <= room && i.jf <= room)
    || i.code == 0x54
    || i.code == 0x06
  }

  lemma ContainedConcat(a: seq<SockFilter>, b: seq<SockFilter>)
    requires Contained(a) && Contained(b)
    ensures Contained(a + b)
  {
    forall i | 0 <= i < |a + b| ensures ContainedAt((a + b)[i], |a + b| - i - 1) {
      if i < |a| {
        assert ContainedAt(a[i], |a| - i - 1);
      } else {
        assert ContainedAt(b[i - |a|], |b| - (i - |a|) - 1);
      }
    }
  }

  /** The verdict is the operand of one of the block's own RET instructions. */
  predicate Returns(b: seq<SockFilter>, k: u32) {
    exists i :: 0 <= i < |b| && b[i].code == 0x06 && b[i].k == k
  }

  lemma ContainedStep(i: SockFilter, room: nat, acc: u32, d: SeccompData)
    requires ContainedAt(i, room)
    ensures var e := Step(i, acc, d);
            if e.Goto? then e.skip <= room else i.code == 0x06 && e.outcome == Ret(i.k)
  {
  }

  /** A contained block never faults, from any entry point and on any input, and
      every verdict it gives is one of its own. */
  lemma {:induction false} ContainedNeverFaults(b: seq<SockFilter>, pc: nat, acc: u32, d: SeccompData)
    requires Contained(b) && pc <= |b|
    ensures !Exec(b, pc, acc, d).Fault?
    ensures Exec(b, pc, acc, d).Ret? ==> Returns(b, Exec(b, pc, acc, d).verdict)
    decreases |b| - pc
  {
    if pc < |b| {
      ContainedStep(b[pc], |b| - pc - 1, acc, d);
      var e := Step(b[pc], acc, d);
      if e.Goto? {
        ContainedNeverFaults(b, pc + 1 + e.skip, e.acc, d);
      }
    }
  }
}
