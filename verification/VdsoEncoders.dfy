/**
 The instruction encoders the vDSO patcher uses for jumps and constants, against the
 decoders of the Arm and RISC-V manuals. Words are numbers: a shifted and masked field
 is a quotient and remainder by powers of two, and an OR of disjoint fields is a sum.
 Differences of addresses wrap at 64 bits, as the casts in the code do.
 */
module VdsoEncoders {

  import opened Prelude
  import opened Bits

  const TWO64: int := 0x1_0000_0000_0000_0000

  /** The low 64 bits of a number. */
  function Wrap(x: int): u64 {
    x % TWO64
  }

  /** The low 64 bits read as a signed number. */
  function AsI64(x: int): int {
    var w := Wrap(x);
    if w < 0x8000_0000_0000_0000 then w else w - TWO64
  }

  /** The signed value of a field whose sign bit weighs `half`. */
  function SignExtend(x: int, half: int): int
    requires half > 0
  {
    if x < half then x else x - 2 * half
  }

  // ---- Fields ----

  /** Reading the field `f` of `size` values that starts at weight `unit`. */
  lemma FieldAt(w: int, hi: int, f: int, lo: int, unit: int, size: int)
    requires unit > 0 && size > 0 && 0 <= f < size && 0 <= lo < unit
    requires w == (hi * size + f) * unit + lo
    ensures w / unit % size == f
  {
    DivUnique(w, hi * size + f, lo, unit);
    DivUnique(hi * size + f, hi, f, size);
  }

  // ---- Arm `B` ----

  /** `arm64_b_insn`: None stands for the two error returns. */
  function ArmBranch(from: u64, to: u64): Option<u32> {
    var delta := AsI64(to - from);
    if delta % 4 != 0 then None
    else
      var offset := delta / 4;
      if !(-0x200_0000 <= offset < 0x200_0000) then None
      else Some(0x1400_0000 + offset % 0x400_0000)
  }

  predicate IsArmBranch(w: u32) {
    w / 0x400_0000 == 5
  }

  /** The byte displacement of a `B`: imm26 sign-extended and scaled by four. */
  function ArmBranchOffset(w: u32): int {
    4 * SignExtend(w % 0x400_0000, 0x200_0000)
  }

  /** An accepted branch lands on its target. */
  lemma ArmBranchLands(from: u64, to: u64)
    requires ArmBranch(from, to).Some?
    ensures IsArmBranch(ArmBranch(from, to).value) && Wrap(from + ArmBranchOffset(ArmBranch(from, to).value)) == to
  {
    var delta := AsI64(to - from);
    assert ArmBranchOffset(ArmBranch(from, to).value) == delta;
    WrapDelta(from, to);
  }

  lemma WrapDelta(from: u64, to: u64)
    ensures Wrap(from + AsI64(to - from)) == to
  {
  }

  lemma DeltaOf(from: u64, off: int)
    requires -0x8000_0000_0000_0000 <= off < 0x8000_0000_0000_0000
    ensures AsI64(Wrap(from + off) - from) == off
  {
  }

  /** Whatever some `B` can reach is accepted, with that very instruction. */
  lemma ArmBranchAccepts(from: u64, to: u64, w: u32)
    requires IsArmBranch(w) && Wrap(from + ArmBranchOffset(w)) == to
    ensures ArmBranch(from, to) == Some(w)
  {
    DeltaOf(from, ArmBranchOffset(w));
  }

  /** Acceptance is exactly reachability by a single branch instruction. */
  lemma ArmBranchAcceptsIff(from: u64, to: u64)
    ensures ArmBranch(from, to).Some? <==> exists w: u32 :: IsArmBranch(w) && Wrap(from + ArmBranchOffset(w)) == to
  {
    if ArmBranch(from, to).Some? {
      ArmBranchLands(from, to);
    }
    forall w: u32 | IsArmBranch(w) && Wrap(from + ArmBranchOffset(w)) == to ensures ArmBranch(from, to).Some? {
      ArmBranchAccepts(from, to, w);
    }
  }

  // ---- RISC-V `J` ----

  /** The scattered JAL immediate: bits 20, 10..1, 11 and 19..12 of an even 21-bit number. */
  function ScatterJ(imm: int): int
    requires 0 <= imm < 0x20_0000
  {
    var b20 := imm / 0x10_0000;
    var b10_1 := imm / 2 % 0x400;
    var b11 := imm / 0x800 % 2;
    var b19_12 := imm / 0x1000 % 0x100;
    b20 * 0x8000_0000 + b10_1 * 0x20_0000 + b11 * 0x10_0000 + b19_12 * 0x1000
  }

  /** The `jal x0` word for an even displacement in range. */
  function EncodeJ(delta: int): u32
    requires -0x10_0000 <= delta < 0x10_0000
  {
    ScatterBound(delta % 0x20_0000);
    ScatterJ(delta % 0x20_0000) + 0x6f
  }

  lemma ScatterBound(imm: int)
    requires 0 <= imm < 0x20_0000
    ensures 0 <= ScatterJ(imm) <= 0xFFFF_F000
  {
  }

  /** `riscv_j_insn`. */
  function RiscvJump(from: u64, to: u64): Option<u32> {
    var delta := AsI64(to - from);
    if delta % 2 != 0 then None
    else if !(-0x10_0000 <= delta < 0x10_0000) then None
    else Some(EncodeJ(delta))
  }

  /** `jal x0, _`. */
  predicate IsRiscvJump(w: u32) {
    w % 0x1000 == 0x6f
  }

  /** The JAL immediate put back together. */
  function GatherJ(w: u32): int {
    w / 0x8000_0000 * 0x10_0000 + w / 0x1000 % 0x100 * 0x1000 + w / 0x10_0000 % 2 * 0x800 + w / 0x20_0000 % 0x400 * 2
  }

  function RiscvJumpOffset(w: u32): int {
    SignExtend(GatherJ(w), 0x10_0000)
  }

  lemma WordFields(b20: int, b10: int, b11: int, b19: int)
    requires 0 <= b20 < 2 && 0 <= b10 < 0x400 && 0 <= b11 < 2 && 0 <= b19 < 0x100
    ensures var w := b20 * 0x8000_0000 + b10 * 0x20_0000 + b11 * 0x10_0000 + b19 * 0x1000 + 0x6f;
            && 0 <= w < 0x1_0000_0000 && w % 0x1000 == 0x6f
            && w / 0x8000_0000 == b20 && w / 0x20_0000 % 0x400 == b10 && w / 0x10_0000 % 2 == b11
            && w / 0x1000 % 0x100 == b19
  {
    var w := b20 * 0x8000_0000 + b10 * 0x20_0000 + b11 * 0x10_0000 + b19 * 0x1000 + 0x6f;
    DivUnique(w, b20, b10 * 0x20_0000 + b11 * 0x10_0000 + b19 * 0x1000 + 0x6f, 0x8000_0000);
    FieldAt(w, b20, b10, b11 * 0x10_0000 + b19 * 0x1000 + 0x6f, 0x20_0000, 0x400);
    FieldAt(w, b20 * 0x400 + b10, b11, b19 * 0x1000 + 0x6f, 0x10_0000, 2);
    FieldAt(w, b20 * 0x800 + b10 * 2 + b11, b19, 0x6f, 0x1000, 0x100);
    DivUnique(w, b20 * 0x8_0000 + b10 * 0x200 + b11 * 0x100 + b19, 0x6f, 0x1000);
  }

  lemma ImmFields(b20: int, b10: int, b11: int, b19: int)
    requires 0 <= b20 < 2 && 0 <= b10 < 0x400 && 0 <= b11 < 2 && 0 <= b19 < 0x100
    ensures var imm := b20 * 0x10_0000 + b19 * 0x1000 + b11 * 0x800 + b10 * 2;
            && 0 <= imm < 0x20_0000 && imm % 2 == 0
            && imm / 0x10_0000 == b20 && imm / 2 % 0x400 == b10 && imm / 0x800 % 2 == b11 && imm / 0x1000 % 0x100 == b19
  {
    var imm := b20 * 0x10_0000 + b19 * 0x1000 + b11 * 0x800 + b10 * 2;
    DivUnique(imm, b20, b19 * 0x1000 + b11 * 0x800 + b10 * 2, 0x10_0000);
    FieldAt(imm, b20 * 0x200 + b19 * 2 + b11, b10, 0, 2, 0x400);
    FieldAt(imm, b20 * 0x100 + b19, b11, b10 * 2, 0x800, 2);
    FieldAt(imm, b20, b19, b11 * 0x800 + b10 * 2, 0x1000, 0x100);
  }

  /** Cutting a number below `top * size` at two weights. */
  lemma Cut(n: int, unit: int, size: int)
    requires n >= 0 && unit > 0 && size > 0
    ensures n == (n / unit / size * size + n / unit % size) * unit + n % unit
    ensures n / (unit * size) == n / unit / size
  {
    var q, m := n / unit, n % unit;
    assert q == q / size * size + q % size;
    assert n == q * unit + m;
    var lo := q % size * unit + m;
    assert 0 <= lo < unit * size by {
      assert (q % size + 1) * unit <= size * unit;
    }
    assert n == q / size * (unit * size) + lo;
    DivUnique(n, q / size, lo, unit * size);
  }

  lemma ImmSplit(imm: int)
    requires 0 <= imm < 0x20_0000 && imm % 2 == 0
    ensures imm == imm / 0x10_0000 * 0x10_0000 + imm / 0x1000 % 0x100 * 0x1000 + imm / 0x800 % 2 * 0x800
            + imm / 2 % 0x400 * 2
  {
    Cut(imm, 2, 0x400);
    Cut(imm, 0x800, 2);
    Cut(imm, 0x1000, 0x100);
  }

  lemma WordSplit(w: u32)
    requires w % 0x1000 == 0x6f
    ensures w == w / 0x8000_0000 * 0x8000_0000 + w / 0x20_0000 % 0x400 * 0x20_0000 + w / 0x10_0000 % 2 * 0x10_0000
                 + w / 0x1000 % 0x100 * 0x1000 + 0x6f
  {
    Cut(w, 0x1000, 0x100);
    Cut(w, 0x10_0000, 2);
    Cut(w, 0x20_0000, 0x400);
  }

  /** Gathering undoes scattering. */
  lemma GatherScatter(imm: int)
    requires 0 <= imm < 0x20_0000 && imm % 2 == 0
    ensures 0 <= ScatterJ(imm) + 0x6f < 0x1_0000_0000
    ensures GatherJ(ScatterJ(imm) + 0x6f) == imm && (ScatterJ(imm) + 0x6f) % 0x1000 == 0x6f
  {
    ImmSplit(imm);
    WordFields(imm / 0x10_0000, imm / 2 % 0x400, imm / 0x800 % 2, imm / 0x1000 % 0x100);
  }

  /** Scattering undoes gathering. */
  lemma ScatterGather(w: u32)
    requires IsRiscvJump(w)
    ensures 0 <= GatherJ(w) < 0x20_0000 && GatherJ(w) % 2 == 0 && ScatterJ(GatherJ(w)) + 0x6f == w
  {
    WordSplit(w);
    ImmFields(w / 0x8000_0000, w / 0x20_0000 % 0x400, w / 0x10_0000 % 2, w / 0x1000 % 0x100);
  }

  lemma SignOfMod(delta: int)
    requires -0x10_0000 <= delta < 0x10_0000 && delta % 2 == 0
    ensures SignExtend(delta % 0x20_0000, 0x10_0000) == delta && delta % 0x20_0000 % 2 == 0
  {
  }

  lemma ModOfSign(imm: int)
    requires 0 <= imm < 0x20_0000 && imm % 2 == 0
    ensures var off := SignExtend(imm, 0x10_0000);
            -0x10_0000 <= off < 0x10_0000 && off % 2 == 0 && off % 0x20_0000 == imm
  {
  }

  lemma EncodeJDecodes(delta: int)
    requires -0x10_0000 <= delta < 0x10_0000 && delta % 2 == 0
    ensures IsRiscvJump(EncodeJ(delta)) && RiscvJumpOffset(EncodeJ(delta)) == delta
  {
    SignOfMod(delta);
    GatherScatter(delta % 0x20_0000);
  }

  /** `w` is the encoding of the displacement `off`. */
  predicate Encodes(off: int, w: u32) {
    -0x10_0000 <= off < 0x10_0000 && off % 2 == 0 && EncodeJ(off) == w
  }

  lemma DecodeJEncodes(w: u32, off: int)
    requires IsRiscvJump(w) && off == RiscvJumpOffset(w)
    ensures Encodes(off, w)
  {
    ScatterGather(w);
    ModOfSign(GatherJ(w));
  }

  /** An accepted jump lands on its target. */
  lemma RiscvJumpLands(from: u64, to: u64)
    requires RiscvJump(from, to).Some?
    ensures IsRiscvJump(RiscvJump(from, to).value) && Wrap(from + RiscvJumpOffset(RiscvJump(from, to).value)) == to
  {
    EncodeJDecodes(AsI64(to - from));
    WrapDelta(from, to);
  }

  lemma JumpFromDelta(from: u64, to: u64, off: int, w: u32)
    requires Encodes(off, w) && Wrap(from + off) == to
    ensures RiscvJump(from, to) == Some(w)
  {
    DeltaOf(from, off);
  }

  /** Whatever some `jal x0` can reach is accepted, with that very instruction. */
  lemma RiscvJumpAccepts(from: u64, to: u64, w: u32)
    requires IsRiscvJump(w) && Wrap(from + RiscvJumpOffset(w)) == to
    ensures RiscvJump(from, to) == Some(w)
  {
    var off := RiscvJumpOffset(w);
    assert Encodes(off, w) by {
      DecodeJEncodes(w, off);
    }
    JumpFromDelta(from, to, off, w);
  }

  /** Acceptance is exactly reachability by a single jump instruction. */
  lemma RiscvJumpAcceptsIff(from: u64, to: u64)
    ensures RiscvJump(from, to).Some? <==> exists w: u32 :: IsRiscvJump(w) && Wrap(from + RiscvJumpOffset(w)) == to
  {
    if RiscvJump(from, to).Some? {
      RiscvJumpLands(from, to);
    }
    forall w: u32 | IsRiscvJump(w) && Wrap(from + RiscvJumpOffset(w)) == to ensures RiscvJump(from, to).Some? {
      RiscvJumpAccepts(from, to, w);
    }
  }
}
