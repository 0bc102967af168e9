/**
 The riscv64 stubs, run on a model of the RV64I instructions they use. Code is fetched
 from memory and decoded; the kernel's answer to `ecall` is arbitrary.
 */
module VdsoRiscv {
  import opened Prelude
  import opened Bits
  import opened LittleEndian
  import opened VdsoEncoders
  import opened VdsoMachine
  import opened VdsoMemory

  // ---- Encoders ----

  type Reg = x: int | 0 <= x < 32

  const X0: Reg := 0
  const T0: Reg := 5
  const T1: Reg := 6
  const T2: Reg := 7
  const A0: Reg := 10
  const A1: Reg := 11
  const A7: Reg := 17
  const T3: Reg := 28
  const T4: Reg := 29
  const T5: Reg := 30
  const T6: Reg := 31
  const ECALL: u32 := 0x73
  const RET: u32 := 0x8067

  /** The six fields every format below fills. */
  function Fields(f7: int, rs2: int, rs1: int, f3: int, rd: int, op: int): int {
    ((((f7 * 32 + rs2) * 32 + rs1) * 8 + f3) * 32 + rd) * 128 + op
  }

  predicate Fit(f7: int, rs2: int, rs1: int, f3: int, rd: int, op: int) {
    0 <= f7 < 128 && 0 <= rs2 < 32 && 0 <= rs1 < 32 && 0 <= f3 < 8 && 0 <= rd < 32 && 0 <= op < 128
  }

  /** A word with the immediate in its top twelve bits. */
  function IType(imm: int, rs1: Reg, f3: int, rd: Reg, op: int): u32
    requires 0 <= f3 < 8 && 0 <= op < 128
  {
    imm % 0x1000 * 0x10_0000 + rs1 * 0x8000 + f3 * 0x1000 + rd * 0x80 + op
  }

  function Addi(rd: Reg, rs1: Reg, imm: int): u32 { IType(imm, rs1, 0, rd, 0x13) }
  function Addiw(rd: Reg, rs1: Reg, imm: int): u32 { IType(imm, rs1, 0, rd, 0x1b) }
  function Lwu(rd: Reg, rs1: Reg, imm: int): u32 { IType(imm, rs1, 6, rd, 0x03) }
  function Lw(rd: Reg, rs1: Reg, imm: int): u32 { IType(imm, rs1, 2, rd, 0x03) }
  function Ld(rd: Reg, rs1: Reg, imm: int): u32 { IType(imm, rs1, 3, rd, 0x03) }
  function Slli(rd: Reg, rs1: Reg, shamt: int): u32 { IType(shamt % 64, rs1, 1, rd, 0x13) }

  /** `lui` (op 0x37) and `auipc` (op 0x17). */
  function UType(imm20: int, rd: Reg, op: int): u32
    requires 0 <= imm20 < 0x10_0000 && 0 <= op < 128
  {
    imm20 * 0x1000 + rd * 0x80 + op
  }

  function Sd(rs2: Reg, rs1: Reg, imm: int): u32 {
    imm % 0x1000 / 32 * 0x200_0000 + rs2 * 0x10_0000 + rs1 * 0x8000 + 3 * 0x1000 + imm % 32 * 0x80 + 0x23
  }

  /** A register-to-register operation: `or` has f3 6, `add` has f3 0. */
  function RType(rs2: Reg, rs1: Reg, f3: int, rd: Reg): u32
    requires 0 <= f3 < 8
  {
    rs2 * 0x10_0000 + rs1 * 0x8000 + f3 * 0x1000 + rd * 0x80 + 0x33
  }

  /** `branch`: `beq` has f3 0, `bne` has f3 1. */
  function Branch(f3: int, rs1: Reg, rs2: Reg, imm: int): u32
    requires 0 <= f3 < 8
  {
    imm / 0x1000 % 2 * 0x8000_0000 + imm / 32 % 64 * 0x200_0000 + rs2 * 0x10_0000 + rs1 * 0x8000 + f3 * 0x1000
    + imm / 2 % 16 * 0x100 + imm / 0x800 % 2 * 0x80 + 0x63
  }

  // ---- Decoder ----

  datatype Instr =
    | AddI(rd: Reg, rs1: Reg, imm: int)
    | AddIW(rd: Reg, rs1: Reg, imm: int)
    | LoadUpper(rd: Reg, imm20: int)
    | AddUpperPc(rd: Reg, imm20: int)
    | LoadWordU(rd: Reg, rs1: Reg, imm: int)
    | LoadWord(rd: Reg, rs1: Reg, imm: int)
    | LoadDouble(rd: Reg, rs1: Reg, imm: int)
    | StoreDouble(rs2: Reg, rs1: Reg, imm: int)
    | ShiftLeft(rd: Reg, rs1: Reg, shamt: int)
    | OrRR(rd: Reg, rs1: Reg, rs2: Reg)
    | AddRR(rd: Reg, rs1: Reg, rs2: Reg)
    | BranchEq(rs1: Reg, rs2: Reg, imm: int)
    | BranchNe(rs1: Reg, rs2: Reg, imm: int)
    | Syscall
    | Return
    | Unknown

  /** The instruction with the given fields. */
  function Select(f7: int, rs2: Reg, rs1: Reg, f3: int, rd: Reg, op: int): Instr {
    var imm12 := SignExtend(f7 * 32 + rs2, 0x800);
    if op == 0x13 then
      if f3 == 0 then AddI(rd, rs1, imm12)
      else if f3 == 1 && f7 / 2 == 0 then ShiftLeft(rd, rs1, f7 % 2 * 32 + rs2)
      else Unknown
    else if op == 0x1b then if f3 == 0 then AddIW(rd, rs1, imm12) else Unknown
    else if op == 0x37 then LoadUpper(rd, ((f7 * 32 + rs2) * 32 + rs1) * 8 + f3)
    else if op == 0x17 then AddUpperPc(rd, ((f7 * 32 + rs2) * 32 + rs1) * 8 + f3)
    else if op == 0x03 then
      if f3 == 6 then LoadWordU(rd, rs1, imm12)
      else if f3 == 2 then LoadWord(rd, rs1, imm12)
      else if f3 == 3 then LoadDouble(rd, rs1, imm12)
      else Unknown
    else if op == 0x23 then if f3 == 3 then StoreDouble(rs2, rs1, SignExtend(f7 * 32 + rd, 0x800)) else Unknown
    else if op == 0x33 then
      if f7 != 0 then Unknown
      else if f3 == 6 then OrRR(rd, rs1, rs2)
      else if f3 == 0 then AddRR(rd, rs1, rs2)
      else Unknown
    else if op == 0x63 then
      var imm := SignExtend(f7 / 64 * 0x1000 + rd % 2 * 0x800 + f7 % 64 * 32 + rd / 2 * 2, 0x1000);
      if f3 == 0 then BranchEq(rs1, rs2, imm) else if f3 == 1 then BranchNe(rs1, rs2, imm) else Unknown
    else if op == 0x73 then if f7 == 0 && rs2 == 0 && rs1 == 0 && f3 == 0 && rd == 0 then Syscall else Unknown
    else if op == 0x67 then if f7 == 0 && rs2 == 0 && rs1 == 1 && f3 == 0 && rd == 0 then Return else Unknown
    else Unknown
  }

  function Decode(w: u32): Instr {
    Select(w / 0x200_0000, w / 0x10_0000 % 32, w / 0x8000 % 32, w / 0x1000 % 8, w / 0x80 % 32, w % 0x80)
  }

  lemma FieldsOf(w: int, f7: int, rs2: int, rs1: int, f3: int, rd: int, op: int)
    requires Fit(f7, rs2, rs1, f3, rd, op) && w == Fields(f7, rs2, rs1, f3, rd, op)
    ensures 0 <= w < 0x1_0000_0000
    ensures w / 0x200_0000 == f7 && w / 0x10_0000 % 32 == rs2 && w / 0x8000 % 32 == rs1
    ensures w / 0x1000 % 8 == f3 && w / 0x80 % 32 == rd && w % 0x80 == op
  {
    DivUnique(w, f7, (((rs2 * 32 + rs1) * 8 + f3) * 32 + rd) * 128 + op, 0x200_0000);
    FieldAt(w, f7, rs2, ((rs1 * 8 + f3) * 32 + rd) * 128 + op, 0x10_0000, 32);
    FieldAt(w, f7 * 32 + rs2, rs1, (f3 * 32 + rd) * 128 + op, 0x8000, 32);
    FieldAt(w, (f7 * 32 + rs2) * 32 + rs1, f3, rd * 128 + op, 0x1000, 8);
    FieldAt(w, ((f7 * 32 + rs2) * 32 + rs1) * 8 + f3, rd, op, 0x80, 32);
    DivUnique(w, (((f7 * 32 + rs2) * 32 + rs1) * 8 + f3) * 32 + rd, op, 0x80);
  }

  /** Decoding a word with known fields. */
  lemma DecodeFields(w: u32, f7: int, rs2: Reg, rs1: Reg, f3: int, rd: Reg, op: int)
    requires Fit(f7, rs2, rs1, f3, rd, op) && w == Fields(f7, rs2, rs1, f3, rd, op)
    ensures Decode(w) == Select(f7, rs2, rs1, f3, rd, op)
  {
    FieldsOf(w, f7, rs2, rs1, f3, rd, op);
  }

  lemma ImmHalves(imm: int)
    requires -0x800 <= imm < 0x800
    ensures var u := imm % 0x1000;
            && 0 <= u / 32 < 128 && u == u / 32 * 32 + u % 32 && imm % 32 == u % 32
            && SignExtend(u / 32 * 32 + u % 32, 0x800) == imm
  {
  }

  lemma DecodeIType(imm: int, rs1: Reg, f3: int, rd: Reg, op: int)
    requires 0 <= f3 < 8 && 0 <= op < 128 && -0x800 <= imm < 0x800
    ensures var u := imm % 0x1000;
            && Decode(IType(imm, rs1, f3, rd, op)) == Select(u / 32, u % 32, rs1, f3, rd, op)
            && SignExtend(u / 32 * 32 + u % 32, 0x800) == imm
  {
    var u := imm % 0x1000;
    ImmHalves(imm);
    assert IType(imm, rs1, f3, rd, op) == Fields(u / 32, u % 32, rs1, f3, rd, op);
    DecodeFields(IType(imm, rs1, f3, rd, op), u / 32, u % 32, rs1, f3, rd, op);
  }

  /** The decoder inverts the immediate encoders on every register and 12-bit immediate. */
  lemma ImmediatesRoundTrip(rd: Reg, rs1: Reg, imm: int)
    requires -0x800 <= imm < 0x800
    ensures Decode(Addi(rd, rs1, imm)) == AddI(rd, rs1, imm)
    ensures Decode(Addiw(rd, rs1, imm)) == AddIW(rd, rs1, imm)
    ensures Decode(Lwu(rd, rs1, imm)) == LoadWordU(rd, rs1, imm)
    ensures Decode(Lw(rd, rs1, imm)) == LoadWord(rd, rs1, imm)
    ensures Decode(Ld(rd, rs1, imm)) == LoadDouble(rd, rs1, imm)
  {
    DecodeIType(imm, rs1, 0, rd, 0x13);
    DecodeIType(imm, rs1, 0, rd, 0x1b);
    DecodeIType(imm, rs1, 6, rd, 0x03);
    DecodeIType(imm, rs1, 2, rd, 0x03);
    DecodeIType(imm, rs1, 3, rd, 0x03);
  }

  lemma StoreRoundTrip(rs2: Reg, rs1: Reg, imm: int)
    requires -0x800 <= imm < 0x800
    ensures Decode(Sd(rs2, rs1, imm)) == StoreDouble(rs2, rs1, imm)
  {
    var u := imm % 0x1000;
    ImmHalves(imm);
    DecodeFields(Sd(rs2, rs1, imm), u / 32, rs2, rs1, 3, u % 32, 0x23);
  }

  lemma ShiftRoundTrip(rd: Reg, rs1: Reg, shamt: int)
    requires 0 <= shamt < 64
    ensures Decode(Slli(rd, rs1, shamt)) == ShiftLeft(rd, rs1, shamt)
  {
    DecodeFields(Slli(rd, rs1, shamt), shamt / 32, shamt % 32, rs1, 1, rd, 0x13);
  }

  lemma RegistersRoundTrip(rd: Reg, rs1: Reg, rs2: Reg)
    ensures Decode(RType(rs2, rs1, 6, rd)) == OrRR(rd, rs1, rs2)
    ensures Decode(RType(rs2, rs1, 0, rd)) == AddRR(rd, rs1, rs2)
  {
    DecodeFields(RType(rs2, rs1, 6, rd), 0, rs2, rs1, 6, rd, 0x33);
    DecodeFields(RType(rs2, rs1, 0, rd), 0, rs2, rs1, 0, rd, 0x33);
  }

  lemma UpperRoundTrip(rd: Reg, imm20: int)
    requires 0 <= imm20 < 0x10_0000
    ensures Decode(UType(imm20, rd, 0x37)) == LoadUpper(rd, imm20)
    ensures Decode(UType(imm20, rd, 0x17)) == AddUpperPc(rd, imm20)
  {
    var hi, rs1, f3 := imm20 / 256, imm20 / 8 % 32, imm20 % 8;
    DecodeFields(UType(imm20, rd, 0x37), hi / 32, hi % 32, rs1, f3, rd, 0x37);
    UpperPcRoundTrip(rd, imm20, hi, rs1, f3);
  }

  lemma UpperPcRoundTrip(rd: Reg, imm20: int, hi: int, rs1: int, f3: int)
    requires 0 <= imm20 < 0x10_0000 && hi == imm20 / 256 && rs1 == imm20 / 8 % 32 && f3 == imm20 % 8
    ensures Decode(UType(imm20, rd, 0x17)) == AddUpperPc(rd, imm20)
  {
    DecodeFields(UType(imm20, rd, 0x17), hi / 32, hi % 32, rs1, f3, rd, 0x17);
  }

  lemma BranchImmediate(imm: int)
    requires -0x1000 <= imm < 0x1000 && imm % 2 == 0
    ensures SignExtend(imm / 0x1000 % 2 * 0x1000 + imm / 0x800 % 2 * 0x800 + imm / 32 % 64 * 32 + imm / 2 % 16 * 2,
                       0x1000) == imm
  {
    assert imm == imm / 2 * 2;
    assert imm / 32 == imm / 2 / 16;
    assert imm / 0x800 == imm / 32 / 64;
    assert imm / 0x1000 == imm / 0x800 / 2;
  }

  lemma BranchRoundTrip(rs1: Reg, rs2: Reg, imm: int)
    requires -0x1000 <= imm < 0x1000 && imm % 2 == 0
    ensures Decode(Branch(0, rs1, rs2, imm)) == BranchEq(rs1, rs2, imm)
    ensures Decode(Branch(1, rs1, rs2, imm)) == BranchNe(rs1, rs2, imm)
  {
    var f7, rd := imm / 0x1000 % 2 * 64 + imm / 32 % 64, imm / 2 % 16 * 2 + imm / 0x800 % 2;
    assert f7 / 64 == imm / 0x1000 % 2 && f7 % 64 == imm / 32 % 64;
    assert rd % 2 == imm / 0x800 % 2 && rd / 2 == imm / 2 % 16;
    BranchImmediate(imm);
    DecodeFields(Branch(0, rs1, rs2, imm), f7, rs2, rs1, 0, rd, 0x63);
    DecodeFields(Branch(1, rs1, rs2, imm), f7, rs2, rs1, 1, rd, 0x63);
  }

  lemma EcallDecodes(w: u32)
    requires w == ECALL
    ensures Decode(w) == Syscall
  {
    DecodeFields(w, 0, 0, 0, 0, 0, 0x73);
  }

  lemma RetDecodes(w: u32)
    requires w == RET
    ensures Decode(w) == Return
  {
    DecodeFields(w, 0, 0, 1, 0, 0, 0x67);
  }

  predicate Encodable(i: Instr) {
    match i
    case AddI(_, _, imm) => -0x800 <= imm < 0x800
    case AddIW(_, _, imm) => -0x800 <= imm < 0x800
    case LoadUpper(_, imm20) => 0 <= imm20 < 0x10_0000
    case AddUpperPc(_, imm20) => 0 <= imm20 < 0x10_0000
    case LoadWordU(_, _, imm) => -0x800 <= imm < 0x800
    case LoadWord(_, _, imm) => -0x800 <= imm < 0x800
    case LoadDouble(_, _, imm) => -0x800 <= imm < 0x800
    case StoreDouble(_, _, imm) => -0x800 <= imm < 0x800
    case ShiftLeft(_, _, shamt) => 0 <= shamt < 64
    case BranchEq(_, _, imm) => -0x1000 <= imm < 0x1000 && imm % 2 == 0
    case BranchNe(_, _, imm) => -0x1000 <= imm < 0x1000 && imm % 2 == 0
    case Unknown => false
    case _ => true
  }

  /** The encoder the `rv` module offers for each instruction. */
  function Encode(i: Instr): u32
    requires Encodable(i)
  {
    match i
    case AddI(rd, rs1, imm) => Addi(rd, rs1, imm)
    case AddIW(rd, rs1, imm) => Addiw(rd, rs1, imm)
    case LoadUpper(rd, imm20) => UType(imm20, rd, 0x37)
    case AddUpperPc(rd, imm20) => UType(imm20, rd, 0x17)
    case LoadWordU(rd, rs1, imm) => Lwu(rd, rs1, imm)
    case LoadWord(rd, rs1, imm) => Lw(rd, rs1, imm)
    case LoadDouble(rd, rs1, imm) => Ld(rd, rs1, imm)
    case StoreDouble(rs2, rs1, imm) => Sd(rs2, rs1, imm)
    case ShiftLeft(rd, rs1, shamt) => Slli(rd, rs1, shamt)
    case OrRR(rd, rs1, rs2) => RType(rs2, rs1, 6, rd)
    case AddRR(rd, rs1, rs2) => RType(rs2, rs1, 0, rd)
    case BranchEq(rs1, rs2, imm) => Branch(0, rs1, rs2, imm)
    case BranchNe(rs1, rs2, imm) => Branch(1, rs1, rs2, imm)
    case Syscall => ECALL
    case Return => RET
  }

  /** The decoder inverts every encoder, on all registers and immediates. */
  lemma RoundTrip(i: Instr)
    requires Encodable(i)
    ensures Decode(Encode(i)) == i
  {
    match i
    case AddI(rd, rs1, imm) => ImmediatesRoundTrip(rd, rs1, imm);
    case AddIW(rd, rs1, imm) => ImmediatesRoundTrip(rd, rs1, imm);
    case LoadUpper(rd, imm20) => UpperRoundTrip(rd, imm20);
    case AddUpperPc(rd, imm20) => UpperRoundTrip(rd, imm20);
    case LoadWordU(rd, rs1, imm) => ImmediatesRoundTrip(rd, rs1, imm);
    case LoadWord(rd, rs1, imm) => ImmediatesRoundTrip(rd, rs1, imm);
    case LoadDouble(rd, rs1, imm) => ImmediatesRoundTrip(rd, rs1, imm);
    case StoreDouble(rs2, rs1, imm) => StoreRoundTrip(rs2, rs1, imm);
    case ShiftLeft(rd, rs1, shamt) => ShiftRoundTrip(rd, rs1, shamt);
    case OrRR(rd, rs1, rs2) => RegistersRoundTrip(rd, rs1, rs2);
    case AddRR(rd, rs1, rs2) => RegistersRoundTrip(rd, rs1, rs2);
    case BranchEq(rs1, rs2, imm) => BranchRoundTrip(rs1, rs2, imm);
    case BranchNe(rs1, rs2, imm) => BranchRoundTrip(rs1, rs2, imm);
    case Syscall => EcallDecodes(ECALL);
    case Return => RetDecodes(RET);
  }

  predicate AllEncodable(prog: seq<Instr>) {
    forall i :: 0 <= i < |prog| ==> Encodable(prog[i])
  }

  function EncodeAll(prog: seq<Instr>): (ws: seq<u32>)
    requires AllEncodable(prog)
    ensures |ws| == |prog|
  {
    if prog == [] then [] else [Encode(prog[0])] + EncodeAll(prog[1..])
  }

  lemma {:induction false} EncodeAllAt(prog: seq<Instr>, i: nat)
    requires AllEncodable(prog) && i < |prog|
    ensures Decode(EncodeAll(prog)[i]) == prog[i]
  {
    if i == 0 {
      RoundTrip(prog[0]);
    } else {
      EncodeAllAt(prog[1..], i - 1);
    }
  }

  // ---- Execution ----

  type Regs = s: seq<u64> | |s| == 32 witness seq(32, _ => 0)

  /** `at` is the program counter relative to the start of the stub. */
  datatype State = State(at: int, regs: Regs, mem: Mem, calls: seq<Call>)

  function Get(regs: Regs, r: Reg): u64 { if r == 0 then 0 else regs[r] }

  function Set(regs: Regs, r: Reg, v: u64): Regs { if r == 0 then regs else regs[r := v] }

  /** A 32-bit result widened to the register. */
  function Sext32(x: int): u64 { Wrap(SignExtend(x % 0x1_0000_0000, 0x8000_0000)) }

  ghost function Write(s: State, rd: Reg, v: u64): Effect<State> {
    Next(s.(at := s.at + 4, regs := Set(s.regs, rd, v)))
  }

  ghost function Step(base: u64, i: Instr, s: State, k: Reply): Effect<State> {
    match i
    case AddI(rd, rs1, imm) => Write(s, rd, At(Get(s.regs, rs1), imm))
    case AddIW(rd, rs1, imm) => Write(s, rd, Sext32(Get(s.regs, rs1) + imm))
    case LoadUpper(rd, imm20) => Write(s, rd, Sext32(imm20 * 0x1000))
    case AddUpperPc(rd, imm20) => Write(s, rd, At(At(base, s.at), Sext32(imm20 * 0x1000)))
    case LoadWordU(rd, rs1, imm) => Write(s, rd, Load32(s.mem, At(Get(s.regs, rs1), imm)))
    case LoadWord(rd, rs1, imm) => Write(s, rd, Sext32(Load32(s.mem, At(Get(s.regs, rs1), imm))))
    case LoadDouble(rd, rs1, imm) => Write(s, rd, Load64(s.mem, At(Get(s.regs, rs1), imm)))
    case StoreDouble(rs2, rs1, imm) =>
      Next(s.(at := s.at + 4, mem := Store(s.mem, At(Get(s.regs, rs1), imm), Get(s.regs, rs2))))
    case ShiftLeft(rd, rs1, shamt) => if shamt < 0 then Fault else Write(s, rd, Wrap(Get(s.regs, rs1) * Pow2(shamt)))
    case OrRR(rd, rs1, rs2) => Write(s, rd, Wrap(Or(Get(s.regs, rs1), Get(s.regs, rs2))))
    case AddRR(rd, rs1, rs2) => Write(s, rd, Wrap(Get(s.regs, rs1) + Get(s.regs, rs2)))
    case BranchEq(rs1, rs2, imm) =>
      Next(s.(at := if Get(s.regs, rs1) == Get(s.regs, rs2) then s.at + imm else s.at + 4))
    case BranchNe(rs1, rs2, imm) =>
      Next(s.(at := if Get(s.regs, rs1) != Get(s.regs, rs2) then s.at + imm else s.at + 4))
    case Syscall =>
      Next(State(s.at + 4, Set(s.regs, A0, k.ret), k.mem,
                 s.calls + [Call(Get(s.regs, A7), Get(s.regs, A0), Get(s.regs, A1))]))
    case Return => Returned(s)
    case Unknown => Fault
  }

  /** Which instruction memory holds at an offset into the stub. */
  type Fetcher = (Mem, int) -> Instr

  /** Instructions fetched and decoded from memory at `base`. */
  ghost function FetchAt(base: u64): Fetcher {
    (m: Mem, at: int) => Decode(Load32(m, At(base, at)))
  }

  /** One instruction, fetched by `f`; the kernel answers `k`. */
  ghost function Cpu(base: u64, f: Fetcher, k: Reply): State -> Effect<State> {
    (s: State) => Step(base, f(s.mem, s.at), s, k)
  }

  /** A run of the code in memory at `base`. */
  ghost function Run(base: u64, s: State, k: Reply, fuel: nat): Effect<State> {
    Exec(Cpu(base, FetchAt(base), k), s, fuel)
  }

  /** The decoded program is what the fetcher finds in `m`. */
  ghost predicate Loaded(f: Fetcher, m: Mem, prog: seq<Instr>) {
    forall i {:trigger prog[i]} :: 0 <= i < |prog| ==> f(m, 4 * i) == prog[i]
  }

  lemma DoesStep(base: u64, f: Fetcher, k: Reply, s: State, i: Instr, t: State)
    requires f(s.mem, s.at) == i && Step(base, i, s, k) == Next(t)
    ensures Reaches(Cpu(base, f, k), s, 1, t)
  {
    Does(Cpu(base, f, k), s, t);
  }

  lemma LoadedFrom(m: Mem, base: u64, code: seq<byte>, prog: seq<Instr>, tail: seq<byte>)
    requires AllEncodable(prog) && code == Flat(EncodeAll(prog)) + tail && Holds(m, base, code)
    ensures Loaded(FetchAt(base), m, prog)
  {
    forall i {:trigger prog[i]} | 0 <= i < |prog| ensures FetchAt(base)(m, 4 * i) == prog[i] {
      EncodeAllAt(prog, i);
      FetchWord(m, base, code, EncodeAll(prog), tail, i);
    }
  }

  // ---- Loading the call number ----

  /** `riscv_li_a7`. */
  function LiA7(value: u32): seq<u32> {
    if value < 2048 then [Addi(A7, X0, value)]
    else
      var lo12 := value % 0x1000;
      var hi20 := if lo12 / 0x800 % 2 != 0 then (value / 0x1000 + 1) % 0x10_0000 else value / 0x1000;
      [UType(hi20, A7, 0x37), Addiw(A7, A7, lo12)]
  }

  lemma Sext32Add(x: int, imm: int)
    ensures Sext32(Sext32(x) + imm) == Sext32(x + imm)
  {
    var y, q := x % 0x1_0000_0000, x / 0x1_0000_0000;
    ModShift(y + imm, q);
    ModShift(y + imm, if y < 0x8000_0000 then 0 else 0xFFFF_FFFF);
  }

  lemma ModShift(a: int, q: int)
    ensures (a + q * 0x1_0000_0000) % 0x1_0000_0000 == a % 0x1_0000_0000
  {
    DivUnique(a + q * 0x1_0000_0000, a / 0x1_0000_0000 + q, a % 0x1_0000_0000, 0x1_0000_0000);
  }

  /** The bump of the upper part pays back what sign extension takes away. */
  lemma LiCarry(value: u32, lo12: int, hi20: int)
    requires lo12 == value % 0x1000
    requires hi20 == if lo12 / 0x800 % 2 != 0 then (value / 0x1000 + 1) % 0x10_0000 else value / 0x1000
    ensures (hi20 * 0x1000 + SignExtend(lo12, 0x800)) % 0x1_0000_0000 == value
  {
    var q := value / 0x1000;
    assert value == q * 0x1000 + lo12;
    if lo12 >= 0x800 {
      assert lo12 / 0x800 == 1;
      if q + 1 == 0x10_0000 {
        assert hi20 == 0;
      } else {
        assert hi20 == q + 1;
      }
    } else {
      assert lo12 / 0x800 == 0;
    }
  }

  lemma LiShape(value: u32) returns (hi20: int, imm: int)
    requires value >= 2048
    ensures 0 <= hi20 < 0x10_0000 && -0x800 <= imm < 0x800
    ensures LiA7(value) == [UType(hi20, A7, 0x37), Addiw(A7, A7, imm)]
    ensures Sext32(hi20 * 0x1000 + imm) == Sext32(value)
  {
    var lo12 := value % 0x1000;
    hi20 := if lo12 / 0x800 % 2 != 0 then (value / 0x1000 + 1) % 0x10_0000 else value / 0x1000;
    imm := SignExtend(lo12, 0x800);
    LiCarry(value, lo12, hi20);
  }

  /** `li a7` leaves the sign-extended 32-bit number in a7 and touches nothing else. */
  lemma LiA7Loads(base: u64, s: State, k: Reply, value: u32)
    requires s.at == 0 && Holds(s.mem, base, Flat(LiA7(value)))
    ensures var n := |LiA7(value)|;
            Reaches(Cpu(base, FetchAt(base), k), s, n, s.(at := 4 * n, regs := s.regs[A7 := Sext32(value)]))
  {
    if value < 2048 {
      LiSmall(base, s, k, value);
    } else {
      var hi20, imm := LiShape(value);
      LiUpper(base, s, k, hi20, imm);
    }
  }

  lemma LiSmall(base: u64, s: State, k: Reply, value: int)
    requires s.at == 0 && 0 <= value < 2048 && Holds(s.mem, base, Flat([Addi(A7, X0, value)]))
    ensures Reaches(Cpu(base, FetchAt(base), k), s, 1, s.(at := 4, regs := s.regs[A7 := Sext32(value)]))
  {
    var prog := [AddI(A7, X0, value)];
    assert EncodeAll(prog) == [Addi(A7, X0, value)];
    LoadedFrom(s.mem, base, Flat(EncodeAll(prog)), prog, []);
    RunOne(base, FetchAt(base), s, k, value);
  }

  lemma RunOne(base: u64, f: Fetcher, s: State, k: Reply, value: int)
    requires s.at == 0 && 0 <= value < 2048 && Loaded(f, s.mem, [AddI(A7, X0, value)])
    ensures Reaches(Cpu(base, f, k), s, 1, s.(at := 4, regs := s.regs[A7 := Sext32(value)]))
  {
    assert f(s.mem, 0) == [AddI(A7, X0, value)][0];
    DoesStep(base, f, k, s, AddI(A7, X0, value), s.(at := 4, regs := s.regs[A7 := Sext32(value)]));
  }

  lemma LiUpper(base: u64, s: State, k: Reply, hi20: int, imm: int)
    requires s.at == 0 && 0 <= hi20 < 0x10_0000 && -0x800 <= imm < 0x800
    requires Holds(s.mem, base, Flat([UType(hi20, A7, 0x37), Addiw(A7, A7, imm)]))
    ensures Reaches(Cpu(base, FetchAt(base), k), s, 2, s.(at := 8, regs := s.regs[A7 := Sext32(hi20 * 0x1000 + imm)]))
  {
    var prog := [LoadUpper(A7, hi20), AddIW(A7, A7, imm)];
    assert prog[1..] == [AddIW(A7, A7, imm)];
    assert EncodeAll(prog) == [UType(hi20, A7, 0x37), Addiw(A7, A7, imm)];
    LoadedFrom(s.mem, base, Flat(EncodeAll(prog)), prog, []);
    RunTwo(base, FetchAt(base), s, k, hi20, imm);
  }

  lemma RunTwo(base: u64, f: Fetcher, s: State, k: Reply, hi20: int, imm: int)
    requires s.at == 0 && Loaded(f, s.mem, [LoadUpper(A7, hi20), AddIW(A7, A7, imm)])
    ensures Reaches(Cpu(base, f, k), s, 2, s.(at := 8, regs := s.regs[A7 := Sext32(hi20 * 0x1000 + imm)]))
  {
    var prog := [LoadUpper(A7, hi20), AddIW(A7, A7, imm)];
    assert f(s.mem, 0) == prog[0] && f(s.mem, 4) == prog[1];
    var x := hi20 * 0x1000;
    var t := s.(at := 4, regs := s.regs[A7 := Sext32(x)]);
    DoesStep(base, f, k, s, LoadUpper(A7, hi20), t);
    Sext32Add(x, imm);
    var u := s.(at := 8, regs := s.regs[A7 := Sext32(x + imm)]);
    assert t.regs[A7 := Sext32(x + imm)] == u.regs;
    DoesStep(base, f, k, t, AddIW(A7, A7, imm), u);
    Then(Cpu(base, f, k), s, 1, t, 1, u);
  }

  // ---- The offset stubs ----

  const CLOCK_GETTIME := 113
  const GETTIMEOFDAY := 169

  /** The part both stubs end with: load the offset, add it to the seconds, return. */
  function ApplyProg(): seq<Instr> {
    [AddUpperPc(T2, 0), LoadWordU(T5, T2, 36), LoadWord(T6, T2, 40), ShiftLeft(T6, T6, 32), OrRR(T2, T5, T6),
     LoadDouble(T3, T4, 0), AddRR(T3, T3, T2), StoreDouble(T3, T4, 0), Return]
  }

  /** The instructions of `offset_stub_clock_gettime`. */
  function ClockProg(): seq<Instr> {
    [AddI(T0, A0, 0), AddI(T4, A1, 0), AddI(A7, X0, CLOCK_GETTIME), Syscall,
     BranchEq(T0, X0, 12), AddI(T1, X0, 5), BranchNe(T0, T1, 36)] + ApplyProg()
  }

  /** The instructions of `offset_stub_gettimeofday`. */
  function DayProg(): seq<Instr> {
    [AddI(T4, A0, 0), AddI(A7, X0, GETTIMEOFDAY), Syscall, BranchEq(T4, X0, 36)] + ApplyProg()
  }

  /** A stub: its instructions, then the offset as data. */
  function Stub(prog: seq<Instr>, off: u64): seq<byte>
    requires AllEncodable(prog)
  {
    Flat(EncodeAll(prog)) + Le(off, 8)
  }

  /** `s` one instruction later, with `rd` holding `v`. */
  ghost function Wrote(s: State, rd: Reg, v: u64): State
    requires rd != 0
  {
    s.(at := s.at + 4, regs := s.regs[rd := v])
  }

  lemma DoesMove(base: u64, f: Fetcher, k: Reply, s: State, rd: Reg, rs1: Reg)
    requires rd != 0 && rs1 != 0 && f(s.mem, s.at) == AddI(rd, rs1, 0)
    ensures Reaches(Cpu(base, f, k), s, 1, Wrote(s, rd, s.regs[rs1]))
  {
    DoesStep(base, f, k, s, AddI(rd, rs1, 0), Wrote(s, rd, s.regs[rs1]));
  }

  lemma DoesConst(base: u64, f: Fetcher, k: Reply, s: State, rd: Reg, v: int)
    requires rd != 0 && 0 <= v < 0x800 && f(s.mem, s.at) == AddI(rd, X0, v)
    ensures Reaches(Cpu(base, f, k), s, 1, Wrote(s, rd, v))
  {
    DoesStep(base, f, k, s, AddI(rd, X0, v), Wrote(s, rd, v));
  }

  lemma DoesAuipc(base: u64, f: Fetcher, k: Reply, s: State)
    requires f(s.mem, s.at) == AddUpperPc(T2, 0)
    ensures Reaches(Cpu(base, f, k), s, 1, Wrote(s, T2, At(base, s.at)))
  {
    assert At(At(base, s.at), Sext32(0)) == At(base, s.at);
    DoesStep(base, f, k, s, AddUpperPc(T2, 0), Wrote(s, T2, At(base, s.at)));
  }

  lemma DoesLowHalf(base: u64, f: Fetcher, k: Reply, s: State, v: u32)
    requires f(s.mem, s.at) == LoadWordU(T5, T2, 36) && Load32(s.mem, At(s.regs[T2], 36)) == v
    ensures Reaches(Cpu(base, f, k), s, 1, Wrote(s, T5, v))
  {
    DoesStep(base, f, k, s, LoadWordU(T5, T2, 36), Wrote(s, T5, v));
  }

  lemma DoesHighHalf(base: u64, f: Fetcher, k: Reply, s: State, v: u32)
    requires f(s.mem, s.at) == LoadWord(T6, T2, 40) && Load32(s.mem, At(s.regs[T2], 40)) == v
    ensures Reaches(Cpu(base, f, k), s, 1, Wrote(s, T6, Sext32(v)))
  {
    DoesStep(base, f, k, s, LoadWord(T6, T2, 40), Wrote(s, T6, Sext32(v)));
  }

  lemma ShiftedHalf(hi: u32)
    ensures Wrap(Sext32(hi) * Pow2(32)) == hi * 0x1_0000_0000
  {
    Pow2At32();
  }

  lemma DoesShift(base: u64, f: Fetcher, k: Reply, s: State, hi: u32)
    requires f(s.mem, s.at) == ShiftLeft(T6, T6, 32) && s.regs[T6] == Sext32(hi)
    ensures Reaches(Cpu(base, f, k), s, 1, Wrote(s, T6, hi * 0x1_0000_0000))
  {
    ShiftedHalf(hi);
    DoesStep(base, f, k, s, ShiftLeft(T6, T6, 32), Wrote(s, T6, hi * 0x1_0000_0000));
  }

  lemma JoinedHalves(off: u64)
    ensures Or(off % 0x1_0000_0000, off / 0x1_0000_0000 * 0x1_0000_0000) == off
  {
    Pow2At32();
    OrDisjoint(off % 0x1_0000_0000, off / 0x1_0000_0000, 32);
  }

  lemma DoesOr(base: u64, f: Fetcher, k: Reply, s: State, lo: u64, hi: u64, v: u64)
    requires f(s.mem, s.at) == OrRR(T2, T5, T6) && s.regs[T5] == lo && s.regs[T6] == hi && Or(lo, hi) == v
    ensures Reaches(Cpu(base, f, k), s, 1, Wrote(s, T2, v))
  {
    DoesStep(base, f, k, s, OrRR(T2, T5, T6), Wrote(s, T2, v));
  }

  lemma DoesJoin(base: u64, f: Fetcher, k: Reply, s: State, lo: u64, hi: u64, off: u64)
    requires f(s.mem, s.at) == OrRR(T2, T5, T6) && s.regs[T5] == lo && s.regs[T6] == hi
    requires lo == off % 0x1_0000_0000 && hi == off / 0x1_0000_0000 * 0x1_0000_0000
    ensures Reaches(Cpu(base, f, k), s, 1, Wrote(s, T2, off))
  {
    JoinedHalves(off);
    DoesOr(base, f, k, s, lo, hi, off);
  }

  /** The state agrees with `s` except for scratch registers and position. */
  ghost predicate SameBut(s: State, t: State, scratch: set<int>) {
    && t.mem == s.mem && t.calls == s.calls
    && forall r {:trigger t.regs[r]} :: 0 <= r < 32 && r !in scratch ==> t.regs[r] == s.regs[r]
  }

  /** The fetcher finds the shared tail at `p`. */
  ghost predicate TailAt(f: Fetcher, m: Mem, p: int) {
    && f(m, p) == AddUpperPc(T2, 0) && f(m, p + 4) == LoadWordU(T5, T2, 36) && f(m, p + 8) == LoadWord(T6, T2, 40)
    && f(m, p + 12) == ShiftLeft(T6, T6, 32) && f(m, p + 16) == OrRR(T2, T5, T6)
    && f(m, p + 20) == LoadDouble(T3, T4, 0) && f(m, p + 24) == AddRR(T3, T3, T2)
    && f(m, p + 28) == StoreDouble(T3, T4, 0)
    && f(m, p + 32) == Return
  }

  /** The embedded offset is readable as two words at `p + 36`. */
  ghost predicate DataAt(base: u64, m: Mem, p: int, off: u64) {
    && Load32(m, At(base, p + 36)) == off % 0x1_0000_0000
    && Load32(m, At(base, p + 40)) == off / 0x1_0000_0000
  }

  /** From `auipc`, five instructions bring the embedded offset into t2. */
  lemma OffsetLoads(base: u64, f: Fetcher, k: Reply, s: State, off: u64) returns (t: State)
    requires TailAt(f, s.mem, s.at) && DataAt(base, s.mem, s.at, off)
    ensures Reaches(Cpu(base, f, k), s, 5, t)
    ensures t.at == s.at + 20 && t.regs[T2] == off && SameBut(s, t, {T2, T5, T6})
  {
    var lo: u32, hi: u32 := off % 0x1_0000_0000, off / 0x1_0000_0000;
    AtAt(base, s.at, 36);
    AtAt(base, s.at, 40);
    var u := HalvesLoad(base, f, k, s, At(base, s.at), lo, hi);
    t := HalvesJoin(base, f, k, u, lo, hi, hi * 0x1_0000_0000, off);
    Then(Cpu(base, f, k), s, 3, u, 2, t);
  }

  /** The first three load its halves. */
  lemma HalvesLoad(base: u64, f: Fetcher, k: Reply, s: State, pc: u64, lo: u32, hi: u32) returns (t: State)
    requires f(s.mem, s.at) == AddUpperPc(T2, 0) && pc == At(base, s.at)
    requires f(s.mem, s.at + 4) == LoadWordU(T5, T2, 36) && f(s.mem, s.at + 8) == LoadWord(T6, T2, 40)
    requires Load32(s.mem, At(pc, 36)) == lo && Load32(s.mem, At(pc, 40)) == hi
    ensures Reaches(Cpu(base, f, k), s, 3, t) && t.at == s.at + 12
    ensures t.regs[T5] == lo && t.regs[T6] == Sext32(hi) && SameBut(s, t, {T2, T5, T6})
  {
    var s1 := Wrote(s, T2, pc);
    var s2 := Wrote(s1, T5, lo);
    t := Wrote(s2, T6, Sext32(hi));
    DoesAuipc(base, f, k, s);
    DoesLowHalf(base, f, k, s1, lo);
    DoesHighHalf(base, f, k, s2, hi);
    Then(Cpu(base, f, k), s, 1, s1, 1, s2);
    Then(Cpu(base, f, k), s, 2, s2, 1, t);
  }

  /** The next two put them together. */
  lemma HalvesJoin(base: u64, f: Fetcher, k: Reply, s: State, lo: u32, hi: u32, top: u64, off: u64) returns (t: State)
    requires f(s.mem, s.at) == ShiftLeft(T6, T6, 32) && f(s.mem, s.at + 4) == OrRR(T2, T5, T6)
    requires s.regs[T5] == lo && s.regs[T6] == Sext32(hi)
    requires top == hi * 0x1_0000_0000 && lo == off % 0x1_0000_0000 && hi == off / 0x1_0000_0000
    ensures Reaches(Cpu(base, f, k), s, 2, t)
    ensures t.at == s.at + 8 && t.regs[T2] == off && SameBut(s, t, {T2, T6})
  {
    var s1 := Wrote(s, T6, top);
    t := Wrote(s1, T2, off);
    DoesShift(base, f, k, s, hi);
    DoesJoin(base, f, k, s1, lo, top, off);
    Then(Cpu(base, f, k), s, 1, s1, 1, t);
  }

  lemma DoesSecondsLoad(base: u64, f: Fetcher, k: Reply, s: State)
    requires f(s.mem, s.at) == LoadDouble(T3, T4, 0)
    ensures Reaches(Cpu(base, f, k), s, 1, Wrote(s, T3, Load64(s.mem, s.regs[T4])))
  {
    assert At(s.regs[T4], 0) == s.regs[T4];
    DoesStep(base, f, k, s, LoadDouble(T3, T4, 0), Wrote(s, T3, Load64(s.mem, s.regs[T4])));
  }

  lemma DoesAdd(base: u64, f: Fetcher, k: Reply, s: State, v: u64)
    requires f(s.mem, s.at) == AddRR(T3, T3, T2) && v == At(s.regs[T3], s.regs[T2])
    ensures Reaches(Cpu(base, f, k), s, 1, Wrote(s, T3, v))
  {
    DoesStep(base, f, k, s, AddRR(T3, T3, T2), Wrote(s, T3, v));
  }

  lemma DoesSecondsStore(base: u64, f: Fetcher, k: Reply, s: State)
    requires f(s.mem, s.at) == StoreDouble(T3, T4, 0)
    ensures Reaches(Cpu(base, f, k), s, 1, s.(at := s.at + 4, mem := Store(s.mem, s.regs[T4], s.regs[T3])))
  {
    assert At(s.regs[T4], 0) == s.regs[T4];
    DoesStep(base, f, k, s, StoreDouble(T3, T4, 0), s.(at := s.at + 4, mem := Store(s.mem, s.regs[T4], s.regs[T3])));
  }

  /** Three more instructions add t2 to the seconds at t4. */
  lemma SecondsMove(base: u64, f: Fetcher, k: Reply, s: State, p: int, now: u64) returns (t: State)
    requires s.at == p + 20 && TailAt(f, s.mem, p) && now == At(Load64(s.mem, s.regs[T4]), s.regs[T2])
    ensures Reaches(Cpu(base, f, k), s, 3, t) && t.at == p + 32
    ensures t.mem == Store(s.mem, s.regs[T4], now) && SameBut(s, t.(mem := s.mem), {T3})
  {
    var s1 := Wrote(s, T3, Load64(s.mem, s.regs[T4]));
    var s2 := Wrote(s1, T3, now);
    t := s2.(at := p + 32, mem := Store(s.mem, s.regs[T4], now));
    DoesSecondsLoad(base, f, k, s);
    DoesAdd(base, f, k, s1, now);
    DoesSecondsStore(base, f, k, s2);
    Then(Cpu(base, f, k), s, 1, s1, 1, s2);
    Then(Cpu(base, f, k), s, 2, s2, 1, t);
  }

  lemma Returns(base: u64, f: Fetcher, k: Reply, s: State)
    requires f(s.mem, s.at) == Return
    ensures Ends(Cpu(base, f, k), s, 1, s)
  {
    EndsHere(Cpu(base, f, k), s);
  }

  /** Scratch registers of the stubs: the temporaries and a0, a7. */
  const CLOBBERED := {T0, T1, T2, T3, T4, T5, T6, A0, A7}

  /** What the caller may rely on: the kernel's answer in a0 and every other register but the scratch ones. */
  ghost predicate Faithful(s: State, t: State, k: Reply) {
    t.regs[A0] == k.ret && forall r {:trigger t.regs[r]} :: 0 <= r < 32 && r !in CLOBBERED ==> t.regs[r] == s.regs[r]
  }

  /** The shared tail shifts the seconds at t4 and returns. */
  lemma TailRuns(base: u64, f: Fetcher, k: Reply, s: State, off: u64, ptr: u64, now: u64) returns (t: State)
    requires TailAt(f, s.mem, s.at) && DataAt(base, s.mem, s.at, off)
    requires ptr == s.regs[T4] && now == At(Load64(s.mem, ptr), off) && f(Store(s.mem, ptr, now), s.at + 32) == Return
    ensures Ends(Cpu(base, f, k), s, 9, t)
    ensures t.mem == Store(s.mem, ptr, now) && SameBut(s, t.(mem := s.mem), {T2, T3, T5, T6})
  {
    var u := OffsetLoads(base, f, k, s, off);
    t := SecondsMove(base, f, k, u, s.at, now);
    Then(Cpu(base, f, k), s, 5, u, 3, t);
    Returns(base, f, k, t);
    EndsAfter(Cpu(base, f, k), s, 8, t, 1, t);
  }

  lemma DoesCall(base: u64, f: Fetcher, k: Reply, s: State, t: State)
    requires f(s.mem, s.at) == Syscall
    requires t == State(s.at + 4, s.regs[A0 := k.ret], k.mem, s.calls + [Call(s.regs[A7], s.regs[A0], s.regs[A1])])
    ensures Reaches(Cpu(base, f, k), s, 1, t)
  {
    DoesStep(base, f, k, s, Syscall, t);
  }

  /** Up to and including the call of `clock_gettime`. */
  lemma ClockCalls(base: u64, f: Fetcher, k: Reply, s: State) returns (t: State)
    requires s.at == 0 && Loaded(f, s.mem, ClockProg())
    ensures Reaches(Cpu(base, f, k), s, 4, t)
    ensures t.at == 16 && t.mem == k.mem && t.calls == s.calls + [Call(CLOCK_GETTIME, s.regs[A0], s.regs[A1])]
    ensures t.regs[T0] == s.regs[A0] && t.regs[T4] == s.regs[A1] && Faithful(s, t, k)
  {
    ClockPlaced(f, s.mem);
    var s1 := Wrote(s, T0, s.regs[A0]);
    var s2 := Wrote(s1, T4, s.regs[A1]);
    var s3 := Wrote(s2, A7, CLOCK_GETTIME);
    t := State(16, s3.regs[A0 := k.ret], k.mem, s.calls + [Call(CLOCK_GETTIME, s.regs[A0], s.regs[A1])]);
    DoesMove(base, f, k, s, T0, A0);
    DoesMove(base, f, k, s1, T4, A1);
    DoesConst(base, f, k, s2, A7, CLOCK_GETTIME);
    DoesCall(base, f, k, s3, t);
    Then(Cpu(base, f, k), s, 1, s1, 1, s2);
    Then(Cpu(base, f, k), s, 2, s2, 1, s3);
    Then(Cpu(base, f, k), s, 3, s3, 1, t);
  }

  lemma DoesBranch(base: u64, f: Fetcher, k: Reply, s: State, i: Instr, t: State)
    requires f(s.mem, s.at) == i && (i.BranchEq? || i.BranchNe?)
    requires t == s.(at := if (Get(s.regs, i.rs1) == Get(s.regs, i.rs2)) == i.BranchEq? then s.at + i.imm else s.at + 4)
    ensures Reaches(Cpu(base, f, k), s, 1, t)
  {
    DoesStep(base, f, k, s, i, t);
  }

  predicate Realtime(clock: u64) { clock == 0 || clock == 5 }

  /** The two comparisons send exactly the realtime clocks to the shift. */
  lemma ClockDecides(base: u64, f: Fetcher, k: Reply, s: State) returns (n: nat, t: State)
    requires s.at == 16 && f(s.mem, 16) == BranchEq(T0, X0, 12) && f(s.mem, 20) == AddI(T1, X0, 5)
    requires f(s.mem, 24) == BranchNe(T0, T1, 36)
    ensures n <= 3 && Reaches(Cpu(base, f, k), s, n, t) && SameBut(s, t, {T1})
    ensures t.at == if Realtime(s.regs[T0]) then 28 else 60
  {
    if s.regs[T0] == 0 {
      n, t := 1, s.(at := 28);
      DoesBranch(base, f, k, s, BranchEq(T0, X0, 12), t);
    } else {
      var s1 := s.(at := 20);
      DoesBranch(base, f, k, s, BranchEq(T0, X0, 12), s1);
      var s2 := Wrote(s1, T1, 5);
      DoesConst(base, f, k, s1, T1, 5);
      n, t := 3, s2.(at := if s.regs[T0] == 5 then 28 else 60);
      DoesBranch(base, f, k, s2, BranchNe(T0, T1, 36), t);
      Then(Cpu(base, f, k), s, 1, s1, 1, s2);
      Then(Cpu(base, f, k), s, 2, s2, 1, t);
    }
  }

  /** After the decision the stub either shifts the time or leaves memory as the kernel did. */
  lemma Finishes(base: u64, f: Fetcher, k: Reply, s: State, p: int, off: u64, ptr: u64) returns (t: State)
    requires TailAt(f, s.mem, p) && DataAt(base, s.mem, p, off) && (s.at == p || s.at == p + 32) && s.regs[T4] == ptr
    requires s.at == p ==> f(Store(s.mem, ptr, At(Load64(s.mem, ptr), off)), p + 32) == Return
    ensures Ends(Cpu(base, f, k), s, 9, t) && SameBut(s, t.(mem := s.mem), {T2, T3, T5, T6})
    ensures t.mem == if s.at == p then Store(s.mem, ptr, At(Load64(s.mem, ptr), off)) else s.mem
  {
    if s.at == p {
      t := TailRuns(base, f, k, s, off, ptr, At(Load64(s.mem, ptr), off));
    } else {
      t := s;
      Returns(base, f, k, s);
    }
  }

  ghost predicate ClockHeadAt(f: Fetcher, m: Mem) {
    && f(m, 0) == AddI(T0, A0, 0) && f(m, 4) == AddI(T4, A1, 0) && f(m, 8) == AddI(A7, X0, CLOCK_GETTIME)
    && f(m, 12) == Syscall && f(m, 16) == BranchEq(T0, X0, 12) && f(m, 20) == AddI(T1, X0, 5)
    && f(m, 24) == BranchNe(T0, T1, 36)
  }

  ghost predicate DayHeadAt(f: Fetcher, m: Mem) {
    && f(m, 0) == AddI(T4, A0, 0) && f(m, 4) == AddI(A7, X0, GETTIMEOFDAY) && f(m, 8) == Syscall
    && f(m, 12) == BranchEq(T4, X0, 36)
  }

  lemma ClockPlaced(f: Fetcher, m: Mem)
    requires Loaded(f, m, ClockProg())
    ensures ClockHeadAt(f, m) && TailAt(f, m, 28)
  {
    var p := ClockProg();
    assert f(m, 0) == p[0] && f(m, 4) == p[1] && f(m, 8) == p[2] && f(m, 12) == p[3] && f(m, 16) == p[4]
           && f(m, 20) == p[5] && f(m, 24) == p[6] && f(m, 28) == p[7] && f(m, 32) == p[8] && f(m, 36) == p[9]
           && f(m, 40) == p[10] && f(m, 44) == p[11] && f(m, 48) == p[12] && f(m, 52) == p[13] && f(m, 56) == p[14]
           && f(m, 60) == p[15];
  }

  lemma DayPlaced(f: Fetcher, m: Mem)
    requires Loaded(f, m, DayProg())
    ensures DayHeadAt(f, m) && TailAt(f, m, 16)
  {
    var p := DayProg();
    assert f(m, 0) == p[0] && f(m, 4) == p[1] && f(m, 8) == p[2] && f(m, 12) == p[3] && f(m, 16) == p[4]
           && f(m, 20) == p[5] && f(m, 24) == p[6] && f(m, 28) == p[7] && f(m, 32) == p[8] && f(m, 36) == p[9]
           && f(m, 40) == p[10] && f(m, 44) == p[11] && f(m, 48) == p[12];
  }

  /** A stub in memory: its program is fetched and its offset readable after the last instruction. */
  lemma StubPlaced(m: Mem, base: u64, prog: seq<Instr>, off: u64)
    requires AllEncodable(prog) && Holds(m, base, Stub(prog, off))
    ensures Loaded(FetchAt(base), m, prog)
    ensures Load32(m, At(base, 4 * |prog|)) == off % 0x1_0000_0000
    ensures Load32(m, At(base, 4 * |prog| + 4)) == off / 0x1_0000_0000
  {
    var code := Stub(prog, off);
    LoadedFrom(m, base, code, prog, Le(off, 8));
    assert code[4 * |prog|..] == Le(off, 8);
    FetchHalves(m, base, code, 4 * |prog|, off);
  }

  lemma ClockEnds(base: u64, f: Fetcher, k: Reply, s: State, off: u64, after: Mem) returns (t: State)
    requires s.at == 0 && Loaded(f, s.mem, ClockProg()) && Loaded(f, k.mem, ClockProg()) && DataAt(base, k.mem, 28, off)
    requires after == Moved(k.mem, s.regs[A1], off) && (Realtime(s.regs[A0]) ==> Loaded(f, after, ClockProg()))
    ensures Ends(Cpu(base, f, k), s, 16, t) && Faithful(s, t, k)
    ensures t.calls == s.calls + [Call(CLOCK_GETTIME, s.regs[A0], s.regs[A1])]
    ensures t.mem == if Realtime(s.regs[A0]) then after else k.mem
  {
    var u := ClockCalls(base, f, k, s);
    t := ClockRest(base, f, k, u, off, after);
    EndsAfter(Cpu(base, f, k), s, 4, u, 12, t);
  }

  /** After the call. */
  lemma ClockRest(base: u64, f: Fetcher, k: Reply, s: State, off: u64, after: Mem) returns (t: State)
    requires s.at == 16 && Loaded(f, s.mem, ClockProg()) && DataAt(base, s.mem, 28, off)
    requires after == Moved(s.mem, s.regs[T4], off) && (Realtime(s.regs[T0]) ==> Loaded(f, after, ClockProg()))
    ensures Ends(Cpu(base, f, k), s, 12, t) && SameBut(s, t.(mem := s.mem), {T1, T2, T3, T5, T6})
    ensures t.mem == if Realtime(s.regs[T0]) then after else s.mem
  {
    ClockPlaced(f, s.mem);
    var n, u := ClockDecides(base, f, k, s);
    if Realtime(s.regs[T0]) {
      assert f(after, 60) == ClockProg()[15] == Return;
    }
    t := Finishes(base, f, k, u, 28, off, s.regs[T4]);
    EndsAfter(Cpu(base, f, k), s, n, u, 9, t);
  }

  /**
   The clock_gettime stub: one real call with the caller's arguments, the kernel's answer in
   a0, and the seconds the kernel wrote shifted by the offset exactly for clocks 0 and 5. The
   calling convention passes a 32-bit clock id sign-extended.
   */
  lemma ClockStubShifts(prog: seq<Instr>, base: u64, s: State, k: Reply, off: u64, clock: u32) returns (t: State)
    requires prog == ClockProg() && AllEncodable(prog) && s.at == 0 && s.regs[A0] == Sext32(clock)
    requires Holds(s.mem, base, Stub(prog, off)) && Holds(k.mem, base, Stub(prog, off))
    requires Realtime(clock) ==> Apart(s.regs[A1], base, |Stub(prog, off)|)
    ensures forall fuel: nat {:trigger Run(base, s, k, fuel)} :: fuel >= 16 ==> Run(base, s, k, fuel) == Returned(t)
    ensures Faithful(s, t, k) && t.calls == s.calls + [Call(CLOCK_GETTIME, s.regs[A0], s.regs[A1])]
    ensures if Realtime(clock) then Shifted(k.mem, t.mem, s.regs[A1], off) else t.mem == k.mem
  {
    var ptr := s.regs[A1];
    StubPlaced(s.mem, base, prog, off);
    StubPlaced(k.mem, base, prog, off);
    SameClock(clock);
    if Realtime(clock) {
      MovedPlaced(k.mem, base, prog, ptr, off);
    }
    AddInPlace(k.mem, ptr, off);
    t := ClockEnds(base, FetchAt(base), k, s, off, Moved(k.mem, ptr, off));
  }

  lemma SameClock(clock: u32)
    ensures Realtime(Sext32(clock)) == Realtime(clock)
  {
  }

  /** A shift of the time away from the stub leaves the stub in place. */
  lemma MovedPlaced(m: Mem, base: u64, prog: seq<Instr>, ptr: u64, off: u64)
    requires AllEncodable(prog) && Holds(m, base, Stub(prog, off)) && Apart(ptr, base, |Stub(prog, off)|)
    ensures Loaded(FetchAt(base), Moved(m, ptr, off), prog)
  {
    HoldsApart(m, ptr, At(Load64(m, ptr), off), base, Stub(prog, off));
    StubPlaced(Moved(m, ptr, off), base, prog, off);
  }

  /** Up to and including the call of `gettimeofday`. */
  lemma DayCalls(base: u64, f: Fetcher, k: Reply, s: State) returns (t: State)
    requires s.at == 0 && Loaded(f, s.mem, DayProg())
    ensures Reaches(Cpu(base, f, k), s, 3, t) && t.at == 12 && t.mem == k.mem
    ensures t.calls == s.calls + [Call(GETTIMEOFDAY, s.regs[A0], s.regs[A1])]
    ensures t.regs[T4] == s.regs[A0] && Faithful(s, t, k)
  {
    DayPlaced(f, s.mem);
    var s1 := Wrote(s, T4, s.regs[A0]);
    var s2 := Wrote(s1, A7, GETTIMEOFDAY);
    t := State(12, s2.regs[A0 := k.ret], k.mem, s.calls + [Call(GETTIMEOFDAY, s.regs[A0], s.regs[A1])]);
    DoesMove(base, f, k, s, T4, A0);
    DoesConst(base, f, k, s1, A7, GETTIMEOFDAY);
    DoesCall(base, f, k, s2, t);
    Then(Cpu(base, f, k), s, 1, s1, 1, s2);
    Then(Cpu(base, f, k), s, 2, s2, 1, t);
  }

  lemma DayRest(base: u64, f: Fetcher, k: Reply, s: State, off: u64, after: Mem) returns (t: State)
    requires s.at == 12 && Loaded(f, s.mem, DayProg()) && DataAt(base, s.mem, 16, off)
    requires after == Moved(s.mem, s.regs[T4], off) && (s.regs[T4] != 0 ==> Loaded(f, after, DayProg()))
    ensures Ends(Cpu(base, f, k), s, 10, t) && SameBut(s, t.(mem := s.mem), {T2, T3, T5, T6})
    ensures t.mem == if s.regs[T4] != 0 then after else s.mem
  {
    DayPlaced(f, s.mem);
    var u := s.(at := if s.regs[T4] == 0 then 48 else 16);
    DoesBranch(base, f, k, s, BranchEq(T4, X0, 36), u);
    if s.regs[T4] != 0 {
      assert f(after, 48) == DayProg()[12] == Return;
    }
    t := Finishes(base, f, k, u, 16, off, s.regs[T4]);
    EndsAfter(Cpu(base, f, k), s, 1, u, 9, t);
  }

  lemma DayEnds(base: u64, f: Fetcher, k: Reply, s: State, off: u64, after: Mem) returns (t: State)
    requires s.at == 0 && Loaded(f, s.mem, DayProg()) && Loaded(f, k.mem, DayProg()) && DataAt(base, k.mem, 16, off)
    requires after == Moved(k.mem, s.regs[A0], off) && (s.regs[A0] != 0 ==> Loaded(f, after, DayProg()))
    ensures Ends(Cpu(base, f, k), s, 13, t) && Faithful(s, t, k)
    ensures t.calls == s.calls + [Call(GETTIMEOFDAY, s.regs[A0], s.regs[A1])]
    ensures t.mem == if s.regs[A0] != 0 then after else k.mem
  {
    var u := DayCalls(base, f, k, s);
    t := DayRest(base, f, k, u, off, after);
    EndsAfter(Cpu(base, f, k), s, 3, u, 10, t);
  }

  /** The gettimeofday stub shifts the seconds exactly when the pointer is not NULL. */
  lemma DayStubShifts(prog: seq<Instr>, base: u64, s: State, k: Reply, off: u64) returns (t: State)
    requires prog == DayProg() && AllEncodable(prog) && s.at == 0
    requires Holds(s.mem, base, Stub(prog, off)) && Holds(k.mem, base, Stub(prog, off))
    requires s.regs[A0] != 0 ==> Apart(s.regs[A0], base, |Stub(prog, off)|)
    ensures forall fuel: nat {:trigger Run(base, s, k, fuel)} :: fuel >= 13 ==> Run(base, s, k, fuel) == Returned(t)
    ensures Faithful(s, t, k) && t.calls == s.calls + [Call(GETTIMEOFDAY, s.regs[A0], s.regs[A1])]
    ensures if s.regs[A0] != 0 then Shifted(k.mem, t.mem, s.regs[A0], off) else t.mem == k.mem
  {
    var ptr := s.regs[A0];
    StubPlaced(s.mem, base, prog, off);
    StubPlaced(k.mem, base, prog, off);
    if ptr != 0 {
      MovedPlaced(k.mem, base, prog, ptr, off);
    }
    AddInPlace(k.mem, ptr, off);
    t := DayEnds(base, FetchAt(base), k, s, off, Moved(k.mem, ptr, off));
  }

  /** Every instruction of both stubs is in its encoder's range, so the results above apply. */
  lemma StubsEncode()
    ensures AllEncodable(ClockProg()) && |ClockProg()| == 16 && AllEncodable(DayProg()) && |DayProg()| == 13
  {
  }

  /** The stub builders: push each instruction, then the offset bytes. */
  method OffsetStub(insns: seq<Instr>, off: u64) returns (stub: seq<byte>)
    requires AllEncodable(insns)
    ensures stub == Stub(insns, off)
  {
    stub := EmitStub(EncodeAll(insns), Le(off, 8));
  }

  /** The clock_gettime stub: a whole number of words, decoding to its program and carrying the offset. */
  method ClockGettimeStub(off: u64) returns (stub: seq<byte>)
    ensures AllEncodable(ClockProg()) && stub == Stub(ClockProg(), off)
    ensures |stub| == 72
  {
    StubsEncode();
    stub := OffsetStub(ClockProg(), off);
  }

  /** The gettimeofday stub, which carries the offset behind thirteen instructions. */
  method GettimeofdayStub(off: u64) returns (stub: seq<byte>)
    ensures AllEncodable(DayProg()) && stub == Stub(DayProg(), off)
    ensures |stub| == 60
  {
    StubsEncode();
    stub := OffsetStub(DayProg(), off);
  }
}
