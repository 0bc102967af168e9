/**
 The aarch64 stubs, run on a model of the A64 instructions they use. Code is fetched from
 memory and decoded; the kernel's answer to `svc` is arbitrary.
 */
module VdsoArm {
  import opened Prelude
  import opened Bits
  import opened LittleEndian
  import opened VdsoEncoders
  import opened VdsoMachine
  import opened VdsoMemory

  /** x0 to x30; number 31 is the zero register and no stub instruction writes it. */
  type Reg = x: int | 0 <= x < 31

  datatype Instr =
    | Movz(rd: Reg, imm16: int, hw: int)
    | Movk(rd: Reg, imm16: int, hw: int)
    | Mov(rd: Reg, rm: Reg)
    | CmpW(rn: Reg, imm12: int)
    | BEq(offset: int)
    | BNe(offset: int)
    | Cbz(rt: Reg, offset: int)
    | Ldr(rt: Reg, rn: Reg)
    | Str(rt: Reg, rn: Reg)
    | Add(rd: Reg, rn: Reg, rm: Reg)
    | Svc
    | Ret
    | Unknown

  // ---- Decoder ----

  /** The bit fields 31..21, 20..16, 15..10, 9..5 and 4..0 of a word. */
  function Fields(top: int, b: int, c: int, n: int, d: int): int {
    (((top * 32 + b) * 64 + c) * 32 + n) * 32 + d
  }

  predicate Fit(top: int, b: int, c: int, n: int, d: int) {
    0 <= top < 0x800 && 0 <= b < 32 && 0 <= c < 64 && 0 <= n < 32 && 0 <= d < 32
  }

  function Select(top: int, b: int, c: int, n: int, d: int): Instr
    requires Fit(top, b, c, n, d)
  {
    var imm16 := (b * 64 + c) * 32 + n;
    var imm12 := top % 2 * 0x800 + b * 64 + c;
    var offset := 4 * SignExtend(top % 8 * 0x1_0000 + imm16, 0x4_0000);
    if top / 4 == 0x1A5 then if d < 31 then Movz(d, imm16, top % 4) else Unknown
    else if top / 4 == 0x1E5 then if d < 31 then Movk(d, imm16, top % 4) else Unknown
    else if top == 0x550 then if c == 0 && n == 31 && d < 31 && b < 31 then Mov(d, b) else Unknown
    else if top / 2 == 0x1C4 then if d == 31 && n < 31 then CmpW(n, imm12) else Unknown
    else if top / 8 == 0x54 then if d == 0 then BEq(offset) else if d == 1 then BNe(offset) else Unknown
    else if top / 8 == 0xB4 then if d < 31 then Cbz(d, offset) else Unknown
    else if top / 2 == 0x3E5 then if imm12 == 0 && d < 31 && n < 31 then Ldr(d, n) else Unknown
    else if top / 2 == 0x3E4 then if imm12 == 0 && d < 31 && n < 31 then Str(d, n) else Unknown
    else if top == 0x458 then if c == 0 && d < 31 && n < 31 && b < 31 then Add(d, n, b) else Unknown
    else if top == 0x6A0 then if b == 0 && c == 0 && n == 0 && d == 1 then Svc else Unknown
    else if top == 0x6B2 then if b == 31 && c == 0 && n == 30 && d == 0 then Ret else Unknown
    else Unknown
  }

  function Decode(w: u32): Instr {
    Select(w / 0x20_0000, w / 0x1_0000 % 32, w / 0x400 % 64, w / 32 % 32, w % 32)
  }

  lemma FieldsOf(w: int, top: int, b: int, c: int, n: int, d: int)
    requires Fit(top, b, c, n, d) && w == Fields(top, b, c, n, d)
    ensures 0 <= w < 0x1_0000_0000
    ensures w / 0x20_0000 == top && w / 0x1_0000 % 32 == b && w / 0x400 % 64 == c && w / 32 % 32 == n && w % 32 == d
  {
    DivUnique(w, top, ((b * 64 + c) * 32 + n) * 32 + d, 0x20_0000);
    FieldAt(w, top, b, (c * 32 + n) * 32 + d, 0x1_0000, 32);
    FieldAt(w, top * 32 + b, c, n * 32 + d, 0x400, 64);
    FieldAt(w, (top * 32 + b) * 64 + c, n, d, 32, 32);
    DivUnique(w, ((top * 32 + b) * 64 + c) * 32 + n, d, 32);
  }

  lemma DecodeFields(w: u32, top: int, b: int, c: int, n: int, d: int)
    requires Fit(top, b, c, n, d) && w == Fields(top, b, c, n, d)
    ensures Decode(w) == Select(top, b, c, n, d)
  {
    FieldsOf(w, top, b, c, n, d);
  }

  // ---- Encoder ----

  /** `movz_x`, with the shift given in halfwords. */
  function MovzX(reg: Reg, imm16: int, hw: int): u32
    requires 0 <= imm16 < 0x1_0000 && 0 <= hw < 4
  {
    0xD280_0000 + hw * 0x20_0000 + imm16 * 32 + reg
  }

  /** `movk_x`. */
  function MovkX(reg: Reg, imm16: int, hw: int): u32
    requires 0 <= imm16 < 0x1_0000 && 0 <= hw < 4
  {
    0xF280_0000 + hw * 0x20_0000 + imm16 * 32 + reg
  }

  predicate Encodable(i: Instr) {
    match i
    case Movz(_, imm16, hw) => 0 <= imm16 < 0x1_0000 && 0 <= hw < 4
    case Movk(_, imm16, hw) => 0 <= imm16 < 0x1_0000 && 0 <= hw < 4
    case CmpW(_, imm12) => 0 <= imm12 < 0x800
    case BEq(offset) => 0 <= offset < 0x4_0000 && offset % 4 == 0
    case BNe(offset) => 0 <= offset < 0x4_0000 && offset % 4 == 0
    case Cbz(_, offset) => 0 <= offset < 0x4_0000 && offset % 4 == 0
    case Unknown => false
    case _ => true
  }

  /** The A64 encodings of the instructions the stubs spell out. */
  function Encode(i: Instr): u32
    requires Encodable(i)
  {
    match i
    case Movz(rd, imm16, hw) => MovzX(rd, imm16, hw)
    case Movk(rd, imm16, hw) => MovkX(rd, imm16, hw)
    case Mov(rd, rm) => 0xAA00_03E0 + rm * 0x1_0000 + rd
    case CmpW(rn, imm12) => 0x7100_001F + imm12 * 0x400 + rn * 32
    case BEq(offset) => 0x5400_0000 + offset / 4 * 32
    case BNe(offset) => 0x5400_0001 + offset / 4 * 32
    case Cbz(rt, offset) => 0xB400_0000 + offset / 4 * 32 + rt
    case Ldr(rt, rn) => 0xF940_0000 + rn * 32 + rt
    case Str(rt, rn) => 0xF900_0000 + rn * 32 + rt
    case Add(rd, rn, rm) => 0x8B00_0000 + rm * 0x1_0000 + rn * 32 + rd
    case Svc => 0xD400_0001
    case Ret => 0xD65F_03C0
  }

  lemma Imm16Fields(x: int)
    requires 0 <= x < 0x1_0000
    ensures var b, c, n := x / 0x800, x / 32 % 64, x % 32;
            0 <= b < 32 && x == (b * 64 + c) * 32 + n
  {
  }

  lemma MoveRoundTrip(reg: Reg, imm16: int, hw: int)
    requires 0 <= imm16 < 0x1_0000 && 0 <= hw < 4
    ensures Decode(MovzX(reg, imm16, hw)) == Movz(reg, imm16, hw)
    ensures Decode(MovkX(reg, imm16, hw)) == Movk(reg, imm16, hw)
  {
    Imm16Fields(imm16);
    var b, c, n := imm16 / 0x800, imm16 / 32 % 64, imm16 % 32;
    DecodeFields(MovzX(reg, imm16, hw), 0x694 + hw, b, c, n, reg);
    DecodeFields(MovkX(reg, imm16, hw), 0x794 + hw, b, c, n, reg);
  }

  lemma OffsetField(offset: int)
    requires 0 <= offset < 0x4_0000 && offset % 4 == 0
    ensures var x := offset / 4; var b, c, n := x / 0x800, x / 32 % 64, x % 32;
            0 <= b < 32 && x == (b * 64 + c) * 32 + n && 4 * SignExtend((b * 64 + c) * 32 + n, 0x4_0000) == offset
  {
    Imm16Fields(offset / 4);
  }

  lemma CondRoundTrip(offset: int, d: int)
    requires 0 <= offset < 0x4_0000 && offset % 4 == 0 && (d == 0 || d == 1)
    ensures Decode(0x5400_0000 + d + offset / 4 * 32) == if d == 0 then BEq(offset) else BNe(offset)
  {
    OffsetField(offset);
    var x := offset / 4;
    DecodeFields(0x5400_0000 + d + x * 32, 0x2A0, x / 0x800, x / 32 % 64, x % 32, d);
  }

  lemma CbzRoundTrip(rt: Reg, offset: int)
    requires 0 <= offset < 0x4_0000 && offset % 4 == 0
    ensures Decode(0xB400_0000 + offset / 4 * 32 + rt) == Cbz(rt, offset)
  {
    OffsetField(offset);
    var x := offset / 4;
    DecodeFields(0xB400_0000 + x * 32 + rt, 0x5A0, x / 0x800, x / 32 % 64, x % 32, rt);
  }

  lemma PlainRoundTrip(i: Instr)
    requires Encodable(i) && (i.Mov? || i.CmpW? || i.Ldr? || i.Str? || i.Add? || i.Svc? || i.Ret?)
    ensures Decode(Encode(i)) == i
  {
    match i
    case Mov(rd, rm) => DecodeFields(Encode(i), 0x550, rm, 0, 31, rd);
    case CmpW(rn, imm12) => DecodeFields(Encode(i), 0x388, imm12 / 64, imm12 % 64, rn, 31);
    case Ldr(rt, rn) => DecodeFields(Encode(i), 0x7CA, 0, 0, rn, rt);
    case Str(rt, rn) => DecodeFields(Encode(i), 0x7C8, 0, 0, rn, rt);
    case Add(rd, rn, rm) => DecodeFields(Encode(i), 0x458, rm, 0, rn, rd);
    case Svc => DecodeFields(Encode(i), 0x6A0, 0, 0, 0, 1);
    case Ret => DecodeFields(Encode(i), 0x6B2, 31, 0, 30, 0);
  }

  /** The decoder inverts the encodings. */
  lemma RoundTrip(i: Instr)
    requires Encodable(i)
    ensures Decode(Encode(i)) == i
  {
    match i
    case Movz(rd, imm16, hw) => MoveRoundTrip(rd, imm16, hw);
    case Movk(rd, imm16, hw) => MoveRoundTrip(rd, imm16, hw);
    case BEq(offset) => CondRoundTrip(offset, 0);
    case BNe(offset) => CondRoundTrip(offset, 1);
    case Cbz(rt, offset) => CbzRoundTrip(rt, offset);
    case _ => PlainRoundTrip(i);
  }

  predicate AllEncodable(prog: seq<Instr>) {
    forall i :: 0 <= i < |prog| ==> Encodable(prog[i])
  }

  function EncodeAll(prog: seq<Instr>): (ws: seq<u32>)
    requires AllEncodable(prog)
    ensures |ws| == |prog|
  {
    if prog == [] then [] else [Encode(prog[0])] + EncodeAll(prog[1..])
  }

  lemma {:induction false} EncodeAllAt(prog: seq<Instr>, i: nat)
    requires AllEncodable(prog) && i < |prog|
    ensures EncodeAll(prog)[i] == Encode(prog[i]) && Decode(EncodeAll(prog)[i]) == prog[i]
  {
    if i == 0 {
      RoundTrip(prog[0]);
    } else {
      EncodeAllAt(prog[1..], i - 1);
    }
  }

  // ---- Execution ----

  type Regs = s: seq<u64> | |s| == 31 witness seq(31, _ => 0)

  /** `at` is the program counter relative to the start of the stub; `zero` is the Z flag. */
  datatype State = State(at: int, regs: Regs, zero: bool, mem: Mem, calls: seq<Call>)

  /** The weight of halfword `hw`. */
  function Weight(hw: int): int {
    if hw == 0 then 1 else if hw == 1 then 0x1_0000 else if hw == 2 then 0x1_0000_0000 else 0x1_0000_0000_0000
  }

  /** `v` with one halfword replaced. */
  function Insert(v: u64, imm16: int, hw: int): u64 {
    Wrap(v + (imm16 - v / Weight(hw) % 0x1_0000) * Weight(hw))
  }

  ghost function Wrote(s: State, rd: Reg, v: u64): State {
    s.(at := s.at + 4, regs := s.regs[rd := v])
  }

  ghost function Step(i: Instr, s: State, k: Reply): Effect<State> {
    match i
    case Movz(rd, imm16, hw) => Next(Wrote(s, rd, Wrap(imm16 * Weight(hw))))
    case Movk(rd, imm16, hw) => Next(Wrote(s, rd, Insert(s.regs[rd], imm16, hw)))
    case Mov(rd, rm) => Next(Wrote(s, rd, s.regs[rm]))
    case CmpW(rn, imm12) => Next(s.(at := s.at + 4, zero := s.regs[rn] % 0x1_0000_0000 == imm12))
    case BEq(offset) => Next(s.(at := if s.zero then s.at + offset else s.at + 4))
    case BNe(offset) => Next(s.(at := if !s.zero then s.at + offset else s.at + 4))
    case Cbz(rt, offset) => Next(s.(at := if s.regs[rt] == 0 then s.at + offset else s.at + 4))
    case Ldr(rt, rn) => Next(Wrote(s, rt, Load64(s.mem, s.regs[rn])))
    case Str(rt, rn) => Next(s.(at := s.at + 4, mem := Store(s.mem, s.regs[rn], s.regs[rt])))
    case Add(rd, rn, rm) => Next(Wrote(s, rd, At(s.regs[rn], s.regs[rm])))
    case Svc =>
      Next(s.(at := s.at + 4, regs := s.regs[0 := k.ret], mem := k.mem,
              calls := s.calls + [Call(s.regs[8], s.regs[0], s.regs[1])]))
    case Ret => Returned(s)
    case Unknown => Fault
  }

  type Fetcher = (Mem, int) -> Instr

  ghost function FetchAt(base: u64): Fetcher {
    (m: Mem, at: int) => Decode(Load32(m, At(base, at)))
  }

  /** One instruction, fetched by `f`; the kernel answers `k`. */
  ghost function Cpu(f: Fetcher, k: Reply): State -> Effect<State> {
    (s: State) => Step(f(s.mem, s.at), s, k)
  }

  /** A run of the code in memory at `base`. */
  ghost function Run(base: u64, s: State, k: Reply, fuel: nat): Effect<State> {
    Exec(Cpu(FetchAt(base), k), s, fuel)
  }

  ghost predicate Loaded(f: Fetcher, m: Mem, prog: seq<Instr>) {
    forall i {:trigger prog[i]} :: 0 <= i < |prog| ==> f(m, 4 * i) == prog[i]
  }

  lemma StubPlaced(m: Mem, base: u64, prog: seq<Instr>)
    requires AllEncodable(prog) && Holds(m, base, Flat(EncodeAll(prog)))
    ensures Loaded(FetchAt(base), m, prog)
  {
    var code := Flat(EncodeAll(prog));
    assert code == Flat(EncodeAll(prog)) + [];
    forall i {:trigger prog[i]} | 0 <= i < |prog| ensures FetchAt(base)(m, 4 * i) == prog[i] {
      EncodeAllAt(prog, i);
      FetchWord(m, base, code, EncodeAll(prog), [], i);
    }
  }

  lemma DoesStep(f: Fetcher, k: Reply, s: State, i: Instr, t: State)
    requires f(s.mem, s.at) == i && Step(i, s, k) == Next(t)
    ensures Reaches(Cpu(f, k), s, 1, t)
  {
    Does(Cpu(f, k), s, t);
  }

  lemma Returns(f: Fetcher, k: Reply, s: State)
    requires f(s.mem, s.at) == Ret
    ensures Ends(Cpu(f, k), s, 1, s)
  {
    EndsHere(Cpu(f, k), s);
  }

  // ---- Loading a constant ----

  /** `load_imm64`: the four moves, lowest halfword first. */
  function LoadImm64(reg: Reg, value: u64): seq<Instr> {
    [Movz(reg, value % 0x1_0000, 0), Movk(reg, value / 0x1_0000 % 0x1_0000, 1),
     Movk(reg, value / 0x1_0000_0000 % 0x1_0000, 2), Movk(reg, value / 0x1_0000_0000_0000 % 0x1_0000, 3)]
  }

  /** Writing a halfword above everything set so far adds it. */
  lemma InsertAbove(v: u64, imm16: int, hw: int)
    requires 0 <= hw < 4 && v < Weight(hw) && 0 <= imm16 < 0x1_0000
    ensures Insert(v, imm16, hw) == v + imm16 * Weight(hw)
  {
  }

  lemma LowHalfwords(value: u64)
    ensures value % 0x1_0000 + value / 0x1_0000 % 0x1_0000 * 0x1_0000 == value % 0x1_0000_0000
  {
  }

  lemma MiddleHalfword(value: u64)
    ensures value % 0x1_0000_0000 + value / 0x1_0000_0000 % 0x1_0000 * 0x1_0000_0000 == value % 0x1_0000_0000_0000
  {
  }

  lemma TopHalfword(value: u64)
    ensures value % 0x1_0000_0000_0000 + value / 0x1_0000_0000_0000 % 0x1_0000 * 0x1_0000_0000_0000 == value
  {
  }

  /** The four moves rebuild every 64-bit value in the register and touch nothing else. */
  lemma LoadImm64Loads(f: Fetcher, k: Reply, s: State, reg: Reg, value: u64)
    requires forall i {:trigger LoadImm64(reg, value)[i]} :: 0 <= i < 4 ==>
               f(s.mem, s.at + 4 * i) == LoadImm64(reg, value)[i]
    ensures Reaches(Cpu(f, k), s, 4, s.(at := s.at + 16, regs := s.regs[reg := value]))
  {
    LowHalfwords(value);
    MiddleHalfword(value);
    TopHalfword(value);
    var code := LoadImm64(reg, value);
    var v1, v2, v3 := value % 0x1_0000, value % 0x1_0000_0000, value % 0x1_0000_0000_0000;
    assert f(s.mem, s.at) == code[0] && f(s.mem, s.at + 4) == code[1] && f(s.mem, s.at + 8) == code[2]
           && f(s.mem, s.at + 12) == code[3];
    var s1 := s.(at := s.at + 4, regs := s.regs[reg := v1]);
    var s2 := s.(at := s.at + 8, regs := s.regs[reg := v2]);
    var s3 := s.(at := s.at + 12, regs := s.regs[reg := v3]);
    var t := s.(at := s.at + 16, regs := s.regs[reg := value]);
    DoesMovz(f, k, s, reg, v1, s1);
    DoesMovk(f, k, s1, reg, value / 0x1_0000 % 0x1_0000, 1, v2, s2);
    DoesMovk(f, k, s2, reg, value / 0x1_0000_0000 % 0x1_0000, 2, v3, s3);
    DoesMovk(f, k, s3, reg, value / 0x1_0000_0000_0000 % 0x1_0000, 3, value, t);
    Then(Cpu(f, k), s, 1, s1, 1, s2);
    Then(Cpu(f, k), s, 2, s2, 1, s3);
    Then(Cpu(f, k), s, 3, s3, 1, t);
  }

  lemma DoesMovz(f: Fetcher, k: Reply, s: State, reg: Reg, v: int, t: State)
    requires 0 <= v < 0x1_0000 && f(s.mem, s.at) == Movz(reg, v, 0) && t == Wrote(s, reg, v)
    ensures Reaches(Cpu(f, k), s, 1, t)
  {
    DoesStep(f, k, s, Movz(reg, v, 0), t);
  }

  lemma DoesMovk(f: Fetcher, k: Reply, s: State, reg: Reg, imm16: int, hw: int, v: u64, t: State)
    requires 0 <= hw < 4 && 0 <= imm16 < 0x1_0000 && f(s.mem, s.at) == Movk(reg, imm16, hw)
    requires s.regs[reg] < Weight(hw) && v == s.regs[reg] + imm16 * Weight(hw)
    requires t.at == s.at + 4 && t.regs == s.regs[reg := v] && t.zero == s.zero && t.mem == s.mem && t.calls == s.calls
    ensures Reaches(Cpu(f, k), s, 1, t)
  {
    InsertAbove(s.regs[reg], imm16, hw);
    DoesStep(f, k, s, Movk(reg, imm16, hw), t);
  }

  // ---- The offset stubs ----

  const CLOCK_GETTIME := 113
  const GETTIMEOFDAY := 169

  /** The part both stubs end with: load the offset, add it to the seconds, return. */
  function ApplyProg(off: u64): seq<Instr> {
    LoadImm64(11, off) + [Ldr(12, 10), Add(12, 12, 11), Str(12, 10), Ret]
  }

  /** The instructions of `offset_stub_clock_gettime`. */
  function ClockProg(off: u64): seq<Instr> {
    [Mov(9, 0), Mov(10, 1), Movz(8, CLOCK_GETTIME, 0), Svc, CmpW(9, 0), BEq(12), CmpW(9, 5), BNe(32)] + ApplyProg(off)
  }

  /** The instructions of `offset_stub_gettimeofday`. */
  function DayProg(off: u64): seq<Instr> {
    [Mov(10, 0), Movz(8, GETTIMEOFDAY, 0), Svc, Cbz(10, 32)] + ApplyProg(off)
  }

  /** The words the builder pushes for the shared end. */
  function ApplyWords(off: u64): seq<u32> {
    [MovzX(11, off % 0x1_0000, 0), MovkX(11, off / 0x1_0000 % 0x1_0000, 1),
     MovkX(11, off / 0x1_0000_0000 % 0x1_0000, 2),
     MovkX(11, off / 0x1_0000_0000_0000 % 0x1_0000, 3), 0xF940_014C, 0x8B0B_018C, 0xF900_014C, 0xD65F_03C0]
  }

  /** The words `offset_stub_clock_gettime` pushes. */
  function ClockWords(off: u64): seq<u32> {
    [0xAA00_03E9, 0xAA01_03EA, MovzX(8, CLOCK_GETTIME, 0), 0xD400_0001, 0x7100_013F, 0x5400_0060, 0x7100_153F,
     0x5400_0101]
    + ApplyWords(off)
  }

  /** The words `offset_stub_gettimeofday` pushes. */
  function DayWords(off: u64): seq<u32> {
    [0xAA00_03EA, MovzX(8, GETTIMEOFDAY, 0), 0xD400_0001, 0xB400_010A] + ApplyWords(off)
  }

  lemma SameWords(p: seq<Instr>, ws: seq<u32>)
    requires AllEncodable(p) && |ws| == |p| && forall i :: 0 <= i < |p| ==> Encode(p[i]) == ws[i]
    ensures EncodeAll(p) == ws
  {
    forall i | 0 <= i < |p| ensures EncodeAll(p)[i] == ws[i] {
      EncodeAllAt(p, i);
    }
  }

  lemma EncodeConcat(p: seq<Instr>, q: seq<Instr>, ws: seq<u32>, ws': seq<u32>)
    requires AllEncodable(p) && AllEncodable(q) && EncodeAll(p) == ws && EncodeAll(q) == ws'
    ensures AllEncodable(p + q) && EncodeAll(p + q) == ws + ws'
  {
    forall i | 0 <= i < |p + q| ensures Encode((p + q)[i]) == (ws + ws')[i] {
      if i < |p| {
        EncodeAllAt(p, i);
      } else {
        EncodeAllAt(q, i - |p|);
      }
    }
    SameWords(p + q, ws + ws');
  }

  lemma ApplyEncodes(off: u64)
    ensures AllEncodable(ApplyProg(off)) && EncodeAll(ApplyProg(off)) == ApplyWords(off)
  {
    SameWords(ApplyProg(off), ApplyWords(off));
  }

  /** The hexadecimal words are the instructions they are meant to be. */
  lemma ClockEncodes(off: u64)
    ensures AllEncodable(ClockProg(off)) && EncodeAll(ClockProg(off)) == ClockWords(off)
  {
    var p: seq<Instr> := [Mov(9, 0), Mov(10, 1), Movz(8, CLOCK_GETTIME, 0), Svc, CmpW(9, 0), BEq(12), CmpW(9, 5),
                          BNe(32)];
    var ws: seq<u32> := [0xAA00_03E9, 0xAA01_03EA, MovzX(8, CLOCK_GETTIME, 0), 0xD400_0001, 0x7100_013F, 0x5400_0060,
                         0x7100_153F, 0x5400_0101];
    SameWords(p, ws);
    ApplyEncodes(off);
    EncodeConcat(p, ApplyProg(off), ws, ApplyWords(off));
  }

  lemma DayEncodes(off: u64)
    ensures AllEncodable(DayProg(off)) && EncodeAll(DayProg(off)) == DayWords(off)
  {
    var p: seq<Instr> := [Mov(10, 0), Movz(8, GETTIMEOFDAY, 0), Svc, Cbz(10, 32)];
    var ws: seq<u32> := [0xAA00_03EA, MovzX(8, GETTIMEOFDAY, 0), 0xD400_0001, 0xB400_010A];
    SameWords(p, ws);
    ApplyEncodes(off);
    EncodeConcat(p, ApplyProg(off), ws, ApplyWords(off));
  }

  predicate Realtime(clock: int) { clock == 0 || clock == 5 }

  /** The caller gets the kernel's answer in x0 and keeps every register but x0 and x8 to x12. */
  ghost predicate Faithful(s: State, t: State, k: Reply) {
    t.regs[0] == k.ret && forall r {:trigger t.regs[r]} :: 0 < r < 31 && !(8 <= r <= 12) ==> t.regs[r] == s.regs[r]
  }

  /** `t` differs from `s` at most in x11, x12, the flag, position and memory. */
  ghost predicate SameBut(s: State, t: State) {
    t.calls == s.calls && forall r {:trigger t.regs[r]} :: 0 <= r < 31 && r != 11 && r != 12 ==> t.regs[r] == s.regs[r]
  }

  ghost predicate TailAt(f: Fetcher, m: Mem, p: int, off: u64) {
    && (forall i {:trigger LoadImm64(11, off)[i]} :: 0 <= i < 4 ==> f(m, p + 4 * i) == LoadImm64(11, off)[i])
    && f(m, p + 16) == Ldr(12, 10) && f(m, p + 20) == Add(12, 12, 11) && f(m, p + 24) == Str(12, 10)
    && f(m, p + 28) == Ret
  }

  lemma DoesAdd(f: Fetcher, k: Reply, s: State, v: u64, off: u64)
    requires f(s.mem, s.at) == Add(12, 12, 11) && s.regs[12] == v && s.regs[11] == off
    ensures Reaches(Cpu(f, k), s, 1, Wrote(s, 12, At(v, off)))
  {
    DoesStep(f, k, s, Add(12, 12, 11), Wrote(s, 12, At(v, off)));
  }

  lemma DoesStr(f: Fetcher, k: Reply, s: State, ptr: u64, v: u64)
    requires f(s.mem, s.at) == Str(12, 10) && s.regs[10] == ptr && s.regs[12] == v
    ensures Reaches(Cpu(f, k), s, 1, s.(at := s.at + 4, mem := Store(s.mem, ptr, v)))
  {
    DoesStep(f, k, s, Str(12, 10), s.(at := s.at + 4, mem := Store(s.mem, ptr, v)));
  }

  /** Three instructions add x11 to the seconds at x10. */
  lemma SecondsMove(f: Fetcher, k: Reply, s: State, ptr: u64, off: u64) returns (t: State)
    requires f(s.mem, s.at) == Ldr(12, 10) && f(s.mem, s.at + 4) == Add(12, 12, 11) && f(s.mem, s.at + 8) == Str(12, 10)
    requires s.regs[10] == ptr && s.regs[11] == off
    ensures Reaches(Cpu(f, k), s, 3, t) && t.at == s.at + 12 && t.mem == Moved(s.mem, ptr, off) && SameBut(s, t)
  {
    var s1 := Wrote(s, 12, Load64(s.mem, ptr));
    var s2 := Wrote(s1, 12, At(Load64(s.mem, ptr), off));
    t := s2.(at := s.at + 12, mem := Moved(s.mem, ptr, off));
    DoesStep(f, k, s, Ldr(12, 10), s1);
    DoesAdd(f, k, s1, Load64(s.mem, ptr), off);
    DoesStr(f, k, s2, ptr, At(Load64(s.mem, ptr), off));
    Then(Cpu(f, k), s, 1, s1, 1, s2);
    Then(Cpu(f, k), s, 2, s2, 1, t);
  }

  /** The offset is loaded and added to the seconds. */
  lemma Shifts(f: Fetcher, k: Reply, s: State, p: int, off: u64, ptr: u64) returns (t: State)
    requires TailAt(f, s.mem, p, off) && s.at == p && s.regs[10] == ptr
    ensures Reaches(Cpu(f, k), s, 7, t) && SameBut(s, t) && t.at == p + 28 && t.mem == Moved(s.mem, ptr, off)
  {
    LoadImm64Loads(f, k, s, 11, off);
    var u := s.(at := p + 16, regs := s.regs[11 := off]);
    t := SecondsMove(f, k, u, ptr, off);
    Then(Cpu(f, k), s, 4, u, 3, t);
  }

  /** After the decision the stub either shifts the time or leaves memory as the kernel did. */
  lemma Finishes(f: Fetcher, k: Reply, s: State, p: int, off: u64, ptr: u64) returns (t: State)
    requires TailAt(f, s.mem, p, off) && (s.at == p || s.at == p + 28) && s.regs[10] == ptr
    requires s.at == p ==> f(Moved(s.mem, ptr, off), p + 28) == Ret
    ensures Ends(Cpu(f, k), s, 8, t) && SameBut(s, t)
    ensures t.mem == if s.at == p then Moved(s.mem, ptr, off) else s.mem
  {
    if s.at == p {
      t := Shifts(f, k, s, p, off, ptr);
      Returns(f, k, t);
      EndsAfter(Cpu(f, k), s, 7, t, 1, t);
    } else {
      t := s;
      Returns(f, k, s);
    }
  }

  ghost predicate ClockHeadAt(f: Fetcher, m: Mem) {
    && f(m, 0) == Mov(9, 0) && f(m, 4) == Mov(10, 1) && f(m, 8) == Movz(8, CLOCK_GETTIME, 0) && f(m, 12) == Svc
    && f(m, 16) == CmpW(9, 0) && f(m, 20) == BEq(12) && f(m, 24) == CmpW(9, 5) && f(m, 28) == BNe(32)
  }

  lemma ClockPlaced(f: Fetcher, m: Mem, off: u64)
    requires Loaded(f, m, ClockProg(off))
    ensures ClockHeadAt(f, m) && TailAt(f, m, 32, off)
  {
    var p := ClockProg(off);
    assert f(m, 0) == p[0] && f(m, 4) == p[1] && f(m, 8) == p[2] && f(m, 12) == p[3] && f(m, 16) == p[4]
           && f(m, 20) == p[5] && f(m, 24) == p[6] && f(m, 28) == p[7];
    assert f(m, 48) == p[12] && f(m, 52) == p[13] && f(m, 56) == p[14] && f(m, 60) == p[15];
    forall i {:trigger LoadImm64(11, off)[i]} | 0 <= i < 4 ensures f(m, 32 + 4 * i) == LoadImm64(11, off)[i] {
      assert f(m, 4 * (8 + i)) == p[8 + i];
    }
  }

  /** Up to and including the call of `clock_gettime`. */
  lemma ClockCalls(f: Fetcher, k: Reply, s: State, off: u64) returns (t: State)
    requires s.at == 0 && Loaded(f, s.mem, ClockProg(off))
    ensures Reaches(Cpu(f, k), s, 4, t) && t.at == 16 && t.mem == k.mem
    ensures t.calls == s.calls + [Call(CLOCK_GETTIME, s.regs[0], s.regs[1])]
    ensures t.regs[9] == s.regs[0] && t.regs[10] == s.regs[1] && Faithful(s, t, k)
  {
    ClockPlaced(f, s.mem, off);
    var s1 := Wrote(s, 9, s.regs[0]);
    var s2 := Wrote(s1, 10, s.regs[1]);
    var s3 := Wrote(s2, 8, CLOCK_GETTIME);
    t := s3.(at := 16, regs := s3.regs[0 := k.ret], mem := k.mem,
             calls := s.calls + [Call(CLOCK_GETTIME, s.regs[0], s.regs[1])]);
    DoesStep(f, k, s, Mov(9, 0), s1);
    DoesStep(f, k, s1, Mov(10, 1), s2);
    DoesStep(f, k, s2, Movz(8, CLOCK_GETTIME, 0), s3);
    DoesStep(f, k, s3, Svc, t);
    Then(Cpu(f, k), s, 1, s1, 1, s2);
    Then(Cpu(f, k), s, 2, s2, 1, s3);
    Then(Cpu(f, k), s, 3, s3, 1, t);
  }

  /** The two comparisons send exactly the realtime clocks to the shift. */
  lemma ClockDecides(f: Fetcher, k: Reply, s: State) returns (n: nat, t: State)
    requires s.at == 16 && ClockHeadAt(f, s.mem)
    ensures n <= 4 && Reaches(Cpu(f, k), s, n, t) && t.mem == s.mem && t.calls == s.calls && t.regs == s.regs
    ensures t.at == if Realtime(s.regs[9] % 0x1_0000_0000) then 32 else 60
  {
    var clock := s.regs[9] % 0x1_0000_0000;
    var s1 := s.(at := 20, zero := clock == 0);
    DoesStep(f, k, s, CmpW(9, 0), s1);
    var s2 := s1.(at := if clock == 0 then 32 else 24);
    DoesStep(f, k, s1, BEq(12), s2);
    Then(Cpu(f, k), s, 1, s1, 1, s2);
    n, t := 2, s2;
    if clock != 0 {
      var s3 := s2.(at := 28, zero := clock == 5);
      DoesStep(f, k, s2, CmpW(9, 5), s3);
      n, t := 4, s3.(at := if clock == 5 then 32 else 60);
      DoesStep(f, k, s3, BNe(32), t);
      Then(Cpu(f, k), s, 2, s2, 1, s3);
      Then(Cpu(f, k), s, 3, s3, 1, t);
    }
  }

  lemma ClockEnds(f: Fetcher, k: Reply, s: State, off: u64, after: Mem) returns (t: State)
    requires s.at == 0 && Loaded(f, s.mem, ClockProg(off)) && Loaded(f, k.mem, ClockProg(off))
    requires after == Moved(k.mem, s.regs[1], off)
    requires Realtime(s.regs[0] % 0x1_0000_0000) ==> Loaded(f, after, ClockProg(off))
    ensures Ends(Cpu(f, k), s, 16, t) && Faithful(s, t, k)
    ensures t.calls == s.calls + [Call(CLOCK_GETTIME, s.regs[0], s.regs[1])]
    ensures t.mem == if Realtime(s.regs[0] % 0x1_0000_0000) then after else k.mem
  {
    var u := ClockCalls(f, k, s, off);
    t := ClockRest(f, k, u, off, after);
    EndsAfter(Cpu(f, k), s, 4, u, 12, t);
  }

  /** After the call. */
  lemma ClockRest(f: Fetcher, k: Reply, s: State, off: u64, after: Mem) returns (t: State)
    requires s.at == 16 && Loaded(f, s.mem, ClockProg(off)) && after == Moved(s.mem, s.regs[10], off)
    requires Realtime(s.regs[9] % 0x1_0000_0000) ==> Loaded(f, after, ClockProg(off))
    ensures Ends(Cpu(f, k), s, 12, t) && SameBut(s, t)
    ensures t.mem == if Realtime(s.regs[9] % 0x1_0000_0000) then after else s.mem
  {
    ClockPlaced(f, s.mem, off);
    var n, u := ClockDecides(f, k, s);
    if u.at == 32 {
      assert f(after, 60) == ClockProg(off)[15] == Ret;
    }
    t := Finishes(f, k, u, 32, off, s.regs[10]);
    EndsAfter(Cpu(f, k), s, n, u, 8, t);
  }

  lemma MovedPlaced(m: Mem, base: u64, prog: seq<Instr>, ptr: u64, off: u64)
    requires AllEncodable(prog) && Holds(m, base, Flat(EncodeAll(prog))) && Apart(ptr, base, 4 * |prog|)
    ensures Loaded(FetchAt(base), Moved(m, ptr, off), prog)
  {
    HoldsApart(m, ptr, At(Load64(m, ptr), off), base, Flat(EncodeAll(prog)));
    StubPlaced(Moved(m, ptr, off), base, prog);
  }

  /**
   The clock_gettime stub: one real call with the caller's arguments, the kernel's answer in
   x0, and the seconds the kernel wrote shifted by the offset exactly for clocks 0 and 5. Only
   the low 32 bits of x0 are the clock id.
   */
  lemma ClockStubShifts(words: seq<u32>, base: u64, s: State, k: Reply, off: u64, clock: u32) returns (t: State)
    requires words == ClockWords(off) && s.at == 0 && s.regs[0] % 0x1_0000_0000 == clock
    requires Holds(s.mem, base, Flat(words)) && Holds(k.mem, base, Flat(words))
    requires Realtime(clock) ==> Apart(s.regs[1], base, 64)
    ensures forall fuel: nat {:trigger Run(base, s, k, fuel)} :: fuel >= 16 ==> Run(base, s, k, fuel) == Returned(t)
    ensures Faithful(s, t, k) && t.calls == s.calls + [Call(CLOCK_GETTIME, s.regs[0], s.regs[1])]
    ensures if Realtime(clock) then Shifted(k.mem, t.mem, s.regs[1], off) else t.mem == k.mem
  {
    var prog, ptr := ClockProg(off), s.regs[1];
    ClockEncodes(off);
    StubPlaced(s.mem, base, prog);
    StubPlaced(k.mem, base, prog);
    if Realtime(clock) {
      MovedPlaced(k.mem, base, prog, ptr, off);
    }
    AddInPlace(k.mem, ptr, off);
    t := ClockEnds(FetchAt(base), k, s, off, Moved(k.mem, ptr, off));
  }

  ghost predicate DayHeadAt(f: Fetcher, m: Mem) {
    f(m, 0) == Mov(10, 0) && f(m, 4) == Movz(8, GETTIMEOFDAY, 0) && f(m, 8) == Svc && f(m, 12) == Cbz(10, 32)
  }

  lemma DayPlaced(f: Fetcher, m: Mem, off: u64)
    requires Loaded(f, m, DayProg(off))
    ensures DayHeadAt(f, m) && TailAt(f, m, 16, off)
  {
    var p := DayProg(off);
    assert f(m, 0) == p[0] && f(m, 4) == p[1] && f(m, 8) == p[2] && f(m, 12) == p[3];
    assert f(m, 32) == p[8] && f(m, 36) == p[9] && f(m, 40) == p[10] && f(m, 44) == p[11];
    forall i {:trigger LoadImm64(11, off)[i]} | 0 <= i < 4 ensures f(m, 16 + 4 * i) == LoadImm64(11, off)[i] {
      assert f(m, 4 * (4 + i)) == p[4 + i];
    }
  }

  /** Up to and including the call of `gettimeofday`. */
  lemma DayCalls(f: Fetcher, k: Reply, s: State, off: u64) returns (t: State)
    requires s.at == 0 && Loaded(f, s.mem, DayProg(off))
    ensures Reaches(Cpu(f, k), s, 3, t) && t.at == 12 && t.mem == k.mem
    ensures t.calls == s.calls + [Call(GETTIMEOFDAY, s.regs[0], s.regs[1])]
    ensures t.regs[10] == s.regs[0] && Faithful(s, t, k)
  {
    DayPlaced(f, s.mem, off);
    var s1 := Wrote(s, 10, s.regs[0]);
    var s2 := Wrote(s1, 8, GETTIMEOFDAY);
    t := s2.(at := 12, regs := s2.regs[0 := k.ret], mem := k.mem,
             calls := s.calls + [Call(GETTIMEOFDAY, s.regs[0], s.regs[1])]);
    DoesStep(f, k, s, Mov(10, 0), s1);
    DoesStep(f, k, s1, Movz(8, GETTIMEOFDAY, 0), s2);
    DoesStep(f, k, s2, Svc, t);
    Then(Cpu(f, k), s, 1, s1, 1, s2);
    Then(Cpu(f, k), s, 2, s2, 1, t);
  }

  /** After the call. */
  lemma DayRest(f: Fetcher, k: Reply, s: State, off: u64, after: Mem) returns (t: State)
    requires s.at == 12 && Loaded(f, s.mem, DayProg(off)) && after == Moved(s.mem, s.regs[10], off)
    requires s.regs[10] != 0 ==> Loaded(f, after, DayProg(off))
    ensures Ends(Cpu(f, k), s, 9, t) && SameBut(s, t)
    ensures t.mem == if s.regs[10] != 0 then after else s.mem
  {
    DayPlaced(f, s.mem, off);
    var u := s.(at := if s.regs[10] == 0 then 44 else 16);
    DoesStep(f, k, s, Cbz(10, 32), u);
    if s.regs[10] != 0 {
      assert f(after, 44) == DayProg(off)[11] == Ret;
    }
    t := Finishes(f, k, u, 16, off, s.regs[10]);
    EndsAfter(Cpu(f, k), s, 1, u, 8, t);
  }

  lemma DayEnds(f: Fetcher, k: Reply, s: State, off: u64, after: Mem) returns (t: State)
    requires s.at == 0 && Loaded(f, s.mem, DayProg(off)) && Loaded(f, k.mem, DayProg(off))
    requires after == Moved(k.mem, s.regs[0], off) && (s.regs[0] != 0 ==> Loaded(f, after, DayProg(off)))
    ensures Ends(Cpu(f, k), s, 12, t) && Faithful(s, t, k)
    ensures t.calls == s.calls + [Call(GETTIMEOFDAY, s.regs[0], s.regs[1])]
    ensures t.mem == if s.regs[0] != 0 then after else k.mem
  {
    var u := DayCalls(f, k, s, off);
    t := DayRest(f, k, u, off, after);
    EndsAfter(Cpu(f, k), s, 3, u, 9, t);
  }

  /** The gettimeofday stub shifts the seconds exactly when the pointer is not NULL. */
  lemma DayStubShifts(words: seq<u32>, base: u64, s: State, k: Reply, off: u64) returns (t: State)
    requires words == DayWords(off) && s.at == 0
    requires Holds(s.mem, base, Flat(words)) && Holds(k.mem, base, Flat(words))
    requires s.regs[0] != 0 ==> Apart(s.regs[0], base, 48)
    ensures forall fuel: nat {:trigger Run(base, s, k, fuel)} :: fuel >= 12 ==> Run(base, s, k, fuel) == Returned(t)
    ensures Faithful(s, t, k) && t.calls == s.calls + [Call(GETTIMEOFDAY, s.regs[0], s.regs[1])]
    ensures if s.regs[0] != 0 then Shifted(k.mem, t.mem, s.regs[0], off) else t.mem == k.mem
  {
    var prog, ptr := DayProg(off), s.regs[0];
    DayEncodes(off);
    StubPlaced(s.mem, base, prog);
    StubPlaced(k.mem, base, prog);
    if ptr != 0 {
      MovedPlaced(k.mem, base, prog, ptr, off);
    }
    AddInPlace(k.mem, ptr, off);
    t := DayEnds(FetchAt(base), k, s, off, Moved(k.mem, ptr, off));
  }
}
