/**
 The x86-64 stubs, run byte by byte on a model of the instructions they use. The stack and
 the code live in the same memory as the time the kernel writes; the kernel's answer to
 `syscall` is arbitrary except that it keeps the stub's own stack words and code.
 */
module VdsoX86 {
  import opened Prelude
  import opened Bits
  import opened LittleEndian
  import opened VdsoEncoders
  import opened VdsoMachine
  import opened VdsoMemory

  datatype Instr =
    | PushRdi
    | PushRsi
    | PopRsi
    | PopRdi
    | MovEax(imm32: u32)
    | Syscall
    | CmpEdi(imm8: int)
    | TestRdi
    | Je(rel8: int)
    | Jne(rel8: int)
    | MovRcx(imm64: u64)
    | AddAtRsi
    | AddAtRdi
    | Ret
    | Unknown

  /** The instruction whose first byte is at `a`. */
  ghost function Decode(m: Mem, a: u64): Instr {
    var b0, b1, b2 := m(a), m(At(a, 1)), m(At(a, 2));
    if b0 == 0x57 then PushRdi
    else if b0 == 0x56 then PushRsi
    else if b0 == 0x5E then PopRsi
    else if b0 == 0x5F then PopRdi
    else if b0 == 0xB8 then MovEax(Load32(m, At(a, 1)))
    else if b0 == 0x0F && b1 == 0x05 then Syscall
    else if b0 == 0x83 && b1 == 0xFF then CmpEdi(SignExtend(b2, 0x80))
    else if b0 == 0x74 then Je(SignExtend(b1, 0x80))
    else if b0 == 0x75 then Jne(SignExtend(b1, 0x80))
    else if b0 == 0x48 && b1 == 0x85 && b2 == 0xFF then TestRdi
    else if b0 == 0x48 && b1 == 0xB9 then MovRcx(Load64(m, At(a, 2)))
    else if b0 == 0x48 && b1 == 0x01 && b2 == 0x0E then AddAtRsi
    else if b0 == 0x48 && b1 == 0x01 && b2 == 0x0F then AddAtRdi
    else if b0 == 0xC3 then Ret
    else Unknown
  }

  function Size(i: Instr): int {
    match i
    case MovEax(_) => 5
    case Syscall => 2
    case CmpEdi(_) => 3
    case TestRdi => 3
    case Je(_) => 2
    case Jne(_) => 2
    case MovRcx(_) => 10
    case AddAtRsi => 3
    case AddAtRdi => 3
    case _ => 1
  }

  /** `at` is the instruction pointer relative to the stub; `back` is where `ret` went. */
  datatype State = State(at: int, rax: u64, rcx: u64, rdi: u64, rsi: u64, rsp: u64, zero: bool,
                         mem: Mem, calls: seq<Call>, back: u64)

  /** The kernel answers `k` and leaves anything in rcx. */
  ghost function Step(i: Instr, s: State, k: Reply, junk: u64): Effect<State> {
    var next := s.at + Size(i);
    match i
    case PushRdi => Next(s.(at := next, rsp := At(s.rsp, -8), mem := Store(s.mem, At(s.rsp, -8), s.rdi)))
    case PushRsi => Next(s.(at := next, rsp := At(s.rsp, -8), mem := Store(s.mem, At(s.rsp, -8), s.rsi)))
    case PopRsi => Next(s.(at := next, rsp := At(s.rsp, 8), rsi := Load64(s.mem, s.rsp)))
    case PopRdi => Next(s.(at := next, rsp := At(s.rsp, 8), rdi := Load64(s.mem, s.rsp)))
    case MovEax(imm32) => Next(s.(at := next, rax := imm32))
    case Syscall => Next(s.(at := next, rax := k.ret, rcx := junk, mem := k.mem,
                            calls := s.calls + [Call(s.rax, s.rdi, s.rsi)]))
    case CmpEdi(imm8) => Next(s.(at := next, zero := s.rdi % 0x1_0000_0000 == imm8 % 0x1_0000_0000))
    case TestRdi => Next(s.(at := next, zero := s.rdi == 0))
    case Je(rel8) => Next(s.(at := if s.zero then next + rel8 else next))
    case Jne(rel8) => Next(s.(at := if !s.zero then next + rel8 else next))
    case MovRcx(imm64) => Next(s.(at := next, rcx := imm64))
    case AddAtRsi => Next(s.(at := next, mem := Moved(s.mem, s.rsi, s.rcx)))
    case AddAtRdi => Next(s.(at := next, mem := Moved(s.mem, s.rdi, s.rcx)))
    case Ret => Returned(s.(rsp := At(s.rsp, 8), back := Load64(s.mem, s.rsp)))
    case Unknown => Fault
  }

  type Fetcher = (Mem, int) -> Instr

  ghost function FetchAt(base: u64): Fetcher {
    (m: Mem, at: int) => Decode(m, At(base, at))
  }

  ghost function Cpu(f: Fetcher, k: Reply, junk: u64): State -> Effect<State> {
    (s: State) => Step(f(s.mem, s.at), s, k, junk)
  }

  /** A run of the code in memory at `base`. */
  ghost function Run(base: u64, s: State, k: Reply, junk: u64, fuel: nat): Effect<State> {
    Exec(Cpu(FetchAt(base), k, junk), s, fuel)
  }

  // ---- The stubs ----

  const CLOCK_GETTIME := 228
  const GETTIMEOFDAY := 96

  /** `offset_stub_clock_gettime`. */
  function ClockStub(off: u64): seq<byte> {
    [0x57, 0x56, 0xB8, 0xE4, 0, 0, 0, 0x0F, 0x05, 0x5E, 0x5F, 0x83, 0xFF, 0, 0x74, 5, 0x83, 0xFF, 5, 0x75, 13, 0x48,
     0xB9]
    + Le(off, 8) + [0x48, 0x01, 0x0E, 0xC3]
  }

  /** `offset_stub_gettimeofday`. */
  function DayStub(off: u64): seq<byte> {
    [0x57, 0x56, 0xB8, 0x60, 0, 0, 0, 0x0F, 0x05, 0x5E, 0x5F, 0x48, 0x85, 0xFF, 0x74, 13, 0x48, 0xB9]
    + Le(off, 8) + [0x48, 0x01, 0x0F, 0xC3]
  }

  /** The first eleven bytes of both stubs, up to the comparison. */
  ghost predicate EntryAt(f: Fetcher, m: Mem, nr: u32) {
    && f(m, 0) == PushRdi && f(m, 1) == PushRsi && f(m, 2) == MovEax(nr) && f(m, 7) == Syscall
    && f(m, 9) == PopRsi && f(m, 10) == PopRdi
  }

  /** The comparisons of the clock_gettime stub. */
  ghost predicate ClockTestAt(f: Fetcher, m: Mem) {
    f(m, 11) == CmpEdi(0) && f(m, 14) == Je(5) && f(m, 16) == CmpEdi(5) && f(m, 19) == Jne(13)
  }

  /** The test of the gettimeofday stub. */
  ghost predicate DayTestAt(f: Fetcher, m: Mem) {
    f(m, 11) == TestRdi && f(m, 14) == Je(13)
  }

  /** The last fourteen bytes of both stubs: load the offset, add it at a pointer, return. */
  ghost predicate ApplyAt(f: Fetcher, m: Mem, p: int, off: u64, add: Instr) {
    f(m, p) == MovRcx(off) && f(m, p + 10) == add && f(m, p + 13) == Ret
  }

  ghost predicate ClockAt(f: Fetcher, m: Mem, off: u64) {
    EntryAt(f, m, CLOCK_GETTIME) && ClockTestAt(f, m) && ApplyAt(f, m, 21, off, AddAtRsi)
  }

  ghost predicate DayAt(f: Fetcher, m: Mem, off: u64) {
    EntryAt(f, m, GETTIMEOFDAY) && DayTestAt(f, m) && ApplyAt(f, m, 16, off, AddAtRdi)
  }

  /** Bytes of held code at an instruction boundary. */
  lemma BytesAt(m: Mem, base: u64, code: seq<byte>, at: nat)
    requires Holds(m, base, code) && at < |code|
    ensures m(At(base, at)) == code[at]
    ensures at + 1 < |code| ==> m(At(At(base, at), 1)) == code[at + 1]
    ensures at + 2 < |code| ==> m(At(At(base, at), 2)) == code[at + 2]
  {
    AtAt(base, at, 1);
    AtAt(base, at, 2);
  }

  lemma OneByte(m: Mem, base: u64, code: seq<byte>, at: nat, i: Instr)
    requires Holds(m, base, code) && at < |code|
    requires match i
             case PushRdi => code[at] == 0x57
             case PushRsi => code[at] == 0x56
             case PopRsi => code[at] == 0x5E
             case PopRdi => code[at] == 0x5F
             case Ret => code[at] == 0xC3
             case _ => false
    ensures FetchAt(base)(m, at) == i
  {
    BytesAt(m, base, code, at);
  }

  lemma TwoBytes(m: Mem, base: u64, code: seq<byte>, at: nat, i: Instr)
    requires Holds(m, base, code) && at + 1 < |code|
    requires match i
             case Syscall => code[at] == 0x0F && code[at + 1] == 0x05
             case Je(rel8) => code[at] == 0x74 && 0 <= rel8 < 128 && code[at + 1] == rel8
             case Jne(rel8) => code[at] == 0x75 && 0 <= rel8 < 128 && code[at + 1] == rel8
             case _ => false
    ensures FetchAt(base)(m, at) == i
  {
    BytesAt(m, base, code, at);
  }

  lemma ThreeBytes(m: Mem, base: u64, code: seq<byte>, at: nat, i: Instr)
    requires Holds(m, base, code) && at + 2 < |code|
    requires match i
             case CmpEdi(imm8) => code[at] == 0x83 && code[at + 1] == 0xFF && 0 <= imm8 < 128 && code[at + 2] == imm8
             case TestRdi => code[at] == 0x48 && code[at + 1] == 0x85 && code[at + 2] == 0xFF
             case AddAtRsi => code[at] == 0x48 && code[at + 1] == 0x01 && code[at + 2] == 0x0E
             case AddAtRdi => code[at] == 0x48 && code[at + 1] == 0x01 && code[at + 2] == 0x0F
             case _ => false
    ensures FetchAt(base)(m, at) == i
  {
    BytesAt(m, base, code, at);
  }

  lemma MovEaxAt(m: Mem, base: u64, code: seq<byte>, at: nat, nr: u32)
    requires Holds(m, base, code) && at + 5 <= |code| && code[at] == 0xB8 && code[at + 1..at + 5] == Le(nr, 4)
    ensures FetchAt(base)(m, at) == MovEax(nr)
  {
    BytesAt(m, base, code, at);
    AtAt(base, at, 1);
    FetchFour(m, base, code, at + 1, nr);
  }

  lemma MovRcxAt(m: Mem, base: u64, code: seq<byte>, at: nat, off: u64)
    requires Holds(m, base, code) && at + 10 <= |code| && code[at] == 0x48 && code[at + 1] == 0xB9
    requires code[at + 2..at + 10] == Le(off, 8)
    ensures FetchAt(base)(m, at) == MovRcx(off)
  {
    BytesAt(m, base, code, at);
    AtAt(base, at, 2);
    PowFacts();
    FetchData(m, base, code, at + 2, DOUBLE_BYTES, off);
  }

  lemma EntryPlaced(m: Mem, base: u64, code: seq<byte>, nr: u32)
    requires Holds(m, base, code) && nr < 256 && |code| >= 11
    requires code[..11] == [0x57, 0x56, 0xB8, nr, 0, 0, 0, 0x0F, 0x05, 0x5E, 0x5F]
    ensures EntryAt(FetchAt(base), m, nr)
  {
    var head := code[..11];
    assert code[0] == head[0] && code[1] == head[1] && code[2] == head[2] && code[7] == head[7] && code[8] == head[8]
           && code[9] == head[9] && code[10] == head[10];
    assert code[3..7] == head[3..7] == Le(nr, 4);
    OneByte(m, base, code, 0, PushRdi);
    OneByte(m, base, code, 1, PushRsi);
    MovEaxAt(m, base, code, 2, nr);
    TwoBytes(m, base, code, 7, Syscall);
    OneByte(m, base, code, 9, PopRsi);
    OneByte(m, base, code, 10, PopRdi);
  }

  lemma ApplyPlaced(m: Mem, base: u64, code: seq<byte>, p: nat, off: u64, add: Instr)
    requires Holds(m, base, code) && p + 14 == |code| && (add == AddAtRsi || add == AddAtRdi)
    requires code[p..] == [0x48, 0xB9] + Le(off, 8) + [0x48, 0x01, if add == AddAtRsi then 0x0E else 0x0F, 0xC3]
    ensures ApplyAt(FetchAt(base), m, p, off, add)
  {
    var end := code[p..];
    assert code[p] == end[0] && code[p + 1] == end[1] && code[p + 10] == end[10] && code[p + 11] == end[11]
           && code[p + 12] == end[12] && code[p + 13] == end[13];
    assert code[p + 2..p + 10] == end[2..10] == Le(off, 8);
    MovRcxAt(m, base, code, p, off);
    ThreeBytes(m, base, code, p + 10, add);
    OneByte(m, base, code, p + 13, Ret);
  }

  lemma ClockTestPlaced(m: Mem, base: u64, code: seq<byte>)
    requires Holds(m, base, code) && |code| >= 21 && code[11..21] == [0x83, 0xFF, 0, 0x74, 5, 0x83, 0xFF, 5, 0x75, 13]
    ensures ClockTestAt(FetchAt(base), m)
  {
    var test := code[11..21];
    assert code[11] == test[0] && code[12] == test[1] && code[13] == test[2] && code[14] == test[3]
           && code[15] == test[4]
           && code[16] == test[5] && code[17] == test[6] && code[18] == test[7] && code[19] == test[8]
           && code[20] == test[9];
    ThreeBytes(m, base, code, 11, CmpEdi(0));
    TwoBytes(m, base, code, 14, Je(5));
    ThreeBytes(m, base, code, 16, CmpEdi(5));
    TwoBytes(m, base, code, 19, Jne(13));
  }

  lemma DayTestPlaced(m: Mem, base: u64, code: seq<byte>)
    requires Holds(m, base, code) && |code| >= 16 && code[11..16] == [0x48, 0x85, 0xFF, 0x74, 13]
    ensures DayTestAt(FetchAt(base), m)
  {
    var test := code[11..16];
    assert code[11] == test[0] && code[12] == test[1] && code[13] == test[2] && code[14] == test[3]
           && code[15] == test[4];
    ThreeBytes(m, base, code, 11, TestRdi);
    TwoBytes(m, base, code, 14, Je(13));
  }

  lemma ClockSlices(off: u64)
    ensures var code := ClockStub(off);
            && |code| == 35 && code[..11] == [0x57, 0x56, 0xB8, 228, 0, 0, 0, 0x0F, 0x05, 0x5E, 0x5F]
            && code[11..21] == [0x83, 0xFF, 0, 0x74, 5, 0x83, 0xFF, 5, 0x75, 13]
            && code[21..] == [0x48, 0xB9] + Le(off, 8) + [0x48, 0x01, 0x0E, 0xC3]
  {
  }

  lemma DaySlices(off: u64)
    ensures var code := DayStub(off);
            && |code| == 30 && code[..11] == [0x57, 0x56, 0xB8, 96, 0, 0, 0, 0x0F, 0x05, 0x5E, 0x5F]
            && code[11..16] == [0x48, 0x85, 0xFF, 0x74, 13]
            && code[16..] == [0x48, 0xB9] + Le(off, 8) + [0x48, 0x01, 0x0F, 0xC3]
  {
  }

  lemma ClockPlaced(m: Mem, base: u64, off: u64)
    requires Holds(m, base, ClockStub(off))
    ensures ClockAt(FetchAt(base), m, off)
  {
    ClockSlices(off);
    EntryPlaced(m, base, ClockStub(off), CLOCK_GETTIME);
    ClockTestPlaced(m, base, ClockStub(off));
    ApplyPlaced(m, base, ClockStub(off), 21, off, AddAtRsi);
  }

  lemma DayPlaced(m: Mem, base: u64, off: u64)
    requires Holds(m, base, DayStub(off))
    ensures DayAt(FetchAt(base), m, off)
  {
    DaySlices(off);
    EntryPlaced(m, base, DayStub(off), GETTIMEOFDAY);
    DayTestPlaced(m, base, DayStub(off));
    ApplyPlaced(m, base, DayStub(off), 16, off, AddAtRdi);
  }

  // ---- Running them ----

  lemma DoesStep(f: Fetcher, k: Reply, junk: u64, s: State, i: Instr, t: State)
    requires f(s.mem, s.at) == i && Step(i, s, k, junk) == Next(t)
    ensures Reaches(Cpu(f, k, junk), s, 1, t)
  {
    Does(Cpu(f, k, junk), s, t);
  }

  /** Memory after the first push, and after both. */
  ghost function PushedOne(s: State): Mem { Store(s.mem, At(s.rsp, -8), s.rdi) }

  ghost function PushedBoth(s: State): Mem { Store(PushedOne(s), At(s.rsp, -16), s.rsi) }

  lemma StackMoves(rsp: u64)
    ensures At(At(rsp, -8), -8) == At(rsp, -16) && At(At(rsp, -16), 8) == At(rsp, -8) && At(At(rsp, -8), 8) == rsp
  {
    AtAt(rsp, -8, -8);
    AtAt(rsp, -16, 8);
    AtAt(rsp, -8, 8);
    AtZero(rsp);
  }

  lemma AtZero(a: u64)
    ensures At(a, 0) == a
  {
  }

  lemma Pushes(f: Fetcher, k: Reply, junk: u64, s: State, nr: u32) returns (t: State)
    requires s.at == 0 && EntryAt(f, s.mem, nr) && EntryAt(f, PushedOne(s), nr) && EntryAt(f, PushedBoth(s), nr)
    ensures Reaches(Cpu(f, k, junk), s, 4, t)
    ensures t == s.(at := 9, rax := k.ret, rcx := junk, rsp := At(s.rsp, -16), mem := k.mem,
                    calls := s.calls + [Call(nr, s.rdi, s.rsi)])
  {
    StackMoves(s.rsp);
    var s1 := s.(at := 1, rsp := At(s.rsp, -8), mem := PushedOne(s));
    var s2 := s1.(at := 2, rsp := At(s.rsp, -16), mem := PushedBoth(s));
    var s3 := s2.(at := 7, rax := nr);
    t := s.(at := 9, rax := k.ret, rcx := junk, rsp := At(s.rsp, -16), mem := k.mem,
            calls := s.calls + [Call(nr, s.rdi, s.rsi)]);
    DoesStep(f, k, junk, s, PushRdi, s1);
    DoesStep(f, k, junk, s1, PushRsi, s2);
    DoesStep(f, k, junk, s2, MovEax(nr), s3);
    DoesStep(f, k, junk, s3, Syscall, t);
    Then(Cpu(f, k, junk), s, 1, s1, 1, s2);
    Then(Cpu(f, k, junk), s, 2, s2, 1, s3);
    Then(Cpu(f, k, junk), s, 3, s3, 1, t);
  }

  /** The state in which both stubs decide: arguments and stack as on entry, the answer in rax. */
  ghost function Answered(s: State, k: Reply, junk: u64, nr: u32): State {
    s.(at := 11, rax := k.ret, rcx := junk, mem := k.mem, calls := s.calls + [Call(nr, s.rdi, s.rsi)])
  }

  lemma Enters(f: Fetcher, k: Reply, junk: u64, s: State, nr: u32)
    requires s.at == 0 && EntryAt(f, s.mem, nr) && EntryAt(f, PushedOne(s), nr) && EntryAt(f, PushedBoth(s), nr)
    requires EntryAt(f, k.mem, nr) && Load64(k.mem, At(s.rsp, -16)) == s.rsi && Load64(k.mem, At(s.rsp, -8)) == s.rdi
    ensures Reaches(Cpu(f, k, junk), s, 6, Answered(s, k, junk, nr))
  {
    StackMoves(s.rsp);
    var s4 := Pushes(f, k, junk, s, nr);
    var s5 := s4.(at := 10, rsp := At(s.rsp, -8));
    var t := Answered(s, k, junk, nr);
    DoesStep(f, k, junk, s4, PopRsi, s5);
    DoesStep(f, k, junk, s5, PopRdi, t);
    Then(Cpu(f, k, junk), s, 4, s4, 1, s5);
    Then(Cpu(f, k, junk), s, 5, s5, 1, t);
  }

  predicate Realtime(clock: int) { clock == 0 || clock == 5 }

  /** The two comparisons send exactly the realtime clocks to the shift. */
  lemma ClockDecides(f: Fetcher, k: Reply, junk: u64, s: State) returns (n: nat, t: State)
    requires s.at == 11 && ClockTestAt(f, s.mem)
    ensures n <= 4 && Reaches(Cpu(f, k, junk), s, n, t)
    ensures t == s.(at := if Realtime(s.rdi % 0x1_0000_0000) then 21 else 34, zero := t.zero)
  {
    var clock := s.rdi % 0x1_0000_0000;
    var s1 := s.(at := 14, zero := clock == 0);
    DoesStep(f, k, junk, s, CmpEdi(0), s1);
    var s2 := s1.(at := if clock == 0 then 21 else 16);
    DoesStep(f, k, junk, s1, Je(5), s2);
    Then(Cpu(f, k, junk), s, 1, s1, 1, s2);
    n, t := 2, s2;
    if clock != 0 {
      var s3 := s2.(at := 19, zero := clock == 5);
      DoesStep(f, k, junk, s2, CmpEdi(5), s3);
      n, t := 4, s3.(at := if clock == 5 then 21 else 34);
      DoesStep(f, k, junk, s3, Jne(13), t);
      Then(Cpu(f, k, junk), s, 2, s2, 1, s3);
      Then(Cpu(f, k, junk), s, 3, s3, 1, t);
    }
  }

  lemma Returns(f: Fetcher, k: Reply, junk: u64, s: State, t: State)
    requires f(s.mem, s.at) == Ret && t == s.(rsp := At(s.rsp, 8), back := Load64(s.mem, s.rsp))
    ensures Ends(Cpu(f, k, junk), s, 1, t)
  {
  }

  /** After the decision the stub either shifts the time or leaves memory as the kernel did. */
  lemma Finishes(f: Fetcher, k: Reply, junk: u64, s: State, p: int, off: u64, add: Instr, ptr: u64) returns (t: State)
    requires ApplyAt(f, s.mem, p, off, add) && (s.at == p || s.at == p + 13)
    requires (add == AddAtRsi && ptr == s.rsi) || (add == AddAtRdi && ptr == s.rdi)
    requires s.at == p ==> f(Moved(s.mem, ptr, off), p + 13) == Ret
    ensures Ends(Cpu(f, k, junk), s, 3, t)
    ensures t.mem == if s.at == p then Moved(s.mem, ptr, off) else s.mem
    ensures t.rax == s.rax && t.rdi == s.rdi && t.rsi == s.rsi && t.calls == s.calls
    ensures t.rsp == At(s.rsp, 8) && t.back == Load64(t.mem, s.rsp)
  {
    if s.at == p {
      var s1 := s.(at := p + 10, rcx := off);
      var s2 := s1.(at := p + 13, mem := Moved(s.mem, ptr, off));
      DoesStep(f, k, junk, s, MovRcx(off), s1);
      DoesStep(f, k, junk, s1, add, s2);
      t := s2.(rsp := At(s.rsp, 8), back := Load64(s2.mem, s.rsp));
      Returns(f, k, junk, s2, t);
      EndsAfter(Cpu(f, k, junk), s1, 1, s2, 1, t);
      EndsAfter(Cpu(f, k, junk), s, 1, s1, 2, t);
    } else {
      t := s.(rsp := At(s.rsp, 8), back := Load64(s.mem, s.rsp));
      Returns(f, k, junk, s, t);
    }
  }

  /** The kernel keeps the return address and the two words the stub pushed. */
  ghost predicate StackKept(s: State, k: Reply) {
    forall i {:trigger At(s.rsp, i)} :: -16 <= i < 8 ==> k.mem(At(s.rsp, i)) == PushedBoth(s)(At(s.rsp, i))
  }

  /** The stub's pushes do not fall on its code. */
  ghost predicate StackApart(s: State, base: u64, n: nat) {
    Apart(At(s.rsp, -8), base, n) && Apart(At(s.rsp, -16), base, n)
  }

  lemma StackWord(s: State, k: Reply, d: int)
    requires StackKept(s, k) && -16 <= d <= 0
    ensures Load64(k.mem, At(s.rsp, d)) == Load64(PushedBoth(s), At(s.rsp, d))
  {
    var a := At(s.rsp, d);
    forall j {:trigger At(a, j)} | 0 <= j < DOUBLE_BYTES ensures k.mem(At(a, j)) == PushedBoth(s)(At(a, j)) {
      AtAt(s.rsp, d, j);
    }
    LoadSame(k.mem, PushedBoth(s), a, DOUBLE_BYTES);
  }

  lemma Distance(a: u64, x: int, d: int)
    requires 0 <= x - d < TWO64
    ensures Wrap(At(a, x) - At(a, d)) == x - d
  {
    var p, q := (a + x) / TWO64, (a + d) / TWO64;
    assert At(a, x) - At(a, d) == x - d + (q - p) * TWO64;
    DivUnique(At(a, x) - At(a, d), q - p, x - d, TWO64);
  }

  lemma WordsApart(rsp: u64, d: int, e: int)
    requires d + 8 <= e <= d + 16
    ensures Apart(At(rsp, d), At(rsp, e), DOUBLE_BYTES)
  {
    forall i {:trigger At(At(rsp, e), i)} | 0 <= i < DOUBLE_BYTES ensures Wrap(At(At(rsp, e), i) - At(rsp, d)) >= 8 {
      AtAt(rsp, e, i);
      Distance(rsp, e + i, d);
    }
  }

  lemma ReadsRsi(s: State, k: Reply)
    requires StackKept(s, k)
    ensures Load64(k.mem, At(s.rsp, -16)) == s.rsi
  {
    StackWord(s, k, -16);
    LoadStore(PushedOne(s), At(s.rsp, -16), s.rsi);
  }

  lemma ReadsRdi(s: State, k: Reply)
    requires StackKept(s, k)
    ensures Load64(k.mem, At(s.rsp, -8)) == s.rdi
  {
    StackWord(s, k, -8);
    WordsApart(s.rsp, -16, -8);
    LoadApart(PushedOne(s), At(s.rsp, -16), s.rsi, At(s.rsp, -8), DOUBLE_BYTES);
    LoadStore(s.mem, At(s.rsp, -8), s.rdi);
  }

  lemma ReadsReturn(s: State, k: Reply)
    requires StackKept(s, k)
    ensures Load64(k.mem, s.rsp) == Load64(s.mem, s.rsp)
  {
    assert At(s.rsp, 0) == s.rsp;
    StackWord(s, k, 0);
    WordsApart(s.rsp, -16, 0);
    WordsApart(s.rsp, -8, 0);
    LoadApart(PushedOne(s), At(s.rsp, -16), s.rsi, s.rsp, DOUBLE_BYTES);
    LoadApart(s.mem, At(s.rsp, -8), s.rdi, s.rsp, DOUBLE_BYTES);
  }

  /** What the stub finds on its stack after the call. */
  ghost predicate StackReads(s: State, k: Reply) {
    Load64(k.mem, At(s.rsp, -16)) == s.rsi && Load64(k.mem, At(s.rsp, -8)) == s.rdi
  }

  lemma PushesKeepCode(s: State, base: u64, code: seq<byte>)
    requires Holds(s.mem, base, code) && StackApart(s, base, |code|)
    ensures Holds(PushedOne(s), base, code) && Holds(PushedBoth(s), base, code)
  {
    HoldsApart(s.mem, At(s.rsp, -8), s.rdi, base, code);
    HoldsApart(PushedOne(s), At(s.rsp, -16), s.rsi, base, code);
  }

  lemma ClockEnds(f: Fetcher, k: Reply, junk: u64, s: State, off: u64) returns (t: State)
    requires s.at == 0 && ClockAt(f, s.mem, off) && ClockAt(f, PushedOne(s), off) && ClockAt(f, PushedBoth(s), off)
    requires ClockAt(f, k.mem, off) && StackReads(s, k)
    requires Realtime(s.rdi % 0x1_0000_0000) ==> ClockAt(f, Moved(k.mem, s.rsi, off), off)
    ensures Ends(Cpu(f, k, junk), s, 13, t)
    ensures t.mem == if Realtime(s.rdi % 0x1_0000_0000) then Moved(k.mem, s.rsi, off) else k.mem
    ensures t.rax == k.ret && t.calls == s.calls + [Call(CLOCK_GETTIME, s.rdi, s.rsi)]
    ensures t.rsp == At(s.rsp, 8) && t.back == Load64(t.mem, s.rsp)
  {
    Enters(f, k, junk, s, CLOCK_GETTIME);
    var u := Answered(s, k, junk, CLOCK_GETTIME);
    var n, v := ClockDecides(f, k, junk, u);
    t := Finishes(f, k, junk, v, 21, off, AddAtRsi, s.rsi);
    EndsAfter(Cpu(f, k, junk), u, n, v, 3, t);
    EndsAfter(Cpu(f, k, junk), s, 6, u, n + 3, t);
  }

  lemma DayDecides(f: Fetcher, k: Reply, junk: u64, s: State, t: State)
    requires s.at == 11 && DayTestAt(f, s.mem) && t == s.(at := if s.rdi == 0 then 29 else 16, zero := s.rdi == 0)
    ensures Reaches(Cpu(f, k, junk), s, 2, t)
  {
    var u := s.(at := 14, zero := s.rdi == 0);
    DoesStep(f, k, junk, s, TestRdi, u);
    DoesStep(f, k, junk, u, Je(13), t);
    Then(Cpu(f, k, junk), s, 1, u, 1, t);
  }

  lemma DayEnds(f: Fetcher, k: Reply, junk: u64, s: State, off: u64) returns (t: State)
    requires s.at == 0 && DayAt(f, s.mem, off) && DayAt(f, PushedOne(s), off) && DayAt(f, PushedBoth(s), off)
    requires DayAt(f, k.mem, off) && StackReads(s, k)
    requires s.rdi != 0 ==> DayAt(f, Moved(k.mem, s.rdi, off), off)
    ensures Ends(Cpu(f, k, junk), s, 11, t)
    ensures t.mem == if s.rdi != 0 then Moved(k.mem, s.rdi, off) else k.mem
    ensures t.rax == k.ret && t.calls == s.calls + [Call(GETTIMEOFDAY, s.rdi, s.rsi)]
    ensures t.rsp == At(s.rsp, 8) && t.back == Load64(t.mem, s.rsp)
  {
    Enters(f, k, junk, s, GETTIMEOFDAY);
    var u := Answered(s, k, junk, GETTIMEOFDAY);
    var v := u.(at := if s.rdi == 0 then 29 else 16, zero := s.rdi == 0);
    DayDecides(f, k, junk, u, v);
    t := Finishes(f, k, junk, v, 16, off, AddAtRdi, s.rdi);
    EndsAfter(Cpu(f, k, junk), u, 2, v, 3, t);
    EndsAfter(Cpu(f, k, junk), s, 6, u, 5, t);
  }

  /** What the environment owes a stub: its code and stack survive the call and the pushes. */
  ghost predicate Undisturbed(s: State, k: Reply, base: u64, code: seq<byte>) {
    Holds(s.mem, base, code) && Holds(k.mem, base, code) && StackKept(s, k) && StackApart(s, base, |code|)
  }

  /** Back at the caller with a balanced stack and the kernel's answer in rax. */
  ghost predicate Faithful(s: State, t: State, k: Reply) {
    t.rax == k.ret && t.rsp == At(s.rsp, 8) && t.back == Load64(s.mem, s.rsp)
  }

  /** A shift away from the code and the return address disturbs neither. */
  lemma MovedKeeps(m: Mem, base: u64, code: seq<byte>, rsp: u64, ptr: u64, off: u64)
    requires Holds(m, base, code) && Apart(ptr, base, |code|) && Apart(ptr, rsp, DOUBLE_BYTES)
    ensures Holds(Moved(m, ptr, off), base, code) && Load64(Moved(m, ptr, off), rsp) == Load64(m, rsp)
  {
    HoldsApart(m, ptr, At(Load64(m, ptr), off), base, code);
    LoadApart(m, ptr, At(Load64(m, ptr), off), rsp, DOUBLE_BYTES);
  }

  /**
   The clock_gettime stub: one real call with the caller's arguments, the kernel's answer in
   rax, and the seconds the kernel wrote shifted by the offset exactly for clocks 0 and 5. Only
   the low 32 bits of rdi are the clock id.
   */
  lemma ClockStubShifts(base: u64, s: State, k: Reply, junk: u64, off: u64, clock: u32) returns (t: State)
    requires s.at == 0 && s.rdi % 0x1_0000_0000 == clock && Undisturbed(s, k, base, ClockStub(off))
    requires Realtime(clock) ==> Apart(s.rsi, base, 35) && Apart(s.rsi, s.rsp, DOUBLE_BYTES)
    ensures forall fuel: nat {:trigger Run(base, s, k, junk, fuel)} :: fuel >= 13 ==>
              Run(base, s, k, junk, fuel) == Returned(t)
    ensures Faithful(s, t, k) && t.calls == s.calls + [Call(CLOCK_GETTIME, s.rdi, s.rsi)]
    ensures if Realtime(clock) then Shifted(k.mem, t.mem, s.rsi, off) else t.mem == k.mem
  {
    var code := ClockStub(off);
    ClockSlices(off);
    PushesKeepCode(s, base, code);
    ClockPlaced(s.mem, base, off);
    ClockPlaced(PushedOne(s), base, off);
    ClockPlaced(PushedBoth(s), base, off);
    ClockPlaced(k.mem, base, off);
    if Realtime(clock) {
      MovedKeeps(k.mem, base, code, s.rsp, s.rsi, off);
      ClockPlaced(Moved(k.mem, s.rsi, off), base, off);
    }
    AddInPlace(k.mem, s.rsi, off);
    ReadsRsi(s, k);
    ReadsRdi(s, k);
    ReadsReturn(s, k);
    t := ClockEnds(FetchAt(base), k, junk, s, off);
  }

  /** The gettimeofday stub shifts the seconds exactly when the pointer is not NULL. */
  lemma DayStubShifts(base: u64, s: State, k: Reply, junk: u64, off: u64) returns (t: State)
    requires s.at == 0 && Undisturbed(s, k, base, DayStub(off))
    requires s.rdi != 0 ==> Apart(s.rdi, base, 30) && Apart(s.rdi, s.rsp, DOUBLE_BYTES)
    ensures forall fuel: nat {:trigger Run(base, s, k, junk, fuel)} :: fuel >= 11 ==>
              Run(base, s, k, junk, fuel) == Returned(t)
    ensures Faithful(s, t, k) && t.calls == s.calls + [Call(GETTIMEOFDAY, s.rdi, s.rsi)]
    ensures if s.rdi != 0 then Shifted(k.mem, t.mem, s.rdi, off) else t.mem == k.mem
  {
    var code := DayStub(off);
    DaySlices(off);
    PushesKeepCode(s, base, code);
    DayPlaced(s.mem, base, off);
    DayPlaced(PushedOne(s), base, off);
    DayPlaced(PushedBoth(s), base, off);
    DayPlaced(k.mem, base, off);
    if s.rdi != 0 {
      MovedKeeps(k.mem, base, code, s.rsp, s.rdi, off);
      DayPlaced(Moved(k.mem, s.rdi, off), base, off);
    }
    AddInPlace(k.mem, s.rdi, off);
    ReadsRsi(s, k);
    ReadsRdi(s, k);
    ReadsReturn(s, k);
    t := DayEnds(FetchAt(base), k, junk, s, off);
  }
}
