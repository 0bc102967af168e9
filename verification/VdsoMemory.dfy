/**
 Byte memory and machine words, shared by the three instruction-set models. Addresses and
 registers are 64-bit; memory is a total function from addresses to bytes, so the results
 below make no alignment assumption and wrap at the top of the address space as the
 hardware does.
 */
module VdsoMemory {
  import opened Prelude
  import opened Bits
  import opened LittleEndian
  import opened VdsoEncoders

  type Mem = u64 -> byte

  /** A system call as the kernel sees it: its number and first two arguments. */
  datatype Call = Call(nr: u64, arg0: u64, arg1: u64)

  /** The kernel's answer: the return register and memory afterwards. */
  datatype Reply = Reply(ret: u64, mem: Mem)

  /** The address `k` bytes past `a`. */
  function At(a: u64, k: int): u64 {
    Wrap(a + k)
  }

  /** A little-endian read of `n` bytes. */
  ghost function Load(m: Mem, a: u64, n: nat): nat
    decreases n
  {
    if n == 0 then 0 else m(a) + 256 * Load(m, At(a, 1), n - 1)
  }

  const WORD_BYTES: nat := 4
  const DOUBLE_BYTES: nat := 8

  /** A 32-bit read. */
  ghost function Load32(m: Mem, a: u64): u32 {
    LoadBound(m, a, WORD_BYTES);
    PowFacts();
    Load(m, a, WORD_BYTES)
  }

  /** A 64-bit read. */
  ghost function Load64(m: Mem, a: u64): u64 {
    LoadBound(m, a, DOUBLE_BYTES);
    PowFacts();
    Load(m, a, DOUBLE_BYTES)
  }

  /** A little-endian write of eight bytes. */
  ghost function Store(m: Mem, a: u64, v: u64): Mem {
    (x: u64) => var k := Wrap(x - a); if k < 8 then Byte(v, k) else m(x)
  }

  /** The bytes of a run of 32-bit instructions, as `push_insn` lays them out. */
  function Flat(ws: seq<u32>): (r: seq<byte>)
    ensures |r| == 4 * |ws|
  {
    if ws == [] then [] else Le(ws[0], 4) + Flat(ws[1..])
  }

  /** `code` is in memory at `base`. */
  ghost predicate Holds(m: Mem, base: u64, code: seq<byte>) {
    forall i {:trigger code[i]} {:trigger At(base, i)} :: 0 <= i < |code| ==> m(At(base, i)) == code[i]
  }

  /** No byte of the eight at `a` is one of the `n` at `b`. */
  ghost predicate Apart(a: u64, b: u64, n: nat) {
    forall i {:trigger At(b, i)} :: 0 <= i < n ==> Wrap(At(b, i) - a) >= 8
  }

  lemma AtAt(a: u64, j: int, k: int)
    ensures At(At(a, j), k) == At(a, j + k)
  {
  }

  lemma WrapSub(a: u64, k: int)
    requires 0 <= k < 8
    ensures Wrap(At(a, k) - a) == k
  {
  }

  /** Memory after an in-place addition at `ptr`. */
  ghost function Moved(m: Mem, ptr: u64, off: u64): Mem {
    Store(m, ptr, At(Load64(m, ptr), off))
  }

  /** The seconds field at `ptr` has moved by `off` modulo 2^64 and nothing else has changed. */
  ghost predicate Shifted(before: Mem, after: Mem, ptr: u64, off: u64) {
    && Load64(after, ptr) == At(Load64(before, ptr), off)
    && forall a: u64 :: Wrap(a - ptr) >= 8 ==> after(a) == before(a)
  }

  /** Adding in place is exactly a shift. */
  lemma AddInPlace(m: Mem, ptr: u64, off: u64)
    ensures Shifted(m, Moved(m, ptr, off), ptr, off)
  {
    LoadStore(m, ptr, At(Load64(m, ptr), off));
  }

  lemma {:induction false} LoadBound(m: Mem, a: u64, n: nat)
    ensures Load(m, a, n) < Pow256(n)
    decreases n
  {
    if n > 0 {
      LoadBound(m, At(a, 1), n - 1);
    }
  }

  /** Reading back bytes that spell `v` gives `v`. */
  lemma {:induction false} LoadSpells(m: Mem, a: u64, n: nat, v: nat)
    requires forall k {:trigger Byte(v, k)} :: 0 <= k < n ==> m(At(a, k)) == Byte(v, k)
    requires v < Pow256(n)
    ensures Load(m, a, n) == v
    decreases n
  {
    if n > 0 {
      assert m(At(a, 0)) == Byte(v, 0);
      forall k {:trigger Byte(v / 256, k)} | 0 <= k < n - 1 ensures m(At(At(a, 1), k)) == Byte(v / 256, k) {
        AtAt(a, 1, k);
        assert Byte(v, k + 1) == Byte(v / 256, k);
      }
      LoadSpells(m, At(a, 1), n - 1, v / 256);
    }
  }

  /** A read returns what was last written at its address. */
  lemma LoadStore(m: Mem, a: u64, v: u64)
    ensures Load64(Store(m, a, v), a) == v
  {
    PowFacts();
    forall k {:trigger Byte(v, k)} | 0 <= k < 8 ensures Store(m, a, v)(At(a, k)) == Byte(v, k) {
      WrapSub(a, k);
    }
    LoadSpells(Store(m, a, v), a, DOUBLE_BYTES, v);
  }

  lemma {:induction false} LoadSame(m: Mem, m': Mem, a: u64, n: nat)
    requires forall k {:trigger At(a, k)} :: 0 <= k < n ==> m(At(a, k)) == m'(At(a, k))
    ensures Load(m, a, n) == Load(m', a, n)
    decreases n
  {
    if n > 0 {
      assert At(a, 0) == a;
      forall k {:trigger At(At(a, 1), k)} | 0 <= k < n - 1 ensures m(At(At(a, 1), k)) == m'(At(At(a, 1), k)) {
        AtAt(a, 1, k);
        assert m(At(a, 1 + k)) == m'(At(a, 1 + k));
      }
      LoadSame(m, m', At(a, 1), n - 1);
    }
  }

  /** A read is not affected by a write elsewhere. */
  lemma LoadApart(m: Mem, a: u64, v: u64, b: u64, n: nat)
    requires Apart(a, b, n)
    ensures Load(Store(m, a, v), b, n) == Load(m, b, n)
  {
    LoadSame(Store(m, a, v), m, b, n);
  }

  /** Code survives a write elsewhere. */
  lemma HoldsApart(m: Mem, a: u64, v: u64, base: u64, code: seq<byte>)
    requires Holds(m, base, code) && Apart(a, base, |code|)
    ensures Holds(Store(m, a, v), base, code)
  {
    forall i {:trigger At(base, i)} | 0 <= i < |code| ensures Store(m, a, v)(At(base, i)) == code[i] {
    }
  }

  /** A number of `n` bytes stored in the code at offset `at`. */
  lemma FetchData(m: Mem, base: u64, code: seq<byte>, at: nat, n: nat, v: nat)
    requires Holds(m, base, code) && at + n <= |code| && v < Pow256(n)
    requires code[at..at + n] == Le(v, n)
    ensures Load(m, At(base, at), n) == v
  {
    forall k {:trigger Byte(v, k)} | 0 <= k < n ensures m(At(At(base, at), k)) == Byte(v, k) {
      AtAt(base, at, k);
      LeAt(v, n, k);
      assert code[at + k] == code[at..at + n][k];
    }
    LoadSpells(m, At(base, at), n, v);
  }

  lemma {:induction false} FlatSlice(ws: seq<u32>, i: nat)
    requires i < |ws|
    ensures Flat(ws)[4 * i..4 * i + 4] == Le(ws[i], 4)
  {
    if i > 0 {
      FlatSlice(ws[1..], i - 1);
      assert Flat(ws)[4 * i..4 * i + 4] == Flat(ws[1..])[4 * (i - 1)..4 * (i - 1) + 4];
    }
  }

  lemma WordSlice(ws: seq<u32>, tail: seq<byte>, i: nat)
    requires i < |ws|
    ensures 4 * i + 4 <= |Flat(ws) + tail| && (Flat(ws) + tail)[4 * i..4 * i + 4] == Le(ws[i], 4)
  {
    FlatSlice(ws, i);
  }

  lemma FetchFour(m: Mem, base: u64, code: seq<byte>, at: nat, w: u32)
    requires Holds(m, base, code) && at + 4 <= |code| && code[at..at + 4] == Le(w, 4)
    ensures Load32(m, At(base, at)) == w
  {
    PowFacts();
    FetchData(m, base, code, at, WORD_BYTES, w);
  }

  /** The instruction at index `i` of code in memory. */
  lemma FetchWord(m: Mem, base: u64, code: seq<byte>, ws: seq<u32>, tail: seq<byte>, i: nat)
    requires code == Flat(ws) + tail && Holds(m, base, code) && i < |ws|
    ensures Load32(m, At(base, 4 * i)) == ws[i]
  {
    var at := 4 * i;
    WordSlice(ws, tail, i);
    assert code[at..at + 4] == Le(ws[i], 4);
    FetchFour(m, base, code, at, ws[i]);
  }

  lemma {:induction false} ByteOfQuotient(v: nat, j: nat, k: nat)
    ensures Byte(v, j + k) == Byte(Drop(v, j), k)
    decreases j
  {
    if j > 0 {
      ByteOfQuotient(v / 256, j - 1, k);
    }
  }

  /** A number without its `j` lowest bytes. */
  function Drop(v: nat, j: nat): nat {
    if j == 0 then v else Drop(v / 256, j - 1)
  }

  lemma DropFour(v: nat)
    ensures Drop(v, 4) == v / 0x1_0000_0000
  {
    var a := v / 256;
    var b := a / 256;
    var c := b / 256;
    assert Drop(v, 4) == Drop(a, 3) == Drop(b, 2);
    assert Drop(b, 2) == Drop(c, 1) == Drop(c / 256, 0) == c / 256;
  }

  lemma ModSplit(v: nat, p: nat)
    requires p > 0
    ensures v % (256 * p) / 256 == v / 256 % p && v % (256 * p) % 256 == v % 256
  {
    var q, r := v / 256 / p, v / 256 % p;
    assert v / 256 == q * p + r;
    assert q * p * 256 == q * (256 * p);
    assert (r + 1) * 256 <= p * 256;
    DivUnique(v, q, r * 256 + v % 256, 256 * p);
  }

  lemma {:induction false} LowByte(v: nat, k: nat, n: nat)
    requires k < n
    ensures Pow256(n) > 0 && Byte(v, k) == Byte(v % Pow256(n), k)
  {
    PowPositive(n - 1);
    ModSplit(v, Pow256(n - 1));
    if k > 0 {
      LowByte(v / 256, k - 1, n - 1);
    }
  }

  lemma PowPositive(n: nat)
    ensures Pow256(n) > 0
  {
  }

  /** An eight-byte number in the code, read as two four-byte halves. */
  lemma FetchHalves(m: Mem, base: u64, code: seq<byte>, at: nat, v: u64)
    requires Holds(m, base, code) && at + 8 == |code| && code[at..] == Le(v, 8)
    ensures Load32(m, At(base, at)) == v % 0x1_0000_0000
    ensures Load32(m, At(base, at + 4)) == v / 0x1_0000_0000
  {
    PowFacts();
    var lo, hi := v % 0x1_0000_0000, v / 0x1_0000_0000;
    forall k {:trigger Byte(lo, k)} | 0 <= k < 4 ensures m(At(At(base, at), k)) == Byte(lo, k) {
      AtAt(base, at, k);
      LeAt(v, 8, k);
      assert code[at + k] == code[at..][k];
      LowByte(v, k, 4);
    }
    forall k {:trigger Byte(hi, k)} | 0 <= k < 4 ensures m(At(At(base, at + 4), k)) == Byte(hi, k) {
      AtAt(base, at + 4, k);
      LeAt(v, 8, k + 4);
      assert code[at + 4 + k] == code[at..][k + 4];
      ByteOfQuotient(v, 4, k);
      DropFour(v);
    }
    LoadSpells(m, At(base, at), WORD_BYTES, lo);
    LoadSpells(m, At(base, at + 4), WORD_BYTES, hi);
  }

  // ---- Bitwise OR ----

  function Or(a: nat, b: nat): nat
    decreases a + b
  {
    if a == 0 && b == 0 then 0
    else (if a % 2 == 1 || b % 2 == 1 then 1 else 0) + 2 * Or(a / 2, b / 2)
  }

  lemma {:induction false} OrZero(a: nat)
    ensures Or(0, a) == a
  {
    if a > 0 {
      OrZero(a / 2);
    }
  }

  /** An OR of fields that share no bit is their sum. */
  lemma {:induction false} OrDisjoint(lo: nat, hi: nat, n: nat)
    requires lo < Pow2(n)
    ensures Or(lo, hi * Pow2(n)) == lo + hi * Pow2(n)
  {
    if n == 0 {
      OrZero(hi);
    } else {
      assert hi * Pow2(n) == 2 * (hi * Pow2(n - 1));
      OrDisjoint(lo / 2, hi, n - 1);
    }
  }

  lemma Pow2At32()
    ensures Pow2(32) == 0x1_0000_0000
  {
    assert Pow2(8) == 0x100 by { assert Pow2(4) == 16; }
    assert Pow2(16) == 0x1_0000 by { assert Pow2(12) == 0x1000; }
    assert Pow2(24) == 0x100_0000 by { assert Pow2(20) == 0x10_0000; }
    assert Pow2(28) == 0x1000_0000;
  }

  /** `push_insn` for each word in turn, then the trailing data. */
  method EmitStub(insns: seq<u32>, tail: seq<byte>) returns (stub: seq<byte>)
    ensures stub == Flat(insns) + tail
  {
    stub := [];
    for i := 0 to |insns|
      invariant stub == Flat(insns[..i])
    {
      FlatSnoc(insns[..i], insns[i]);
      assert insns[..i + 1] == insns[..i] + [insns[i]];
      stub := stub + Le(insns[i], 4);
    }
    assert insns[..|insns|] == insns;
    stub := stub + tail;
  }

  lemma {:induction false} FlatSnoc(ws: seq<u32>, w: u32)
    ensures Flat(ws + [w]) == Flat(ws) + Le(w, 4)
  {
    if ws != [] {
      assert (ws + [w])[1..] == ws[1..] + [w];
      FlatSnoc(ws[1..], w);
    }
  }

  /** The OR has exactly the bits either word has. */
  lemma {:induction false} OrBits(a: nat, b: nat, i: nat)
    ensures Bit(Or(a, b), i) <==> Bit(a, i) || Bit(b, i)
    decreases i
  {
    if a == 0 && b == 0 {
      NoBits(i);
    } else if i > 0 {
      OrBits(a / 2, b / 2, i - 1);
      assert Or(a, b) / 2 == Or(a / 2, b / 2);
    } else {
      assert Or(a, b) % 2 == if a % 2 == 1 || b % 2 == 1 then 1 else 0;
    }
  }
}
