/** Numbers as little-endian bytes. */
module LittleEndian {
  import opened Prelude

  /** Byte `k` of a number, least significant first. */
  function Byte(v: nat, k: nat): byte {
    if k == 0 then v % 256 else Byte(v / 256, k - 1)
  }

  function Pow256(n: nat): nat {
    if n == 0 then 1 else 256 * Pow256(n - 1)
  }

  /** `to_le_bytes` for an `n`-byte number. */
  function Le(v: nat, n: nat): (r: seq<byte>)
    ensures |r| == n
  {
    if n == 0 then [] else [v % 256] + Le(v / 256, n - 1)
  }

  /** The number a run of bytes spells. */
  function FromLe(s: seq<byte>): nat {
    if s == [] then 0 else s[0] + 256 * FromLe(s[1..])
  }

  lemma {:induction false} LeAt(v: nat, n: nat, k: nat)
    requires k < n
    ensures Le(v, n)[k] == Byte(v, k)
  {
    if k > 0 {
      LeAt(v / 256, n - 1, k - 1);
    }
  }

  /** Reading back gives the number. */
  lemma {:induction false} FromLeLe(v: nat, n: nat)
    requires v < Pow256(n)
    ensures FromLe(Le(v, n)) == v
  {
    if n > 0 {
      FromLeLe(v / 256, n - 1);
    }
  }

  lemma PowFacts()
    ensures Pow256(2) == 0x1_0000 && Pow256(4) == 0x1_0000_0000 && Pow256(8) == 0x1_0000_0000_0000_0000
  {
    assert Pow256(4) == 0x1_0000_0000;
    assert Pow256(6) == 0x1_0000_0000_0000;
  }
}
