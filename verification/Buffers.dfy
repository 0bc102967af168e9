/** Writing into a byte buffer in place. */
module Buffers {
  import opened Prelude

  /** A buffer with `bytes` written at `at`. */
  ghost function Over(m: seq<byte>, at: nat, bytes: seq<byte>): (r: seq<byte>)
    requires at + |bytes| <= |m|
    ensures |r| == |m|
  {
    m[..at] + bytes + m[at + |bytes|..]
  }

  /** `copy_from_slice` into, or `write_all` at, an offset. */
  method WriteAll(mem: array<byte>, at: nat, bytes: seq<byte>)
    requires at + |bytes| <= mem.Length
    modifies mem
    ensures mem[..] == Over(old(mem[..]), at, bytes)
  {
    for i := 0 to |bytes|
      invariant forall x :: 0 <= x < mem.Length ==> mem[x] == if at <= x < at + i then bytes[x - at] else old(mem[x])
    {
      mem[at + i] := bytes[i];
    }
  }
}
