/** Quotients, powers of two and the bits of a number. */
module Bits {

  lemma MulAtLeast(a: int, d: int)
    requires a >= 1 && d > 0
    ensures a * d >= d
  {
    var b := a - 1;
    assert a * d == b * d + d;
    assert b * d >= 0;
  }

  /** Quotient and remainder are determined by the defining equation. */
  lemma DivUnique(n: int, q: int, r: int, d: int)
    requires d > 0 && n == q * d + r && 0 <= r < d
    ensures n / d == q && n % d == r
  {
    var k, m := n / d, n % d;
    assert n == k * d + m;
    assert (q - k) * d == m - r;
    if q > k {
      MulAtLeast(q - k, d);
    } else if q < k {
      MulAtLeast(k - q, d);
    }
  }

  /** Doubling a modulus adds one low bit. */
  lemma ModDouble(a: nat, q: nat)
    requires q > 0
    ensures a % (2 * q) == a % 2 + 2 * (a / 2 % q)
  {
    var k, r := a / 2 / q, a / 2 % q;
    assert a / 2 == k * q + r;
    assert k * (2 * q) == 2 * (k * q);
    DivUnique(a, k, 2 * r + a % 2, 2 * q);
  }

  function Pow2(n: nat): nat {
    if n == 0 then 1 else 2 * Pow2(n - 1)
  }

  lemma {:induction false} Pow2Sum(a: nat, b: nat)
    ensures Pow2(a + b) == Pow2(a) * Pow2(b)
    decreases a
  {
    if a > 0 {
      Pow2Sum(a - 1, b);
      assert Pow2(a) * Pow2(b) == 2 * (Pow2(a - 1) * Pow2(b));
    }
  }

  /** Bit `i` of a number. */
  predicate Bit(a: nat, i: nat)
    decreases i
  {
    if i == 0 then a % 2 == 1 else Bit(a / 2, i - 1)
  }

  lemma {:induction false} NoBits(i: nat)
    ensures !Bit(0, i)
    decreases i
  {
    if i > 0 {
      NoBits(i - 1);
    }
  }

  lemma {:induction false} HasBit(a: nat) returns (i: nat)
    requires a != 0
    ensures Bit(a, i)
  {
    if a % 2 == 1 {
      i := 0;
    } else {
      var j := HasBit(a / 2);
      i := j + 1;
    }
  }

  lemma {:induction false} BitShifted(q: nat, k: nat, i: nat)
    ensures Bit(q * Pow2(k), i) <==> i >= k && Bit(q, i - k)
    decreases k
  {
    if k > 0 {
      assert q * Pow2(k) == 2 * (q * Pow2(k - 1));
      if i > 0 {
        assert q * Pow2(k) / 2 == q * Pow2(k - 1);
        BitShifted(q, k - 1, i - 1);
      } else {
        assert q * Pow2(k) % 2 == 0;
      }
    }
  }

  lemma {:induction false} BitsOfOnes(k: nat, i: nat)
    ensures Pow2(k) >= 1 && (Bit(Pow2(k) - 1, i) <==> i < k)
    decreases k
  {
    if k == 0 {
      NoBits(i);
    } else {
      BitsOfOnes(k - 1, if i > 0 then i - 1 else 0);
      assert (Pow2(k) - 1) / 2 == Pow2(k - 1) - 1 && (Pow2(k) - 1) % 2 == 1;
    }
  }
}
