/** Powers of two and leading zeros of machine words. */
module Powers {
  function Pow2(n: nat): (p: int)
    ensures p > 0
  {
    if n == 0 then 1 else 2 * Pow2(n - 1)
  }

  /** Leading zeros of a `w`-bit word; `__builtin_clzll` is the case w == 64. */
  function LeadingZeros(x: int, w: nat): (n: nat)
    requires w > 0 && 0 < x < Pow2(w)
    ensures n < w && Pow2(w - 1) <= x * Pow2(n) < Pow2(w)
  {
    if x >= Pow2(w - 1) then 0
    else
      var n := LeadingZeros(x, w - 1);
      assert x * Pow2(n + 1) == 2 * (x * Pow2(n));
      n + 1
  }

  lemma Pow16()
    ensures Pow2(16) == 65536
  {
    assert Pow2(4) == 16;
    Pow2Square(4);
    Pow2Square(8);
  }

  lemma Pow64()
    ensures Pow2(64) == 0x1_0000_0000_0000_0000 && Pow2(63) == 0x8000_0000_0000_0000
  {
    Pow16();
    Pow2Square(16);
    Pow2Square(32);
    assert Pow2(64) == 2 * Pow2(63);
  }

  lemma {:induction false} Pow2Square(m: nat)
    ensures Pow2(2 * m) == Pow2(m) * Pow2(m)
  {
    if m > 0 {
      Pow2Square(m - 1);
      assert Pow2(2 * m) == 2 * Pow2(2 * m - 1) == 4 * Pow2(2 * (m - 1));
      assert Pow2(m) * Pow2(m) == 4 * (Pow2(m - 1) * Pow2(m - 1));
    }
  }

  lemma {:induction false} PowSum(m: nat, n: nat)
    ensures Pow2(m + n) == Pow2(m) * Pow2(n)
  {
    if m > 0 {
      PowSum(m - 1, n);
      assert Pow2(m - 1 + n) * 2 == Pow2(m + n);
      assert Pow2(m) * Pow2(n) == 2 * (Pow2(m - 1) * Pow2(n));
    }
  }

  lemma PowMono(j: nat, k: nat)
    requires j <= k
    ensures Pow2(j) <= Pow2(k)
    decreases k
  {
    if j < k { PowMono(j, k - 1); }
  }

  lemma Pow31()
    ensures Pow2(31) == 0x8000_0000 && Pow2(32) == 0x1_0000_0000
  {
    Pow16();
    Pow2Square(16);
    assert Pow2(32) == 2 * Pow2(31);
  }

  lemma MulMono(c: int, m: int, n: int)
    requires c >= 0 && m <= n
    ensures c * m <= c * n
  {
  }
}
