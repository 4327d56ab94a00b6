/** Ring indices: unbounded integers, or 64-bit words compared by serial-number arithmetic
    (section 3.2 of RFC 1982), as in linux-2022/quiz8/problem2/lfring.c. */
module RingWords {
  const WORD: int := 0x1_0000_0000_0000_0000
  const HALF: int := 0x8000_0000_0000_0000

  datatype Width = Unbounded | Word64

  /** The value stored for the integer `x`. */
  function Norm(w: Width, x: int): int {
    if w.Unbounded? then x else x % WORD
  }

  /** `(intptr_t)(a - b)`. */
  function Diff(w: Width, a: int, b: int): int {
    if w.Unbounded? then a - b
    else
      var d := (a - b) % WORD;
      if d >= HALF then d - WORD else d
  }

  /** `before(a, b)`, lfring.c:76-79. */
  predicate Before(w: Width, a: int, b: int) {
    Diff(w, a, b) < 0
  }

  lemma MulApart(d: int, m: int)
    requires m > 0
    ensures d > 0 ==> d * m >= m
    ensures d < 0 ==> d * m <= -m
  {
  }

  lemma ModUnique(x: int, m: int, q: int, r: int)
    requires m > 0 && 0 <= r < m && x == q * m + r
    ensures x % m == r && x / m == q
  {
    var d := x / m - q;
    assert x == (x / m) * m + x % m;
    assert d * m == r - x % m;
    MulApart(d, m);
  }

  /** Positions less than a lap apart have different remainders. */
  lemma ModDistinct(p: int, q: int, m: int)
    requires m > 0 && p != q && p < q + m && q < p + m
    ensures p % m != q % m
  {
    assert p == (p / m) * m + p % m && q == (q / m) * m + q % m;
    MulApart(q / m - p / m, m);
    assert (q / m - p / m) * m == (q / m) * m - (p / m) * m;
  }

  lemma ModShift(x: int, k: int, m: int)
    requires m > 0
    ensures (x % m + k) % m == (x + k) % m
    ensures (k - x % m) % m == (k - x) % m
  {
    var q := x / m;
    assert x == q * m + x % m;
    var y := x % m + k;
    ModUnique(x + k, m, q + y / m, y % m);
    var z := k - x % m;
    ModUnique(k - x, m, z / m - q, z % m);
  }

  /** Differences below half the word range are read off correctly. */
  lemma DiffExact(a: int, b: int)
    requires -HALF <= a - b < HALF
    ensures Diff(Word64, Norm(Word64, a), Norm(Word64, b)) == a - b
    ensures Before(Word64, Norm(Word64, a), Norm(Word64, b)) <==> a < b
    ensures Norm(Word64, a) == Norm(Word64, b) <==> a == b
  {
    ModShift(a, -(b % WORD), WORD);
    ModShift(b, a, WORD);
    if a >= b { ModUnique(a - b, WORD, 0, a - b); } else { ModUnique(a - b, WORD, -1, a - b + WORD); }
  }

  /** Words stand for different indices if these are less than the word range apart. */
  lemma SameWord(a: int, b: int)
    requires -WORD < a - b < WORD
    ensures Norm(Word64, a) == Norm(Word64, b) <==> a == b
  {
    assert a == (a / WORD) * WORD + a % WORD && b == (b / WORD) * WORD + b % WORD;
    MulApart(a / WORD - b / WORD, WORD);
    assert (a / WORD - b / WORD) * WORD == (a / WORD) * WORD - (b / WORD) * WORD;
  }

  lemma NormShift(a: int, k: int)
    ensures Norm(Word64, Norm(Word64, a) + k) == Norm(Word64, a + k)
    ensures Norm(Word64, k + Norm(Word64, a)) == Norm(Word64, k + a)
  {
    ModShift(a, k, WORD);
  }

  /** Masking by a size that divides the word range is unaffected by wrap-around. */
  lemma MaskExact(a: int, size: int)
    requires size > 0 && WORD % size == 0
    ensures Norm(Word64, a) % size == a % size
  {
    var q, c := a / WORD, WORD / size;
    var r := a % WORD;
    assert a == q * WORD + r && WORD == c * size;
    assert r == (r / size) * size + r % size;
    assert q * WORD == (q * c) * size by { MulAssoc(q, c, size); }
    assert (q * c + r / size) * size == (q * c) * size + (r / size) * size;
    ModUnique(a, size, q * c + r / size, r % size);
  }

  lemma MulAssoc(a: int, b: int, c: int)
    ensures a * (b * c) == (a * b) * c
  {
  }
}
