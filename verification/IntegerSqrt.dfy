/** isqrt, linux-2022/quiz5/problem1/problem1.c:55-85: a table look-up, two Newton steps on
    32-bit `y`, and one correction. */
module IntegerSqrt {
  import opened Powers

  const U32: int := 0x1_0000_0000
  const U64: int := 0x1_0000_0000_0000_0000

  // ---------- the table, line by line ----------

  const ROW_0: seq<int> := [128, 129, 130, 131, 132, 133, 134, 135, 136, 137, 138, 139, 140, 141, 142]
  const ROW_1: seq<int> := [143, 143, 144, 145, 146, 147, 148, 149, 150, 150, 151, 152, 153, 154, 155]
  const ROW_2: seq<int> := [155, 156, 157, 158, 159, 159, 160, 161, 162, 163, 163, 164, 165, 166, 167]
  const ROW_3: seq<int> := [167, 168, 169, 170, 170, 171, 172, 173, 173, 174, 175, 175, 176, 177, 178]
  const ROW_4: seq<int> := [178, 179, 180, 181, 181, 182, 183, 183, 184, 185, 185, 186, 187, 187, 188]
  const ROW_5: seq<int> := [189, 189, 190, 191, 191, 192, 193, 193, 194, 195, 195, 196, 197, 197, 198]
  const ROW_6: seq<int> := [199, 199, 200, 201, 201, 202, 203, 203, 204, 204, 205, 206, 206, 207, 207]
  const ROW_7: seq<int> := [208, 209, 209, 210, 211, 211, 212, 212, 213, 214, 214, 215, 215, 216, 217]
  const ROW_8: seq<int> := [217, 218, 218, 219, 219, 220, 221, 221, 222, 222, 223, 223, 224, 225, 225]
  const ROW_9: seq<int> := [226, 226, 227, 227, 228, 229, 229, 230, 230, 231, 231, 232, 232, 233, 234]
  const ROW_10: seq<int> := [234, 235, 235, 236, 236, 237, 237, 238, 238, 239, 239, 240, 241, 241, 242]
  const ROW_11: seq<int> := [242, 243, 243, 244, 244, 245, 245, 246, 246, 247, 247, 248, 248, 249, 249]
  const ROW_12: seq<int> := [250, 250, 251, 251, 252, 252, 253, 253, 254, 254, 255, 255]

  /** `isqrt64_tab[k]`. */
  function Tab(k: int): int
    requires 0 <= k < 192
  {
    if k < 15 then ROW_0[k - 0]
    else if k < 30 then ROW_1[k - 15]
    else if k < 45 then ROW_2[k - 30]
    else if k < 60 then ROW_3[k - 45]
    else if k < 75 then ROW_4[k - 60]
    else if k < 90 then ROW_5[k - 75]
    else if k < 105 then ROW_6[k - 90]
    else if k < 120 then ROW_7[k - 105]
    else if k < 135 then ROW_8[k - 120]
    else if k < 150 then ROW_9[k - 135]
    else if k < 165 then ROW_10[k - 150]
    else if k < 180 then ROW_11[k - 165]
    else ROW_12[k - 180]
  }

  // `y` is the integer square root of 256 * (k + 65) - 1.
  predicate Entry(y: int, k: int) {
    128 <= y <= 255 && y * y <= 256 * (k + 65) - 1 < (y + 1) * (y + 1)
  }

  predicate RowFits(row: seq<int>, k: int) {
    forall i :: 0 <= i < |row| ==> Entry(row[i], k + i)
  }

  lemma FirstRowsFit()
    ensures RowFits(ROW_0, 0) && RowFits(ROW_1, 15) && RowFits(ROW_2, 30) && RowFits(ROW_3, 45)
    ensures RowFits(ROW_4, 60) && RowFits(ROW_5, 75) && RowFits(ROW_6, 90)
  {
  }

  lemma LastRowsFit()
    ensures RowFits(ROW_7, 105) && RowFits(ROW_8, 120) && RowFits(ROW_9, 135) && RowFits(ROW_10, 150)
    ensures RowFits(ROW_11, 165) && RowFits(ROW_12, 180)
  {
  }

  /** Every entry of the table is the square root that its comment in the source promises. */
  lemma TabIsSqrt(k: int)
    requires 0 <= k < 192
    ensures Entry(Tab(k), k)
  {
    FirstRowsFit();
    LastRowsFit();
  }

  // ---------- one Newton step ----------

  /** `z` is the mean of `b` and x / b, rounded down. */
  predicate Mean(x: int, b: int, z: int) {
    2 * b * z <= b * b + x < 2 * b * z + 2 * b
  }

  lemma SquareGap(b: int, w: int)
    ensures (b - w) * (b - w) == b * b - 2 * b * w + w * w
    ensures 2 * b * w <= b * b + w * w
  {
    assert (b - w) * (b - w) >= 0;
  }

  lemma SquareMono(m: int, n: int)
    requires 0 <= m < n
    ensures m * m < n * n
  {
  }

  lemma SquareRoot(m: int, n: int)
    requires 0 <= n && m * m < n * n
    ensures -n < m < n
  {
    if m >= n && n > 0 { if m > n { SquareMono(n, m); } }
    if m <= -n && n > 0 { if -m > n { SquareMono(n, -m); } }
  }

  lemma MulNext(b: int, z: int)
    ensures 2 * b * (z + 1) == 2 * b * z + 2 * b
  {
  }

  // The step never falls short: its error is a square over twice the start.
  lemma NotBelow(x: int, b: int, z: int)
    requires Mean(x, b, z)
    ensures x < (z + 1) * (z + 1)
  {
    SquareGap(b, z + 1);
    MulNext(b, z);
  }

  // A mean of at least w + 1, with w * w > x, needs a start far from w.
  lemma FarOff(x: int, b: int, w: int)
    requires 2 * b * w + 2 * b <= b * b + x && w * w > x
    ensures 2 * b < (b - w) * (b - w)
  {
    SquareGap(b, w);
  }

  lemma Overshoot(x: int, b: int, d: int, w: int)
    requires 0 < d <= b && d * d <= 2 * b && 2 * b * w + 2 * b <= b * b + x && x < (b + d) * (b + d)
    ensures w < b + d
  {
    SquareGap(b, -d);
    assert 2 * b * (b + d) == 2 * (b * b) + 2 * b * d;
    if w >= b + d { MulMono(2 * b, b + d, w); }
  }

  // It is less than one too high when the start is off by at most `d` and d * d <= 2 * b.
  lemma NotAbove(x: int, b: int, d: int, z: int)
    requires 0 < d <= b && d * d <= 2 * b && z >= 1 && Mean(x, b, z)
    requires (b - d) * (b - d) <= x < (b + d) * (b + d)
    ensures (z - 1) * (z - 1) <= x
  {
    var w := z - 1;
    if w * w > x {
      MulNext(b, w);
      FarOff(x, b, w);
      Overshoot(x, b, d, w);
      SquareRoot(b - d, w);
      NearBy(b, d, w);
      assert false;
    }
  }

  lemma NearBy(b: int, d: int, w: int)
    requires b - d < w < b + d && d * d <= 2 * b
    ensures (b - w) * (b - w) < 2 * b
  {
    if b >= w { SquareMono(b - w, d); } else { SquareMono(w - b, d); }
    assert (b - w) * (b - w) == (w - b) * (w - b);
  }

  /** A Newton step from a start that is off by at most `d`, with d * d <= 2 * b, is off by less
      than one. */
  lemma NewtonStep(x: int, b: int, d: int, z: int)
    requires 0 < d <= b && d * d <= 2 * b && z >= 1 && Mean(x, b, z)
    requires (b - d) * (b - d) <= x < (b + d) * (b + d)
    ensures (z - 1) * (z - 1) <= x < (z + 1) * (z + 1)
  {
    NotBelow(x, b, z);
    NotAbove(x, b, d, z);
  }

  // ---------- the two steps ----------

  // q is t / y, rounded down.
  lemma Quotient(t: int, y: int)
    requires y > 0
    ensures y * (t / y) <= t < y * (t / y) + y
    ensures t >= 0 ==> t / y >= 0
  {
  }

  predicate Normal(x: int) {
    0x4000_0000_0000_0000 <= x < U64
  }

  function Step1(x: int, y: int): int
    requires y > 0
  {
    y * 128 + x / 0x200_0000_0000 / y
  }

  function Step2(x: int, y: int): int
    requires y > 0
  {
    y * 32768 + x / 0x2_0000 / y
  }

  lemma Step1Mean(x: int, y: int)
    requires y > 0
    ensures Mean(x / U32, 256 * y, Step1(x, y))
  {
    var t := x / 0x200_0000_0000;
    Quotient(t, y);
    assert 512 * t <= x / U32 < 512 * t + 512;
    assert 2 * (256 * y) * Step1(x, y) == (256 * y) * (256 * y) + 512 * (y * (t / y)) by {
      assert 2 * (256 * y) * (y * 128 + t / y) == 512 * (y * (y * 128 + t / y));
      assert y * (y * 128 + t / y) == y * y * 128 + y * (t / y);
      assert (256 * y) * (256 * y) == 65536 * (y * y);
    }
  }

  // The table entry is within one of the root of x / 2^48.
  lemma StartClose(x: int, y: int)
    requires Normal(x) && Entry(y, x / 0x100_0000_0000_0000 - 64)
    ensures (256 * y - 256) * (256 * y - 256) <= x / U32 < (256 * y + 256) * (256 * y + 256)
  {
    var h := x / 0x100_0000_0000_0000;
    assert h * 0x100_0000 <= x / U32 < (h + 1) * 0x100_0000;
    assert (256 * y - 256) * (256 * y - 256) == 65536 * (y * y - 2 * y + 1);
    assert (256 * y + 256) * (256 * y + 256) == 65536 * ((y + 1) * (y + 1));
  }

  lemma RootRange(x: int, z: int)
    requires 0x4000_0000 <= x < U32 && z >= 0 && (z - 1) * (z - 1) <= x < (z + 1) * (z + 1)
    ensures 32768 <= z <= 65536
  {
    if z < 32768 { SquareUp(z + 1, 32768); }
    if z > 65536 { SquareUp(65536, z - 1); }
  }

  /** The first step leaves `y` within one of the root of x / 2^32. */
  lemma Step1Close(x: int, y: int)
    requires Normal(x) && Entry(y, x / 0x100_0000_0000_0000 - 64)
    ensures var z := Step1(x, y); 32768 <= z <= 65536 && (z - 1) * (z - 1) <= x / U32 < (z + 1) * (z + 1)
  {
    Step1Mean(x, y);
    StartClose(x, y);
    Quotient(x / 0x200_0000_0000, y);
    NewtonStep(x / U32, 256 * y, 256, Step1(x, y));
    RootRange(x / U32, Step1(x, y));
  }

  lemma SquareUp(m: int, n: int)
    requires 0 <= m <= n
    ensures m * m <= n * n
  {
  }

  lemma Step2Mean(x: int, y: int)
    requires y > 0
    ensures Mean(x, 65536 * y, Step2(x, y))
  {
    var t := x / 0x2_0000;
    Quotient(t, y);
    assert 131072 * t <= x < 131072 * t + 131072;
    assert 2 * (65536 * y) * Step2(x, y) == (65536 * y) * (65536 * y) + 131072 * (y * (t / y)) by {
      assert 2 * (65536 * y) * (y * 32768 + t / y) == 131072 * (y * (y * 32768 + t / y));
      assert y * (y * 32768 + t / y) == y * y * 32768 + y * (t / y);
      assert (65536 * y) * (65536 * y) == U32 * (y * y);
    }
  }

  /** The second step leaves it within one of the root of x. */
  lemma Step2Close(x: int, y: int)
    requires Normal(x) && 32768 <= y <= 65536 && (y - 1) * (y - 1) <= x / U32 < (y + 1) * (y + 1)
    ensures var z := Step2(x, y); z > 0 && (z - 1) * (z - 1) <= x < (z + 1) * (z + 1)
  {
    Step2Mean(x, y);
    assert U32 * (x / U32) <= x < U32 * (x / U32) + U32;
    assert (65536 * y - 65536) * (65536 * y - 65536) == U32 * ((y - 1) * (y - 1));
    assert (65536 * y + 65536) * (65536 * y + 65536) == U32 * ((y + 1) * (y + 1));
    Quotient(x / 0x2_0000, y);
    NewtonStep(x, 65536 * y, 65536, Step2(x, y));
  }

  /** `y` fits 32 bits after the second step, even where the root is 2^32 - 1. */
  lemma Step2Fits(x: int, y: int)
    requires Normal(x) && Entry(y, x / 0x100_0000_0000_0000 - 64)
    ensures Step1(x, y) > 0 && Step2(x, Step1(x, y)) < U32
  {
    Step1Close(x, y);
    var y1 := Step1(x, y);
    Step2Close(x, y1);
    var z := Step2(x, y1);
    if x >= (U32 - 1) * (U32 - 1) {
      TopStart(x, y);
      assert x / 0x2_0000 / 65536 < 0x8000_0000;
    } else {
      SquareRoot(z - 1, U32 - 1);
    }
  }

  lemma TopStart(x: int, y: int)
    requires (U32 - 1) * (U32 - 1) <= x < U64 && Entry(y, x / 0x100_0000_0000_0000 - 64)
    ensures y == 255 && Step1(x, y) == 65536
  {
    assert x / 0x100_0000_0000_0000 == 255;
    if y < 255 { SquareUp(y + 1, 255); }
    assert x / 0x200_0000_0000 == 8388607;
  }

  // ---------- normalisation ----------

  /** Clearing the low bit of the shift leaves a word with one of its two top bits set. */
  lemma Normalised(x: int)
    requires 0 < x < U64
    ensures Pow2(64) == U64
    ensures var lz := LeadingZeros(x, 64) / 2 * 2; Normal(x * Pow2(lz))
  {
    Pow64();
    var n := LeadingZeros(x, 64);
    var lz := n / 2 * 2;
    if lz != n { assert x * Pow2(n) == 2 * (x * Pow2(lz)); }
  }

  lemma ShiftDown(x: int, y: int, p: int, r: int)
    requires p > 0 && r >= 0 && p * r <= y && y * y <= x * (p * p)
    ensures r * r <= x
  {
    SquareUp(p * r, y);
    assert (p * r) * (p * r) == (r * r) * (p * p);
    assert p * p > 0;
    CancelRight(r * r, x, p * p);
  }

  lemma ShiftUp(x: int, y: int, p: int, r: int)
    requires p > 0 && y >= 0 && y + 1 <= p * (r + 1) && x * (p * p) < (y + 1) * (y + 1)
    ensures x < (r + 1) * (r + 1)
  {
    SquareUp(y + 1, p * (r + 1));
    assert (p * (r + 1)) * (p * (r + 1)) == ((r + 1) * (r + 1)) * (p * p);
    if x >= (r + 1) * (r + 1) { MulMono(p * p, (r + 1) * (r + 1), x); }
  }

  lemma ShiftBy(x: int, y: int, p: int)
    requires p > 0 && y >= 0 && y * y <= x * (p * p) < (y + 1) * (y + 1)
    ensures var r := y / p; r >= 0 && r * r <= x < (r + 1) * (r + 1)
  {
    Quotient(y, p);
    var r := y / p;
    ShiftDown(x, y, p, r);
    assert p * (r + 1) == p * r + p;
    ShiftUp(x, y, p, r);
  }

  /** Shifting the root right by half of an even shift undoes it, rounding down. */
  lemma ShiftBack(x: int, y: int, m: nat)
    requires y >= 0 && y * y <= x * Pow2(2 * m) < (y + 1) * (y + 1)
    ensures var r := y / Pow2(m); r >= 0 && r * r <= x < (r + 1) * (r + 1)
  {
    Pow2Square(m);
    ShiftBy(x, y, Pow2(m));
  }

  lemma CancelRight(m: int, n: int, c: int)
    requires c > 0 && m * c <= n * c
    ensures m <= n
  {
    if m > n { MulMono(c, n + 1, m); }
  }

  // ---------- isqrt ----------

  function Trunc32(x: int): int { x % U32 }
  function Trunc64(x: int): int { x % U64 }

  // None of the truncations in lines 80-83 loses anything.
  lemma FirstUntruncated(x: int, y: int)
    requires Normal(x) && Entry(y, x / 0x100_0000_0000_0000 - 64)
    ensures Trunc32(y) == y && Trunc32(Trunc64(Trunc32(y * 128) + x / 0x200_0000_0000 / y)) == Step1(x, y) > 0
  {
    Step1Range(x, y);
    Quotient(x / 0x200_0000_0000, y);
    Untouched(y * 128, x / 0x200_0000_0000 / y);
  }

  lemma Step1Range(x: int, y: int)
    requires Normal(x) && Entry(y, x / 0x100_0000_0000_0000 - 64)
    ensures 32768 <= Step1(x, y) <= 65536
  {
    Step1Close(x, y);
  }

  lemma SecondUntruncated(x: int, y: int)
    requires Normal(x) && 32768 <= y <= 65536 && Step2(x, y) < U32
    ensures Trunc32(Trunc64(Trunc32(y * 32768) + x / 0x2_0000 / y)) == Step2(x, y)
  {
    Quotient(x / 0x2_0000, y);
    Untouched(y * 32768, x / 0x2_0000 / y);
  }

  lemma NoneTruncated(x: int, y: int)
    requires Normal(x) && Entry(y, x / 0x100_0000_0000_0000 - 64)
    ensures Trunc32(y) == y && Trunc32(Trunc64(Trunc32(y * 128) + x / 0x200_0000_0000 / y)) == Step1(x, y) > 0
    ensures var y1 := Step1(x, y);
      Trunc32(Trunc64(Trunc32(y1 * 32768) + x / 0x2_0000 / y1)) == Step2(x, y1) && 0 < Step2(x, y1) < U32
  {
    FirstUntruncated(x, y);
    Step1Close(x, y);
    Step2Close(x, Step1(x, y));
    Step2Fits(x, y);
    SecondUntruncated(x, Step1(x, y));
  }

  lemma Untouched(a: int, q: int)
    requires 0 <= a && 0 <= q && a + q < U32
    ensures Trunc32(Trunc64(Trunc32(a) + q)) == a + q
  {
  }

  // The correction of line 83.
  lemma Corrected(x: int, y: int)
    requires Normal(x) && 0 < y < U32 && (y - 1) * (y - 1) <= x < (y + 1) * (y + 1)
    ensures var z := Trunc32(y - if x < Trunc64(y * y) then 1 else 0); z >= 0 && z * z <= x < (z + 1) * (z + 1)
  {
    SquareUp(y, U32 - 1);
    SquareUp(0, y);
  }

  // Lines 80-83.
  method RootOfNormal(x: int) returns (y: int)
    requires Normal(x)
    ensures y >= 0 && y * y <= x < (y + 1) * (y + 1)
  {
    TabIsSqrt(x / 0x100_0000_0000_0000 - 64);
    y := Trunc32(Tab(x / 0x100_0000_0000_0000 - 64));
    ghost var y0 := y;
    NoneTruncated(x, y0);
    Step1Close(x, y0);
    Step2Close(x, Step1(x, y0));
    y := Trunc32(Trunc64(Trunc32(y * 128) + x / 0x200_0000_0000 / y));
    assert y == Step1(x, y0);
    y := Trunc32(Trunc64(Trunc32(y * 32768) + x / 0x2_0000 / y));
    assert y == Step2(x, Step1(x, y0));
    Corrected(x, y);
    y := Trunc32(y - if x < Trunc64(y * y) then 1 else 0);
  }

  /** isqrt, with `y` truncated to 32 bits and `x` to 64 bits wherever the source does, returns
      the integer square root of every 64-bit number. */
  method ISqrt(x0: int) returns (r: int)
    requires 0 <= x0 < U64
    ensures r >= 0 && r * r <= x0 < (r + 1) * (r + 1)
  {
    if x0 == 0 {
      return 0;
    }
    Normalised(x0);
    var lz := LeadingZeros(x0, 64) / 2 * 2;
    var x := Trunc64(x0 * Pow2(lz));
    var y := RootOfNormal(x);
    ShiftBack(x0, y, lz / 2);
    return y / Pow2(lz / 2);
  }

  /** The integer square root is unique, so this determines what isqrt returns. */
  lemma RootIsUnique(x: int, r: int, q: int)
    requires 0 <= r && 0 <= q && r * r <= x < (r + 1) * (r + 1) && q * q <= x < (q + 1) * (q + 1)
    ensures r == q
  {
    if r < q { SquareUp(r + 1, q); }
    if q < r { SquareUp(q + 1, r); }
  }
}
