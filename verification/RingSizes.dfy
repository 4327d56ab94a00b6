/** The sizes that lfring_alloc (linux-2022/quiz8/problem2/lfring.c:35-61, common.h:16-22) and
    make_queue (linux-2022/quiz9/problem2/queues.h:144-182) accept. */
module RingSizes {
  import opened RingWords
  import opened Powers

  // ---------- ROUNDUP_POW2 ----------

  function RoundUpPow2(n: int): (r: int)
    requires 0 <= n < WORD
  {
    Pow64();
    if n > 1 then Pow2(64 - LeadingZeros(n - 1, 64)) else 1
  }

  lemma CancelLess(a: int, b: int, c: int)
    requires c > 0 && a * c < b * c
    ensures a < b
  {
    if a >= b { MulMono(c, b, a); }
  }

  lemma Nearest(m: int, p: int, r: int)
    requires p > 0 && r * p == WORD && WORD / 2 <= m * p < WORD
    ensures m < r <= 2 * m
  {
    CancelLess(m, r, p);
    assert (2 * m) * p == 2 * (m * p);
    if r > 2 * m { CancelMore(2 * m, r, p); }
  }

  lemma CancelMore(a: int, b: int, c: int)
    requires c > 0 && a < b
    ensures a * c < b * c
  {
    MulMono(c, a + 1, b);
  }

  /** It is the least power of two that is at least n, and divides the word range. */
  lemma RoundsUp(n: int) returns (k: nat)
    requires 1 <= n < WORD
    ensures var r := RoundUpPow2(n); n <= r && (n > 1 ==> r < 2 * n) && k <= 64 && r == Pow2(k)
  {
    Pow64();
    if n > 1 {
      var z := LeadingZeros(n - 1, 64);
      k := 64 - z;
      PowSum(k, z);
      Nearest(n - 1, Pow2(z), Pow2(k));
    } else {
      k := 0;
    }
  }

  lemma PowDivides(k: nat)
    requires k <= 64
    ensures WORD % Pow2(k) == 0
  {
    Pow64();
    PowSum(64 - k, k);
    ModUnique(WORD, Pow2(k), Pow2(64 - k), 0);
  }

  // ---------- lfring_alloc ----------

  datatype Allocation = Refused | Ring(size: int)

  /** `flags` are accepted when only the two supported bits are set. */
  function AllocRing(n: int, flags: bv32): Allocation
    requires 0 <= n < 0x1_0000_0000
  {
    var size := RoundUpPow2(n);
    if n == 0 || size == 0 || size > 0x8000_0000 then Refused
    else if flags & !3 != 0 then Refused
    else Ring(size)
  }

  // Sizes of at most 2^31 are those of at most 2^31 elements.
  lemma SizeLimit(n: int)
    requires 1 <= n < 0x1_0000_0000
    ensures RoundUpPow2(n) <= 0x8000_0000 <==> n <= 0x8000_0000
  {
    var k := RoundsUp(n);
    Pow31();
    if k > 31 { PowMono(32, k); } else { PowMono(k, 31); }
  }

  /** Exactly 1 to 2^31 elements are accepted, with supported flags; the ring then has room for
      all of them, in less than twice as many slots, and its size divides the word range. */
  lemma AllocExact(n: int, flags: bv32)
    requires 0 <= n < 0x1_0000_0000
    ensures AllocRing(n, flags).Ring? <==> 1 <= n <= 0x8000_0000 && flags & !3 == 0
    ensures AllocRing(n, flags).Ring? ==> var size := AllocRing(n, flags).size;
      n <= size <= 0x8000_0000 && WORD % size == 0 && (n > 1 ==> size < 2 * n)
  {
    if n >= 1 {
      var k := RoundsUp(n);
      PowDivides(k);
      SizeLimit(n);
    }
  }

  // ---------- make_queue ----------

  /** The word with bit `k` set. */
  function Bit(k: nat): bv64
    requires 1 <= k <= 28
  {
    if k <= 7 then Bits1To7(k) else if k <= 14 then Bits8To14(k) else if k <= 21 then Bits15To21(k) else Bits22To28(k)
  }

  function Bits1To7(k: nat): bv64
    requires 1 <= k <= 7
  {
    if k == 1 then 0x2 else if k == 2 then 0x4 else if k == 3 then 0x8
    else if k == 4 then 0x10 else if k == 5 then 0x20 else if k == 6 then 0x40 else 0x80
  }

  lemma Bits1To7Are(k: nat)
    requires 1 <= k <= 7
    ensures Bits1To7(k) as int == Pow2(k)
  {
    assert Pow2(1) == 2;
  }

  function Bits8To14(k: nat): bv64
    requires 8 <= k <= 14
  {
    if k == 8 then 0x100 else if k == 9 then 0x200 else if k == 10 then 0x400
    else if k == 11 then 0x800 else if k == 12 then 0x1000 else if k == 13 then 0x2000 else 0x4000
  }

  lemma Bits8To14Are(k: nat)
    requires 8 <= k <= 14
    ensures Bits8To14(k) as int == Pow2(k)
  {
    assert Pow2(1) == 2;
    assert Pow2(8) == 256;
  }

  function Bits15To21(k: nat): bv64
    requires 15 <= k <= 21
  {
    if k == 15 then 0x8000 else if k == 16 then 0x1_0000 else if k == 17 then 0x2_0000
    else if k == 18 then 0x4_0000 else if k == 19 then 0x8_0000 else if k == 20 then 0x10_0000 else 0x20_0000
  }

  lemma Bits15To21Are(k: nat)
    requires 15 <= k <= 21
    ensures Bits15To21(k) as int == Pow2(k)
  {
    assert Pow2(1) == 2;
    assert Pow2(8) == 256;
    assert Pow2(15) == 32768;
  }

  function Bits22To28(k: nat): bv64
    requires 22 <= k <= 28
  {
    if k == 22 then 0x40_0000 else if k == 23 then 0x80_0000 else if k == 24 then 0x100_0000
    else if k == 25 then 0x200_0000 else if k == 26 then 0x400_0000 else if k == 27 then 0x800_0000 else 0x1000_0000
  }

  lemma Bits22To28Are(k: nat)
    requires 22 <= k <= 28
    ensures Bits22To28(k) as int == Pow2(k)
  {
    assert Pow2(1) == 2;
    assert Pow2(8) == 256;
    assert Pow2(15) == 32768;
    assert Pow2(22) == 4194304;
  }

  lemma BitIsPower(k: nat)
    requires 1 <= k <= 28
    ensures Bit(k) as int == Pow2(k)
  {
    if k <= 7 { Bits1To7Are(k); } else if k <= 14 { Bits8To14Are(k); }
    else if k <= 21 { Bits15To21Are(k); } else { Bits22To28Are(k); }
  }

  lemma SameWord(x: bv64, y: bv64)
    requires x as int == y as int
    ensures x == y
  {
    assert x == (x as int) as bv64 && y == (y as int) as bv64;
  }

  datatype QueueCheck = TooSmall | TooBig | NotPow2 | Accepted

  function CheckCount(count: bv64): QueueCheck {
    if count < 2 then TooSmall
    else if count > 0x1000_0000 then TooBig
    else if count & (count - 1) != 0 then NotPow2
    else Accepted
  }

  // The words that pass, one by one.
  predicate Listed(count: bv64) {
    || count == 0x2 || count == 0x4 || count == 0x8 || count == 0x10 || count == 0x20
    || count == 0x40 || count == 0x80 || count == 0x100 || count == 0x200 || count == 0x400
    || count == 0x800 || count == 0x1000 || count == 0x2000 || count == 0x4000 || count == 0x8000
    || count == 0x1_0000 || count == 0x2_0000 || count == 0x4_0000 || count == 0x8_0000 || count == 0x10_0000
    || count == 0x20_0000 || count == 0x40_0000 || count == 0x80_0000 || count == 0x100_0000 || count == 0x200_0000
    || count == 0x400_0000 || count == 0x800_0000 || count == 0x1000_0000
  }

  lemma PassesWhenListed(count: bv64)
    ensures CheckCount(count) == Accepted <==> Listed(count)
  {
  }

  lemma ListedIsBit(count: bv64) returns (k: nat)
    requires Listed(count)
    ensures 1 <= k <= 28 && count == Bit(k)
  {
    if
    case count == 0x2 => k := 1;
    case count == 0x4 => k := 2;
    case count == 0x8 => k := 3;
    case count == 0x10 => k := 4;
    case count == 0x20 => k := 5;
    case count == 0x40 => k := 6;
    case count == 0x80 => k := 7;
    case count == 0x100 => k := 8;
    case count == 0x200 => k := 9;
    case count == 0x400 => k := 10;
    case count == 0x800 => k := 11;
    case count == 0x1000 => k := 12;
    case count == 0x2000 => k := 13;
    case count == 0x4000 => k := 14;
    case count == 0x8000 => k := 15;
    case count == 0x1_0000 => k := 16;
    case count == 0x2_0000 => k := 17;
    case count == 0x4_0000 => k := 18;
    case count == 0x8_0000 => k := 19;
    case count == 0x10_0000 => k := 20;
    case count == 0x20_0000 => k := 21;
    case count == 0x40_0000 => k := 22;
    case count == 0x80_0000 => k := 23;
    case count == 0x100_0000 => k := 24;
    case count == 0x200_0000 => k := 25;
    case count == 0x400_0000 => k := 26;
    case count == 0x800_0000 => k := 27;
    case count == 0x1000_0000 => k := 28;
  }

  lemma BitIsListed(k: nat)
    requires 1 <= k <= 28
    ensures Listed(Bit(k))
  {
  }

  /** make_queue accepts exactly the powers of two from 2 to 2^28, and they divide the word
      range. */
  lemma AcceptedCounts(count: bv64)
    ensures CheckCount(count) == Accepted <==> exists k :: 1 <= k <= 28 && count as int == Pow2(k)
    ensures CheckCount(count) == Accepted ==> count as int > 0 && WORD % (count as int) == 0
  {
    PassesWhenListed(count);
    if Listed(count) {
      var k := ListedIsBit(count);
      BitIsPower(k);
      PowDivides(k);
    }
    if k: nat :| 1 <= k <= 28 && count as int == Pow2(k) {
      BitIsPower(k);
      SameWord(count, Bit(k));
      BitIsListed(k);
    }
  }
}
