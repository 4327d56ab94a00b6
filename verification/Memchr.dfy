/** memchr one byte at a time, linux-2022/quiz8/problem1/memchr.h:21-30, and one 64-bit
    little-endian word at a time, linux-2022/quiz8/problem1/opt.h:28-99. */
module Memchr {
  type byte = b: bv64 | b <= 0xFF

  /** The pointer returned, as an offset from the start of the buffer. */
  datatype Pointer = Null | At(index: nat)

  /** The first occurrence of `d`, or none: section 7.24.5.1 of C11. */
  predicate IsFirst(s: seq<byte>, d: byte, r: Pointer) {
    match r
    case Null => d !in s
    case At(i) => i < |s| && s[i] == d && forall j :: 0 <= j < i ==> s[j] != d
  }

  lemma FirstIsUnique(s: seq<byte>, d: byte, r: Pointer, q: Pointer)
    requires IsFirst(s, d, r) && IsFirst(s, d, q)
    ensures r == q
  {
  }

  // `(unsigned char) c`.
  function Char(c: int): byte { (c % 256) as bv64 }

  /** memchr_origin. */
  method MemchrOrigin(s: seq<byte>, c: int) returns (r: Pointer)
    ensures IsFirst(s, Char(c), r)
  {
    var p, n := 0, |s|;
    while n != 0
      invariant 0 <= p && 0 <= n && p + n == |s| && Char(c) !in s[..p]
    {
      n := n - 1;
      p := p + 1;
      if Char(c) == s[p - 1] {
        return At(p - 1);
      }
    }
    return Null;
  }

  // ---------- words ----------

  const ONES: bv64 := 0x0101_0101_0101_0101
  const HIGHS: bv64 := 0x8080_8080_8080_8080

  function DetectNull(x: bv64): bv64 {
    (x - ONES) & !x & HIGHS
  }

  function DetectChar(x: bv64, mask: bv64): bv64 {
    DetectNull(x ^ mask)
  }

  /** The first byte of `x` that is zero, from the low end, or 8. */
  function FirstZero(x: bv64): nat {
    if x & 0xFF == 0 then 0
    else if (x >> 8) & 0xFF == 0 then 1
    else if (x >> 16) & 0xFF == 0 then 2
    else if (x >> 24) & 0xFF == 0 then 3
    else if (x >> 32) & 0xFF == 0 then 4
    else if (x >> 40) & 0xFF == 0 then 5
    else if (x >> 48) & 0xFF == 0 then 6
    else if (x >> 56) & 0xFF == 0 then 7
    else 8
  }

  /** The first byte of `x` that is not zero, from the low end, or 8. */
  function FirstMark(x: bv64): nat {
    if x & 0xFF != 0 then 0
    else if (x >> 8) & 0xFF != 0 then 1
    else if (x >> 16) & 0xFF != 0 then 2
    else if (x >> 24) & 0xFF != 0 then 3
    else if (x >> 32) & 0xFF != 0 then 4
    else if (x >> 40) & 0xFF != 0 then 5
    else if (x >> 48) & 0xFF != 0 then 6
    else if (x >> 56) & 0xFF != 0 then 7
    else 8
  }

  /** The borrow of the subtraction can mark bytes above the first zero byte, but none below. */
  lemma DetectsFirst(x: bv64)
    ensures FirstMark(DetectNull(x)) == FirstZero(x) && (DetectNull(x) == 0 <==> FirstZero(x) == 8)
  {
  }

  /** `__builtin_ctzl`. */
  function Ctz(x: bv64): nat
    requires x != 0
    decreases x
  {
    if x & 1 == 1 then 0 else 1 + Ctz(x >> 1)
  }

  // ---------- counting trailing zeros ----------

  lemma CtzShift1(x: bv64)
    requires x != 0 && x & 1 == 0
    ensures x >> 1 != 0 && Ctz(x) == 1 + Ctz(x >> 1)
  {
  }

  lemma CtzShift2(x: bv64)
    requires x != 0 && x & 3 == 0
    ensures x >> 2 != 0 && Ctz(x) == 2 + Ctz(x >> 2)
  {
    CtzShift1(x);
    assert (x >> 1) & 1 == 0 && (x >> 1) >> 1 == x >> 2;
    CtzShift1(x >> 1);
  }

  lemma CtzShift4(x: bv64)
    requires x != 0 && x & 0xF == 0
    ensures x >> 4 != 0 && Ctz(x) == 4 + Ctz(x >> 4)
  {
    assert x & 3 == 0;
    CtzShift2(x);
    assert (x >> 2) & 3 == 0 && (x >> 2) >> 2 == x >> 4;
    CtzShift2(x >> 2);
  }

  lemma CtzShift8(x: bv64)
    requires x != 0 && x & 0xFF == 0
    ensures x >> 8 != 0 && Ctz(x) == 8 + Ctz(x >> 8)
  {
    assert x & 0xF == 0;
    CtzShift4(x);
    assert (x >> 4) & 0xF == 0 && (x >> 4) >> 4 == x >> 8;
    CtzShift4(x >> 4);
  }

  lemma CtzBelow2(x: bv64)
    requires x & 3 != 0
    ensures Ctz(x) < 2
  {
    if x & 1 != 1 { CtzShift1(x); assert (x >> 1) & 1 == 1; }
  }

  lemma CtzBelow4(x: bv64)
    requires x & 0xF != 0
    ensures Ctz(x) < 4
  {
    if x & 3 == 0 { CtzShift2(x); assert (x >> 2) & 3 != 0; CtzBelow2(x >> 2); } else { CtzBelow2(x); }
  }

  lemma CtzBelow8(x: bv64)
    requires x & 0xFF != 0
    ensures Ctz(x) < 8
  {
    if x & 0xF == 0 { CtzShift4(x); assert (x >> 4) & 0xF != 0; CtzBelow4(x >> 4); } else { CtzBelow4(x); }
  }

  /** Dividing the number of trailing zeros by eight gives the lowest byte that is not zero. */
  lemma {:induction false} CtzByte(x: bv64)
    requires x != 0
    ensures Ctz(x) / 8 == FirstMark(x)
    decreases x
  {
    if x & 0xFF != 0 {
      CtzBelow8(x);
    } else {
      CtzShift8(x);
      assert x >> 8 < x;
      CtzByte(x >> 8);
      MarkShift(x);
    }
  }

  lemma MarkShift(x: bv64)
    requires x != 0 && x & 0xFF == 0
    ensures FirstMark(x) == 1 + FirstMark(x >> 8)
  {
  }

  // ---------- a word of the buffer ----------

  /** Eight bytes as one little-endian word. */
  function Word(s: seq<byte>): bv64
    requires |s| == 8
  {
    (s[0] as bv64) | ((s[1] as bv64) << 8) | ((s[2] as bv64) << 16) | ((s[3] as bv64) << 24)
    | ((s[4] as bv64) << 32) | ((s[5] as bv64) << 40) | ((s[6] as bv64) << 48) | ((s[7] as bv64) << 56)
  }

  predicate Lanes(x: bv64, b0: bv64, b1: bv64, b2: bv64, b3: bv64, b4: bv64, b5: bv64, b6: bv64, b7: bv64) {
    && x & 0xFF == b0 && (x >> 8) & 0xFF == b1 && (x >> 16) & 0xFF == b2 && (x >> 24) & 0xFF == b3
    && (x >> 32) & 0xFF == b4 && (x >> 40) & 0xFF == b5 && (x >> 48) & 0xFF == b6 && (x >> 56) & 0xFF == b7
  }

  lemma WordLanes(w: bv64, b0: byte, b1: byte, b2: byte, b3: byte, b4: byte, b5: byte, b6: byte, b7: byte)
    requires w == b0 | (b1 << 8) | (b2 << 16) | (b3 << 24) | (b4 << 32) | (b5 << 40) | (b6 << 48) | (b7 << 56)
    ensures Lanes(w, b0, b1, b2, b3, b4, b5, b6, b7)
  {
  }

  // The mask as lines 65-68 build it.
  function Mask(d: byte): bv64 {
    var m2 := (d << 8) | d;
    var m4 := (m2 << 16) | m2;
    (m4 << 32) | m4
  }

  lemma MaskLanes(m8: bv64, m4: bv64, m2: bv64, d: byte)
    requires m2 == (d << 8) | d && m4 == (m2 << 16) | m2 && m8 == (m4 << 32) | m4
    ensures Lanes(m8, d, d, d, d, d, d, d, d)
  {
  }

  lemma Xor0(w: bv64, m: bv64, b: bv64, d: bv64)
    requires w & 0xFF == b && m & 0xFF == d
    ensures (w ^ m) & 0xFF == b ^ d
  {
  }
  lemma Xor1(w: bv64, m: bv64, b: bv64, d: bv64)
    requires (w >> 8) & 0xFF == b && (m >> 8) & 0xFF == d
    ensures ((w ^ m) >> 8) & 0xFF == b ^ d
  {
  }
  lemma Xor2(w: bv64, m: bv64, b: bv64, d: bv64)
    requires (w >> 16) & 0xFF == b && (m >> 16) & 0xFF == d
    ensures ((w ^ m) >> 16) & 0xFF == b ^ d
  {
  }
  lemma Xor3(w: bv64, m: bv64, b: bv64, d: bv64)
    requires (w >> 24) & 0xFF == b && (m >> 24) & 0xFF == d
    ensures ((w ^ m) >> 24) & 0xFF == b ^ d
  {
  }
  lemma Xor4(w: bv64, m: bv64, b: bv64, d: bv64)
    requires (w >> 32) & 0xFF == b && (m >> 32) & 0xFF == d
    ensures ((w ^ m) >> 32) & 0xFF == b ^ d
  {
  }
  lemma Xor5(w: bv64, m: bv64, b: bv64, d: bv64)
    requires (w >> 40) & 0xFF == b && (m >> 40) & 0xFF == d
    ensures ((w ^ m) >> 40) & 0xFF == b ^ d
  {
  }
  lemma Xor6(w: bv64, m: bv64, b: bv64, d: bv64)
    requires (w >> 48) & 0xFF == b && (m >> 48) & 0xFF == d
    ensures ((w ^ m) >> 48) & 0xFF == b ^ d
  {
  }
  lemma Xor7(w: bv64, m: bv64, b: bv64, d: bv64)
    requires (w >> 56) & 0xFF == b && (m >> 56) & 0xFF == d
    ensures ((w ^ m) >> 56) & 0xFF == b ^ d
  {
  }

  lemma XorLanes(w: bv64, m: bv64, b0: bv64, b1: bv64, b2: bv64, b3: bv64, b4: bv64, b5: bv64, b6: bv64, b7: bv64,
        d: bv64)
    requires Lanes(w, b0, b1, b2, b3, b4, b5, b6, b7) && Lanes(m, d, d, d, d, d, d, d, d)
    ensures Lanes(w ^ m, b0 ^ d, b1 ^ d, b2 ^ d, b3 ^ d, b4 ^ d, b5 ^ d, b6 ^ d, b7 ^ d)
  {
    Xor0(w, m, b0, d); Xor1(w, m, b1, d); Xor2(w, m, b2, d); Xor3(w, m, b3, d); Xor4(w, m, b4, d); Xor5(w, m, b5, d);
    Xor6(w, m, b6, d); Xor7(w, m, b7, d);
  }

  lemma XorZero(b: byte, d: byte)
    ensures b ^ d == 0 <==> b == d
  {
  }

  /** The first position that holds `d`, or the length. */
  function FirstOf(s: seq<byte>, d: byte, k: nat): (f: nat)
    requires k <= |s|
    ensures k <= f <= |s| && (f < |s| ==> s[f] == d) && forall j :: k <= j < f ==> s[j] != d
    decreases |s| - k
  {
    if k == |s| || s[k] == d then k else FirstOf(s, d, k + 1)
  }

  function FirstTrue(e0: bool, e1: bool, e2: bool, e3: bool, e4: bool, e5: bool, e6: bool, e7: bool): nat {
    if e0 then 0 else if e1 then 1 else if e2 then 2 else if e3 then 3
    else if e4 then 4 else if e5 then 5 else if e6 then 6 else if e7 then 7 else 8
  }

  lemma FirstOfEight(s: seq<byte>, d: byte)
    requires |s| == 8
    ensures FirstOf(s, d, 0)
      == FirstTrue(s[0] == d, s[1] == d, s[2] == d, s[3] == d, s[4] == d, s[5] == d, s[6] == d, s[7] == d)
  {
    assert FirstOf(s, d, 6) == if s[6] == d then 6 else if s[7] == d then 7 else 8;
    assert FirstOf(s, d, 4) == if s[4] == d then 4 else if s[5] == d then 5 else FirstOf(s, d, 6);
    assert FirstOf(s, d, 2) == if s[2] == d then 2 else if s[3] == d then 3 else FirstOf(s, d, 4);
  }

  lemma LanesFirst(x: bv64, b0: byte, b1: byte, b2: byte, b3: byte, b4: byte, b5: byte, b6: byte, b7: byte, d: byte)
    requires Lanes(x, b0 ^ d, b1 ^ d, b2 ^ d, b3 ^ d, b4 ^ d, b5 ^ d, b6 ^ d, b7 ^ d)
    ensures FirstZero(x) == FirstTrue(b0 == d, b1 == d, b2 == d, b3 == d, b4 == d, b5 == d, b6 == d, b7 == d)
  {
    XorZero(b0, d); XorZero(b1, d); XorZero(b2, d); XorZero(b3, d); XorZero(b4, d); XorZero(b5, d); XorZero(b6, d);
    XorZero(b7, d);
  }

  // The first byte of the exclusive or that is zero is the first byte that matches.
  lemma XorFirst(w: bv64, m: bv64, b0: byte, b1: byte, b2: byte, b3: byte, b4: byte, b5: byte, b6: byte, b7: byte,
        d: byte)
    requires Lanes(w, b0, b1, b2, b3, b4, b5, b6, b7) && Lanes(m, d, d, d, d, d, d, d, d)
    ensures FirstZero(w ^ m) == FirstTrue(b0 == d, b1 == d, b2 == d, b3 == d, b4 == d, b5 == d, b6 == d, b7 == d)
  {
    XorLanes(w, m, b0, b1, b2, b3, b4, b5, b6, b7, d);
    LanesFirst(w ^ m, b0, b1, b2, b3, b4, b5, b6, b7, d);
  }

  lemma MarkedFirst(x: bv64)
    ensures Finds(DetectNull(x), FirstZero(x))
  {
    DetectsFirst(x);
    if DetectNull(x) != 0 { CtzByte(DetectNull(x)); }
  }

  predicate Finds(t: bv64, f: nat) {
    if f == 8 then t == 0 else t != 0 && Ctz(t) / 8 == f
  }

  lemma CharFirst(w: bv64, m: bv64, b0: byte, b1: byte, b2: byte, b3: byte, b4: byte, b5: byte, b6: byte, b7: byte,
        d: byte)
    requires Lanes(w, b0, b1, b2, b3, b4, b5, b6, b7) && Lanes(m, d, d, d, d, d, d, d, d)
    ensures Finds(DetectChar(w, m), FirstTrue(b0 == d, b1 == d, b2 == d, b3 == d, b4 == d, b5 == d, b6 == d, b7 == d))
  {
    XorFirst(w, m, b0, b1, b2, b3, b4, b5, b6, b7, d);
    MarkedFirst(w ^ m);
  }

  /** DETECT_CHAR on a word of the buffer is zero when no byte matches; otherwise its trailing
      zeros, divided by eight, give the first byte that does, whatever the borrow marks above. */
  lemma WordFirst(s: seq<byte>, d: byte)
    requires |s| == 8
    ensures Finds(DetectChar(Word(s), Mask(d)), FirstOf(s, d, 0))
  {
    WordLanes(Word(s), s[0], s[1], s[2], s[3], s[4], s[5], s[6], s[7]);
    MaskIsLanes(d);
    CharFirst(Word(s), Mask(d), s[0], s[1], s[2], s[3], s[4], s[5], s[6], s[7], d);
    FirstOfEight(s, d);
  }

  lemma MaskIsLanes(d: byte)
    ensures Lanes(Mask(d), d, d, d, d, d, d, d, d)
  {
    var m2: bv64 := (d << 8) | d;
    var m4: bv64 := (m2 << 16) | m2;
    MaskLanes((m4 << 32) | m4, m4, m2, d);
  }

  // ---------- memchr_opt ----------

  /** The search has come to offset `k` without a match. */
  predicate NotBefore(s: seq<byte>, d: byte, k: int) {
    0 <= k <= |s| && forall j :: 0 <= j < k ==> s[j] != d
  }

  // Where the first match in the next eight bytes is in the buffer.
  lemma FirstInBuffer(s: seq<byte>, d: byte, k: int)
    requires NotBefore(s, d, k) && k + 8 <= |s|
    ensures var f := FirstOf(s[k..k + 8], d, 0); if f == 8 then NotBefore(s, d, k + 8) else IsFirst(s, d, At(k + f))
  {
    var word := s[k..k + 8];
    var f := FirstOf(word, d, 0);
    forall j | k <= j < k + f ensures s[j] != d { assert s[j] == word[j - k]; }
    if f < 8 { assert s[k + f] == word[f]; }
  }

  /** One word either moves the search on by eight bytes or ends it. */
  lemma WordStep(s: seq<byte>, d: byte, k: int, tmp: bv64)
    requires NotBefore(s, d, k) && k + 8 <= |s| && Finds(tmp, FirstOf(s[k..k + 8], d, 0))
    ensures if tmp == 0 then NotBefore(s, d, k + 8) else IsFirst(s, d, At(k + Ctz(tmp) / 8))
  {
    FirstInBuffer(s, d, k);
  }

  // Lines 43-49; `done` says that `r` is what memchr_opt returns.
  method AlignBytes(s: seq<byte>, addr: nat, d: byte) returns (src: int, length: int, done: bool, r: Pointer)
    ensures if done then IsFirst(s, d, r) else NotBefore(s, d, src) && src + length == |s| && (addr + src) % 8 == 0
  {
    src, length := 0, |s|;
    while (addr + src) % 8 != 0
      invariant NotBefore(s, d, src) && src + length == |s|
      decreases length
    {
      if length == 0 {
        return src, length, true, Null;
      }
      length := length - 1;
      if s[src] == d {
        return src, length, true, At(src);
      }
      src := src + 1;
    }
    return src, length, false, Null;
  }

  // Lines 65-68; the loop runs once, for i = 32.
  method FillMask(d: byte) returns (mask: bv64)
    ensures mask == Mask(d)
  {
    var wide: bv64 := d;
    mask := (wide << 8) | wide;
    mask := (mask << 16) | mask;
    mask := (mask << 32) | mask;
  }

  // Lines 74-78 on the word at `asrc`.
  method TestWord(s: seq<byte>, d: byte, asrc: int, mask: bv64) returns (found: bool, shift: nat)
    requires NotBefore(s, d, asrc) && asrc + 8 <= |s| && mask == Mask(d)
    ensures if found then IsFirst(s, d, At(asrc + shift)) else NotBefore(s, d, asrc + 8)
  {
    WordFirst(s[asrc..asrc + 8], d);
    var tmp := DetectChar(Word(s[asrc..asrc + 8]), mask);
    WordStep(s, d, asrc, tmp);
    found, shift := tmp != 0, 0;
    if tmp != 0 { shift := Ctz(tmp) / 8; }
  }

  // Lines 63-89.
  method Words(s: seq<byte>, d: byte, src0: int, length0: int) returns (src: int, length: int, done: bool, r: Pointer)
    requires NotBefore(s, d, src0) && src0 + length0 == |s|
    ensures if done then IsFirst(s, d, r) else NotBefore(s, d, src) && src + length == |s| && length < 8
  {
    var asrc := src0;
    var mask := FillMask(d);
    length := length0;
    while length >= 8
      invariant NotBefore(s, d, asrc) && asrc + length == |s|
    {
      var found, shift := TestWord(s, d, asrc, mask);
      if found {
        return asrc, length, true, At(asrc + shift);
      }
      asrc := asrc + 8;
      length := length - 8;
    }
    return asrc, length, false, Null;
  }

  // Lines 93-98.
  method TailBytes(s: seq<byte>, d: byte, src0: int, length0: int) returns (r: Pointer)
    requires NotBefore(s, d, src0) && src0 + length0 == |s|
    ensures IsFirst(s, d, r)
  {
    var src, length := src0, length0;
    while length != 0
      invariant NotBefore(s, d, src) && src + length == |s|
    {
      length := length - 1;
      if s[src] == d {
        return At(src);
      }
      src := src + 1;
    }
    return Null;
  }

  /** memchr_opt on the bytes `s` at address `addr`: it finds the first occurrence, like
      memchr_origin, for every buffer, alignment, byte and length. */
  method MemchrOpt(s: seq<byte>, addr: nat, c: int) returns (r: Pointer)
    ensures IsFirst(s, Char(c), r)
  {
    var d := Char(c);
    var src, length, done, found := AlignBytes(s, addr, d);
    if done {
      return found;
    }
    if length >= 8 {
      src, length, done, found := Words(s, d, src, length);
      if done {
        return found;
      }
    }
    r := TailBytes(s, d, src, length);
  }
}
