/** longestConsecutive, linux-2022/quiz1/problem4.c:26-108: the longest run of consecutive
    integers, by taking whole runs out of a hash table. */
module LongestRun {
  const INT_MIN: int := -0x8000_0000
  const INT_MAX: int := 0x7FFF_FFFF

  // ---------- runs in a set ----------

  /** The `m` integers from `a` on are all in `s`. */
  predicate Run(s: set<int>, a: int, m: int) {
    forall k :: a <= k < a + m ==> k in s
  }

  /** `m` is the length of the longest run in `s`. */
  ghost predicate Longest(s: set<int>, m: int) {
    m >= 0 && (exists a :: Run(s, a, m)) && forall a, k :: Run(s, a, k) ==> k <= m
  }

  /** `r` is a union of whole maximal runs of `s`. */
  ghost predicate WholeRuns(s: set<int>, r: set<int>) {
    r <= s && forall x :: x in r ==> (x + 1 in s ==> x + 1 in r) && (x - 1 in s ==> x - 1 in r)
  }

  function Between(r: set<int>, left: int, right: int): set<int> {
    set x | x in r && left < x < right
  }

  // From an element of `r` every integer down to `left` and up to `right` is in `r`, and the
  // two ends are in neither.
  predicate Spans(r: set<int>, left: int, right: int) {
    left + 1 < right && Run(r, left + 1, right - left - 1)
  }

  lemma EndsOutside(s: set<int>, r: set<int>, left: int, right: int)
    requires WholeRuns(s, r) && Spans(r, left, right) && left !in r && right !in r
    ensures left !in s && right !in s
  {
    assert left + 1 in r && right - 1 in r;
    assert left in s ==> left in r by { assert (left + 1) - 1 == left; }
    assert right in s ==> right in r by { assert (right - 1) + 1 == right; }
  }

  /** Taking out the run between two ends that are not in `s` leaves whole runs. */
  lemma StaysWhole(s: set<int>, r: set<int>, left: int, right: int)
    requires WholeRuns(s, r) && left !in s && right !in s
    ensures WholeRuns(s, r - Between(r, left, right))
  {
  }

  // The runs that were taken out so far are at most `length` long.
  ghost predicate Bounded(s: set<int>, r: set<int>, length: int) {
    forall a, m :: Run(s, a, m) && m > 0 && a !in r ==> m <= length
  }

  lemma Stops(s: set<int>, a: int, m: int, right: int)
    requires Run(s, a, m) && right !in s && a < right
    ensures a + m <= right
  {
  }

  lemma StaysBounded(s: set<int>, r: set<int>, left: int, right: int, length: int)
    requires Bounded(s, r, length) && right !in s && r <= s && left < right
    ensures Bounded(s, r - Between(r, left, right), if right - left - 1 > length then right - left - 1 else length)
  {
    var r', length' := r - Between(r, left, right), if right - left - 1 > length then right - left - 1 else length;
    forall a, m | Run(s, a, m) && m > 0 && a !in r' ensures m <= length' {
      if a in r {
        assert left < a < right;
        Stops(s, a, m, right);
      }
    }
  }

  lemma AllTaken(s: set<int>, length: int, a: int)
    requires Bounded(s, {}, length) && length >= 0 && Run(s, a, length)
    ensures Longest(s, length)
  {
    forall b, k | Run(s, b, k) ensures k <= length {
      if k > 0 { assert b !in {}; }
    }
  }

  // ---------- the hash table ----------

  function Hash(num: int, size: nat): int
    requires size > 0
  {
    if num < 0 then -num % size else num % size
  }

  /** Bucket `b` holds the elements of `s` with that hash, each once. */
  ghost predicate Bucket(heads: seq<seq<int>>, s: set<int>, b: int)
    requires 0 <= b < |heads|
  {
    && (forall i, j :: 0 <= i < j < |heads[b]| ==> heads[b][i] != heads[b][j])
    && forall x :: x in heads[b] <==> x in s && Hash(x, |heads|) == b
  }

  ghost predicate Table(heads: seq<seq<int>>, s: set<int>) {
    |heads| > 0 && forall b {:trigger Bucket(heads, s, b)} :: 0 <= b < |heads| ==> Bucket(heads, s, b)
  }

  function Without(c: seq<int>, k: int): seq<int>
    requires 0 <= k < |c|
  {
    c[..k] + c[k + 1..]
  }

  lemma WithoutMembers(c: seq<int>, k: int)
    requires 0 <= k < |c| && forall i, j :: 0 <= i < j < |c| ==> c[i] != c[j]
    ensures forall x :: x in Without(c, k) <==> x in c && x != c[k]
    ensures forall i, j :: 0 <= i < j < |c| - 1 ==> Without(c, k)[i] != Without(c, k)[j]
  {
    var t := Without(c, k);
    forall i | 0 <= i < |t| ensures t[i] == c[if i < k then i else i + 1] {}
    forall i | 0 <= i < |c| && i != k ensures c[i] in t { assert t[if i < k then i else i - 1] == c[i]; }
  }

  lemma AddedTable(heads: seq<seq<int>>, s: set<int>, num: int)
    requires Table(heads, s) && num !in s
    ensures var b := Hash(num, |heads|); Table(heads[b := [num] + heads[b]], s + {num})
  {
    var b := Hash(num, |heads|);
    var heads' := heads[b := [num] + heads[b]];
    forall d | 0 <= d < |heads| ensures Bucket(heads', s + {num}, d) { assert Bucket(heads, s, d); }
  }

  lemma RemovedTable(heads: seq<seq<int>>, s: set<int>, num: int, k: int)
    requires Table(heads, s) && num in s && 0 <= k < |heads[Hash(num, |heads|)]| && heads[Hash(num, |heads|)][k] == num
    ensures var b := Hash(num, |heads|); Table(heads[b := Without(heads[b], k)], s - {num})
  {
    var b := Hash(num, |heads|);
    var heads' := heads[b := Without(heads[b], k)];
    forall d | 0 <= d < |heads| ensures Bucket(heads', s - {num}, d) {
      assert Bucket(heads, s, d);
      if d == b { WithoutMembers(heads[b], k); }
    }
  }

  // ---------- find, problem4.c:26-39 ----------

  /** The place of `num` in its bucket, or -1 if it is not there; the source returns the node or
      NULL. */
  method Find(num: int, heads: array<seq<int>>, ghost s: set<int>) returns (k: int)
    requires Table(heads[..], s) && INT_MIN < num <= INT_MAX
    ensures k == -1 <==> num !in s
    ensures num in s ==> 0 <= k < |heads[Hash(num, heads.Length)]| && heads[Hash(num, heads.Length)][k] == num
  {
    var hash := Hash(num, heads.Length);
    assert Bucket(heads[..], s, hash);
    k := 0;
    while k < |heads[hash]|
      invariant 0 <= k <= |heads[hash]| && forall j :: 0 <= j < k ==> heads[hash][j] != num
    {
      if heads[hash][k] == num {
        return;
      }
      k := k + 1;
    }
    return -1;
  }

  // find, then list_del and free when it finds.
  method Take(num: int, heads: array<seq<int>>, ghost s: set<int>) returns (found: bool)
    requires Table(heads[..], s) && INT_MIN < num <= INT_MAX
    modifies heads
    ensures found == (num in s) && Table(heads[..], s - {num})
  {
    var k := Find(num, heads, s);
    found := k != -1;
    if found {
      var hash := Hash(num, heads.Length);
      RemovedTable(heads[..], s, num, k);
      heads[hash] := Without(heads[hash], k);
    } else {
      assert s - {num} == s;
    }
  }

  // ---------- longestConsecutive, problem4.c:53-108 ----------

  function Elements(nums: seq<int>): set<int> {
    set x | x in nums
  }

  // Lines 58-72.
  method BuildTable(nums: seq<int>) returns (heads: array<seq<int>>)
    requires |nums| > 0 && forall i :: 0 <= i < |nums| ==> INT_MIN < nums[i] <= INT_MAX
    ensures Table(heads[..], Elements(nums)) && fresh(heads)
  {
    heads := new seq<int>[|nums|](_ => []);
    forall b | 0 <= b < |nums| ensures Bucket(heads[..], Elements(nums[..0]), b) {}
    var i := 0;
    while i < |nums|
      invariant 0 <= i <= |nums| && heads.Length == |nums| && Table(heads[..], Elements(nums[..i])) && fresh(heads)
    {
      ghost var s := Elements(nums[..i]);
      assert Elements(nums[..i + 1]) == s + {nums[i]};
      var k := Find(nums[i], heads, s);
      if k == -1 {
        var hash := Hash(nums[i], heads.Length);
        AddedTable(heads[..], s, nums[i]);
        heads[hash] := [nums[i]] + heads[hash];
      } else {
        assert s + {nums[i]} == s;
      }
      i := i + 1;
    }
    assert nums[..|nums|] == nums;
  }

  predicate InRange(s: set<int>) {
    forall x :: x in s ==> INT_MIN + 1 < x < INT_MAX
  }

  lemma TakeOne(r: set<int>, left: int, right: int)
    requires left < right
    ensures left in r ==> r - Between(r, left, right) - {left} == r - Between(r, left - 1, right)
    ensures right in r ==> r - Between(r, left, right) - {right} == r - Between(r, left, right + 1)
    ensures left !in r ==> r - Between(r, left, right) - {left} == r - Between(r, left, right)
    ensures right !in r ==> r - Between(r, left, right) - {right} == r - Between(r, left, right)
  {
  }

  // Lines 89-94.
  method TakeDown(num: int, heads: array<seq<int>>, ghost r: set<int>, len0: int) returns (len: int, ghost left: int)
    requires Table(heads[..], r - {num}) && num in r && InRange(r)
    modifies heads
    ensures left < num && left !in r && Spans(r, left, num + 1) && len == len0 + (num - 1 - left)
    ensures Table(heads[..], r - Between(r, left, num + 1))
  {
    var l := num;
    len := len0;
    assert r - {num} == r - Between(r, num - 1, num + 1);
    while true
      invariant l <= num && Run(r, l, num - l + 1) && len == len0 + (num - l)
      invariant Table(heads[..], r - Between(r, l - 1, num + 1))
      decreases l - INT_MIN
    {
      assert l in r;
      l := l - 1;
      TakeOne(r, l, num + 1);
      var found := Take(l, heads, r - Between(r, l, num + 1));
      if !found {
        break;
      }
      len := len + 1;
    }
    left := l;
  }

  // Lines 96-101.
  method TakeUp(num: int, heads: array<seq<int>>, ghost r: set<int>, ghost left: int, len0: int)
    returns (len: int, ghost right: int)
    requires Table(heads[..], r - Between(r, left, num + 1)) && Spans(r, left, num + 1) && InRange(r)
    modifies heads
    ensures num < right && right !in r && Spans(r, left, right) && len == len0 + (right - 1 - num)
    ensures Table(heads[..], r - Between(r, left, right))
  {
    var h := num;
    len := len0;
    while true
      invariant num <= h && Spans(r, left, h + 1) && len == len0 + (h - num)
      invariant Table(heads[..], r - Between(r, left, h + 1))
      decreases INT_MAX - h
    {
      assert h in r;
      h := h + 1;
      TakeOne(r, left, h);
      var found := Take(h, heads, r - Between(r, left, h));
      if !found {
        break;
      }
      len := len + 1;
    }
    right := h;
  }

  // What is left of the set, the longest run taken so far, and where one starts.
  ghost predicate Progress(s: set<int>, r: set<int>, length: int, a: int) {
    WholeRuns(s, r) && Bounded(s, r, length) && length >= 0 && Run(s, a, length)
  }

  lemma RunTaken(s: set<int>, r: set<int>, length: int, a: int, left: int, right: int) returns (a': int)
    requires Progress(s, r, length, a) && Spans(r, left, right) && left !in r && right !in r
    ensures Progress(s, r - Between(r, left, right), if right - left - 1 > length then right - left - 1 else length, a')
  {
    EndsOutside(s, r, left, right);
    StaysWhole(s, r, left, right);
    StaysBounded(s, r, left, right, length);
    a' := if right - left - 1 > length then left + 1 else a;
  }

  /** Lines 76-104 for one element. */
  method TakeRun(num: int, heads: array<seq<int>>, length0: int, ghost s: set<int>, ghost r: set<int>, ghost a: int)
    returns (length: int, ghost r': set<int>, ghost a': int)
    requires Table(heads[..], r) && Progress(s, r, length0, a) && InRange(s) && num in s
    modifies heads
    ensures Table(heads[..], r') && Progress(s, r', length, a') && r' <= r - {num}
  {
    length, r', a' := length0, r, a;
    var found := Take(num, heads, r);
    if found {
      var len: int;
      ghost var left, right: int;
      len, left := TakeDown(num, heads, r, 1);
      len, right := TakeUp(num, heads, r, left, len);
      a' := RunTaken(s, r, length, a, left, right);
      r' := r - Between(r, left, right);
      length := if len > length then len else length;
    } else {
      assert r - {num} == r;
    }
  }

  /** longestConsecutive returns the length of the longest run of consecutive integers among
      `nums`. */
  method LongestConsecutive(nums: seq<int>) returns (length: int)
    requires InRange(Elements(nums))
    ensures Longest(Elements(nums), length)
  {
    length := 0;
    ghost var s, a := Elements(nums), 0;
    if |nums| == 0 {
      assert Bounded(s, s, 0) && s == {};
      AllTaken(s, 0, 0);
      return;
    }
    forall i | 0 <= i < |nums| ensures INT_MIN < nums[i] <= INT_MAX { assert nums[i] in s; }
    var heads := BuildTable(nums);
    ghost var r := s;
    var i := 0;
    while i < |nums|
      invariant 0 <= i <= |nums| && Table(heads[..], r) && Progress(s, r, length, a)
      invariant forall j :: 0 <= j < i ==> nums[j] !in r
    {
      assert nums[i] in s;
      length, r, a := TakeRun(nums[i], heads, length, s, r, a);
      i := i + 1;
    }
    assert r == {};
    AllTaken(s, length, a);
  }
}
