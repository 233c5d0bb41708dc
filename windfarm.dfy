/** 1.cpp: the control centre for a set of wind farms is placed at the
    lower median of the x coordinates and the lower median of the y
    coordinates. The reported cost sums premium times Manhattan distance to
    the centre, but over the x and y vectors as `findMedian` left them, each
    sorted on its own, paired with the premiums in input order. Coordinates
    and costs are unbounded integers here. */
module WindFarm {

  function Abs(v: int): nat {
    if v < 0 then -v else v
  }

  /** `abs(x[i] - cx) + abs(y[i] - cy)`. */
  function Distance(x: int, y: int, cx: int, cy: int): nat {
    Abs(x - cx) + Abs(y - cy)
  }

  /** The premium-weighted distance of the first `n` farms to `(cx, cy)`. */
  function CostOf(x: seq<int>, y: seq<int>, premium: seq<int>, cx: int, cy: int, n: nat): int
    requires n <= |x| && n <= |y| && n <= |premium|
  {
    if n == 0 then 0
    else CostOf(x, y, premium, cx, cy, n - 1) + premium[n - 1] * Distance(x[n - 1], y[n - 1], cx, cy)
  }

  /** The cost of connecting every farm (one per entry of `x`) to `(cx, cy)`. */
  function Cost(x: seq<int>, y: seq<int>, premium: seq<int>, cx: int, cy: int): int
    requires |x| <= |y| && |x| <= |premium|
  {
    CostOf(x, y, premium, cx, cy, |x|)
  }

  /** `calculateCost`: the loop over the `x.size()` farms, adding each
      premium times its distance. */
  method CalculateCost(x: array<int>, y: array<int>, premium: array<int>, cx: int, cy: int) returns (total: int)
    requires x.Length <= y.Length && x.Length <= premium.Length
    ensures total == Cost(x[..], y[..], premium[..], cx, cy)
  {
    total := 0;
    var n := x.Length;
    for i := 0 to n
      invariant total == CostOf(x[..], y[..], premium[..], cx, cy, i)
    {
      var dist := Abs(x[i] - cx) + Abs(y[i] - cy);
      total := total + premium[i] * dist;
    }
  }

  /** With non-negative premiums the cost is non-negative, and it is zero when
      every farm sits at the centre. */
  lemma {:induction false} CostNonNegative(x: seq<int>, y: seq<int>, premium: seq<int>, cx: int, cy: int, n: nat)
    requires n <= |x| && n <= |y| && n <= |premium|
    requires forall i :: 0 <= i < n ==> premium[i] >= 0
    ensures CostOf(x, y, premium, cx, cy, n) >= 0
    ensures (forall i :: 0 <= i < n ==> x[i] == cx && y[i] == cy) ==> CostOf(x, y, premium, cx, cy, n) == 0
  {
    if n > 0 {
      CostNonNegative(x, y, premium, cx, cy, n - 1);
      assert premium[n - 1] * Distance(x[n - 1], y[n - 1], cx, cy) >= 0;
    }
  }

  predicate Sorted(s: seq<int>) {
    forall k, l :: 0 <= k < l < |s| ==> s[k] <= s[l]
  }

  /** Which side of a value an element is counted on. */
  datatype Side = AtMost | AtLeast

  predicate OnSide(v: int, m: int, side: Side) {
    match side
    case AtMost => v <= m
    case AtLeast => v >= m
  }

  /** How many elements of `s` lie on `side` of `m`. */
  function Count(s: seq<int>, m: int, side: Side): (c: nat)
    ensures c <= |s|
  {
    if s == [] then 0
    else Count(s[..|s| - 1], m, side) + (if OnSide(s[|s| - 1], m, side) then 1 else 0)
  }

  lemma {:induction false} CountAppend(a: seq<int>, b: seq<int>, m: int, side: Side)
    ensures Count(a + b, m, side) == Count(a, m, side) + Count(b, m, side)
  {
    if b == [] {
      assert a + b == a;
    } else {
      var b' := b[..|b| - 1];
      assert (a + b)[..|a + b| - 1] == a + b';
      CountAppend(a, b', m, side);
    }
  }

  /** Taking out the element at `k` removes exactly its own contribution. */
  lemma CountRemove(b: seq<int>, k: int, m: int, side: Side)
    requires 0 <= k < |b|
    ensures Count(b, m, side) == Count(b[..k] + b[k + 1..], m, side) + (if OnSide(b[k], m, side) then 1 else 0)
  {
    var front, back := b[..k], b[k + 1..];
    assert b == front + [b[k]] + back;
    CountAppend(front, [b[k]], m, side);
    CountAppend(front + [b[k]], back, m, side);
    CountAppend(front, back, m, side);
    assert [b[k]][..0] == [];
  }

  /** Taking the last element out of `a` and a copy of it out of `b` keeps
      them permutations of each other. */
  lemma RemoveMatching(a: seq<int>, b: seq<int>, k: int)
    requires multiset(a) == multiset(b) && a != []
    requires 0 <= k < |b| && b[k] == a[|a| - 1]
    ensures multiset(a[..|a| - 1]) == multiset(b[..k] + b[k + 1..])
  {
    var last := a[|a| - 1];
    assert a == a[..|a| - 1] + [last];
    assert b == b[..k] + [last] + b[k + 1..];
    calc {
      multiset(a[..|a| - 1]);
      multiset(a) - multiset{last};
      multiset(b) - multiset{last};
      multiset(b[..k]) + multiset(b[k + 1..]);
    }
  }

  /** Counting does not depend on the order of the elements. */
  lemma {:induction false} CountPermutation(a: seq<int>, b: seq<int>, m: int, side: Side)
    requires multiset(a) == multiset(b)
    ensures Count(a, m, side) == Count(b, m, side)
  {
    if a == [] {
      assert |b| == |multiset(b)| == 0;
    } else {
      var last := a[|a| - 1];
      var a' := a[..|a| - 1];
      assert last in multiset(b) by {
        assert a == a' + [last];
      }
      var k :| 0 <= k < |b| && b[k] == last;
      var b' := b[..k] + b[k + 1..];
      RemoveMatching(a, b, k);
      CountPermutation(a', b', m, side);
      CountRemove(b, k, m, side);
    }
  }

  /** Elements `lo..hi` all on the side give at least `hi - lo` of them. */
  lemma {:induction false} CountRange(s: seq<int>, m: int, side: Side, lo: nat, hi: nat)
    requires lo <= hi <= |s|
    requires forall k :: lo <= k < hi ==> OnSide(s[k], m, side)
    ensures Count(s, m, side) >= hi - lo
  {
    if hi < |s| {
      CountRange(s[..|s| - 1], m, side, lo, hi);
      assert forall k :: lo <= k < hi ==> s[..|s| - 1][k] == s[k];
    } else if lo < hi {
      CountRange(s[..|s| - 1], m, side, lo, hi - 1);
      assert forall k :: lo <= k < hi - 1 ==> s[..|s| - 1][k] == s[k];
    }
  }

  /** The element at `(n - 1) / 2` of a sorted sequence is a lower median: at
      least half the elements (rounded up) are at most it, and more than half
      (rounded down) are at least it. */
  lemma SortedMedianBounds(s: seq<int>)
    requires Sorted(s) && |s| >= 1
    ensures Count(s, s[(|s| - 1) / 2], AtMost) >= (|s| + 1) / 2
    ensures Count(s, s[(|s| - 1) / 2], AtLeast) >= |s| / 2 + 1
  {
    Halves(|s|);
    AtMostUpTo(s, (|s| - 1) / 2);
    AtLeastFrom(s, (|s| - 1) / 2);
  }

  /** In a sorted sequence, the elements up to and including index `h` are at most `s[h]`. */
  lemma AtMostUpTo(s: seq<int>, h: int)
    requires Sorted(s) && 0 <= h < |s|
    ensures Count(s, s[h], AtMost) >= h + 1
  {
    CountRange(s, s[h], AtMost, 0, h + 1);
  }

  /** In a sorted sequence, the elements from index `h` on are at least `s[h]`. */
  lemma AtLeastFrom(s: seq<int>, h: int)
    requires Sorted(s) && 0 <= h < |s|
    ensures Count(s, s[h], AtLeast) >= |s| - h
  {
    CountRange(s, s[h], AtLeast, h, |s|);
  }

  /** The index `(n - 1) / 2` splits `n` elements into `(n + 1) / 2` up to and
      including it and `n / 2 + 1` from it on. */
  lemma Halves(n: int)
    requires n >= 1
    ensures (n - 1) / 2 + 1 == (n + 1) / 2
    ensures n - (n - 1) / 2 == n / 2 + 1
  {
    if n % 2 == 0 {
      assert n == 2 * (n / 2);
    } else {
      assert n == 2 * (n / 2) + 1;
    }
  }

  /** `std::sort` on the vector: an in-place insertion sort. */
  method Sort(a: array<int>)
    modifies a
    ensures Sorted(a[..])
    ensures multiset(a[..]) == multiset(old(a[..]))
  {
    for i := 0 to a.Length
      invariant forall k, l :: 0 <= k < l < i ==> a[k] <= a[l]
      invariant multiset(a[..]) == multiset(old(a[..]))
    {
      var j := i;
      while j > 0 && a[j - 1] > a[j]
        invariant 0 <= j <= i
        invariant forall k, l :: 0 <= k < l <= i && k != j && l != j ==> a[k] <= a[l]
        invariant forall l :: j < l <= i ==> a[j] < a[l]
        invariant multiset(a[..]) == multiset(old(a[..]))
      {
        Swap(a, j - 1, j);
        j := j - 1;
      }
    }
  }

  /** Exchanges two elements. */
  method Swap(a: array<int>, i: int, j: int)
    requires 0 <= i < a.Length && 0 <= j < a.Length
    modifies a
    ensures a[..] == old(a[..])[i := old(a[j])][j := old(a[i])]
    ensures multiset(a[..]) == multiset(old(a[..]))
  {
    a[i], a[j] := a[j], a[i];
  }

  /** `findMedian`: sorts the vector in place and returns the lower median,
      `v[n / 2 - 1]` for even `n` and `v[n / 2]` for odd `n`. An empty vector
      would be read out of bounds. */
  method FindMedian(v: array<int>) returns (m: int)
    requires v.Length >= 1
    modifies v
    ensures Sorted(v[..]) && multiset(v[..]) == multiset(old(v[..]))
    ensures m == v[(v.Length - 1) / 2]
    ensures Count(old(v[..]), m, AtMost) >= (v.Length + 1) / 2
    ensures Count(old(v[..]), m, AtLeast) >= v.Length / 2 + 1
  {
    var n := v.Length;
    Sort(v);
    if n % 2 == 0 {
      m := v[n / 2 - 1];
    } else {
      m := v[n / 2];
    }
    SortedMedianBounds(v[..]);
    CountPermutation(v[..], old(v[..]), m, AtMost);
    CountPermutation(v[..], old(v[..]), m, AtLeast);
  }

  /** `main` after reading the input: both coordinate vectors are sorted in
      place by `findMedian`, and the cost is then computed from the sorted
      coordinates and the premiums in input order. */
  method ConnectionCost(x: array<int>, y: array<int>, premium: array<int>) returns (cx: int, cy: int, cost: int)
    requires x.Length == y.Length == premium.Length >= 1
    requires x != y && premium != x && premium != y
    modifies x, y
    ensures Sorted(x[..]) && multiset(x[..]) == multiset(old(x[..]))
    ensures Sorted(y[..]) && multiset(y[..]) == multiset(old(y[..]))
    ensures Count(old(x[..]), cx, AtMost) >= (x.Length + 1) / 2 && Count(old(x[..]), cx, AtLeast) >= x.Length / 2 + 1
    ensures Count(old(y[..]), cy, AtMost) >= (y.Length + 1) / 2 && Count(old(y[..]), cy, AtLeast) >= y.Length / 2 + 1
    ensures cx == x[(x.Length - 1) / 2] && cy == y[(y.Length - 1) / 2]
    ensures cost == Cost(x[..], y[..], premium[..], cx, cy)
  {
    cx := FindMedian(x);
    cy := FindMedian(y);
    cost := CalculateCost(x, y, premium, cx, cy);
  }

  /** Two farms: (10, 0) with premium 1 and (0, 0) with premium 5. Sorting
      `x` alone moves 10 next to premium 5, so `main` reports 50 where the
      farms' own cost to the same centre (0, 0) is 10. */
  lemma PairingCounterexample(x: seq<int>, sortedX: seq<int>, y: seq<int>, premium: seq<int>)
    requires x == [10, 0] && sortedX == [0, 10] && y == [0, 0] && premium == [1, 5]
    ensures Sorted(sortedX) && multiset(sortedX) == multiset(x)
    ensures Cost(sortedX, y, premium, 0, 0) == 50
    ensures Cost(x, y, premium, 0, 0) == 10
  {
    assert Sorted(sortedX) && multiset(sortedX) == multiset(x) by {
      assert sortedX == [x[1], x[0]];
    }
    assert CostOf(sortedX, y, premium, 0, 0, 1) == 0 by {
      assert premium[0] * Distance(sortedX[0], y[0], 0, 0) == 1 * 0;
    }
    assert premium[1] * Distance(sortedX[1], y[1], 0, 0) == 5 * 10;
    assert CostOf(x, y, premium, 0, 0, 1) == 10 by {
      assert premium[0] * Distance(x[0], y[0], 0, 0) == 1 * 10;
    }
    assert premium[1] * Distance(x[1], y[1], 0, 0) == 5 * 0;
  }

  /** `main` as evidently intended: the medians are taken on copies, so the
      cost pairs every farm's own coordinates with its own premium. */
  method ConnectionCostIntended(x: array<int>, y: array<int>, premium: array<int>) returns (cx: int, cy: int, cost: int)
    requires x.Length == y.Length == premium.Length >= 1
    ensures Count(x[..], cx, AtMost) >= (x.Length + 1) / 2 && Count(x[..], cx, AtLeast) >= x.Length / 2 + 1
    ensures Count(y[..], cy, AtMost) >= (y.Length + 1) / 2 && Count(y[..], cy, AtLeast) >= y.Length / 2 + 1
    ensures cost == Cost(x[..], y[..], premium[..], cx, cy)
  {
    var xs := new int[x.Length](i requires 0 <= i < x.Length reads x => x[i]);
    var ys := new int[y.Length](i requires 0 <= i < y.Length reads y => y[i]);
    assert xs[..] == x[..] && ys[..] == y[..];
    cx := FindMedian(xs);
    cy := FindMedian(ys);
    cost := CalculateCost(x, y, premium, cx, cy);
  }
}
