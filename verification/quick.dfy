/**
 * Quick sort as the visualiser runs it: Lomuto partitioning around the last
 * stick of the range, then recursion on both sides of the pivot.
 */
module Quick {
  import opened Sticks

  /** Every stick of `[lo, hi)` has data below `v`. */
  predicate BelowBetween(b: seq<Stick>, lo: int, hi: int, v: int)
    requires 0 <= lo <= hi <= |b|
  {
    forall k :: lo <= k < hi ==> b[k].data < v
  }

  /** Every stick of `[lo, hi)` has data at least `v`. */
  predicate AtLeastBetween(b: seq<Stick>, lo: int, hi: int, v: int)
    requires 0 <= lo <= hi <= |b|
  {
    forall k :: lo <= k < hi ==> b[k].data >= v
  }

  /** How many sticks of `s` have data strictly below `v`. */
  function CountBelow(s: seq<Stick>, v: int): nat
  {
    if s == [] then 0 else (if s[0].data < v then 1 else 0) + CountBelow(s[1..], v)
  }

  lemma {:induction false} CountBelowAppend(s: seq<Stick>, t: seq<Stick>, v: int)
    ensures CountBelow(s + t, v) == CountBelow(s, v) + CountBelow(t, v)
  {
    if s != [] {
      assert (s + t)[1..] == s[1..] + t;
      CountBelowAppend(s[1..], t, v);
    } else {
      assert s + t == t;
    }
  }

  /** The count depends only on which sticks there are, not on their order. */
  lemma {:induction false} CountBelowPermutation(s: seq<Stick>, t: seq<Stick>, v: int)
    requires multiset(s) == multiset(t)
    ensures CountBelow(s, v) == CountBelow(t, v)
    decreases |s|
  {
    if s != [] {
      var x := s[0];
      assert x in multiset(t);
      var k :| 0 <= k < |t| && t[k] == x;
      assert s == [x] + s[1..];
      assert multiset(s[1..] + [x]) == multiset(t);
      PermutationRemove(s[1..], x, t, k);
      CountBelowPermutation(s[1..], t[..k] + t[k + 1..], v);
      assert t == t[..k] + ([x] + t[k + 1..]);
      CountBelowAppend(t[..k], [x] + t[k + 1..], v);
      CountBelowAppend([x], t[k + 1..], v);
      CountBelowAppend(t[..k], t[k + 1..], v);
    } else {
      assert t == [];
    }
  }

  lemma {:induction false} CountAllBelow(s: seq<Stick>, v: int)
    requires forall k :: 0 <= k < |s| ==> s[k].data < v
    ensures CountBelow(s, v) == |s|
  {
    if s != [] {
      CountAllBelow(s[1..], v);
    }
  }

  lemma {:induction false} CountNoneBelow(s: seq<Stick>, v: int)
    requires forall k :: 0 <= k < |s| ==> s[k].data >= v
    ensures CountBelow(s, v) == 0
  {
    if s != [] {
      CountNoneBelow(s[1..], v);
    }
  }

  /** After partitioning, the pivot's index is its rank: `left` plus the
      number of other sticks of the range that are below it. */
  lemma PivotRank(a: seq<Stick>, b: seq<Stick>, left: int, p: int, right: int)
    requires 0 <= left <= p <= right < |a| == |b|
    requires multiset(b[left..right + 1]) == multiset(a[left..right + 1])
    requires b[p] == a[right]
    requires BelowBetween(b, left, p, a[right].data)
    requires AtLeastBetween(b, p + 1, right + 1, a[right].data)
    ensures p - left == CountBelow(a[left..right], a[right].data)
  {
    var v := a[right].data;
    CountBelowPermutation(b[left..right + 1], a[left..right + 1], v);
    assert b[left..right + 1] == b[left..p] + b[p..right + 1];
    CountBelowAppend(b[left..p], b[p..right + 1], v);
    CountAllBelow(b[left..p], v);
    CountNoneBelow(b[p..right + 1], v);
    assert a[left..right + 1] == a[left..right] + [a[right]];
    CountBelowAppend(a[left..right], [a[right]], v);
  }

  /** The Lomuto loop's state after scanning `[left, j)`: the sticks below
      the pivot sit in `[left, i]`, the others in `(i, j)`, and nothing
      outside the scanned range has moved. */
  ghost predicate Scanned(a: seq<Stick>, b: seq<Stick>, left: int, right: int, i: int, j: int)
  {
    && 0 <= left <= j <= right < |a| == |b| && left - 1 <= i < j
    && multiset(b) == multiset(a)
    && (forall k :: 0 <= k < left || right <= k < |a| ==> b[k] == a[k])
    && BelowBetween(b, left, i + 1, a[right].data)
    && AtLeastBetween(b, i + 1, j, a[right].data)
  }

  /** One round of the Lomuto loop: compare `b[j]` with the pivot and swap it
      forward when it is strictly smaller. */
  method PartitionStep(a: seq<Stick>, b: seq<Stick>, left: int, right: int, i: int, j: int, c: Counters)
    returns (b': seq<Stick>, i': int, c': Counters)
    requires Scanned(a, b, left, right, i, j) && j < right
    ensures Scanned(a, b', left, right, i', j + 1)
    ensures i' == i || i' == i + 1
    ensures c'.comparisons == c.comparisons + 1
    ensures c'.accesses == c.accesses + 2 + 3 * (i' - i)
  {
    b', i', c' := b, i, Counters(c.comparisons + 1, c.accesses + 2);
    if Less(b[j], a[right]) {
      i' := i + 1;
      b' := b[i' := b[j]][j := b[i']];
      c' := Counters(c'.comparisons, c'.accesses + 3);
    }
  }

  /** The closing swap of `partition`: the pivot, still at `right`, trades
      places with the first stick that is not below it. */
  method PlacePivot(a: seq<Stick>, b: seq<Stick>, left: int, right: int, i: int)
    returns (b': seq<Stick>, p: int)
    requires Scanned(a, b, left, right, i, right)
    ensures p == i + 1 && |b'| == |a| && left <= p <= right
    ensures b'[..left] == a[..left] && b'[right + 1..] == a[right + 1..]
    ensures multiset(b') == multiset(a)
    ensures b'[p] == a[right]
    ensures BelowBetween(b', left, p, a[right].data)
    ensures AtLeastBetween(b', p + 1, right + 1, a[right].data)
  {
    p := i + 1;
    b' := b[p := b[right]][right := b[p]];
    assert b'[..left] == a[..left] && b'[right + 1..] == a[right + 1..];
  }

  /** `partition(left, right)`: with the last stick of the range as pivot,
      move every stick whose data is strictly below the pivot's to the front
      (swapping it forward, three accesses) and finally swap the pivot just
      behind them (three more). Each of the `right - left` comparisons costs
      two accesses. */
  method Partition(a: seq<Stick>, left: int, right: int, c: Counters)
    returns (b: seq<Stick>, p: int, c': Counters)
    requires 0 <= left <= right < |a|
    ensures |b| == |a| && left <= p <= right
    ensures b[..left] == a[..left] && b[right + 1..] == a[right + 1..]
    ensures multiset(b) == multiset(a)
    ensures b[p] == a[right]
    ensures BelowBetween(b, left, p, a[right].data)
    ensures AtLeastBetween(b, p + 1, right + 1, a[right].data)
    ensures p - left == CountBelow(a[left..right], a[right].data)
    ensures c'.comparisons == c.comparisons + (right - left)
    ensures c'.accesses == c.accesses + 2 * (right - left) + 3 * (p - left) + 3
  {
    b, c' := a, c;
    var i := left - 1;
    var j := left;
    while j < right
      invariant Scanned(a, b, left, right, i, j)
      invariant c'.comparisons == c.comparisons + (j - left)
      invariant c'.accesses == c.accesses + 2 * (j - left) + 3 * (i + 1 - left)
      decreases right - j
    {
      b, i, c' := PartitionStep(a, b, left, right, i, j, c');
      j := j + 1;
    }
    b, p := PlacePivot(a, b, left, right, i);
    c' := Counters(c'.comparisons, c'.accesses + 3);
    RangePermutation(a, b, left, right + 1);
    PivotRank(a, b, left, p, right);
  }

  /** A sorted run below the pivot, the pivot, and a sorted run of sticks at
      least the pivot make one sorted range. */
  lemma SortedAroundPivot(b: seq<Stick>, left: int, p: int, right: int)
    requires 0 <= left <= p <= right < |b|
    requires SortedBetween(b, left, p) && SortedBetween(b, p + 1, right + 1)
    requires BelowBetween(b, left, p, b[p].data)
    requires AtLeastBetween(b, p + 1, right + 1, b[p].data)
    ensures SortedBetween(b, left, right + 1)
  {
  }

  /** Rearranging a range keeps "every stick is below `v`". */
  lemma BelowPermuted(a: seq<Stick>, b: seq<Stick>, lo: int, hi: int, v: int)
    requires 0 <= lo <= hi <= |a| == |b|
    requires multiset(a[lo..hi]) == multiset(b[lo..hi])
    requires BelowBetween(a, lo, hi, v)
    ensures BelowBetween(b, lo, hi, v)
  {
    forall k | lo <= k < hi
      ensures b[k].data < v
    {
      assert b[k] == b[lo..hi][k - lo];
      assert b[k] in multiset(a[lo..hi]);
      var m :| 0 <= m < hi - lo && a[lo..hi][m] == b[k];
      assert a[lo + m] == b[k];
    }
  }

  /** Rearranging a range keeps "every stick is at least `v`". */
  lemma AtLeastPermuted(a: seq<Stick>, b: seq<Stick>, lo: int, hi: int, v: int)
    requires 0 <= lo <= hi <= |a| == |b|
    requires multiset(a[lo..hi]) == multiset(b[lo..hi])
    requires AtLeastBetween(a, lo, hi, v)
    ensures AtLeastBetween(b, lo, hi, v)
  {
    forall k | lo <= k < hi
      ensures b[k].data >= v
    {
      assert b[k] == b[lo..hi][k - lo];
      assert b[k] in multiset(a[lo..hi]);
      var m :| 0 <= m < hi - lo && a[lo..hi][m] == b[k];
      assert a[lo + m] == b[k];
    }
  }

  /** Two edits that each keep everything outside their own range keep
      everything outside an enclosing range. */
  lemma FrameWiden(a: seq<Stick>, b: seq<Stick>, lo: int, hi: int, lo': int, hi': int)
    requires 0 <= lo' <= lo <= hi <= hi' <= |a| == |b|
    requires b[..lo] == a[..lo] && b[hi..] == a[hi..]
    ensures b[..lo'] == a[..lo'] && b[hi'..] == a[hi'..]
  {
    assert b[..lo'] == b[..lo][..lo'];
    assert a[..lo'] == a[..lo][..lo'];
    assert b[hi'..] == b[hi..][hi' - hi..];
    assert a[hi'..] == a[hi..][hi' - hi..];
  }

  /** Sorting the two sides of a placed pivot (each by a call that keeps
      everything outside its own side) sorts the whole range. */
  lemma QuickAssemble(b1: seq<Stick>, b2: seq<Stick>, b: seq<Stick>, left: int, p: int, right: int)
    requires 0 <= left <= p <= right < |b1| == |b2| == |b|
    requires BelowBetween(b1, left, p, b1[p].data)
    requires AtLeastBetween(b1, p + 1, right + 1, b1[p].data)
    requires b2[..left] == b1[..left] && b2[p..] == b1[p..]
    requires multiset(b2) == multiset(b1) && SortedBetween(b2, left, p)
    requires b[..p + 1] == b2[..p + 1] && b[right + 1..] == b2[right + 1..]
    requires multiset(b) == multiset(b2) && SortedBetween(b, p + 1, right + 1)
    ensures b[..left] == b1[..left] && b[right + 1..] == b1[right + 1..]
    ensures SortedBetween(b, left, right + 1)
  {
    FrameWiden(b2, b, p + 1, right + 1, left, right + 1);
    FrameWiden(b1, b2, left, p, left, right + 1);
    assert b[p] == b2[p] == b1[p] by {
      assert b[p] == b[..p + 1][p];
      assert b2[p] == b2[..p + 1][p];
      assert b2[p] == b2[p..][0];
    }
    RangePermutation(b1, b2, left, p);
    BelowPermuted(b1, b2, left, p, b1[p].data);
    assert forall k :: left <= k < p ==> b[k] == b2[k] by {
      forall k | left <= k < p ensures b[k] == b2[k] {
        assert b[k] == b[..p + 1][k];
      }
    }
    assert forall k :: p + 1 <= k <= right ==> b2[k] == b1[k] by {
      forall k | p + 1 <= k <= right ensures b2[k] == b1[k] {
        assert b2[k] == b2[p..][k - p];
      }
    }
    RangePermutation(b2, b, p + 1, right + 1);
    AtLeastPermuted(b2, b, p + 1, right + 1, b1[p].data);
    SortedAroundPivot(b, left, p, right);
  }

  /** The comparisons of quick sort stay within the quadratic worst case:
      a partition of `n` sticks costs `n - 1` and leaves two parts whose
      sizes add up to `n - 1`. */
  lemma QuickComparisons(n: int, n1: int, n2: int, k: int)
    requires n1 >= 0 && n2 >= 0 && n == n1 + n2 + 1
    requires 2 * k <= n1 * (n1 - 1) + n2 * (n2 - 1)
    ensures 2 * ((n - 1) + k) <= n * (n - 1)
  {
    assert n * (n - 1) == n1 * (n1 - 1) + n2 * (n2 - 1) + 2 * (n - 1) + 2 * n1 * n2;
  }

  /** The two recursive calls of `quickSort`: once the pivot sits at `p`
      with smaller sticks before it and the others after it, sorting both
      sides sorts the range `[left, right]`. */
  method SortAroundPivot(b1: seq<Stick>, left: int, p: int, right: int, c: Counters)
    returns (b: seq<Stick>, c': Counters)
    requires 0 <= left <= p <= right < |b1|
    requires BelowBetween(b1, left, p, b1[p].data)
    requires AtLeastBetween(b1, p + 1, right + 1, b1[p].data)
    decreases right - left, 0
    ensures |b| == |b1| && multiset(b) == multiset(b1)
    ensures b[..left] == b1[..left] && b[right + 1..] == b1[right + 1..]
    ensures SortedBetween(b, left, right + 1)
    ensures c.comparisons <= c'.comparisons
    ensures 2 * (c'.comparisons - c.comparisons) <= (p - left) * (p - left - 1) + (right - p) * (right - p - 1)
    ensures 2 * (c'.comparisons - c.comparisons) <= c'.accesses - c.accesses
    ensures c'.accesses - c.accesses <= 5 * (c'.comparisons - c.comparisons) + 3 * (right - left)
  {
    var b2, c2 := QuickSort(b1, left, p - 1, c);
    b, c' := QuickSort(b2, p + 1, right, c2);
    QuickAssemble(b1, b2, b, left, p, right);
  }

  /** `quickSort(left, right)`: partition a range of at least two sticks and
      sort both sides of the pivot. The comparisons never exceed
      `n (n - 1) / 2` for a range of `n` sticks, and every comparison costs
      two accesses, plus at most three for each swap. */
  method QuickSort(a: seq<Stick>, left: int, right: int, c: Counters)
    returns (b: seq<Stick>, c': Counters)
    requires 0 <= left && right < |a|
    decreases right - left, 1
    ensures |b| == |a| && multiset(b) == multiset(a)
    ensures right <= left ==> b == a && c' == c
    ensures left <= right + 1 ==> b[..left] == a[..left] && b[right + 1..] == a[right + 1..]
    ensures left <= right + 1 ==> SortedBetween(b, left, right + 1)
    ensures c.comparisons <= c'.comparisons
    ensures left <= right + 1 ==>
      2 * (c'.comparisons - c.comparisons) <= (right + 1 - left) * (right - left)
    ensures 2 * (c'.comparisons - c.comparisons) <= c'.accesses - c.accesses
    ensures left <= right + 1 ==>
      c'.accesses - c.accesses <= 5 * (c'.comparisons - c.comparisons) + 3 * (right + 1 - left)
  {
    if left < right {
      var b1, p, c1 := Partition(a, left, right, c);
      b, c' := SortAroundPivot(b1, left, p, right, c1);
      QuickComparisons(right + 1 - left, p - left, right - p, c'.comparisons - c1.comparisons);
    } else {
      b, c' := a, c;
    }
  }

  /** `processQuickSort`: quick sort over the whole collection. */
  method ProcessQuickSort(a: seq<Stick>, c: Counters) returns (b: seq<Stick>, c': Counters)
    ensures Sorted(b) && multiset(b) == multiset(a)
    ensures c.comparisons <= c'.comparisons
    ensures 2 * (c'.comparisons - c.comparisons) <= |a| * (|a| - 1)
    ensures 2 * (c'.comparisons - c.comparisons) <= c'.accesses - c.accesses
    ensures c'.accesses - c.accesses <= 5 * (c'.comparisons - c.comparisons) + 3 * |a|
    ensures c.accesses <= c'.accesses
  {
    b, c' := QuickSort(a, 0, |a| - 1, c);
    assert b == b[..0] + b[0..|a|] + b[|a|..];
  }
}
