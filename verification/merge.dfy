/**
 * Merge sort as the visualiser runs it: `mergeSort` with its buffered
 * `merge`, and the unused in-place variant `inPlaceMergeSort`/`inPlaceMerge`.
 * Both are checked against one functional reference, `MergeSortSeq`, which
 * splits a range exactly where the source does (`mid = left + (right - left) / 2`)
 * and merges with `MergeSeqs`, preferring the left run on ties.
 */
module Merging {
  import opened Sticks
  import opened Elementary

  // ---------------------------------------------------------------------------
  // Functional reference

  /** Merge two runs: repeatedly take the head of `x` when its data is at most
      the head of `y`, otherwise the head of `y`. */
  function MergeSeqs(x: seq<Stick>, y: seq<Stick>): seq<Stick>
    decreases |x| + |y|
  {
    if |x| == 0 then y
    else if |y| == 0 then x
    else if x[0].data <= y[0].data then [x[0]] + MergeSeqs(x[1..], y)
    else [y[0]] + MergeSeqs(x, y[1..])
  }

  /** The merge is a reordering of its two runs together. */
  lemma {:induction false} MergeSeqsPermutation(x: seq<Stick>, y: seq<Stick>)
    ensures |MergeSeqs(x, y)| == |x| + |y|
    ensures multiset(MergeSeqs(x, y)) == multiset(x) + multiset(y)
    decreases |x| + |y|
  {
    MergeSeqsLength(x, y);
    if |x| > 0 && |y| > 0 {
      if x[0].data <= y[0].data {
        MergeSeqsPermutation(x[1..], y);
        assert x == [x[0]] + x[1..];
      } else {
        MergeSeqsPermutation(x, y[1..]);
        assert y == [y[0]] + y[1..];
      }
    }
  }

  lemma {:induction false} MergeSeqsLength(x: seq<Stick>, y: seq<Stick>)
    ensures |MergeSeqs(x, y)| == |x| + |y|
    decreases |x| + |y|
  {
    if |x| > 0 && |y| > 0 {
      if x[0].data <= y[0].data {
        MergeSeqsLength(x[1..], y);
      } else {
        MergeSeqsLength(x, y[1..]);
      }
    }
  }

  /** `n / 2` for non-negative `n`, by repeated subtraction. */
  function Half(n: int): nat
    decreases n
  {
    if n < 2 then 0 else 1 + Half(n - 2)
  }

  lemma {:induction false} HalfIsDivision(n: nat)
    ensures Half(n) == n / 2
    decreases n
  {
    if n >= 2 {
      HalfIsDivision(n - 2);
    }
  }

  /** Length of the left half when a range of `n` sticks is split at
      `mid = left + (right - left) / 2`: `mid - left + 1`. */
  function LeftHalf(n: int): int
  {
    Half(n - 1) + 1
  }

  /** Both halves of a range of at least two sticks are non-empty, and the
      left one is at least as long as the right one. */
  lemma HalvesShrink(n: int)
    requires n >= 2
    ensures 1 <= n - LeftHalf(n) <= LeftHalf(n) < n
  {
    HalfIsDivision(n - 1);
  }

  /** `LeftHalf` grows with `n`. */
  lemma LeftHalfMonotone(m: int, n: int)
    requires 1 <= m <= n
    ensures LeftHalf(m) <= LeftHalf(n)
  {
    HalfIsDivision(m - 1);
    HalfIsDivision(n - 1);
  }

  /** Top-down merge sort with the source's split point. */
  function MergeSortSeq(s: seq<Stick>): seq<Stick>
    decreases |s|
  {
    if |s| <= 1 then s
    else
      var h := LeftHalf(|s|);
      HalvesShrink(|s|);
      MergeSeqs(MergeSortSeq(s[..h]), MergeSortSeq(s[h..]))
  }

  lemma {:induction false} MergeSortSeqLength(s: seq<Stick>)
    ensures |MergeSortSeq(s)| == |s|
    decreases |s|
  {
    if |s| > 1 {
      var h := LeftHalf(|s|);
      HalvesShrink(|s|);
      MergeSortSeqLength(s[..h]);
      MergeSortSeqLength(s[h..]);
      MergeSeqsPermutation(MergeSortSeq(s[..h]), MergeSortSeq(s[h..]));
    }
  }

  /** One unfolding of the reference sort. */
  lemma MergeSortSeqSplit(s: seq<Stick>, h: int)
    requires |s| >= 2 && h == LeftHalf(|s|) && h < |s|
    ensures MergeSortSeq(s) == MergeSeqs(MergeSortSeq(s[..h]), MergeSortSeq(s[h..]))
  {
  }

  /** A stick that is at most every element of a sorted run can be put in
      front of it. */
  lemma ConsSorted(v: Stick, r: seq<Stick>)
    requires Sorted(r)
    requires forall z :: z in r ==> v.data <= z.data
    ensures Sorted([v] + r)
  {
    var t := [v] + r;
    forall i, j | 0 <= i < j < |t|
      ensures t[i].data <= t[j].data
    {
      assert t[j] == r[j - 1];
      if i > 0 {
        assert t[i] == r[i - 1];
      }
    }
  }

  /** Merging two sorted runs gives a sorted run. */
  lemma {:induction false} MergeSeqsSorted(x: seq<Stick>, y: seq<Stick>)
    requires Sorted(x) && Sorted(y)
    ensures Sorted(MergeSeqs(x, y))
    decreases |x| + |y|
  {
    if |x| > 0 && |y| > 0 {
      SortedBoundedByHead(x);
      SortedBoundedByHead(y);
      if x[0].data <= y[0].data {
        SortedTail(x);
        MergeSeqsSorted(x[1..], y);
        MergeBounded(x[0].data, x[1..], y);
        ConsSorted(x[0], MergeSeqs(x[1..], y));
      } else {
        SortedTail(y);
        MergeSeqsSorted(x, y[1..]);
        MergeBounded(y[0].data, x, y[1..]);
        ConsSorted(y[0], MergeSeqs(x, y[1..]));
      }
    }
  }

  /** Every stick of a sorted run carries at least the data of its head. */
  lemma SortedBoundedByHead(s: seq<Stick>)
    requires Sorted(s) && |s| > 0
    ensures forall z :: z in s ==> s[0].data <= z.data
  {
    forall z | z in s
      ensures s[0].data <= z.data
    {
      var k :| 0 <= k < |s| && s[k] == z;
    }
  }

  /** A lower bound on both runs is a lower bound on their merge. */
  lemma MergeBounded(v: int, x: seq<Stick>, y: seq<Stick>)
    requires forall z :: z in x ==> v <= z.data
    requires forall z :: z in y ==> v <= z.data
    ensures forall z :: z in MergeSeqs(x, y) ==> v <= z.data
  {
    MergeSeqsPermutation(x, y);
    forall z | z in MergeSeqs(x, y)
      ensures v <= z.data
    {
      assert z in multiset(MergeSeqs(x, y));
      assert z in multiset(x) || z in multiset(y);
    }
  }

  /** Ties go to the left run: when `x` is sorted, the sticks with data `d`
      come out of the merge as those of `x` followed by those of `y`. */
  lemma {:induction false} MergeSeqsKeepsRuns(x: seq<Stick>, y: seq<Stick>, d: int)
    requires Sorted(x)
    ensures WithData(MergeSeqs(x, y), d) == WithData(x, d) + WithData(y, d)
    decreases |x| + |y|
  {
    if |x| > 0 && |y| > 0 {
      if x[0].data <= y[0].data {
        SortedTail(x);
        MergeSeqsKeepsRuns(x[1..], y, d);
        TakeLeftKeepsRuns(x, y, d);
      } else {
        MergeSeqsKeepsRuns(x, y[1..], d);
        TakeRightKeepsRuns(x, y, d);
      }
    } else if |x| == 0 {
      assert WithData(x, d) == [];
    } else {
      assert WithData(y, d) == [];
    }
  }

  lemma TakeLeftKeepsRuns(x: seq<Stick>, y: seq<Stick>, d: int)
    requires |x| > 0 && |y| > 0 && x[0].data <= y[0].data
    requires WithData(MergeSeqs(x[1..], y), d) == WithData(x[1..], d) + WithData(y, d)
    ensures WithData(MergeSeqs(x, y), d) == WithData(x, d) + WithData(y, d)
  {
    assert MergeSeqs(x, y) == [x[0]] + MergeSeqs(x[1..], y);
    assert x == [x[0]] + x[1..];
    PrependKeepsRuns(x[0], MergeSeqs(x[1..], y), x[1..], y, d);
  }

  /** Putting one stick in front of a merged run and in front of its left run. */
  lemma PrependKeepsRuns(v: Stick, r: seq<Stick>, x: seq<Stick>, y: seq<Stick>, d: int)
    requires WithData(r, d) == WithData(x, d) + WithData(y, d)
    ensures WithData([v] + r, d) == WithData([v] + x, d) + WithData(y, d)
  {
    WithDataAppend([v], r, d);
    WithDataAppend([v], x, d);
  }

  lemma TakeRightKeepsRuns(x: seq<Stick>, y: seq<Stick>, d: int)
    requires Sorted(x)
    requires |x| > 0 && |y| > 0 && x[0].data > y[0].data
    requires WithData(MergeSeqs(x, y[1..]), d) == WithData(x, d) + WithData(y[1..], d)
    ensures WithData(MergeSeqs(x, y), d) == WithData(x, d) + WithData(y, d)
  {
    var r := MergeSeqs(x, y[1..]);
    assert MergeSeqs(x, y) == [y[0]] + r;
    ConsWithData(y, r, d);
    if y[0].data == d {
      AboveHead(x, y[0].data);
      WithDataEmpty(x, d);
    }
  }

  /** Splitting off the head of `s` in front of `r`. */
  lemma ConsWithData(s: seq<Stick>, r: seq<Stick>, d: int)
    requires |s| > 0
    ensures WithData([s[0]] + r, d) == WithData([s[0]], d) + WithData(r, d)
    ensures WithData(s, d) == WithData([s[0]], d) + WithData(s[1..], d)
    ensures WithData([s[0]], d) == if s[0].data == d then [s[0]] else []
  {
    WithDataAppend([s[0]], r, d);
    WithDataAppend([s[0]], s[1..], d);
    assert [s[0]] + s[1..] == s;
    WithDataSingle(s[0], d);
  }

  /** Every stick of a sorted run whose head is above `v` is above `v`. */
  lemma AboveHead(x: seq<Stick>, v: int)
    requires Sorted(x) && |x| > 0 && x[0].data > v
    ensures forall z :: z in x ==> z.data != v
  {
    forall z | z in x
      ensures z.data != v
    {
      var k :| 0 <= k < |x| && x[k] == z;
      assert x[0].data <= x[k].data;
    }
  }

  /** Merging a sorted left run with any right run is a stable reorder of
      their concatenation. */
  lemma MergeSeqsStable(x: seq<Stick>, y: seq<Stick>)
    requires Sorted(x)
    ensures Stable(x + y, MergeSeqs(x, y))
  {
    forall d
      ensures WithData(MergeSeqs(x, y), d) == WithData(x + y, d)
    {
      MergeSeqsKeepsRuns(x, y, d);
      WithDataAppend(x, y, d);
    }
  }

  /** When the last stick of the sorted left run is at most the first of the
      right run, merging is concatenation. */
  lemma {:induction false} MergeOrderedRuns(x: seq<Stick>, y: seq<Stick>)
    requires Sorted(x) && |x| > 0 && |y| > 0
    requires x[|x| - 1].data <= y[0].data
    ensures MergeSeqs(x, y) == x + y
    decreases |x|
  {
    assert x[0].data <= x[|x| - 1].data;
    if |x| > 1 {
      SortedTail(x);
      MergeOrderedRuns(x[1..], y);
      assert [x[0]] + (x[1..] + y) == x + y;
    } else {
      assert x == [x[0]];
    }
  }

  /** The reference sort sorts. */
  lemma {:induction false} MergeSortSeqSorted(s: seq<Stick>)
    ensures Sorted(MergeSortSeq(s))
    decreases |s|
  {
    if |s| > 1 {
      var h := LeftHalf(|s|);
      HalvesShrink(|s|);
      MergeSortSeqSorted(s[..h]);
      MergeSortSeqSorted(s[h..]);
      MergeSeqsSorted(MergeSortSeq(s[..h]), MergeSortSeq(s[h..]));
    }
  }

  /** The reference sort is stable. */
  lemma {:induction false} MergeSortSeqStable(s: seq<Stick>)
    ensures Stable(s, MergeSortSeq(s))
    decreases |s|
  {
    if |s| > 1 {
      var h := LeftHalf(|s|);
      HalvesShrink(|s|);
      var x, y := MergeSortSeq(s[..h]), MergeSortSeq(s[h..]);
      MergeSortSeqStable(s[..h]);
      MergeSortSeqStable(s[h..]);
      MergeSortSeqSorted(s[..h]);
      MergeSeqsStable(x, y);
      forall d
        ensures WithData(MergeSortSeq(s), d) == WithData(s, d)
      {
        WithDataAppend(x, y, d);
        WithDataAppend(s[..h], s[h..], d);
        assert s[..h] + s[h..] == s;
      }
    }
  }

  /** Every stable sort agrees with the reference: a sorted, stable reorder of
      `s` is `MergeSortSeq(s)`. */
  lemma MergeSortSeqIsTheStableSort(s: seq<Stick>, t: seq<Stick>)
    requires Sorted(t) && Stable(s, t)
    ensures t == MergeSortSeq(s)
  {
    MergeSortSeqSorted(s);
    MergeSortSeqStable(s);
    StableSortUnique(MergeSortSeq(s), t);
  }

  // ---------------------------------------------------------------------------
  // mergeSort / merge

  /** Unfolding the merge of two non-empty runs by one step. */
  lemma MergeStep(t: seq<Stick>, i: int, h: int, j: int)
    requires 0 <= i < h <= j < |t|
    ensures t[i].data <= t[j].data ==>
              MergeSeqs(t[i..h], t[j..]) == [t[i]] + MergeSeqs(t[i + 1..h], t[j..])
    ensures t[i].data > t[j].data ==>
              MergeSeqs(t[i..h], t[j..]) == [t[j]] + MergeSeqs(t[i..h], t[j + 1..])
  {
    assert t[i..h][0] == t[i] && t[i..h][1..] == t[i + 1..h];
    assert t[j..][0] == t[j] && t[j..][1..] == t[j + 1..];
  }

  /** Once one run is used up, the merge is the other run. */
  lemma MergeRest(t: seq<Stick>, i: int, h: int, j: int)
    requires 0 <= i <= h <= j <= |t|
    requires i == h || j == |t|
    ensures MergeSeqs(t[i..h], t[j..]) == t[i..h] + t[j..]
  {
  }

  function Min(x: int, y: int): int
  {
    if x <= y then x else y
  }

  /** One step of the first loop of `merge` keeps "placed sticks followed by
      the merge of what is left" equal to the whole merge. */
  lemma MergeAdvance(t: seq<Stick>, i: int, h: int, j: int, out: seq<Stick>, full: seq<Stick>)
    requires 0 <= i < h <= j < |t|
    requires out + MergeSeqs(t[i..h], t[j..]) == full
    ensures t[i].data <= t[j].data ==> (out + [t[i]]) + MergeSeqs(t[i + 1..h], t[j..]) == full
    ensures t[i].data > t[j].data ==> (out + [t[j]]) + MergeSeqs(t[i..h], t[j + 1..]) == full
  {
    assert t[i..h][0] == t[i] && t[i..h][1..] == t[i + 1..h];
    assert t[j..][0] == t[j] && t[j..][1..] == t[j + 1..];
    MergeHeads(t[i..h], t[j..], out, full);
  }

  /** One comparison of the first loop of `merge`: append the smaller head to
      the output, the left one on ties. */
  method PlaceSmallerHead(t: seq<Stick>, h: int, i: int, j: int, out: seq<Stick>, ghost full: seq<Stick>)
    returns (out': seq<Stick>, i': int, j': int)
    requires 0 <= i < h <= j < |t|
    requires out + MergeSeqs(t[i..h], t[j..]) == full
    ensures ((i' == i + 1 && j' == j) || (i' == i && j' == j + 1)) &&
            out' + MergeSeqs(t[i'..h], t[j'..]) == full
    ensures |out'| == |out| + 1
  {
    MergeAdvance(t, i, h, j, out, full);
    if t[i].data <= t[j].data {
      out', i', j' := out + [t[i]], i + 1, j;
    } else {
      out', i', j' := out + [t[j]], i, j + 1;
    }
  }

  /** The first loop of `merge`: while both halves of the buffer `t` (split
      at `h`) still hold sticks, place the smaller head, the left one on ties;
      one comparison and three accesses per stick placed. */
  method MergeWhileBoth(t: seq<Stick>, h: int, c: Counters)
    returns (out: seq<Stick>, i: int, j: int, c': Counters)
    requires 0 <= h <= |t|
    ensures 0 <= i <= h <= j <= |t| && (i == h || j == |t|)
    ensures out + t[i..h] + t[j..] == MergeSeqs(t[..h], t[h..])
    ensures |out| == i + (j - h)
    ensures 0 < h < |t| ==> |out| < |t|
    ensures c' == Counters(c.comparisons + |out|, c.accesses + 3 * |out|)
  {
    ghost var full := MergeSeqs(t[..h], t[h..]);
    assert t[0..h] == t[..h] && t[h..] == t[h..];
    i, j, out, c' := 0, h, [], c;
    while i < h && j < |t|
      invariant 0 <= i <= h <= j <= |t|
      invariant out + MergeSeqs(t[i..h], t[j..]) == full
      invariant |out| == i + (j - h)
      invariant 0 < h ==> i < h || j < |t|
      invariant c' == Counters(c.comparisons + |out|, c.accesses + 3 * |out|)
    {
      c' := Counters(c'.comparisons + 1, c'.accesses + 3);
      out, i, j := PlaceSmallerHead(t, h, i, j, out, full);
    }
    FinishMerge(t, i, h, j, out, full);
  }

  /** When one run is used up, the rest of the merge is what is left of the
      two runs, in order. */
  lemma FinishMerge(t: seq<Stick>, i: int, h: int, j: int, out: seq<Stick>, full: seq<Stick>)
    requires 0 <= i <= h <= j <= |t| && (i == h || j == |t|)
    requires out + MergeSeqs(t[i..h], t[j..]) == full
    ensures out + t[i..h] + t[j..] == full
  {
    MergeRest(t, i, h, j);
    assert out + t[i..h] + t[j..] == out + (t[i..h] + t[j..]);
  }

  /** The second loop of `merge`: copy what is left of either half, one access
      per stick. */
  method MergeCopyRest(t: seq<Stick>, out: seq<Stick>, i: int, h: int, j: int, c: Counters)
    returns (res: seq<Stick>, c': Counters)
    requires 0 <= i <= h <= j <= |t| && (i == h || j == |t|)
    ensures res == out + t[i..h] + t[j..]
    ensures c' == Counters(c.comparisons, c.accesses + (h - i) + (|t| - j))
  {
    res, c' := out, c;
    var i', j' := i, j;
    while i' < h || j' < |t|
      invariant i <= i' <= h <= j <= j' <= |t|
      invariant i' == h || j' == |t|
      invariant res + t[i'..h] + t[j'..] == out + t[i..h] + t[j..]
      invariant c' == Counters(c.comparisons, c.accesses + (i' - i) + (j' - j))
      decreases (h - i') + (|t| - j')
    {
      c' := Counters(c'.comparisons, c'.accesses + 1);
      if i' < h {
        assert t[i'..h] == [t[i']] + t[i' + 1..h];
        res, i' := res + [t[i']], i' + 1;
      } else {
        assert t[j'..] == [t[j']] + t[j' + 1..];
        res, j' := res + [t[j']], j' + 1;
      }
    }
  }

  /** `merge(left, mid, right)`: copy the range into a buffer (one access per
      stick), merge the two halves back while both are non-empty, then copy the
      rest. The result is the reference merge of the two halves, and each
      stick costs two accesses plus two per comparison. */
  method Merge(a: seq<Stick>, left: int, mid: int, right: int, c: Counters) returns (b: seq<Stick>, c': Counters)
    requires 0 <= left && left - 1 <= mid <= right < |a|
    ensures |b| == |a|
    ensures b == a[..left] + MergeSeqs(a[left..mid + 1], a[mid + 1..right + 1]) + a[right + 1..]
    ensures Min(mid + 1 - left, right - mid) <= c'.comparisons - c.comparisons
    ensures left <= mid < right ==> c'.comparisons - c.comparisons < right + 1 - left
    ensures c'.accesses == c.accesses + 2 * (right + 1 - left) + 2 * (c'.comparisons - c.comparisons)
  {
    var temp := a[left..right + 1];
    var h := mid - left + 1;
    var out, i, j;
    out, i, j, c' := MergeWhileBoth(temp, h, Counters(c.comparisons, c.accesses + |temp|));
    out, c' := MergeCopyRest(temp, out, i, h, j, c');
    assert temp[..h] == a[left..mid + 1] && temp[h..] == a[mid + 1..right + 1];
    b := a[..left] + out + a[right + 1..];
    MergeSeqsPermutation(temp[..h], temp[h..]);
  }

  /** The number of sticks all the `merge` calls of a merge sort of `n` sticks
      copy into their buffers: every level of the recursion copies each stick
      once. */
  function MergeWork(n: int): nat
    decreases n
  {
    if n <= 1 then 0
    else
      HalvesShrink(n);
      n + MergeWork(LeftHalf(n)) + MergeWork(n - LeftHalf(n))
  }

  /** `ceil(log2(n))`, the depth of the recursion of a merge sort of `n` sticks. */
  function CeilLog2(n: int): nat
    decreases n
  {
    if n <= 1 then 0
    else
      HalvesShrink(n);
      1 + CeilLog2(LeftHalf(n))
  }

  lemma {:induction false} CeilLog2Monotone(m: int, n: int)
    requires m <= n
    ensures CeilLog2(m) <= CeilLog2(n)
    decreases n
  {
    if m > 1 {
      HalvesShrink(n);
      LeftHalfMonotone(m, n);
      CeilLog2Monotone(LeftHalf(m), LeftHalf(n));
    }
  }

  /** The `O(n log n)` bound of a merge sort of `n` sticks: `n * ceil(log2(n))`. */
  function NLogN(n: nat): nat
  {
    n * CeilLog2(n)
  }

  /** The work of a merge sort is `O(n log n)`. */
  lemma {:induction false} MergeWorkBound(n: nat)
    ensures MergeWork(n) <= NLogN(n)
    decreases n
  {
    if n > 1 {
      var h := LeftHalf(n);
      HalvesShrink(n);
      MergeWorkBound(h);
      MergeWorkBound(n - h);
      CeilLog2Monotone(n - h, h);
      SplitCost(n, h, CeilLog2(n - h), CeilLog2(h), MergeWork(h), MergeWork(n - h));
    }
  }

  /** The arithmetic step of `MergeWorkBound`. */
  lemma SplitCost(n: int, h: int, l2: nat, l: nat, w1: int, w2: int)
    requires 0 <= h <= n && l2 <= l
    requires w1 <= h * l && w2 <= (n - h) * l2
    ensures n + w1 + w2 <= n * (1 + l)
  {
    assert (n - h) * l2 <= (n - h) * l;
    assert n * (1 + l) == n + h * l + (n - h) * l;
  }

  /** Two equal prefixes agree on every range inside them. */
  lemma RangeOfPrefix(p: seq<Stick>, q: seq<Stick>, lo: int, hi: int)
    requires 0 <= lo <= hi <= |p| && hi <= |q| && p[..hi] == q[..hi]
    ensures p[lo..hi] == q[lo..hi]
  {
    assert p[lo..hi] == p[..hi][lo..] && q[lo..hi] == q[..hi][lo..];
  }

  /** Two equal suffixes agree on every range inside them. */
  lemma RangeOfSuffix(p: seq<Stick>, q: seq<Stick>, lo: int, hi: int)
    requires 0 <= lo <= hi <= |p| == |q| && p[lo..] == q[lo..]
    ensures p[lo..hi] == q[lo..hi]
  {
    assert p[lo..hi] == p[lo..][..hi - lo] && q[lo..hi] == q[lo..][..hi - lo];
  }

  /** Sorting `[left, mid]` and then `[mid + 1, right]` leaves the two
      sorted halves side by side and the rest of the sequence alone. */
  lemma SortBothHalves(a: seq<Stick>, b1: seq<Stick>, b2: seq<Stick>, left: int, mid: int, right: int)
    requires 0 <= left <= mid < right < |a| == |b1|
    requires b1 == a[..left] + MergeSortSeq(a[left..mid + 1]) + a[mid + 1..]
    requires b2 == b1[..mid + 1] + MergeSortSeq(b1[mid + 1..right + 1]) + b1[right + 1..]
    ensures b2 == a[..left] + MergeSortSeq(a[left..mid + 1]) + MergeSortSeq(a[mid + 1..right + 1]) + a[right + 1..]
  {
    var x := MergeSortSeq(a[left..mid + 1]);
    MergeSortSeqLength(a[left..mid + 1]);
    assert b1[..mid + 1] == a[..left] + x;
    assert b1[mid + 1..] == a[mid + 1..];
    assert b1[mid + 1..right + 1] == a[mid + 1..right + 1];
    assert b1[right + 1..] == a[right + 1..];
  }

  /** Merging two sorted halves that sit side by side yields the reference
      sort of the whole range. */
  lemma MergeSortedHalves(a: seq<Stick>, b2: seq<Stick>, b: seq<Stick>, left: int, mid: int, right: int)
    requires 0 <= left <= mid < right < |a| == |b2|
    requires mid - left + 1 == LeftHalf(right + 1 - left)
    requires b2 == a[..left] + MergeSortSeq(a[left..mid + 1]) + MergeSortSeq(a[mid + 1..right + 1]) + a[right + 1..]
    requires b == b2[..left] + MergeSeqs(b2[left..mid + 1], b2[mid + 1..right + 1]) + b2[right + 1..]
    ensures b == a[..left] + MergeSortSeq(a[left..right + 1]) + a[right + 1..]
  {
    var s := a[left..right + 1];
    var h := mid - left + 1;
    var x, y := MergeSortSeq(a[left..mid + 1]), MergeSortSeq(a[mid + 1..right + 1]);
    MergeSortSeqLength(a[left..mid + 1]);
    MergeSortSeqLength(a[mid + 1..right + 1]);
    assert b2[..left] == a[..left] && b2[right + 1..] == a[right + 1..];
    assert b2[left..mid + 1] == x && b2[mid + 1..right + 1] == y;
    assert s[..h] == a[left..mid + 1] && s[h..] == a[mid + 1..right + 1];
    MergeSortSeqSplit(s, h);
  }

  /** The counters of `mergeSort` add up: sorting two halves of `h` and
      `n - h` sticks and merging them costs what a merge sort of `n` sticks
      costs. */
  lemma MergeSortCost(n: int, h: int, r: int, c: Counters, c1: Counters, c2: Counters, c3: Counters)
    requires 2 <= n && h == LeftHalf(n) && r == n - h
    requires WithinMergeWork(c, c1, h) && WithinMergeWork(c1, c2, r)
    requires c2.comparisons <= c3.comparisons && c3.comparisons - c2.comparisons < n
    requires c3.accesses == c2.accesses + 2 * n + 2 * (c3.comparisons - c2.comparisons)
    ensures WithinMergeWork(c, c3, n)
  {
    MergeWorkSplit(n);
  }

  /** The counters of a merge sort of `n` sticks moved from `c` to `c'`: at
      most `MergeWork(n)` comparisons, and two accesses per buffered stick
      plus two per comparison. */
  predicate WithinMergeWork(c: Counters, c': Counters, n: int)
  {
    c.comparisons <= c'.comparisons && c'.comparisons - c.comparisons <= MergeWork(n) &&
    c'.accesses == c.accesses + 2 * MergeWork(n) + 2 * (c'.comparisons - c.comparisons)
  }

  lemma MergeWorkSplit(n: int)
    requires 2 <= n
    ensures MergeWork(n) == n + MergeWork(LeftHalf(n)) + MergeWork(n - LeftHalf(n))
  {
  }

  /** `mergeSort(left, right)`: sort both halves, then `merge` them. The range
      ends up as the reference merge sort of its original contents, the rest
      of the sequence is untouched, and the accesses are two per buffered
      stick plus two per comparison. */
  method MergeSort(a: seq<Stick>, left: int, right: int, c: Counters) returns (b: seq<Stick>, c': Counters)
    requires 0 <= left && right < |a|
    ensures |b| == |a|
    ensures right <= left ==> b == a && c' == c
    ensures left <= right ==> b == a[..left] + MergeSortSeq(a[left..right + 1]) + a[right + 1..]
    ensures WithinMergeWork(c, c', right + 1 - left)
    decreases right - left, 1
  {
    if left >= right {
      assert MergeWork(right + 1 - left) == 0;
      if left == right {
        assert MergeSortSeq(a[left..right + 1]) == a[left..right + 1];
        assert a == a[..left] + a[left..right + 1] + a[right + 1..];
      }
      return a, c;
    }
    var mid := left + (right - left) / 2;
    Midpoint(left, right);
    b, c' := SortHalvesAndMerge(a, left, mid, right, c);
  }

  /** The recursive case of `mergeSort`: sort `[left, mid]`, sort
      `[mid + 1, right]`, then `merge`. */
  method SortHalvesAndMerge(a: seq<Stick>, left: int, mid: int, right: int, c: Counters)
    returns (b: seq<Stick>, c': Counters)
    requires 0 <= left <= mid < right < |a|
    requires mid + 1 - left == LeftHalf(right + 1 - left)
    ensures |b| == |a|
    ensures b == a[..left] + MergeSortSeq(a[left..right + 1]) + a[right + 1..]
    ensures WithinMergeWork(c, c', right + 1 - left)
    decreases right - left, 0
  {
    var b1, c1 := MergeSort(a, left, mid, c);
    var b2, c2 := MergeSort(b1, mid + 1, right, c1);
    b, c' := Merge(b2, left, mid, right, c2);
    MergeSortCost(right + 1 - left, mid + 1 - left, right + 1 - (mid + 1), c, c1, c2, c');
    SortBothHalves(a, b1, b2, left, mid, right);
    MergeSortedHalves(a, b2, b, left, mid, right);
  }

  /** `mid = left + (right - left) / 2` splits `[left, right]` into a left half
      of `LeftHalf` sticks and a non-empty right half. */
  lemma Midpoint(left: int, right: int)
    requires left < right
    ensures left <= left + (right - left) / 2 < right
    ensures left + (right - left) / 2 + 1 - left == LeftHalf(right + 1 - left)
  {
    HalfIsDivision(right - left);
  }

  /** `processMergeSort`: merge sort of the whole collection. The result is
      sorted and a stable reorder of the input. */
  method ProcessMergeSort(a: seq<Stick>, c: Counters) returns (b: seq<Stick>, c': Counters)
    ensures Sorted(b) && Stable(a, b) && multiset(b) == multiset(a)
    ensures WithinMergeWork(c, c', |a|)
    ensures c'.comparisons <= c.comparisons + NLogN(|a|)
    ensures c.accesses <= c'.accesses
  {
    b, c' := MergeSort(a, 0, |a| - 1, c);
    if |a| > 0 {
      assert a[0..|a|] == a && a[..0] + MergeSortSeq(a) + a[|a|..] == MergeSortSeq(a);
    }
    assert b == MergeSortSeq(a);
    MergeSortSeqSorted(a);
    MergeSortSeqStable(a);
    StableIsPermutation(a, b);
    MergeWorkBound(|a|);
  }

  // ---------------------------------------------------------------------------
  // inPlaceMergeSort / inPlaceMerge

  /** The state of `inPlaceMerge` between comparisons: the sequence is laid
      out as untouched prefix, placed sticks, rest of the left half, rest of
      the right half, untouched suffix; and the placed sticks followed by the
      merge of the two rests is the merge of the original halves. */
  ghost predicate MergeState(b: seq<Stick>, pre: seq<Stick>, out: seq<Stick>, xs: seq<Stick>, ys: seq<Stick>,
                             post: seq<Stick>, full: seq<Stick>)
  {
    b == pre + out + xs + ys + post && out + MergeSeqs(xs, ys) == full
  }

  /** Keeping the head of the left half. */
  lemma KeepLeftHead(b: seq<Stick>, pre: seq<Stick>, out: seq<Stick>, xs: seq<Stick>, ys: seq<Stick>,
                     post: seq<Stick>, full: seq<Stick>)
    requires MergeState(b, pre, out, xs, ys, post, full)
    requires |xs| > 0 && |ys| > 0 && xs[0].data <= ys[0].data
    ensures MergeState(b, pre, out + [xs[0]], xs[1..], ys, post, full)
  {
    MergeHeads(xs, ys, out, full);
    TakeLeftLayout(pre, out, xs, ys, post);
  }

  /** Rotating the head of the right half in front of the left half. */
  lemma RotateRightHead(b: seq<Stick>, pre: seq<Stick>, out: seq<Stick>, xs: seq<Stick>, ys: seq<Stick>,
                        post: seq<Stick>, full: seq<Stick>)
    requires MergeState(b, pre, out, xs, ys, post, full)
    requires |xs| > 0 && |ys| > 0 && xs[0].data > ys[0].data
    ensures |pre| + |out| + |xs| < |b|
    ensures MergeState(MoveBack(b, |pre| + |out| + |xs|, |pre| + |out|), pre, out + [ys[0]], xs, ys[1..], post, full)
  {
    MergeHeads(xs, ys, out, full);
    TakeRightLayout(b, pre, out, xs, ys, post);
  }

  /** One comparison of `inPlaceMerge`: keep the left head when its data is
      at most the right head's, otherwise rotate the right head in front of the
      rest of the left half. */
  method InPlaceMergeStep(b: seq<Stick>, l: int, s2: int, c: Counters,
                          ghost pre: seq<Stick>, ghost out: seq<Stick>, ghost xs: seq<Stick>, ghost ys: seq<Stick>,
                          ghost post: seq<Stick>, ghost full: seq<Stick>)
    returns (b': seq<Stick>, l': int, s2': int, c': Counters,
             ghost out': seq<Stick>, ghost xs': seq<Stick>, ghost ys': seq<Stick>)
    requires MergeState(b, pre, out, xs, ys, post, full) && |xs| > 0 && |ys| > 0
    requires l == |pre| + |out| && s2 == l + |xs|
    ensures MergeState(b', pre, out', xs', ys', post, full)
    ensures |b'| == |b| && l' == l + 1 && s2' == l' + |xs'| && out' == out + [b'[l]]
    ensures c'.comparisons == c.comparisons + 1
    ensures xs[0].data <= ys[0].data ==> xs' == xs[1..] && ys' == ys && c'.accesses == c.accesses + 2
    ensures xs[0].data > ys[0].data ==>
              xs' == xs && ys' == ys[1..] && c'.accesses == c.accesses + 2 + 2 * |xs| + 1
  {
    c' := Counters(c.comparisons + 1, c.accesses + 2);
    assert b[l] == xs[0] && b[s2] == ys[0];
    if b[l].data <= b[s2].data {
      KeepLeftHead(b, pre, out, xs, ys, post, full);
      b', out', xs', ys' := b, out + [xs[0]], xs[1..], ys;
      l', s2' := l + 1, s2;
    } else {
      RotateRightHead(b, pre, out, xs, ys, post, full);
      b', c' := RotateIntoPlace(b, s2, l, c');
      out', xs', ys' := out + [ys[0]], xs, ys[1..];
      l', s2' := l + 1, s2 + 1;
    }
  }

  /** The inner loop of `inPlaceMerge`: shift `[p, i)` one place right and
      drop the stick from `i` into the gap, two accesses per shift and one for
      the final write. */
  method RotateIntoPlace(a: seq<Stick>, i: int, p: int, c: Counters) returns (b: seq<Stick>, c': Counters)
    requires 0 <= p <= i < |a|
    ensures b == MoveBack(a, i, p)
    ensures c' == Counters(c.comparisons, c.accesses + 2 * (i - p) + 1)
  {
    var value := a[i];
    b, c' := a, c;
    var index := i;
    while index != p
      invariant p <= index <= i && |b| == |a|
      invariant forall k :: 0 <= k < index ==> b[k] == a[k]
      invariant forall k :: index + 1 <= k <= i ==> b[k] == a[k - 1]
      invariant forall k :: i < k < |a| ==> b[k] == a[k]
      invariant c' == Counters(c.comparisons, c.accesses + 2 * (i - index))
      decreases index
    {
      b := b[index := b[index - 1]];
      index := index - 1;
      c' := Counters(c'.comparisons, c'.accesses + 2);
    }
    FillGap(a, b, i, p);
    b := b[p := value];
    c' := Counters(c'.comparisons, c'.accesses + 1);
  }

  /** One comparison of the two heads, as `MergeSeqs` takes it. */
  lemma MergeHeads(xs: seq<Stick>, ys: seq<Stick>, out: seq<Stick>, full: seq<Stick>)
    requires |xs| > 0 && |ys| > 0 && out + MergeSeqs(xs, ys) == full
    ensures xs[0].data <= ys[0].data ==> (out + [xs[0]]) + MergeSeqs(xs[1..], ys) == full
    ensures xs[0].data > ys[0].data ==> (out + [ys[0]]) + MergeSeqs(xs, ys[1..]) == full
  {
    if xs[0].data <= ys[0].data {
      ConsAssoc(out, xs[0], MergeSeqs(xs[1..], ys));
    } else {
      ConsAssoc(out, ys[0], MergeSeqs(xs, ys[1..]));
    }
  }

  lemma ConsAssoc(out: seq<Stick>, x: Stick, rest: seq<Stick>)
    ensures out + ([x] + rest) == (out + [x]) + rest
  {
  }

  /** The layout `placed | left run | right run` of an in-place merge: taking
      the head of the left run only moves the boundary. */
  lemma TakeLeftLayout(pre: seq<Stick>, out: seq<Stick>, xs: seq<Stick>, ys: seq<Stick>, post: seq<Stick>)
    requires |xs| > 0
    ensures pre + out + xs + ys + post == pre + (out + [xs[0]]) + xs[1..] + ys + post
  {
    assert xs == [xs[0]] + xs[1..];
  }

  /** Rotating the head of the right run in front of the left run. */
  lemma TakeRightLayout(b: seq<Stick>, pre: seq<Stick>, out: seq<Stick>, xs: seq<Stick>, ys: seq<Stick>, post: seq<Stick>)
    requires |ys| > 0
    requires b == pre + out + xs + ys + post
    ensures MoveBack(b, |pre| + |out| + |xs|, |pre| + |out|) == pre + (out + [ys[0]]) + xs + ys[1..] + post
  {
    var l, s2 := |pre| + |out|, |pre| + |out| + |xs|;
    assert b[..l] == pre + out;
    assert b[s2] == ys[0];
    assert b[l..s2] == xs;
    assert b[s2 + 1..] == ys[1..] + post;
  }

  /** The loop of `inPlaceMerge`, entered when the last stick of the left half
      is above the first of the right half: while both halves are non-empty,
      compare their heads (one comparison, two accesses); keep the left head
      when it is at most the right head, otherwise rotate the right head in
      front of the left half. The range becomes the reference merge of the two
      halves, at least one rotation happens, and every rotation costs at most
      one write more than two per stick of the left half. */
  method InPlaceMergeLoop(a: seq<Stick>, left: int, mid: int, right: int, c: Counters) returns (b: seq<Stick>, c': Counters)
    requires 0 <= left <= mid < right < |a|
    requires a[mid].data > a[mid + 1].data
    ensures |b| == |a|
    ensures b == a[..left] + MergeSeqs(a[left..mid + 1], a[mid + 1..right + 1]) + a[right + 1..]
    ensures c.comparisons + Min(mid + 1 - left, right - mid) <= c'.comparisons < c.comparisons + (right + 1 - left)
    ensures c.accesses + 2 * (c'.comparisons - c.comparisons) < c'.accesses
            <= c.accesses + 2 * (c'.comparisons - c.comparisons) + (right - mid) * (2 * (mid + 1 - left) + 1)
  {
    ghost var out: seq<Stick>, xs, ys := [], a[left..mid + 1], a[mid + 1..right + 1];
    b, c' := a, c;
    var l, s2 := left, mid + 1;
    LoopStart(a, left, mid, right, c);
    while l <= s2 - 1 && s2 <= right
      invariant LoopState(a, left, mid, right, c, b, l, s2, c', out, xs, ys)
      decreases right + 1 - l
    {
      b, l, s2, c', out, xs, ys := InPlaceMergeRound(a, left, mid, right, c, b, l, s2, c', out, xs, ys);
    }
    LoopExit(a, left, mid, right, c, b, l, s2, c', out, xs, ys);
  }

  /** Before the first comparison nothing is placed and the halves are whole. */
  lemma LoopStart(a: seq<Stick>, left: int, mid: int, right: int, c: Counters)
    requires 0 <= left <= mid < right < |a|
    ensures LoopState(a, left, mid, right, c, a, left, mid + 1, c, [], a[left..mid + 1], a[mid + 1..right + 1])
  {
    CutInFour(a, left, mid + 1, right + 1);
    assert a == a[..left] + [] + a[left..mid + 1] + a[mid + 1..right + 1] + a[right + 1..];
  }

  /** Once a half is used up, the range is the reference merge and the
      counters are within their bounds. */
  lemma LoopExit(a: seq<Stick>, left: int, mid: int, right: int, c: Counters,
                 b: seq<Stick>, l: int, s2: int, c': Counters,
                 out: seq<Stick>, xs: seq<Stick>, ys: seq<Stick>)
    requires LoopState(a, left, mid, right, c, b, l, s2, c', out, xs, ys)
    requires !(l <= s2 - 1 && s2 <= right)
    ensures |b| == |a|
    ensures b == a[..left] + MergeSeqs(a[left..mid + 1], a[mid + 1..right + 1]) + a[right + 1..]
    ensures c.comparisons + Min(mid + 1 - left, right - mid) <= c'.comparisons < c.comparisons + (right + 1 - left)
    ensures c.accesses + 2 * (c'.comparisons - c.comparisons) < c'.accesses
            <= c.accesses + 2 * (c'.comparisons - c.comparisons) + (right - mid) * (2 * (mid + 1 - left) + 1)
  {
    FinishInPlaceMerge(b, a[..left], out, xs, ys, a[right + 1..], MergeSeqs(a[left..mid + 1], a[mid + 1..right + 1]));
    BudgetBound(right + 1 - mid - 1 - |ys|, right - mid, 2 * (mid + 1 - left) + 1);
  }

  /** What holds between two comparisons of `inPlaceMerge`: `b` is laid out as
      `placed | rest of left half | rest of right half` inside the untouched
      ends, one comparison was made per placed stick, and the accesses lie
      between two per comparison plus three per rotation and two per
      comparison plus one budget per rotation. */
  ghost predicate LoopState(a: seq<Stick>, left: int, mid: int, right: int, c: Counters,
                            b: seq<Stick>, l: int, s2: int, c': Counters,
                            out: seq<Stick>, xs: seq<Stick>, ys: seq<Stick>)
  {
    && 0 <= left <= l <= s2 <= right + 1 <= |a|
    && left <= mid < right
    && MergeState(b, a[..left], out, xs, ys, a[right + 1..], MergeSeqs(a[left..mid + 1], a[mid + 1..right + 1]))
    && |out| == l - left && |xs| == s2 - l && |ys| == right + 1 - s2
    && |ys| <= right - mid && |xs| <= mid + 1 - left
    && (|ys| == right - mid ==> ys == a[mid + 1..right + 1] && |xs| > 0 && xs[|xs| - 1] == a[mid])
    && |xs| + |ys| > 0
    && c'.comparisons == c.comparisons + |out|
    && c.accesses + 2 * |out| + 3 * (right - mid - |ys|) <= c'.accesses
    && c'.accesses <= c.accesses + 2 * |out| + Budget(right - mid - |ys|, 2 * (mid + 1 - left) + 1)
  }

  /** One pass of the loop body of `inPlaceMerge`. */
  method InPlaceMergeRound(a: seq<Stick>, left: int, mid: int, right: int, c: Counters,
                           b: seq<Stick>, l: int, s2: int, c1: Counters,
                           ghost out: seq<Stick>, ghost xs: seq<Stick>, ghost ys: seq<Stick>)
    returns (b': seq<Stick>, l': int, s2': int, c': Counters,
             ghost out': seq<Stick>, ghost xs': seq<Stick>, ghost ys': seq<Stick>)
    requires LoopState(a, left, mid, right, c, b, l, s2, c1, out, xs, ys)
    requires l <= s2 - 1 && s2 <= right && a[mid].data > a[mid + 1].data
    ensures LoopState(a, left, mid, right, c, b', l', s2', c', out', xs', ys')
    ensures l' == l + 1
  {
    if |ys| == right - mid {
      assert ys[0] == a[mid + 1];
      assert |xs| == 1 ==> xs[0].data > ys[0].data;
    }
    b', l', s2', c', out', xs', ys' :=
      InPlaceMergeStep(b, l, s2, c1, a[..left], out, xs, ys, a[right + 1..],
                       MergeSeqs(a[left..mid + 1], a[mid + 1..right + 1]));
    if |ys'| == right - mid {
      assert xs[0].data <= ys[0].data && |xs| > 1;
      assert xs'[|xs'| - 1] == xs[|xs| - 1];
    }
  }

  /** `k` rotations of at most `w` accesses each, summed one at a time. */
  ghost function Budget(k: nat, w: int): int
  {
    if k == 0 then 0 else Budget(k - 1, w) + w
  }

  /** Once one run is empty the layout already holds the merge. */
  lemma FinishInPlaceMerge(b: seq<Stick>, pre: seq<Stick>, out: seq<Stick>, xs: seq<Stick>, ys: seq<Stick>, post: seq<Stick>, full: seq<Stick>)
    requires MergeState(b, pre, out, xs, ys, post, full)
    requires |xs| == 0 || |ys| == 0
    ensures b == pre + full + post
  {
    if |xs| == 0 {
      assert MergeSeqs(xs, ys) == ys && xs + ys == ys;
    } else {
      assert MergeSeqs(xs, ys) == xs && xs + ys == xs;
    }
    assert out + (xs + ys) == full;
    RegroupLayout(pre, out, xs, ys, post);
  }

  lemma {:induction false} BudgetBound(x: nat, y: nat, w: int)
    requires x <= y && 0 <= w
    ensures Budget(x, w) <= y * w
  {
    if x == 0 {
      assert 0 <= y * w;
    } else {
      BudgetBound(x - 1, y - 1, w);
      assert (y - 1) * w + w == y * w;
    }
  }

  /** `inPlaceMerge(left, mid, right)`. When the last stick of the left half
      is at most the first of the right half, nothing moves and the counters
      grow by two comparisons and one access; otherwise the loop merges the
      halves. When the left half is sorted, the range ends up as the reference
      merge of the halves either way. */
  method InPlaceMerge(a: seq<Stick>, left: int, mid: int, right: int, c: Counters) returns (b: seq<Stick>, c': Counters)
    requires 0 <= left <= mid < right < |a|
    ensures |b| == |a|
    ensures a[mid].data <= a[mid + 1].data ==> b == a && c' == Counters(c.comparisons + 2, c.accesses + 1)
    ensures a[mid].data > a[mid + 1].data ==>
              b == a[..left] + MergeSeqs(a[left..mid + 1], a[mid + 1..right + 1]) + a[right + 1..]
    ensures a[mid].data > a[mid + 1].data ==>
              c.comparisons + Min(mid + 1 - left, right - mid) <= c'.comparisons < c.comparisons + (right + 1 - left)
    ensures a[mid].data > a[mid + 1].data ==>
              c.accesses + 2 * (c'.comparisons - c.comparisons) < c'.accesses
              <= c.accesses + 2 * (c'.comparisons - c.comparisons) + (right - mid) * (2 * (mid + 1 - left) + 1)
    ensures Sorted(a[left..mid + 1]) ==>
              b == a[..left] + MergeSeqs(a[left..mid + 1], a[mid + 1..right + 1]) + a[right + 1..]
  {
    if a[mid].data <= a[mid + 1].data {
      ghost var xa, ya := a[left..mid + 1], a[mid + 1..right + 1];
      if Sorted(xa) {
        MergeOrderedRuns(xa, ya);
        CutInFour(a, left, mid + 1, right + 1);
      }
      return a, Counters(c.comparisons + 2, c.accesses + 1);
    }
    b, c' := InPlaceMergeLoop(a, left, mid, right, c);
  }

  /** Cutting a sequence at three positions and gluing the pieces back. */
  lemma CutInFour(a: seq<Stick>, i: int, j: int, k: int)
    requires 0 <= i <= j <= k <= |a|
    ensures a == a[..i] + a[i..j] + a[j..k] + a[k..]
  {
    assert a[..j] == a[..i] + a[i..j];
    assert a[..k] == a[..j] + a[j..k];
    assert a == a[..k] + a[k..];
  }

  lemma RegroupLayout(pre: seq<Stick>, out: seq<Stick>, xs: seq<Stick>, ys: seq<Stick>, post: seq<Stick>)
    ensures pre + out + xs + ys + post == pre + (out + (xs + ys)) + post
  {
  }

  /** A sorted half sitting inside the layout is sorted where `inPlaceMerge`
      looks at it. */
  lemma LeftHalfInPlace(a: seq<Stick>, b2: seq<Stick>, left: int, mid: int, right: int)
    requires 0 <= left <= mid < right < |a| == |b2|
    requires b2 == a[..left] + MergeSortSeq(a[left..mid + 1]) + MergeSortSeq(a[mid + 1..right + 1]) + a[right + 1..]
    ensures Sorted(b2[left..mid + 1])
  {
    MergeSortSeqLength(a[left..mid + 1]);
    MergeSortSeqLength(a[mid + 1..right + 1]);
    assert b2[left..mid + 1] == MergeSortSeq(a[left..mid + 1]);
    MergeSortSeqSorted(a[left..mid + 1]);
  }

  /** `inPlaceMergeSort(left, right)`: sort both halves, then merge them in
      place. It ends in the same order as `mergeSort`: the reference sort of
      the range, with the rest of the sequence untouched. */
  method InPlaceMergeSort(a: seq<Stick>, left: int, right: int, c: Counters) returns (b: seq<Stick>, c': Counters)
    requires 0 <= left && right < |a|
    ensures |b| == |a|
    ensures right <= left ==> b == a && c' == c
    ensures left <= right ==> b == a[..left] + MergeSortSeq(a[left..right + 1]) + a[right + 1..]
    ensures c.comparisons <= c'.comparisons && c.accesses <= c'.accesses
    decreases right - left, 1
  {
    if left >= right {
      if left == right {
        assert MergeSortSeq(a[left..right + 1]) == a[left..right + 1];
        assert a == a[..left] + a[left..right + 1] + a[right + 1..];
      }
      return a, c;
    }
    var mid := left + (right - left) / 2;
    Midpoint(left, right);
    b, c' := SortHalvesInPlace(a, left, mid, right, c);
  }

  /** The recursive case of `inPlaceMergeSort`: sort both halves, then
      `inPlaceMerge` them. */
  method SortHalvesInPlace(a: seq<Stick>, left: int, mid: int, right: int, c: Counters)
    returns (b: seq<Stick>, c': Counters)
    requires 0 <= left <= mid < right < |a|
    requires mid + 1 - left == LeftHalf(right + 1 - left)
    ensures |b| == |a|
    ensures b == a[..left] + MergeSortSeq(a[left..right + 1]) + a[right + 1..]
    ensures c.comparisons <= c'.comparisons && c.accesses <= c'.accesses
    decreases right - left, 0
  {
    var b1, c1 := InPlaceMergeSort(a, left, mid, c);
    var b2, c2 := InPlaceMergeSort(b1, mid + 1, right, c1);
    SortBothHalves(a, b1, b2, left, mid, right);
    LeftHalfInPlace(a, b2, left, mid, right);
    b, c' := InPlaceMerge(b2, left, mid, right, c2);
    MergeSortedHalves(a, b2, b, left, mid, right);
  }

  /** `processInPlaceMergeSort`: in-place merge sort of the whole collection;
      sorted, stable, and the same order `processMergeSort` produces. */
  method ProcessInPlaceMergeSort(a: seq<Stick>, c: Counters) returns (b: seq<Stick>, c': Counters)
    ensures Sorted(b) && Stable(a, b) && multiset(b) == multiset(a)
    ensures b == MergeSortSeq(a)
    ensures c.comparisons <= c'.comparisons && c.accesses <= c'.accesses
  {
    b, c' := InPlaceMergeSort(a, 0, |a| - 1, c);
    if |a| > 0 {
      assert a[0..|a|] == a && a[..0] + MergeSortSeq(a) + a[|a|..] == MergeSortSeq(a);
    }
    MergeSortSeqSorted(a);
    MergeSortSeqStable(a);
    StableIsPermutation(a, b);
  }
}
