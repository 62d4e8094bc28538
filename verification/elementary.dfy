/** The three quadratic sorts of the collection controller: bubble, insertion and
    selection sort. These are the algorithms that poll the stop flag; each one
    leaves a permutation of its input however early it is stopped, and a sorted
    sequence when it is never stopped. */
module Elementary {
  import opened Sticks

  // ---------------------------------------------------------------------------
  // Bubble sort

  /** One pass of bubble sort over the unsorted prefix `[0, |a| - i)`: compare
      each pair of neighbours and swap them when the right one is strictly
      smaller. The pass polls the flag before every comparison and stops at the
      first poll that sees NOT_SORTING. */
  method BubblePass(a: seq<Stick>, i: nat, flag: StopFlag, polls: nat, c: Counters)
    returns (b: seq<Stick>, swapped: bool, polls': nat, c': Counters, stopped: bool)
    requires i < |a|
    ensures |b| == |a| && b[|a| - i..] == a[|a| - i..]
    ensures Stable(a, b)
    ensures multiset(b[..|a| - i]) == multiset(a[..|a| - i])
    ensures !swapped ==> b == a
    ensures c.comparisons <= c'.comparisons <= c.comparisons + (|a| - i - 1)
    ensures c'.accesses == c.accesses + 2 * (c'.comparisons - c.comparisons)
    ensures stopped <==> polls < polls' && Observed(flag, polls' - 1)
    ensures forall k :: polls <= k < polls' - 1 ==> !Observed(flag, k)
    ensures c'.comparisons - c.comparisons == polls' - polls - (if stopped then 1 else 0)
    ensures flag.NeverStopped? ==> !stopped
    ensures !stopped ==> polls' == polls + (|a| - i - 1) && c'.comparisons == c.comparisons + (|a| - i - 1)
    ensures !stopped ==> forall k :: 0 <= k < |a| - i ==> b[k].data <= b[|a| - i - 1].data
    ensures !stopped ==> (!swapped <==> SortedBetween(a, 0, |a| - i))
  {
    var n := |a| - i;
    b, swapped, polls', c', stopped := a, false, polls, c, false;
    var j := 1;
    while j < n
      invariant 1 <= j <= n
      invariant PassState(a, b, n, j, swapped)
      invariant polls' == polls + (j - 1)
      invariant c' == Counters(c.comparisons + (j - 1), c.accesses + 2 * (j - 1))
      invariant forall k :: polls <= k < polls' ==> !Observed(flag, k)
    {
      if Observed(flag, polls') {
        polls', stopped := polls' + 1, true;
        break;
      }
      polls' := polls' + 1;
      c' := Counters(c'.comparisons + 1, c'.accesses + 2);
      b, swapped := CompareNeighbours(a, b, n, j, swapped);
      j := j + 1;
    }
    StableIsPermutation(a, b);
    RangePermutation(a, b, 0, n);
    assert a[..n] == a[0..n] && b[..n] == b[0..n];
  }

  /** What a pass has done after its first `j - 1` comparisons: `b` is a
      stable rearrangement of `a` that differs only before `n`, it differs at
      all exactly when `a[0, j)` was not sorted, and `b[j - 1]` carries the
      largest data of `b[0, j)`. */
  ghost predicate PassState(a: seq<Stick>, b: seq<Stick>, n: int, j: int, swapped: bool)
  {
    1 <= j <= n <= |a| == |b| && b[n..] == a[n..] && Stable(a, b) &&
    (!swapped ==> b == a && SortedBetween(a, 0, j)) &&
    (swapped ==> !SortedBetween(a, 0, j)) &&
    (forall k :: 0 <= k < j ==> b[k].data <= b[j - 1].data)
  }

  /** The comparison of a pass between `b[j - 1]` and `b[j]`: swap them when
      the right one is strictly smaller. */
  method CompareNeighbours(a: seq<Stick>, b: seq<Stick>, n: int, j: int, swapped: bool)
    returns (b': seq<Stick>, swapped': bool)
    requires j < n && PassState(a, b, n, j, swapped)
    ensures PassState(a, b', n, j + 1, swapped')
  {
    b', swapped' := b, swapped;
    if Less(b[j], b[j - 1]) {
      SwapNeighboursStable(b, j);
      StableTransitive(a, b, b[j - 1 := b[j]][j := b[j - 1]]);
      b' := b[j - 1 := b[j]][j := b[j - 1]];
      swapped' := true;
    }
  }

  /** One round of the outer loop of bubble sort: a pass over the unsorted
      prefix `[0, |a| - i)`. Given that the suffix from `|a| - i` on is already
      in its final order, a complete pass extends it by one stick; a complete
      pass without swaps leaves the whole sequence sorted. */
  method BubbleRound(a: seq<Stick>, i: nat, flag: StopFlag, polls: nat, c: Counters)
    returns (b: seq<Stick>, swapped: bool, polls': nat, c': Counters, stopped: bool)
    requires i < |a|
    ensures |b| == |a| && Stable(a, b)
    ensures !swapped ==> b == a
    ensures c.comparisons <= c'.comparisons <= c.comparisons + (|a| - i - 1)
    ensures c'.accesses == c.accesses + 2 * (c'.comparisons - c.comparisons)
    ensures flag.NeverStopped? ==> !stopped
    ensures !stopped && SortedBetween(a, 0, |a| - i) ==> !swapped && c'.comparisons == c.comparisons + (|a| - i - 1)
    ensures !stopped && Placed(a, |a| - i) ==> Placed(b, |a| - i - 1)
    ensures !stopped && !swapped && Placed(a, |a| - i) ==> Sorted(b)
  {
    b, swapped, polls', c', stopped := BubblePass(a, i, flag, polls, c);
    if !stopped && Placed(a, |a| - i) {
      PassExtendsSuffix(a, b, |a| - i);
      if !swapped {
        SortedFromParts(b, |a| - i);
      }
    }
  }

  /** The suffix from position `m` on is sorted and holds the largest sticks. */
  predicate Placed(a: seq<Stick>, m: int)
    requires 0 <= m <= |a|
  {
    SortedBetween(a, m, |a|) && Partitioned(a, m)
  }

  /** A pass that moves the largest of the unsorted prefix `[0, m)` to its end
      extends the sorted, partitioned suffix by one position. */
  lemma PassExtendsSuffix(b: seq<Stick>, b': seq<Stick>, m: int)
    requires 0 < m <= |b| == |b'|
    requires Placed(b, m)
    requires b'[m..] == b[m..] && multiset(b'[..m]) == multiset(b[..m])
    requires forall k :: 0 <= k < m ==> b'[k].data <= b'[m - 1].data
    ensures Placed(b', m - 1)
  {
    forall k, l | 0 <= k < m <= l < |b'|
      ensures b'[k].data <= b'[l].data
    {
      assert b'[k] in multiset(b'[..m]);
      var k0 :| 0 <= k0 < m && b[k0] == b'[k];
      assert b'[l] == b[m..][l - m];
    }
    assert forall l :: m <= l < |b'| ==> b'[l] == b[l];
  }

  /** A sorted prefix below a sorted suffix make a sorted sequence. */
  lemma SortedFromParts(b: seq<Stick>, m: int)
    requires 0 <= m <= |b|
    requires SortedBetween(b, 0, m) && Placed(b, m)
    ensures Sorted(b)
  {
  }

  /** The comparisons made by `i` complete rounds over `n` sticks, round `t`
      comparing `n - t - 1` pairs: `(n - 1) + (n - 2) + ... + (n - i)`. */
  function RoundsCost(n: int, i: nat): int
  {
    if i == 0 then 0 else RoundsCost(n, i - 1) + (n - i)
  }

  /** In closed form, `RoundsCost(n, i)` is `i * (2 * n - i - 1) / 2`; it never
      exceeds `n * (n - 1) / 2`, the number of pairs among `n` sticks, which it
      reaches after `n - 1` rounds. */
  lemma {:induction false} RoundsCostClosed(n: int, i: nat)
    requires i <= n
    ensures 2 * RoundsCost(n, i) == i * (2 * n - i - 1)
    ensures 2 * RoundsCost(n, i) <= n * (n - 1)
  {
    if i > 0 {
      RoundsCostClosed(n, i - 1);
      ClosedFormStep(n, i);
    }
    ClosedFormBound(n, i);
  }

  lemma ClosedFormStep(n: int, i: int)
    ensures i * (2 * n - i - 1) == (i - 1) * (2 * n - (i - 1) - 1) + 2 * (n - i)
  {
    var q := 2 * n - i;
    assert i * (q - 1) == i * q - i;
    assert (i - 1) * q == i * q - q;
  }

  lemma ClosedFormBound(n: int, i: int)
    requires 0 <= i <= n
    ensures i * (2 * n - i - 1) <= n * (n - 1)
  {
    var m := n - i;
    assert m * (m - 1) == n * (m - 1) - i * (m - 1);
    assert n * (m - 1) == n * (n - 1) - n * i;
    assert i * (m - 1) == i * (2 * n - i - 1) - i * n;
    assert m * (m - 1) >= 0;
  }

  lemma {:induction false} RoundsCostGrows(n: int, i: nat, j: nat)
    requires i <= j <= n
    ensures RoundsCost(n, i) <= RoundsCost(n, j)
    decreases j
  {
    if i < j {
      RoundsCostGrows(n, i, j - 1);
    }
  }

  /** `processBubbleSort`: passes over a shrinking prefix until a pass makes no
      swap or the flag is seen. */
  method BubbleSort(a: seq<Stick>, flag: StopFlag, c: Counters) returns (b: seq<Stick>, c': Counters)
    ensures Stable(a, b) && multiset(b) == multiset(a)
    ensures flag.NeverStopped? ==> Sorted(b)
    ensures c.comparisons <= c'.comparisons && 2 * (c'.comparisons - c.comparisons) <= |a| * (|a| - 1)
    ensures c'.accesses == c.accesses + 2 * (c'.comparisons - c.comparisons)
    ensures flag.NeverStopped? && Sorted(a) ==>
              b == a && c'.comparisons == c.comparisons + (if |a| == 0 then 0 else |a| - 1)
  {
    b, c' := a, c;
    var polls: nat := 0;
    var i := 0;
    ghost var rounds := 0;
    ghost var sortedInput := flag.NeverStopped? && Sorted(a);
    while i < |b|
      invariant 0 <= i <= |b| == |a|
      invariant rounds == i
      invariant Stable(a, b)
      invariant c.comparisons <= c'.comparisons <= c.comparisons + RoundsCost(|a|, i)
      invariant c'.accesses == c.accesses + 2 * (c'.comparisons - c.comparisons)
      invariant flag.NeverStopped? ==> Placed(b, |b| - i)
      invariant sortedInput ==> i == 0 && b == a && c' == c
    {
      if Observed(flag, polls) {
        break;
      }
      polls := polls + 1;
      ghost var before := b;
      var swapped, stopped;
      b, swapped, polls, c', stopped := BubbleRound(b, i, flag, polls, c');
      StableTransitive(a, before, b);
      rounds := i + 1;
      if !swapped {
        break;
      }
      assert !sortedInput;
      i := i + 1;
    }
    if flag.NeverStopped? && i == |b| {
      SortedFromParts(b, 0);
    }
    RoundsCostGrows(|a|, rounds, |a|);
    RoundsCostClosed(|a|, |a|);
    StableIsPermutation(a, b);
  }

  // ---------------------------------------------------------------------------
  // Insertion sort

  /** The number of sticks of `s` whose data exceed `d`. */
  function Above(s: seq<Stick>, d: int): nat
  {
    if |s| == 0 then 0
    else Above(s[..|s| - 1], d) + (if s[|s| - 1].data > d then 1 else 0)
  }

  /** The number of inversions of `s`: pairs of positions `k < l` with
      `s[k].data > s[l].data`. */
  function Inversions(s: seq<Stick>): nat
  {
    if |s| == 0 then 0
    else Inversions(s[..|s| - 1]) + Above(s[..|s| - 1], s[|s| - 1].data)
  }

  lemma {:induction false} AboveAppend(p: seq<Stick>, q: seq<Stick>, d: int)
    ensures Above(p + q, d) == Above(p, d) + Above(q, d)
    decreases |q|
  {
    if |q| == 0 {
      assert p + q == p;
    } else {
      var q' := q[..|q| - 1];
      assert (p + q)[..|p + q| - 1] == p + q';
      AboveAppend(p, q', d);
    }
  }

  /** `Above` counts sticks: it does not depend on their order. */
  lemma {:induction false} AbovePermutation(a: seq<Stick>, b: seq<Stick>, d: int)
    requires multiset(a) == multiset(b)
    ensures Above(a, d) == Above(b, d)
    decreases |a|
  {
    assert |a| == |multiset(a)| == |multiset(b)| == |b|;
    if |a| > 0 {
      var x := a[|a| - 1];
      var a' := a[..|a| - 1];
      assert a == a' + [x];
      assert x in multiset(b);
      var k :| 0 <= k < |b| && b[k] == x;
      var b' := b[..k] + b[k + 1..];
      assert b == b[..k] + [x] + b[k + 1..];
      PermutationRemove(a', x, b, k);
      AbovePermutation(a', b', d);
      AboveAppend(b[..k] + [x], b[k + 1..], d);
      AboveAppend(b[..k], [x], d);
      AboveAppend(b[..k], b[k + 1..], d);
      assert [x][..0] == [];
    }
  }

  lemma {:induction false} AboveNone(s: seq<Stick>, d: int)
    requires forall k :: 0 <= k < |s| ==> s[k].data <= d
    ensures Above(s, d) == 0
    decreases |s|
  {
    if |s| > 0 {
      AboveNone(s[..|s| - 1], d);
    }
  }

  lemma {:induction false} AboveAll(s: seq<Stick>, d: int)
    requires forall k :: 0 <= k < |s| ==> s[k].data > d
    ensures Above(s, d) == |s|
    decreases |s|
  {
    if |s| > 0 {
      AboveAll(s[..|s| - 1], d);
    }
  }

  /** A sorted sequence has no inversions. */
  lemma {:induction false} SortedHasNoInversions(s: seq<Stick>)
    requires Sorted(s)
    ensures Inversions(s) == 0
    decreases |s|
  {
    if |s| > 0 {
      var p := s[..|s| - 1];
      assert Sorted(p);
      SortedHasNoInversions(p);
      AboveNone(p, s[|s| - 1].data);
    }
  }

  /** The sequence that results from taking the stick at `i` out and putting
      it back at position `p <= i`. */
  function MoveBack(a: seq<Stick>, i: int, p: int): seq<Stick>
    requires 0 <= p <= i < |a|
  {
    a[..p] + [a[i]] + a[p..i] + a[i + 1..]
  }

  /** After the sticks of `[p, i)` have been shifted one place right, writing
      the key into the gap at `p` moves the key back to `p`. */
  lemma FillGap(a: seq<Stick>, b: seq<Stick>, i: int, p: int)
    requires 0 <= p <= i < |a| == |b|
    requires forall k :: 0 <= k < p ==> b[k] == a[k]
    requires forall k :: p + 1 <= k <= i ==> b[k] == a[k - 1]
    requires forall k :: i < k < |a| ==> b[k] == a[k]
    ensures b[p := a[i]] == MoveBack(a, i, p)
    ensures MoveBack(a, i, p)[i + 1..] == a[i + 1..]
  {
  }

  /** Moving a stick back over sticks that all carry larger data keeps every
      key's subsequence. */
  lemma MoveBackStable(a: seq<Stick>, i: int, p: int)
    requires 0 <= p <= i < |a|
    requires forall k :: p <= k < i ==> a[k].data > a[i].data
    ensures Stable(a, MoveBack(a, i, p))
  {
    var x := a[i];
    var P, M, R := a[..p], a[p..i], a[i + 1..];
    assert a == P + M + [x] + R;
    assert MoveBack(a, i, p) == P + [x] + M + R;
    forall y | y in M
      ensures y.data > x.data
    {
      var k :| 0 <= k < |M| && M[k] == y;
      assert a[p + k] == y;
    }
    forall d
      ensures WithData(P + [x] + M + R, d) == WithData(P + M + [x] + R, d)
    {
      MoveOverLarger(P, x, M, R, d);
    }
  }

  /** One key's subsequence is the same whether `x` stands before or after a
      block of sticks that all carry larger data. */
  lemma MoveOverLarger(P: seq<Stick>, x: Stick, M: seq<Stick>, R: seq<Stick>, d: int)
    requires forall y :: y in M ==> y.data > x.data
    ensures WithData(P + [x] + M + R, d) == WithData(P + M + [x] + R, d)
  {
    WithData4(P, [x], M, R, d);
    WithData4(P, M, [x], R, d);
    WithDataSingle(x, d);
    if d == x.data {
      WithDataEmpty(M, d);
    }
    SwapEmpty(WithData(P, d), WithData([x], d), WithData(M, d), WithData(R, d));
  }


  /** Moving the stick at `i` back to its place in the sorted prefix `[0, i)`
      leaves the prefix `[0, i]` sorted. */
  lemma MoveBackSorted(a: seq<Stick>, i: int, p: int)
    requires 0 <= p <= i < |a|
    requires SortedBetween(a, 0, i)
    requires forall k :: p <= k < i ==> a[k].data > a[i].data
    requires p == 0 || a[p - 1].data <= a[i].data
    ensures SortedBetween(MoveBack(a, i, p), 0, i + 1)
  {
    var b := MoveBack(a, i, p);
    assert forall k :: 0 <= k < p ==> b[k] == a[k];
    assert b[p] == a[i];
    assert forall k :: p < k <= i ==> b[k] == a[k - 1];
    forall k, l | 0 <= k < l <= i
      ensures b[k].data <= b[l].data
    {
      if l < p {
        assert b[k] == a[k] && b[l] == a[l];
      } else if l == p {
        assert b[k] == a[k];
      } else if k < p {
        assert b[k] == a[k] && b[l] == a[l - 1];
      } else if k == p {
        assert b[l] == a[l - 1];
      } else {
        assert b[k] == a[k - 1] && b[l] == a[l - 1];
      }
    }
  }

  /** The sticks a key passes over when it is moved back to its place in the
      sorted prefix `[0, i)` are exactly the sticks of the prefix with larger
      data. */
  lemma MoveBackShifts(a: seq<Stick>, i: int, p: int)
    requires 0 <= p <= i < |a|
    requires SortedBetween(a, 0, i)
    requires forall k :: p <= k < i ==> a[k].data > a[i].data
    requires p == 0 || a[p - 1].data <= a[i].data
    ensures Above(a[..i], a[i].data) == i - p
  {
    assert a[..i] == a[..p] + a[p..i];
    AboveAppend(a[..p], a[p..i], a[i].data);
    AboveNone(a[..p], a[i].data);
    AboveAll(a[p..i], a[i].data);
  }

  /** The scan of one insertion: shift the sticks before `i` with strictly larger
      data than the key one place to the right, polling the flag before each
      shift, and stop at the first stick that is not larger. The gap is left at
      `j + 1`. */
  method ShiftLarger(a: seq<Stick>, i: nat, flag: StopFlag, polls: nat, c: Counters)
    returns (b: seq<Stick>, j: int, polls': nat, c': Counters, stopped: bool)
    requires 0 < i < |a|
    ensures -1 <= j <= i - 1 && |b| == |a|
    ensures forall k :: 0 <= k <= j ==> b[k] == a[k]
    ensures forall k :: j + 2 <= k <= i ==> b[k] == a[k - 1]
    ensures forall k :: i < k < |a| ==> b[k] == a[k]
    ensures forall k :: j + 1 <= k < i ==> a[k].data > a[i].data
    ensures !stopped ==> j == -1 || a[j].data <= a[i].data
    ensures c' == Counters(c.comparisons + (i - 1 - j), c.accesses + 2 * (i - 1 - j))
    ensures stopped <==> polls < polls' && Observed(flag, polls' - 1)
    ensures flag.NeverStopped? ==> !stopped
  {
    var key := a[i];
    j := i - 1;
    b, polls', c', stopped := a, polls, c, false;
    while j >= 0 && Less(key, b[j])
      invariant -1 <= j <= i - 1
      invariant |b| == |a|
      invariant forall k :: 0 <= k <= j ==> b[k] == a[k]
      invariant forall k :: j + 2 <= k <= i ==> b[k] == a[k - 1]
      invariant forall k :: i < k < |a| ==> b[k] == a[k]
      invariant forall k :: j + 1 <= k < i ==> a[k].data > key.data
      invariant c' == Counters(c.comparisons + (i - 1 - j), c.accesses + 2 * (i - 1 - j))
      invariant polls' == polls + (i - 1 - j)
      invariant polls < polls' ==> !Observed(flag, polls' - 1)
    {
      if Observed(flag, polls') {
        polls', stopped := polls' + 1, true;
        break;
      }
      polls' := polls' + 1;
      c' := Counters(c'.comparisons + 1, c'.accesses + 1);
      b := b[j + 1 := b[j]];
      c' := Counters(c'.comparisons, c'.accesses + 1);
      j := j - 1;
    }
  }

  /** One iteration of the outer loop of insertion sort: take the stick at `i`
      as the key, shift the larger sticks before it (`ShiftLarger`), and write
      the key into the gap. Only the shifts are counted as comparisons; the
      comparison that ends the scan is not. */
  method InsertKey(a: seq<Stick>, i: nat, flag: StopFlag, polls: nat, c: Counters)
    returns (b: seq<Stick>, polls': nat, c': Counters, stopped: bool)
    requires 0 < i < |a|
    ensures |b| == |a| && b[i + 1..] == a[i + 1..]
    ensures Stable(a, b)
    ensures c.comparisons <= c'.comparisons <= c.comparisons + i
    ensures c'.accesses == c.accesses + 2 + 2 * (c'.comparisons - c.comparisons)
    ensures stopped <==> polls < polls' && Observed(flag, polls' - 1)
    ensures flag.NeverStopped? ==> !stopped
    ensures !stopped && SortedBetween(a, 0, i) ==>
              SortedBetween(b, 0, i + 1) && c'.comparisons == c.comparisons + Above(a[..i], a[i].data)
  {
    var key := a[i];
    var shifted, j;
    shifted, j, polls', c', stopped := ShiftLarger(a, i, flag, polls, Counters(c.comparisons, c.accesses + 1));
    FillGap(a, shifted, i, j + 1);
    b := shifted[j + 1 := key];
    c' := Counters(c'.comparisons, c'.accesses + 1);
    MoveBackStable(a, i, j + 1);
    if !stopped && SortedBetween(a, 0, i) {
      MoveBackSorted(a, i, j + 1);
      MoveBackShifts(a, i, j + 1);
    }
  }

  /** `processInsertionSort`: insert each stick in turn into the sorted prefix
      before it, polling the flag before each one. Insertion sort never moves a
      stick past one with equal data, so it is stable; its comparison counter
      grows by exactly the number of inversions of the input. */
  method InsertionSort(a: seq<Stick>, flag: StopFlag, c: Counters) returns (b: seq<Stick>, c': Counters)
    ensures Stable(a, b) && multiset(b) == multiset(a)
    ensures c.comparisons <= c'.comparisons
    ensures c.accesses + 2 * (c'.comparisons - c.comparisons) <= c'.accesses
    ensures flag.NeverStopped? ==> Sorted(b)
    ensures flag.NeverStopped? ==> c'.comparisons == c.comparisons + Inversions(a)
    ensures flag.NeverStopped? ==>
              c'.accesses == c.accesses + (if |a| == 0 then 0 else 2 * (|a| - 1)) + 2 * Inversions(a)
  {
    b, c' := a, c;
    var polls: nat := 0;
    if |a| == 0 {
      return;
    }
    var i := 1;
    while i < |b|
      invariant 1 <= i <= |b| == |a|
      invariant Stable(a, b)
      invariant b[i..] == a[i..]
      invariant multiset(b[..i]) == multiset(a[..i])
      invariant c.comparisons <= c'.comparisons
      invariant c'.accesses == c.accesses + 2 * (i - 1) + 2 * (c'.comparisons - c.comparisons)
      invariant flag.NeverStopped? ==> SortedBetween(b, 0, i)
      invariant flag.NeverStopped? ==>
                  c' == Counters(c.comparisons + Inversions(a[..i]), c.accesses + 2 * (i - 1) + 2 * Inversions(a[..i]))
    {
      if Observed(flag, polls) {
        break;
      }
      polls := polls + 1;
      ghost var before := b;
      var stopped;
      b, polls, c', stopped := InsertKey(b, i, flag, polls, c');
      StableTransitive(a, before, b);
      InsertionStep(a, before, b, i);
      i := i + 1;
    }
    assert a[..|a|] == a;
    StableIsPermutation(a, b);
  }

  /** Bookkeeping for one outer iteration of insertion sort: the prefix
      `[0, i]` is again a permutation of the input's, and the key met exactly the
      sticks of the input's prefix `[0, i)` that exceed it. */
  lemma InsertionStep(a: seq<Stick>, before: seq<Stick>, b: seq<Stick>, i: int)
    requires 0 < i < |a| == |before| == |b|
    requires before[i..] == a[i..] && multiset(before[..i]) == multiset(a[..i])
    requires Stable(before, b) && b[i + 1..] == before[i + 1..]
    ensures b[i + 1..] == a[i + 1..]
    ensures multiset(b[..i + 1]) == multiset(a[..i + 1])
    ensures Above(before[..i], before[i].data) == Above(a[..i], a[i].data)
    ensures Inversions(a[..i + 1]) == Inversions(a[..i]) + Above(a[..i], a[i].data)
  {
    assert before[i] == a[i] by {
      assert before[i] == before[i..][0];
    }
    assert b[i + 1..] == a[i + 1..] by {
      assert before[i + 1..] == before[i..][1..];
      assert a[i + 1..] == a[i..][1..];
    }
    StableIsPermutation(before, b);
    RangePermutation(before, b, 0, i + 1);
    assert before[..i + 1] == before[..i] + [a[i]];
    assert a[..i + 1] == a[..i] + [a[i]];
    assert b[..i + 1] == b[0..i + 1] && before[..i + 1] == before[0..i + 1];
    AbovePermutation(before[..i], a[..i], a[i].data);
    assert a[..i + 1][..i] == a[..i];
  }

  // ---------------------------------------------------------------------------
  // Selection sort

  /** Position `m` holds the first minimum of `[i, |a|)`: nothing in the range
      has smaller data, and everything before `m` in the range has larger data. */
  predicate FirstMinimum(a: seq<Stick>, i: int, m: int)
    requires 0 <= i <= m < |a|
  {
    && (forall k :: i <= k < |a| ==> a[m].data <= a[k].data)
    && (forall k :: i <= k < m ==> a[k].data > a[m].data)
  }

  /** The inner loop of selection sort: scan `[i + 1, |a|)` for a stick with
      strictly smaller data than the best so far, polling the flag before each
      comparison. */
  method ScanMinimum(a: seq<Stick>, i: nat, flag: StopFlag, polls: nat, c: Counters)
    returns (m: nat, polls': nat, c': Counters, stopped: bool)
    requires i < |a|
    ensures i <= m < |a|
    ensures c.comparisons <= c'.comparisons <= c.comparisons + (|a| - i - 1)
    ensures c'.accesses == c.accesses + (c'.comparisons - c.comparisons)
    ensures stopped <==> polls < polls' && Observed(flag, polls' - 1)
    ensures forall k :: polls <= k < polls' - 1 ==> !Observed(flag, k)
    ensures c'.comparisons - c.comparisons == polls' - polls - (if stopped then 1 else 0)
    ensures flag.NeverStopped? ==> !stopped
    ensures !stopped ==> FirstMinimum(a, i, m) && c'.comparisons == c.comparisons + (|a| - i - 1)
  {
    m, polls', c', stopped := i, polls, c, false;
    var j := i + 1;
    while j < |a|
      invariant i < j <= |a| && i <= m < j
      invariant forall k :: i <= k < j ==> a[m].data <= a[k].data
      invariant forall k :: i <= k < m ==> a[k].data > a[m].data
      invariant polls' == polls + (j - i - 1)
      invariant c' == Counters(c.comparisons + (j - i - 1), c.accesses + (j - i - 1))
      invariant forall k :: polls <= k < polls' ==> !Observed(flag, k)
    {
      if Observed(flag, polls') {
        polls', stopped := polls' + 1, true;
        break;
      }
      polls' := polls' + 1;
      c' := Counters(c'.comparisons + 1, c'.accesses + 1);
      if a[j].data < a[m].data {
        m := j;
      }
      j := j + 1;
    }
  }

  /** Exchanging position `i` with the first minimum of `[i, |a|)` extends a
      sorted, partitioned prefix by one position. */
  lemma SelectExtendsPrefix(a: seq<Stick>, i: int, m: int)
    requires 0 <= i <= m < |a|
    requires SortedBetween(a, 0, i) && Partitioned(a, i)
    requires FirstMinimum(a, i, m)
    ensures SortedBetween(a[i := a[m]][m := a[i]], 0, i + 1)
    ensures Partitioned(a[i := a[m]][m := a[i]], i + 1)
  {
    var b := a[i := a[m]][m := a[i]];
    assert b[i] == a[m];
    assert forall l :: i < l < |b| ==> b[l] == a[l] || b[l] == a[i];
    assert forall k :: 0 <= k < i ==> b[k] == a[k];
  }

  /** One round of the outer loop of selection sort: scan `[i, |b|)` for its
      first minimum (the scan may be stopped part-way), then exchange the best
      stick found, at `m`, with position `i`. The exchange and its three
      accesses happen even after a stopped scan. */
  method SelectRound(b: seq<Stick>, i: nat, flag: StopFlag, polls: nat, c: Counters)
    returns (b': seq<Stick>, m: nat, polls': nat, c': Counters)
    requires i < |b|
    ensures i <= m < |b| && b' == b[i := b[m]][m := b[i]]
    ensures |b'| == |b| && multiset(b') == multiset(b)
    ensures c.comparisons <= c'.comparisons <= c.comparisons + (|b| - i - 1)
    ensures c'.accesses == c.accesses + (c'.comparisons - c.comparisons) + 3
    ensures flag.NeverStopped? ==> FirstMinimum(b, i, m) && c'.comparisons == c.comparisons + (|b| - i - 1)
    ensures flag.NeverStopped? && SortedBetween(b, 0, i) && Partitioned(b, i) ==>
              SortedBetween(b', 0, i + 1) && Partitioned(b', i + 1)
  {
    var stopped;
    m, polls', c', stopped := ScanMinimum(b, i, flag, polls, c);
    if flag.NeverStopped? && SortedBetween(b, 0, i) && Partitioned(b, i) {
      SelectExtendsPrefix(b, i, m);
    }
    c' := Counters(c'.comparisons, c'.accesses + 3);
    b' := b[i := b[m]][m := b[i]];
  }

  /** `processSelectionSort`: for each position but the last, find the first
      minimum of the rest and swap it into place, polling the flag before the
      scan and before every comparison. The swap and its three accesses happen
      even when the scan was cut short. The source needs at least one stick: the
      bound `size() - 1` is unsigned, and the final colouring step reads the last
      stick. */
  method SelectionSort(a: seq<Stick>, flag: StopFlag, c: Counters) returns (b: seq<Stick>, c': Counters)
    requires |a| >= 1
    ensures multiset(b) == multiset(a)
    ensures c.comparisons <= c'.comparisons && c.accesses <= c'.accesses
    ensures flag.NeverStopped? ==> Sorted(b)
    ensures flag.NeverStopped? ==> 2 * (c'.comparisons - c.comparisons) == |a| * (|a| - 1)
    ensures flag.NeverStopped? ==> c'.accesses == c.accesses + (c'.comparisons - c.comparisons) + 3 * (|a| - 1)
    ensures SwapAccesses(c, c') % 3 == 0 && SwapAccesses(c, c') <= 3 * (|a| - 1)
  {
    b, c' := a, c;
    var polls: nat := 0;
    var i := 0;
    while i < |b| - 1
      invariant SelectState(a, flag, c, b, c', i)
    {
      if Observed(flag, polls) {
        break;
      }
      polls := polls + 1;
      b, polls, c' := SelectStep(a, flag, c, b, i, polls, c');
      i := i + 1;
    }
    SelectionDone(a, flag, c, b, c', i);
  }

  /** When the outer loop ends, all `n - 1` rounds ran unless the run was
      stopped. */
  lemma SelectionDone(a: seq<Stick>, flag: StopFlag, c: Counters, b: seq<Stick>, c': Counters, i: int)
    requires SelectState(a, flag, c, b, c', i)
    requires flag.NeverStopped? ==> i == |a| - 1
    ensures multiset(b) == multiset(a)
    ensures c.comparisons <= c'.comparisons && c.accesses <= c'.accesses
    ensures flag.NeverStopped? ==> Sorted(b)
    ensures flag.NeverStopped? ==> 2 * (c'.comparisons - c.comparisons) == |a| * (|a| - 1)
    ensures flag.NeverStopped? ==> c'.accesses == c.accesses + (c'.comparisons - c.comparisons) + 3 * (|a| - 1)
    ensures SwapAccesses(c, c') % 3 == 0 && SwapAccesses(c, c') <= 3 * (|a| - 1)
  {
    SwapsPerRound(c, c', i, |a|);
    if flag.NeverStopped? {
      SortedFromParts(b, |b| - 1);
      AllRoundsCost(|a|, c'.comparisons - c.comparisons);
    }
  }

  /** All `n - 1` rounds compare each of the `n (n - 1) / 2` pairs once. */
  lemma AllRoundsCost(n: int, k: int)
    requires n >= 1 && k == RoundsCost(n, n - 1)
    ensures 2 * k == n * (n - 1)
  {
    RoundsCostClosed(n, n - 1);
    assert (n - 1) * (2 * n - (n - 1) - 1) == (n - 1) * n;
  }

  /** What holds after `i` rounds of selection sort: `b` is a permutation of
      `a`, the accesses beyond the comparisons are three per round, and when
      never stopped the prefix `[0, i)` is in place after exactly the
      comparisons of `i` complete rounds. */
  ghost predicate SelectState(a: seq<Stick>, flag: StopFlag, c: Counters, b: seq<Stick>, c': Counters, i: int)
  {
    && 0 <= i <= |b| - 1 && |b| == |a|
    && multiset(b) == multiset(a)
    && c.comparisons <= c'.comparisons
    && c'.accesses == c.accesses + (c'.comparisons - c.comparisons) + 3 * i
    && (flag.NeverStopped? ==>
          SortedBetween(b, 0, i) && Partitioned(b, i) && c'.comparisons == c.comparisons + RoundsCost(|a|, i))
  }

  /** One round of the outer loop of `processSelectionSort`, once its poll
      came back clear. */
  method SelectStep(a: seq<Stick>, flag: StopFlag, c: Counters, b: seq<Stick>, i: int, polls: nat, c1: Counters)
    returns (b': seq<Stick>, polls': nat, c': Counters)
    requires SelectState(a, flag, c, b, c1, i) && i < |b| - 1
    ensures SelectState(a, flag, c, b', c', i + 1)
  {
    var m;
    b', m, polls', c' := SelectRound(b, i, flag, polls, c1);
    assert RoundsCost(|a|, i + 1) == RoundsCost(|a|, i) + (|a| - i - 1);
  }

  /** After `i` of at most `n - 1` rounds, three accesses each beyond the
      comparisons. */
  lemma SwapsPerRound(c: Counters, c': Counters, i: int, n: int)
    requires 0 <= i <= n - 1
    requires c'.accesses == c.accesses + (c'.comparisons - c.comparisons) + 3 * i
    ensures SwapAccesses(c, c') % 3 == 0 && SwapAccesses(c, c') <= 3 * (n - 1)
  {
    assert SwapAccesses(c, c') == 3 * i;
  }

  /** The accesses of a selection sort beyond one per comparison: three for
      every swap, one swap per round. */
  function SwapAccesses(c: Counters, c': Counters): int
  {
    c'.accesses - c.accesses - (c'.comparisons - c.comparisons)
  }

  /** `2^64`: arithmetic on `size_t` wraps modulo this. */
  const SizeMod: nat := 0x1_0000_0000_0000_0000

  /** The bound `sticks.size() - 1` of the outer loop of `processSelectionSort`
      as the source computes it: in unsigned `size_t`. */
  function SelectionBoundAsWritten(n: nat): nat
    requires n < SizeMod
  {
    (n + SizeMod - 1) % SizeMod
  }

  /** For a non-empty collection the bound is `n - 1`, as meant; for an empty
      one it wraps to the largest `size_t`, so round 0 runs and reads
      `sticks[0]`, which does not exist. */
  lemma SelectionBoundWraps(n: nat)
    requires n < SizeMod
    ensures n >= 1 ==> SelectionBoundAsWritten(n) == n - 1
    ensures SelectionBoundAsWritten(0) == SizeMod - 1
    ensures n == 0 ==> 0 < SelectionBoundAsWritten(n)
  {
  }

  /** Selection sort with the loop bound read as the signed `size() - 1` it
      was meant to be: an empty collection gets no round and is returned as
      it is; otherwise this is `processSelectionSort`. */
  method GuardedSelectionSort(a: seq<Stick>, flag: StopFlag, c: Counters) returns (b: seq<Stick>, c': Counters)
    ensures multiset(b) == multiset(a)
    ensures c.comparisons <= c'.comparisons && c.accesses <= c'.accesses
    ensures |a| == 0 ==> b == a && c' == c
    ensures flag.NeverStopped? ==> Sorted(b)
    ensures flag.NeverStopped? ==> 2 * (c'.comparisons - c.comparisons) == |a| * (|a| - 1)
    ensures flag.NeverStopped? && |a| >= 1 ==>
              c'.accesses == c.accesses + (c'.comparisons - c.comparisons) + 3 * (|a| - 1)
    ensures SwapAccesses(c, c') % 3 == 0 && (|a| >= 1 ==> SwapAccesses(c, c') <= 3 * (|a| - 1))
  {
    if |a| == 0 {
      return a, c;
    }
    b, c' := SelectionSort(a, flag, c);
  }
}
