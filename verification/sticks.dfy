/** The elements being sorted, the two instrumentation counters, the cooperative
    stop flag, and the ordering notions (sorted, permutation, stable) that the
    sorting algorithms are specified with. */
module Sticks {

  /** A stick of the collection. `id` is the index it was created with and never
      changes; `data` is the key every algorithm sorts by. A `Stick*` in the
      vector is modelled by the stick value itself: sorting only moves pointers. */
  datatype Stick = Stick(id: nat, data: int)

  /** `number_of_comparisons` and `number_of_array_access`. */
  datatype Counters = Counters(comparisons: nat, accesses: nat)

  /** The `sort_state` flag as the sorting worker sees it. The worker polls the
      flag at fixed points; during a run the flag only ever moves from SORTING to
      NOT_SORTING, so the polls that see NOT_SORTING are exactly those from some
      poll index onwards (or none). */
  datatype StopFlag = NeverStopped | StoppedFrom(poll: nat)

  /** Does the poll with index `k` (counted from 0 within one sort) see NOT_SORTING? */
  predicate Observed(flag: StopFlag, k: nat)
  {
    flag.StoppedFrom? && flag.poll <= k
  }

  /** `compareSticksByData`: strict less-than on the data. */
  predicate Less(x: Stick, y: Stick)
  {
    x.data < y.data
  }

  /** `resetVariables`: both counters back to zero. */
  function ResetVariables(): Counters
  {
    Counters(0, 0)
  }

  /** The data of every stick, in order. */
  function Keys(s: seq<Stick>): seq<int>
  {
    seq(|s|, i requires 0 <= i < |s| => s[i].data)
  }

  // ---------------------------------------------------------------------------
  // Ordering

  /** Positions `[lo, hi)` of `a` are in non-decreasing order of data. */
  predicate SortedBetween(a: seq<Stick>, lo: int, hi: int)
    requires 0 <= lo <= hi <= |a|
  {
    forall i, j :: lo <= i < j < hi ==> a[i].data <= a[j].data
  }

  /** The whole sequence is in non-decreasing order of data. */
  predicate Sorted(s: seq<Stick>)
  {
    SortedBetween(s, 0, |s|)
  }

  /** Every stick before position `m` has data at most that of every stick from
      position `m` on. */
  predicate Partitioned(a: seq<Stick>, m: int)
    requires 0 <= m <= |a|
  {
    forall k, l :: 0 <= k < m <= l < |a| ==> a[k].data <= a[l].data
  }

  /** The sticks of `s` whose data is `d`, in their order in `s`. */
  function WithData(s: seq<Stick>, d: int): seq<Stick>
  {
    if |s| == 0 then []
    else WithData(s[..|s| - 1], d) + (if s[|s| - 1].data == d then [s[|s| - 1]] else [])
  }

  /** `t` is a stable reordering of `s`: for every key, the sticks carrying it
      appear in `t` in the same order as in `s`. */
  ghost predicate Stable(s: seq<Stick>, t: seq<Stick>)
  {
    forall d :: WithData(t, d) == WithData(s, d)
  }

  // ---------------------------------------------------------------------------
  // Lemmas about WithData and Stable

  lemma {:induction false} WithDataAppend(p: seq<Stick>, q: seq<Stick>, d: int)
    ensures WithData(p + q, d) == WithData(p, d) + WithData(q, d)
    decreases |q|
  {
    if |q| == 0 {
      assert p + q == p;
    } else {
      var q' := q[..|q| - 1];
      assert (p + q)[..|p + q| - 1] == p + q';
      WithDataAppend(p, q', d);
    }
  }

  /** The sticks selected for key `d` all carry `d` and all come from `s`. */
  lemma {:induction false} WithDataMembers(s: seq<Stick>, d: int)
    ensures forall x :: x in WithData(s, d) ==> x in s && x.data == d
    ensures forall x :: x in s && x.data == d ==> x in WithData(s, d)
    decreases |s|
  {
    if |s| > 0 {
      var p := s[..|s| - 1];
      WithDataMembers(p, d);
      assert s == p + [s[|s| - 1]];
    }
  }

  /** No stick of `s` carries `d`: nothing is selected. */
  lemma WithDataEmpty(s: seq<Stick>, d: int)
    requires forall x :: x in s ==> x.data != d
    ensures WithData(s, d) == []
  {
    WithDataMembers(s, d);
    if WithData(s, d) != [] {
      assert WithData(s, d)[0] in WithData(s, d);
    }
  }

  /** How often `x` occurs in `s` is how often it occurs among the sticks
      carrying its key. */
  lemma {:induction false} WithDataCount(s: seq<Stick>, x: Stick)
    ensures multiset(WithData(s, x.data))[x] == multiset(s)[x]
    decreases |s|
  {
    if |s| > 0 {
      var p := s[..|s| - 1];
      WithDataCount(p, x);
      assert s == p + [s[|s| - 1]];
    }
  }

  /** A stable reordering is a permutation. */
  lemma StableIsPermutation(s: seq<Stick>, t: seq<Stick>)
    requires Stable(s, t)
    ensures multiset(t) == multiset(s)
  {
    forall x
      ensures multiset(t)[x] == multiset(s)[x]
    {
      WithDataCount(s, x);
      WithDataCount(t, x);
    }
  }

  lemma StableTransitive(s: seq<Stick>, t: seq<Stick>, u: seq<Stick>)
    requires Stable(s, t) && Stable(t, u)
    ensures Stable(s, u)
  {
  }

  lemma WithDataSingle(x: Stick, d: int)
    ensures WithData([x], d) == if x.data == d then [x] else []
  {
    assert [x][..0] == [];
  }

  lemma WithDataAround(p: seq<Stick>, x: Stick, y: Stick, q: seq<Stick>, d: int)
    ensures WithData(p + [x] + [y] + q, d) == WithData(p, d) + WithData([x], d) + WithData([y], d) + WithData(q, d)
  {
    WithDataAppend(p + [x] + [y], q, d);
    WithDataAppend(p + [x], [y], d);
    WithDataAppend(p, [x], d);
  }

  lemma WithData4(p: seq<Stick>, m: seq<Stick>, r: seq<Stick>, q: seq<Stick>, d: int)
    ensures WithData(p + m + r + q, d) == WithData(p, d) + WithData(m, d) + WithData(r, d) + WithData(q, d)
  {
    WithDataAppend(p + m + r, q, d);
    WithDataAppend(p + m, r, d);
    WithDataAppend(p, m, d);
  }

  /** Exchanging two neighbours whose data differ keeps every key's subsequence. */
  lemma SwapNeighboursStable(a: seq<Stick>, j: int)
    requires 0 < j < |a|
    requires a[j - 1].data != a[j].data
    ensures Stable(a, a[j - 1 := a[j]][j := a[j - 1]])
  {
    var p, q := a[..j - 1], a[j + 1..];
    var x, y := a[j - 1], a[j];
    assert a == p + [x] + [y] + q;
    assert a[j - 1 := a[j]][j := a[j - 1]] == p + [y] + [x] + q;
    forall d
      ensures WithData(p + [y] + [x] + q, d) == WithData(p + [x] + [y] + q, d)
    {
      SwapRun(p, x, y, q, d);
    }
  }

  /** One key's subsequence is the same before and after exchanging two
      neighbours with different data. */
  lemma SwapRun(p: seq<Stick>, x: Stick, y: Stick, q: seq<Stick>, d: int)
    requires x.data != y.data
    ensures WithData(p + [y] + [x] + q, d) == WithData(p + [x] + [y] + q, d)
  {
    WithDataAround(p, x, y, q, d);
    WithDataAround(p, y, x, q, d);
    WithDataSingle(x, d);
    WithDataSingle(y, d);
    SwapEmpty(WithData(p, d), WithData([y], d), WithData([x], d), WithData(q, d));
  }

  /** Exchanging two middle parts of a concatenation, one of them empty. */
  lemma SwapEmpty(p: seq<Stick>, m1: seq<Stick>, m2: seq<Stick>, q: seq<Stick>)
    requires m1 == [] || m2 == []
    ensures p + m1 + m2 + q == p + m2 + m1 + q
  {
    if m1 == [] {
      assert p + m1 == p && m2 + m1 == m2;
    } else {
      assert p + m2 == p && m1 + m2 == m1;
    }
  }

  /** Two sorted sequences that are stable reorderings of each other are equal:
      a stable sort has exactly one possible result. */
  lemma {:induction false} StableSortUnique(t1: seq<Stick>, t2: seq<Stick>)
    requires Sorted(t1) && Sorted(t2)
    requires Stable(t1, t2)
    ensures t1 == t2
    decreases |t1|
  {
    StableIsPermutation(t1, t2);
    assert |t1| == |multiset(t1)| == |multiset(t2)| == |t2|;
    if |t1| > 0 {
      var n := |t1|;
      LastKeysAgree(t1, t2);
      StablePrefixes(t1, t2);
      assert SortedBetween(t1[..n - 1], 0, n - 1);
      assert SortedBetween(t2[..n - 1], 0, n - 1);
      StableSortUnique(t1[..n - 1], t2[..n - 1]);
      assert t1 == t1[..n - 1] + [t1[n - 1]];
      assert t2 == t2[..n - 1] + [t2[n - 1]];
    }
  }

  /** In two sorted stable reorderings of each other the last sticks carry the
      same key, the largest one. */
  lemma LastKeysAgree(t1: seq<Stick>, t2: seq<Stick>)
    requires Sorted(t1) && Sorted(t2)
    requires Stable(t1, t2)
    requires 0 < |t1| == |t2|
    ensures t1[|t1| - 1].data == t2[|t2| - 1].data
  {
    var n := |t1|;
    var x, y := t1[n - 1], t2[n - 1];
    WithDataMembers(t1, y.data);
    WithDataMembers(t2, y.data);
    WithDataMembers(t1, x.data);
    WithDataMembers(t2, x.data);
    assert y in WithData(t2, y.data);
    assert y in t1;
    assert x in WithData(t1, x.data);
    assert x in t2;
  }

  /** Two stable reorderings of each other whose last sticks share a key end in
      the same stick, and what comes before is again a stable reordering. */
  lemma StablePrefixes(t1: seq<Stick>, t2: seq<Stick>)
    requires Stable(t1, t2)
    requires 0 < |t1| == |t2|
    requires t1[|t1| - 1].data == t2[|t2| - 1].data
    ensures t1[|t1| - 1] == t2[|t2| - 1]
    ensures Stable(t1[..|t1| - 1], t2[..|t2| - 1])
  {
    var n := |t1|;
    var x, y := t1[n - 1], t2[n - 1];
    var p1, p2 := t1[..n - 1], t2[..n - 1];
    var d := x.data;
    var w1, w2 := WithData(p1, d), WithData(p2, d);
    assert WithData(t1, d) == w1 + [x];
    assert WithData(t2, d) == w2 + [y];
    assert w1 + [x] == w2 + [y];
    assert w1 == (w1 + [x])[..|w1|];
    assert w2 == (w2 + [y])[..|w2|];
    forall e
      ensures WithData(p2, e) == WithData(p1, e)
    {
      if e != d {
        assert WithData(t1, e) == WithData(p1, e);
        assert WithData(t2, e) == WithData(p2, e);
      }
    }
  }

  // ---------------------------------------------------------------------------
  // Lemmas about order and permutations

  /** Sorted sequences holding the same sticks carry the same keys in the same
      order (they may differ only in which of two equal-keyed sticks comes first). */
  lemma {:induction false} SortedPermutationKeys(t1: seq<Stick>, t2: seq<Stick>)
    requires Sorted(t1) && Sorted(t2)
    requires multiset(t1) == multiset(t2)
    ensures Keys(t1) == Keys(t2)
    decreases |t1|
  {
    assert |t1| == |multiset(t1)| == |multiset(t2)| == |t2|;
    if |t1| > 0 {
      var x := t1[0];
      var k := FrontKeyMatches(t1, t2);
      var u := MoveToFront(t2, k);
      TailPermutation(t1, u);
      SortedTail(t1);
      SortedTail(u);
      SortedPermutationKeys(t1[1..], u[1..]);
      KeysCons(t1);
      KeysCons(u);
    }
  }

  /** Dropping the same first stick from two permutations of each other leaves
      permutations of each other. */
  lemma TailPermutation(t: seq<Stick>, u: seq<Stick>)
    requires 0 < |t| && 0 < |u| && t[0] == u[0]
    requires multiset(t) == multiset(u)
    ensures multiset(t[1..]) == multiset(u[1..])
  {
    assert t == [t[0]] + t[1..];
    assert u == [u[0]] + u[1..];
    forall y
      ensures multiset(t[1..])[y] == multiset(u[1..])[y]
    {
      assert multiset(t)[y] == multiset([t[0]])[y] + multiset(t[1..])[y];
      assert multiset(u)[y] == multiset([u[0]])[y] + multiset(u[1..])[y];
    }
  }

  lemma SortedTail(t: seq<Stick>)
    requires Sorted(t) && |t| > 0
    ensures Sorted(t[1..])
  {
    assert forall i :: 0 <= i < |t| - 1 ==> t[1..][i] == t[i + 1];
  }

  lemma KeysCons(t: seq<Stick>)
    requires |t| > 0
    ensures Keys(t) == [t[0].data] + Keys(t[1..])
  {
  }

  /** Exchanging the first stick with a later one of the same key keeps the keys,
      hence the order, and the sticks. */
  lemma MoveToFront(t: seq<Stick>, k: int) returns (u: seq<Stick>)
    requires Sorted(t)
    requires 0 <= k < |t| && t[k].data == t[0].data
    ensures u == t[0 := t[k]][k := t[0]]
    ensures Keys(u) == Keys(t) && Sorted(u)
    ensures multiset(u) == multiset(t)
  {
    u := t[0 := t[k]][k := t[0]];
    assert forall i :: 0 <= i < |u| ==> u[i].data == t[i].data;
    assert Keys(u) == Keys(t);
  }

  /** The first stick of one sorted sequence sits in the other, at a place
      carrying the same key as its first stick. */
  lemma FrontKeyMatches(t1: seq<Stick>, t2: seq<Stick>) returns (k: int)
    requires Sorted(t1) && Sorted(t2)
    requires multiset(t1) == multiset(t2)
    requires |t1| > 0
    ensures 0 <= k < |t2| && t2[k] == t1[0] && t2[k].data == t2[0].data
  {
    assert t1[0] in multiset(t2);
    k :| 0 <= k < |t2| && t2[k] == t1[0];
    assert t2[0] in multiset(t1);
    var k' :| 0 <= k' < |t1| && t1[k'] == t2[0];
  }

  /** Taking the same stick out of two permutations of each other leaves
      permutations of each other. */
  lemma PermutationRemove(a: seq<Stick>, x: Stick, b: seq<Stick>, k: int)
    requires 0 <= k < |b| && b[k] == x
    requires multiset(a + [x]) == multiset(b)
    ensures multiset(a) == multiset(b[..k] + b[k + 1..])
  {
    assert b == b[..k] + [x] + b[k + 1..];
    forall y
      ensures multiset(a)[y] == multiset(b[..k] + b[k + 1..])[y]
    {
      assert multiset(b)[y] == multiset(b[..k])[y] + multiset([x])[y] + multiset(b[k + 1..])[y];
      assert multiset(a + [x])[y] == multiset(a)[y] + multiset([x])[y];
    }
  }

  /** A permutation of the whole sequence that leaves both ends in place permutes
      the middle. */
  lemma RangePermutation(a: seq<Stick>, b: seq<Stick>, lo: int, hi: int)
    requires 0 <= lo <= hi <= |a| == |b|
    requires a[..lo] == b[..lo] && a[hi..] == b[hi..]
    requires multiset(a) == multiset(b)
    ensures multiset(a[lo..hi]) == multiset(b[lo..hi])
  {
    var ends := multiset(a[..lo]) + multiset(a[hi..]);
    assert a == a[..lo] + a[lo..hi] + a[hi..];
    assert b == b[..lo] + b[lo..hi] + b[hi..];
    assert multiset(a) == multiset(a[lo..hi]) + ends;
    assert multiset(b) == multiset(b[lo..hi]) + ends;
    MultisetCancel(multiset(a[lo..hi]), multiset(b[lo..hi]), ends);
  }

  /** Multiset sum cancels. */
  lemma MultisetCancel(p: multiset<Stick>, q: multiset<Stick>, r: multiset<Stick>)
    requires p + r == q + r
    ensures p == q
  {
    forall y
      ensures p[y] == q[y]
    {
      assert (p + r)[y] == (q + r)[y];
    }
  }

  /** The converse: permuting a middle range permutes the whole sequence. */
  lemma RangePermutationWhole(a: seq<Stick>, b: seq<Stick>, lo: int, hi: int)
    requires 0 <= lo <= hi <= |a| == |b|
    requires a[..lo] == b[..lo] && a[hi..] == b[hi..]
    requires multiset(a[lo..hi]) == multiset(b[lo..hi])
    ensures multiset(a) == multiset(b)
  {
    assert a == a[..lo] + a[lo..hi] + a[hi..];
    assert b == b[..lo] + b[lo..hi] + b[hi..];
  }
}
