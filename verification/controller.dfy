/** The run controller around the sorting algorithms: starting a run with a
    chosen algorithm (`sortElements`), and returning the collection to an idle,
    freshly shuffled state (`reset`, `shuffleSticks`). */
module Controller {
  import opened Sticks
  import Elementary
  import Merging
  import Quick
  import Radix

  datatype SortType = BubbleSort | InsertionSort | SelectionSort | MergeSort | QuickSort | RadixSort

  datatype SortState = Sorting | NotSorting

  /** The part of the controller the sorting core reads and writes: the vector
      of sticks, the two counters, `sort_state`, `sort_type`, the complexity
      label shown to the player, and the two delays. */
  datatype Collection = Collection(
    sticks: seq<Stick>,
    counters: Counters,
    state: SortState,
    sortType: SortType,
    timeComplexity: string,
    operationDelay: nat,
    colorDelay: nat)

  /** `color_delay` while a run is on, in milliseconds. */
  const RunColorDelay: nat := 40

  /** The complexity label `sortElements` shows for each algorithm. */
  function TimeComplexity(t: SortType): string
  {
    match t
    case BubbleSort | InsertionSort | SelectionSort => "O(n^2)"
    case MergeSort | QuickSort => "O(nlog(n))"
    case RadixSort => "O(w'(n+k))"
  }

  /** The algorithms whose loops poll `sort_state` and so can be stopped. */
  predicate Polls(t: SortType)
  {
    t.BubbleSort? || t.InsertionSort? || t.SelectionSort?
  }

  /** The algorithms that never reorder two sticks with equal data. */
  predicate KeepsTies(t: SortType)
  {
    !t.SelectionSort? && !t.QuickSort?
  }

  /** The run goes to the end: nobody stops it, or the algorithm never looks. */
  predicate Completes(t: SortType, flag: StopFlag)
  {
    flag.NeverStopped? || !Polls(t)
  }

  /** Any sorted rearrangement of `s` lists the same data, in the same order, as
      the reference merge sort of `s`: every algorithm that finishes agrees with
      every other on the keys, whatever it does with ties. */
  lemma SortedPermutationMatchesReference(s: seq<Stick>, b: seq<Stick>)
    requires Sorted(b) && multiset(b) == multiset(s)
    ensures Keys(b) == Keys(Merging.MergeSortSeq(s))
  {
    Merging.MergeSortSeqSorted(s);
    Merging.MergeSortSeqStable(s);
    StableIsPermutation(s, Merging.MergeSortSeq(s));
    SortedPermutationKeys(b, Merging.MergeSortSeq(s));
  }

  /** `sortElements` followed by the worker it starts, run to its end. The
      worker never writes `sort_state`; during a run only `reset` writes
      NOT_SORTING, after zeroing both delays, and then waits for the worker.
      So a stopped run ends, when that wait returns, with NOT_SORTING and both
      delays 0; a run nobody stopped keeps SORTING and its delays. The
      counters are not cleared here: they keep growing from their values
      before the run. */
  method SortElements(ctl: Collection, t: SortType, operationDelay: nat, flag: StopFlag) returns (ctl': Collection)
    requires t.RadixSort? ==> Radix.NonNegative(ctl.sticks)
    ensures ctl'.sortType == t
    ensures ctl'.state == if flag.NeverStopped? then Sorting else NotSorting
    ensures flag.NeverStopped? ==> ctl'.operationDelay == operationDelay && ctl'.colorDelay == RunColorDelay
    ensures flag.StoppedFrom? ==> ctl'.operationDelay == 0 && ctl'.colorDelay == 0
    ensures ctl'.timeComplexity == "O(n^2)" <==> Polls(t)
    ensures ctl'.timeComplexity == "O(nlog(n))" <==> t.MergeSort? || t.QuickSort?
    ensures ctl'.timeComplexity == "O(w'(n+k))" <==> t.RadixSort?
    ensures multiset(ctl'.sticks) == multiset(ctl.sticks)
    ensures KeepsTies(t) ==> Stable(ctl.sticks, ctl'.sticks)
    ensures ctl.counters.comparisons <= ctl'.counters.comparisons
    ensures ctl.counters.accesses <= ctl'.counters.accesses
    ensures Completes(t, flag) ==> Sorted(ctl'.sticks) && Keys(ctl'.sticks) == Keys(Merging.MergeSortSeq(ctl.sticks))
    ensures Completes(t, flag) && KeepsTies(t) ==> ctl'.sticks == Merging.MergeSortSeq(ctl.sticks)
  {
    var b: seq<Stick>, c: Counters;
    match t {
      case BubbleSort =>
        b, c := Elementary.BubbleSort(ctl.sticks, flag, ctl.counters);
      case InsertionSort =>
        b, c := Elementary.InsertionSort(ctl.sticks, flag, ctl.counters);
      case SelectionSort =>
        b, c := Elementary.GuardedSelectionSort(ctl.sticks, flag, ctl.counters);
      case MergeSort =>
        b, c := Merging.ProcessMergeSort(ctl.sticks, ctl.counters);
      case QuickSort =>
        b, c := Quick.ProcessQuickSort(ctl.sticks, ctl.counters);
      case RadixSort =>
        b, c := Radix.ProcessRadixSort(ctl.sticks, ctl.counters);
    }
    if Completes(t, flag) {
      SortedPermutationMatchesReference(ctl.sticks, b);
      if KeepsTies(t) {
        Merging.MergeSortSeqIsTheStableSort(ctl.sticks, b);
      }
    }
    if flag.NeverStopped? {
      ctl' := Collection(b, c, Sorting, t, TimeComplexity(t), operationDelay, RunColorDelay);
    } else {
      ctl' := Collection(b, c, NotSorting, t, TimeComplexity(t), 0, 0);
    }
  }

  /** The index in `[0, k]` that `std::shuffle`'s uniform draw picks for
      position `k`, read from a sequence of random values. Missing values draw 0. */
  function Draw(r: seq<nat>, k: nat): (j: nat)
    ensures j <= k
  {
    if k < |r| then r[k] % (k + 1) else 0
  }

  /** A value below `|r| + 1` appended to `r` is drawn as it is. */
  lemma DrawRecorded(r: seq<nat>, j: nat)
    requires j <= |r|
    ensures Draw(r + [j], |r|) == j
  {
    var m := |r| + 1;
    assert j == 0 * m + j;
    assert j / m == 0 && j % m == j;
  }

  /** Fisher–Yates over the prefix of length `n`: for each position from `n - 1`
      down to 1, swap it with a position drawn from those not after it. */
  function ShufflePrefix(s: seq<Stick>, r: seq<nat>, n: nat): seq<Stick>
    requires n <= |s|
    decreases n
  {
    if n <= 1 then s
    else
      var j := Draw(r, n - 1);
      ShufflePrefix(s[n - 1 := s[j]][j := s[n - 1]], r, n - 1)
  }

  /** `shuffleSticks`: a uniformly random rearrangement, with the randomness
      supplied as the sequence `r`. */
  function Shuffle(s: seq<Stick>, r: seq<nat>): seq<Stick>
  {
    ShufflePrefix(s, r, |s|)
  }

  lemma {:induction false} ShufflePrefixPermutation(s: seq<Stick>, r: seq<nat>, n: nat)
    requires n <= |s|
    ensures |ShufflePrefix(s, r, n)| == |s|
    ensures ShufflePrefix(s, r, n)[n..] == s[n..]
    ensures multiset(ShufflePrefix(s, r, n)) == multiset(s)
    decreases n
  {
    if n > 1 {
      var j := Draw(r, n - 1);
      var s' := s[n - 1 := s[j]][j := s[n - 1]];
      ShufflePrefixPermutation(s', r, n - 1);
      assert s'[n..] == s[n..];
    }
  }

  /** Shuffling is a permutation of the sticks. */
  lemma ShufflePermutation(s: seq<Stick>, r: seq<nat>)
    ensures multiset(Shuffle(s, r)) == multiset(s)
  {
    ShufflePrefixPermutation(s, r, |s|);
  }

  /** Two random sequences that draw the same indices shuffle alike. */
  lemma {:induction false} ShufflePrefixDraws(s: seq<Stick>, r1: seq<nat>, r2: seq<nat>, n: nat)
    requires n <= |s|
    requires forall k :: 0 < k < n ==> Draw(r1, k) == Draw(r2, k)
    ensures ShufflePrefix(s, r1, n) == ShufflePrefix(s, r2, n)
    decreases n
  {
    if n > 1 {
      var j := Draw(r1, n - 1);
      ShufflePrefixDraws(s[n - 1 := s[j]][j := s[n - 1]], r1, r2, n - 1);
    }
  }

  /** Swapping position `j` into the last place of the prefix of length `n`
      keeps that prefix's sticks. */
  lemma SwapPrefix(s: seq<Stick>, n: nat, j: nat)
    requires j < n <= |s|
    ensures multiset(s[n - 1 := s[j]][j := s[n - 1]][..n - 1]) + multiset{s[j]} == multiset(s[..n])
  {
    var s' := s[n - 1 := s[j]][j := s[n - 1]];
    if j == n - 1 {
      assert s[..n] == s[..n - 1] + [s[j]];
    } else {
      assert s'[..n - 1] == s[..j] + [s[n - 1]] + s[j + 1..n - 1];
      assert s[..n] == s[..j] + [s[j]] + s[j + 1..n - 1] + [s[n - 1]];
    }
  }

  /** Every rearrangement of the prefix of length `n` is produced by some
      sequence of draws. */
  lemma {:induction false} ShufflePrefixReaches(s: seq<Stick>, t: seq<Stick>, n: nat) returns (r: seq<nat>)
    requires n <= |s| == |t|
    requires s[n..] == t[n..]
    requires multiset(s[..n]) == multiset(t[..n])
    ensures |r| == n && ShufflePrefix(s, r, n) == t
    decreases n
  {
    if n == 0 {
      assert s == s[0..] && t == t[0..];
      r := [];
      assert ShufflePrefix(s, r, n) == s;
    } else if n == 1 {
      assert t[0] in multiset(s[..1]);
      assert s == s[..1] + s[1..] && t == t[..1] + t[1..];
      r := [0];
      assert ShufflePrefix(s, r, n) == s;
    } else {
      var j := PlaceLast(s, t, n);
      var s' := s[n - 1 := s[j]][j := s[n - 1]];
      var r' := ShufflePrefixReaches(s', t, n - 1);
      r := r' + [j];
      DrawRecorded(r', j);
      assert ShufflePrefix(s, r, n) == ShufflePrefix(s', r, n - 1);
      ShufflePrefixDraws(s', r, r', n - 1);
      assert ShufflePrefix(s', r, n - 1) == t;
    }
  }

  /** The stick that should end up at `n - 1` is somewhere in the prefix;
      swapping it there leaves a shorter prefix to rearrange. */
  lemma PlaceLast(s: seq<Stick>, t: seq<Stick>, n: nat) returns (j: nat)
    requires 0 < n <= |s| == |t|
    requires s[n..] == t[n..]
    requires multiset(s[..n]) == multiset(t[..n])
    ensures j < n
    ensures s[n - 1 := s[j]][j := s[n - 1]][n - 1..] == t[n - 1..]
    ensures multiset(s[n - 1 := s[j]][j := s[n - 1]][..n - 1]) == multiset(t[..n - 1])
  {
    var x := t[n - 1];
    assert x in multiset(t[..n]);
    assert x in s[..n];
    var k :| 0 <= k < n && s[k] == x;
    j := k;
    var s' := s[n - 1 := s[j]][j := s[n - 1]];
    SwapPrefix(s, n, j);
    assert s'[n - 1..] == t[n - 1..];
    assert t[..n] == t[..n - 1] + [x];
    MultisetCancel(multiset(s'[..n - 1]), multiset(t[..n - 1]), multiset{x});
  }

  /** `std::shuffle` can produce every ordering of the sticks. */
  lemma EveryOrderReachable(s: seq<Stick>, t: seq<Stick>)
    requires multiset(t) == multiset(s)
    ensures exists r :: Shuffle(s, r) == t
  {
    assert |s| == |multiset(s)| == |multiset(t)| == |t|;
    assert s[..|s|] == s && t[..|t|] == t;
    var r := ShufflePrefixReaches(s, t, |s|);
    assert Shuffle(s, r) == t;
  }

  /** `reset`: stop and join the worker, zero both delays, shuffle the sticks,
      and clear the counters with `resetVariables`. The algorithm choice and
      its label stay as they were. */
  function Reset(ctl: Collection, r: seq<nat>): (ctl': Collection)
    ensures ctl'.state == NotSorting && ctl'.counters == Counters(0, 0)
    ensures ctl'.operationDelay == 0 && ctl'.colorDelay == 0
    ensures ctl'.sortType == ctl.sortType && ctl'.timeComplexity == ctl.timeComplexity
    ensures multiset(ctl'.sticks) == multiset(ctl.sticks)
  {
    ShufflePermutation(ctl.sticks, r);
    ctl.(sticks := Shuffle(ctl.sticks, r), counters := ResetVariables(), state := NotSorting,
         operationDelay := 0, colorDelay := 0)
  }

  /** A reset can leave the sticks in any order at all. */
  lemma ResetReachesEveryOrder(ctl: Collection, t: seq<Stick>)
    requires multiset(t) == multiset(ctl.sticks)
    ensures exists r :: Reset(ctl, r).sticks == t
  {
    EveryOrderReachable(ctl.sticks, t);
    var r :| Shuffle(ctl.sticks, r) == t;
    assert Reset(ctl, r).sticks == t;
  }

  /** Sorting after a reset gives the data in the same order as sorting before
      it: the shuffle changes which stick stands where, never the keys. */
  lemma ResetKeepsSortedKeys(ctl: Collection, r: seq<nat>)
    ensures Keys(Merging.MergeSortSeq(Reset(ctl, r).sticks)) == Keys(Merging.MergeSortSeq(ctl.sticks))
  {
    var s' := Reset(ctl, r).sticks;
    Merging.MergeSortSeqSorted(s');
    Merging.MergeSortSeqStable(s');
    StableIsPermutation(s', Merging.MergeSortSeq(s'));
    SortedPermutationMatchesReference(ctl.sticks, Merging.MergeSortSeq(s'));
  }
}
