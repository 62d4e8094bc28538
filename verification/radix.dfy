/**
 * Least-significant-digit radix sort in base 10: `radixSort` finds the largest
 * datum and runs one stable counting sort per decimal digit (`countSort`),
 * from the units upwards, while the largest datum still has a digit there.
 */
module Radix {
  import opened Sticks

  /** `INT_MIN`, the starting value of the running maximum. */
  const IntMin: int := -2147483648

  /** `(v / e) % 10` with C++ semantics: both operators truncate toward zero,
      so a negative `v` gives a digit in `(-10, 0]`. */
  function Digit(v: int, e: int): int
    requires e > 0
  {
    if v >= 0 then (v / e) % 10 else -(((-v) / e) % 10)
  }

  /** Every stick carries non-negative data (so every digit indexes `count`). */
  predicate NonNegative(s: seq<Stick>)
  {
    forall k :: 0 <= k < |s| ==> s[k].data >= 0
  }

  /** The sticks of `s` whose digit at `e` is `d`, in their order in `s`. */
  function Bucket(s: seq<Stick>, e: int, d: int): seq<Stick>
    requires e > 0
  {
    if s == [] then []
    else (if Digit(s[0].data, e) == d then [s[0]] else []) + Bucket(s[1..], e, d)
  }

  /** How many sticks of `s` have a digit at `e` in `[0, d)`: where bucket `d`
      starts in the output. */
  function BucketsBelow(s: seq<Stick>, e: int, d: int): nat
    requires e > 0
  {
    if d <= 0 then 0 else BucketsBelow(s, e, d - 1) + |Bucket(s, e, d - 1)|
  }

  /** Buckets `d` to 9, one after the other. */
  function DigitSortFrom(s: seq<Stick>, e: int, d: int): seq<Stick>
    requires e > 0
    decreases 10 - d
  {
    if d >= 10 then [] else Bucket(s, e, d) + DigitSortFrom(s, e, d + 1)
  }

  /** The reference for one counting-sort pass: the sticks regrouped by their
      digit at `e`, keeping their order within a digit. */
  function DigitSort(s: seq<Stick>, e: int): seq<Stick>
    requires e > 0
  {
    DigitSortFrom(s, e, 0)
  }

  // ---------------------------------------------------------------------------
  // Buckets

  lemma DigitRange(v: int, e: int)
    requires v >= 0 && e > 0
    ensures 0 <= Digit(v, e) < 10
  {
  }

  lemma {:induction false} BucketAppend(s: seq<Stick>, t: seq<Stick>, e: int, d: int)
    requires e > 0
    ensures Bucket(s + t, e, d) == Bucket(s, e, d) + Bucket(t, e, d)
    decreases |s|
  {
    if s == [] {
      assert s + t == t;
    } else {
      var head := if Digit(s[0].data, e) == d then [s[0]] else [];
      assert (s + t)[0] == s[0] && (s + t)[1..] == s[1..] + t;
      assert Bucket(s + t, e, d) == head + Bucket(s[1..] + t, e, d);
      assert Bucket(s, e, d) == head + Bucket(s[1..], e, d);
      BucketAppend(s[1..], t, e, d);
      SeqAssoc(head, Bucket(s[1..], e, d), Bucket(t, e, d));
    }
  }

  lemma SeqAssoc(x: seq<Stick>, y: seq<Stick>, z: seq<Stick>)
    ensures x + (y + z) == (x + y) + z
  {
  }

  /** Appending one stick adds it to its own bucket and to no other. */
  lemma BucketSnoc(s: seq<Stick>, x: Stick, e: int)
    requires e > 0
    ensures forall d :: Bucket(s + [x], e, d) == Bucket(s, e, d) + (if Digit(x.data, e) == d then [x] else [])
  {
    forall d
      ensures Bucket(s + [x], e, d) == Bucket(s, e, d) + (if Digit(x.data, e) == d then [x] else [])
    {
      BucketAppend(s, [x], e, d);
    }
  }

  lemma {:induction false} BucketMembers(s: seq<Stick>, e: int, d: int, x: Stick)
    requires e > 0 && x in Bucket(s, e, d)
    ensures x in s && Digit(x.data, e) == d
    decreases |s|
  {
    if x != s[0] || Digit(s[0].data, e) != d {
      BucketMembers(s[1..], e, d, x);
    }
  }

  lemma {:induction false} BucketsBelowMonotone(s: seq<Stick>, e: int, d1: int, d2: int)
    requires e > 0 && d1 <= d2
    ensures BucketsBelow(s, e, d1) <= BucketsBelow(s, e, d2)
    decreases d2 - d1
  {
    if d1 < d2 {
      BucketsBelowMonotone(s, e, d1, d2 - 1);
    }
  }

  lemma {:induction false} BucketsBelowCons(x: Stick, r: seq<Stick>, e: int, d: int)
    requires e > 0
    ensures BucketsBelow([x] + r, e, d) == BucketsBelow(r, e, d) + (if 0 <= Digit(x.data, e) < d then 1 else 0)
    decreases d
  {
    if d > 0 {
      BucketsBelowCons(x, r, e, d - 1);
      assert ([x] + r)[0] == x && ([x] + r)[1..] == r;
      var g := Digit(x.data, e);
      var h := if g == d - 1 then [x] else [];
      assert Bucket([x] + r, e, d - 1) == h + Bucket(r, e, d - 1);
      assert BucketsBelow([x] + r, e, d) == BucketsBelow([x] + r, e, d - 1) + |h| + |Bucket(r, e, d - 1)|;
      assert (if 0 <= g < d then 1 else 0) == (if 0 <= g < d - 1 then 1 else 0) + |h|;
      assert BucketsBelow(r, e, d) == BucketsBelow(r, e, d - 1) + |Bucket(r, e, d - 1)|;
    }
  }

  lemma {:induction false} BucketsBelowNil(e: int, d: int)
    requires e > 0
    ensures BucketsBelow([], e, d) == 0
    decreases d
  {
    if d > 0 {
      BucketsBelowNil(e, d - 1);
    }
  }

  /** With non-negative data every stick falls in one of the ten buckets. */
  lemma {:induction false} BucketsTotal(s: seq<Stick>, e: int)
    requires e > 0 && NonNegative(s)
    ensures BucketsBelow(s, e, 10) == |s|
    decreases |s|
  {
    if s != [] {
      assert s == [s[0]] + s[1..];
      DigitRange(s[0].data, e);
      BucketsBelowCons(s[0], s[1..], e, 10);
      assert NonNegative(s[1..]) by {
        forall k | 0 <= k < |s| - 1 ensures s[1..][k].data >= 0 {
          assert s[1..][k] == s[k + 1];
        }
      }
      BucketsTotal(s[1..], e);
    } else {
      BucketsBelowNil(e, 10);
    }
  }

  lemma {:induction false} DigitSortFromLength(s: seq<Stick>, e: int, d: int)
    requires e > 0 && 0 <= d <= 10
    ensures |DigitSortFrom(s, e, d)| == BucketsBelow(s, e, 10) - BucketsBelow(s, e, d)
    decreases 10 - d
  {
    if d < 10 {
      DigitSortFromLength(s, e, d + 1);
    }
  }

  // ---------------------------------------------------------------------------
  // countSort

  /** The running sum of `count`: `SumOf(s)` is `s[0] + ... + s[|s| - 1]`. */
  function SumOf(s: seq<int>): int
  {
    if s == [] then 0 else SumOf(s[..|s| - 1]) + s[|s| - 1]
  }

  /** The first loop of `countSort`: one access per stick, tallying how many
      sticks carry each digit. */
  method CountDigits(a: seq<Stick>, e: int, c: Counters) returns (count: seq<int>, c': Counters)
    requires e > 0 && NonNegative(a)
    ensures |count| == 10
    ensures forall d :: 0 <= d < 10 ==> count[d] == |Bucket(a, e, d)|
    ensures c' == Counters(c.comparisons, c.accesses + |a|)
  {
    count, c' := seq(10, _ => 0), c;
    var i := 0;
    while i < |a|
      invariant 0 <= i <= |a| && |count| == 10
      invariant forall d :: 0 <= d < 10 ==> count[d] == |Bucket(a[..i], e, d)|
      invariant c' == Counters(c.comparisons, c.accesses + i)
    {
      var digit := Digit(a[i].data, e);
      DigitRange(a[i].data, e);
      assert a[..i + 1] == a[..i] + [a[i]];
      BucketSnoc(a[..i], a[i], e);
      count := count[digit := count[digit] + 1];
      c' := Counters(c'.comparisons, c'.accesses + 1);
      i := i + 1;
    }
    assert a[..i] == a;
  }

  /** The second loop of `countSort`: each of the ten counts becomes the
      number of sticks with that digit or a smaller one. */
  method PrefixSums(count: seq<int>) returns (sums: seq<int>)
    requires |count| == 10
    ensures |sums| == 10
    ensures forall d :: 0 <= d < 10 ==> sums[d] == SumOf(count[..d + 1])
  {
    sums := count;
    assert count[..1] == [] + [count[0]];
    var i := 1;
    while i < 10
      invariant 1 <= i <= 10 && |sums| == 10
      invariant forall d :: 0 <= d < i ==> sums[d] == SumOf(count[..d + 1])
      invariant forall d :: i <= d < 10 ==> sums[d] == count[d]
    {
      assert count[..i + 1][..i] == count[..i];
      sums := sums[i := sums[i] + sums[i - 1]];
      i := i + 1;
    }
  }

  /** Summing the bucket sizes of the digits up to `d` gives where bucket
      `d + 1` starts. */
  lemma {:induction false} SumsAreBucketStarts(count: seq<int>, a: seq<Stick>, e: int, d: int)
    requires e > 0 && |count| == 10 && 0 <= d < 10
    requires forall k :: 0 <= k < 10 ==> count[k] == |Bucket(a, e, k)|
    ensures SumOf(count[..d + 1]) == BucketsBelow(a, e, d + 1)
    decreases d
  {
    assert count[..d + 1][..d] == count[..d];
    if d > 0 {
      SumsAreBucketStarts(count, a, e, d - 1);
    }
  }

  /** `start[d]` is where bucket `d` starts, for `d` in `[0, 10]`. */
  ghost predicate BucketStarts(a: seq<Stick>, e: int, start: seq<nat>)
    requires e > 0
  {
    |start| == 11 && forall d :: 0 <= d <= 10 ==> start[d] == BucketsBelow(a, e, d)
  }

  /** `ref` lays the buckets out one after the other from the positions in
      `start`. */
  ghost predicate Layout(a: seq<Stick>, e: int, start: seq<nat>, ref: seq<Stick>)
    requires e > 0
  {
    && |start| == 11 && start[0] == 0 && start[10] == |a| == |ref|
    && (forall d1, d2 :: 0 <= d1 <= d2 <= 10 ==> start[d1] <= start[d2])
    && (forall d :: 0 <= d < 10 ==> start[d] + |Bucket(a, e, d)| == start[d + 1])
    && (forall d, j :: 0 <= d < 10 && 0 <= j < |Bucket(a, e, d)| ==>
          start[d] + j < |ref| && ref[start[d] + j] == Bucket(a, e, d)[j])
  }

  /** Dropping the buckets `d0` to `d - 1` from the buckets from `d0` on
      leaves the buckets from `d` on. */
  lemma {:induction false} DigitSortFromSuffix(a: seq<Stick>, e: int, d0: int, d: int)
    requires e > 0 && 0 <= d0 <= d <= 10
    ensures 0 <= BucketsBelow(a, e, d) - BucketsBelow(a, e, d0) <= |DigitSortFrom(a, e, d0)| &&
            DigitSortFrom(a, e, d0)[BucketsBelow(a, e, d) - BucketsBelow(a, e, d0)..] == DigitSortFrom(a, e, d)
    decreases d - d0
  {
    if d0 < d {
      DigitSortFromSuffix(a, e, d0 + 1, d);
      var p, q := Bucket(a, e, d0), DigitSortFrom(a, e, d0 + 1);
      var m := BucketsBelow(a, e, d) - BucketsBelow(a, e, d0 + 1);
      assert DigitSortFrom(a, e, d0) == p + q;
      assert BucketsBelow(a, e, d) - BucketsBelow(a, e, d0) == |p| + m;
      assert (p + q)[|p| + m..] == q[m..];
    } else {
      assert DigitSortFrom(a, e, d0)[0..] == DigitSortFrom(a, e, d0);
    }
  }

  /** The reference pass lays the buckets out from their starts. */
  lemma DigitSortLayout(a: seq<Stick>, e: int, start: seq<nat>)
    requires e > 0 && NonNegative(a) && BucketStarts(a, e, start)
    ensures Layout(a, e, start, DigitSort(a, e))
  {
    var ref := DigitSort(a, e);
    StartsBounds(a, e, start);
    StartsMonotone(a, e, start);
    forall d, j | 0 <= d < 10 && 0 <= j < |Bucket(a, e, d)|
      ensures start[d] + j < |ref| && ref[start[d] + j] == Bucket(a, e, d)[j]
    {
      LayoutPosition(a, e, start, d, j);
    }
  }

  /** The starts run from 0 to `|a|`, each bucket ending where the next
      begins. */
  lemma StartsBounds(a: seq<Stick>, e: int, start: seq<nat>)
    requires e > 0 && NonNegative(a) && BucketStarts(a, e, start)
    ensures start[0] == 0 && start[10] == |a| == |DigitSort(a, e)|
    ensures forall d :: 0 <= d < 10 ==> start[d] + |Bucket(a, e, d)| == start[d + 1]
  {
    BucketsTotal(a, e);
    DigitSortFromLength(a, e, 0);
  }

  /** The starts never decrease. */
  lemma StartsMonotone(a: seq<Stick>, e: int, start: seq<nat>)
    requires e > 0 && BucketStarts(a, e, start)
    ensures forall d1, d2 :: 0 <= d1 <= d2 <= 10 ==> start[d1] <= start[d2]
  {
    forall d1, d2 | 0 <= d1 <= d2 <= 10
      ensures start[d1] <= start[d2]
    {
      BucketsBelowMonotone(a, e, d1, d2);
    }
  }

  /** Stick `j` of bucket `d` sits at `start[d] + j` in the reference pass. */
  lemma LayoutPosition(a: seq<Stick>, e: int, start: seq<nat>, d: int, j: int)
    requires e > 0 && BucketStarts(a, e, start) && 0 <= d < 10 && 0 <= j < |Bucket(a, e, d)|
    ensures start[d] + j < |DigitSort(a, e)| && DigitSort(a, e)[start[d] + j] == Bucket(a, e, d)[j]
  {
    DigitSortFromSuffix(a, e, 0, d);
    var s, t := DigitSort(a, e), DigitSortFrom(a, e, d);
    assert start[d] == BucketsBelow(a, e, d) - BucketsBelow(a, e, 0);
    assert s[start[d]..] == t;
    assert t == Bucket(a, e, d) + DigitSortFrom(a, e, d + 1);
    assert s[start[d] + j] == t[j];
  }

  /** The placement loop's state once the sticks `a[i..]` are placed:
      `count[d]` is the start of bucket `d` plus the number of its sticks
      still to place, and every slot from there to the end of the bucket
      already holds what the reference pass `ref` has there. */
  ghost predicate Placing(a: seq<Stick>, e: int, start: seq<nat>, ref: seq<Stick>,
                          i: int, count: seq<int>, output: seq<Stick>)
  {
    && e > 0 && Layout(a, e, start, ref)
    && 0 <= i <= |a| == |output| && |count| == 10
    && (forall d :: 0 <= d < 10 ==> count[d] == start[d] + |Bucket(a[..i], e, d)| <= start[d + 1])
    && (forall d, k :: 0 <= d < 10 && count[d] <= k < start[d + 1] ==> output[k] == ref[k])
  }

  /** One round of the placement loop: the stick `a[i - 1]` goes to the last
      free slot of its bucket. */
  method PlaceStick(a: seq<Stick>, e: int, ghost start: seq<nat>, ghost ref: seq<Stick>,
                    i: int, count: seq<int>, output: seq<Stick>)
    returns (count': seq<int>, output': seq<Stick>)
    requires Placing(a, e, start, ref, i, count, output) && 0 < i && NonNegative(a)
    ensures Placing(a, e, start, ref, i - 1, count', output')
  {
    var x := a[i - 1];
    var digit := Digit(x.data, e);
    DigitRange(x.data, e);
    assert a[..i] == a[..i - 1] + [x];
    BucketSnoc(a[..i - 1], x, e);
    var pos := count[digit] - 1;
    ghost var j := |Bucket(a[..i - 1], e, digit)|;
    assert pos == start[digit] + j;
    assert ref[pos] == x by {
      assert a == a[..i] + a[i..];
      BucketAppend(a[..i], a[i..], e, digit);
      assert Bucket(a, e, digit)[j] == x;
    }
    output' := output[pos := x];
    count' := count[digit := pos];
  }

  /** Every position of the output lies in some bucket. */
  lemma {:induction false} CoveringBucket(start: seq<nat>, k: int, d: int) returns (b: int)
    requires |start| == 11 && 0 <= d < 10 && start[d] <= k < start[10]
    requires forall d1, d2 :: 0 <= d1 <= d2 <= 10 ==> start[d1] <= start[d2]
    ensures d <= b < 10 && start[b] <= k < start[b + 1]
    decreases 10 - d
  {
    if k < start[d + 1] {
      b := d;
    } else {
      b := CoveringBucket(start, k, d + 1);
    }
  }

  /** Before the placement loop nothing is placed and every count is the
      end of its bucket. */
  lemma PlacingStarts(a: seq<Stick>, e: int, sums: seq<int>, start: seq<nat>, ref: seq<Stick>)
    requires e > 0 && NonNegative(a) && |sums| == 10
    requires forall d :: 0 <= d < 10 ==> sums[d] == BucketsBelow(a, e, d + 1)
    requires start == [0] + sums && ref == DigitSort(a, e)
    ensures Placing(a, e, start, ref, |a|, sums, a)
  {
    DigitSortLayout(a, e, start);
    assert a[..|a|] == a;
  }

  /** After the placement loop every slot holds what the reference pass has
      there. */
  lemma PlacingEnds(a: seq<Stick>, e: int, start: seq<nat>, ref: seq<Stick>, count: seq<int>, output: seq<Stick>)
    requires Placing(a, e, start, ref, 0, count, output)
    ensures output == ref
  {
    forall k | 0 <= k < |a|
      ensures output[k] == ref[k]
    {
      var b := CoveringBucket(start, k, 0);
      assert Bucket(a[..0], e, b) == [];
    }
  }

  /** The rounds of the placement loop from `i` down to 0. */
  method PlaceRest(a: seq<Stick>, e: int, ghost start: seq<nat>, ghost ref: seq<Stick>,
                   i: int, count: seq<int>, output: seq<Stick>, c: Counters)
    returns (output': seq<Stick>, c': Counters)
    requires Placing(a, e, start, ref, i, count, output) && NonNegative(a)
    ensures output' == ref
    ensures c' == Counters(c.comparisons, c.accesses + i)
    decreases i
  {
    if i == 0 {
      PlacingEnds(a, e, start, ref, count, output);
      output', c' := output, c;
    } else {
      var count1, output1 := PlaceStick(a, e, start, ref, i, count, output);
      output', c' := PlaceRest(a, e, start, ref, i - 1, count1, output1, Counters(c.comparisons, c.accesses + 1));
    }
  }

  /** The third loop of `countSort`: walking from the back, each stick goes to
      the last free slot of its bucket, one access each. */
  method PlaceFromBack(a: seq<Stick>, e: int, sums: seq<int>, c: Counters)
    returns (output: seq<Stick>, c': Counters)
    requires e > 0 && NonNegative(a) && |sums| == 10
    requires forall d :: 0 <= d < 10 ==> sums[d] == BucketsBelow(a, e, d + 1)
    ensures output == DigitSort(a, e)
    ensures c' == Counters(c.comparisons, c.accesses + |a|)
  {
    ghost var start: seq<nat> := [0] + sums;
    PlacingStarts(a, e, sums, start, DigitSort(a, e));
    // The slots of the output not yet written hold whatever they held; every
    // slot is written exactly once.
    output, c' := PlaceRest(a, e, start, DigitSort(a, e), |a|, sums, a, c);
  }

  /** `countSort(exponent)`: one stable pass of counting sort on the digit at
      `e`, two accesses per stick (one while counting, one while placing);
      copying the output back costs nothing. No comparisons are counted. */
  method CountSort(a: seq<Stick>, e: int, c: Counters) returns (b: seq<Stick>, c': Counters)
    requires e > 0 && NonNegative(a)
    ensures b == DigitSort(a, e)
    ensures c' == Counters(c.comparisons, c.accesses + 2 * |a|)
  {
    var count, c1 := CountDigits(a, e, c);
    var sums := PrefixSums(count);
    forall d | 0 <= d < 10
      ensures sums[d] == BucketsBelow(a, e, d + 1)
    {
      SumsAreBucketStarts(count, a, e, d);
    }
    b, c' := PlaceFromBack(a, e, sums, c1);
  }

  // ---------------------------------------------------------------------------
  // One pass is stable and sorts one more digit

  /** A bucket keeps all sticks of a key when the key's digit is the
      bucket's, and none otherwise. */
  lemma {:induction false} WithDataBucket(s: seq<Stick>, e: int, dd: int, v: int)
    requires e > 0
    ensures WithData(Bucket(s, e, dd), v) == if Digit(v, e) == dd then WithData(s, v) else []
    decreases |s|
  {
    if s == [] {
    } else {
      var x, r := s[0], s[1..];
      var xs := if Digit(x.data, e) == dd then [x] else [];
      assert s == [x] + r;
      WithDataBucket(r, e, dd, v);
      WithDataAppend(xs, Bucket(r, e, dd), v);
      WithDataAppend([x], r, v);
      WithDataSingle(x, v);
      assert xs == [] ==> WithData(xs, v) == [];
    }
  }

  lemma {:induction false} WithDataDigitSortFrom(s: seq<Stick>, e: int, d: int, v: int)
    requires e > 0 && 0 <= d <= 10
    ensures WithData(DigitSortFrom(s, e, d), v) == if d <= Digit(v, e) < 10 then WithData(s, v) else []
    decreases 10 - d
  {
    if d < 10 {
      WithDataDigitSortFrom(s, e, d + 1, v);
      WithDataAppend(Bucket(s, e, d), DigitSortFrom(s, e, d + 1), v);
      WithDataBucket(s, e, d, v);
    }
  }

  /** One counting-sort pass is stable. */
  lemma DigitSortStable(s: seq<Stick>, e: int)
    requires e > 0 && NonNegative(s)
    ensures Stable(s, DigitSort(s, e))
  {
    forall v
      ensures WithData(DigitSort(s, e), v) == WithData(s, v)
    {
      WithDataDigitSortFrom(s, e, 0, v);
      if v < 0 {
        forall x | x in s
          ensures x.data != v
        {
          var k :| 0 <= k < |s| && s[k] == x;
        }
        WithDataEmpty(s, v);
      }
    }
  }

  /** `s` is in non-decreasing order of `data % m`. */
  predicate SortedMod(s: seq<Stick>, m: int)
    requires m > 0
  {
    forall i, j :: 0 <= i < j < |s| ==> s[i].data % m <= s[j].data % m
  }

  lemma {:induction false} MulMonotone(x: int, y: int, m: int)
    requires x <= y && m >= 0
    ensures x * m <= y * m
    decreases y - x
  {
    if x < y {
      MulMonotone(x, y - 1, m);
      assert y * m == (y - 1) * m + m;
    }
  }

  /** A non-zero multiple of `m` is at least `m` away from zero. */
  lemma MulAwayFromZero(k: int, m: int)
    requires m > 0
    ensures k >= 1 ==> k * m >= m
    ensures k <= -1 ==> k * m <= -m
  {
    if k >= 1 {
      MulMonotone(1, k, m);
    }
    if k <= -1 {
      MulMonotone(k, -1, m);
    }
  }

  /** Division and remainder are unique: `q` and `r` are the quotient and
      remainder of `v` by `m` as soon as `v == q m + r` with `0 <= r < m`. */
  lemma DivModUnique(v: int, m: int, q: int, r: int)
    requires m > 0 && v == q * m + r && 0 <= r < m
    ensures v / m == q && v % m == r
  {
    var q', r' := v / m, v % m;
    assert v == q' * m + r';
    assert (q - q') * m == r' - r;
    MulAwayFromZero(q - q', m);
  }

  /** The remainder modulo `10 e` is the digit at `e` followed by the remainder
      modulo `e`, and dividing by `e` then by 10 is dividing by `10 e`. */
  lemma NextDigit(v: int, e: int)
    requires v >= 0 && e > 0
    ensures v % (e * 10) == Digit(v, e) * e + v % e
    ensures (v / e) / 10 == v / (e * 10)
  {
    var q, r := v / e, v % e;
    var hi, dd := q / 10, q % 10;
    assert v == q * e + r;
    assert q == hi * 10 + dd;
    assert q * e == hi * (e * 10) + dd * e by {
      assert q * e == (hi * 10 + dd) * e;
      assert (hi * 10 + dd) * e == (hi * 10) * e + dd * e;
      assert (hi * 10) * e == hi * (e * 10);
    }
    MulMonotone(dd, 9, e);
    assert 0 <= dd * e;
    DivModUnique(v, e * 10, hi, dd * e + r);
  }

  /** A smaller digit at `e` means a smaller remainder modulo `10 e`. */
  lemma DigitOrder(v: int, w: int, e: int)
    requires v >= 0 && w >= 0 && e > 0 && Digit(v, e) < Digit(w, e)
    ensures v % (e * 10) < w % (e * 10)
  {
    NextDigit(v, e);
    NextDigit(w, e);
    MulMonotone(Digit(v, e) + 1, Digit(w, e), e);
    assert (Digit(v, e) + 1) * e == Digit(v, e) * e + e;
  }

  lemma {:induction false} BucketSortedMod(s: seq<Stick>, e: int, d: int)
    requires e > 0 && SortedMod(s, e)
    ensures SortedMod(Bucket(s, e, d), e)
    decreases |s|
  {
    if s != [] {
      var x, r := s[0], s[1..];
      assert SortedMod(r, e);
      BucketSortedMod(r, e, d);
      var br := Bucket(r, e, d);
      forall y | y in br
        ensures x.data % e <= y.data % e
      {
        BucketMembers(r, e, d, y);
        var k :| 0 <= k < |r| && r[k] == y;
        assert s[k + 1] == y;
      }
      if Digit(x.data, e) == d {
        assert Bucket(s, e, d) == [x] + br;
        forall i, j | 0 <= i < j < |[x] + br|
          ensures ([x] + br)[i].data % e <= ([x] + br)[j].data % e
        {
          if i == 0 {
            assert ([x] + br)[j] in br;
          }
        }
      }
    }
  }

  /** Two runs ordered by `data % m` whose every pair across is ordered make
      one run. */
  lemma SortedModConcat(p: seq<Stick>, q: seq<Stick>, m: int)
    requires m > 0 && SortedMod(p, m) && SortedMod(q, m)
    requires forall x, y :: x in p && y in q ==> x.data % m <= y.data % m
    ensures SortedMod(p + q, m)
  {
    forall i, j | 0 <= i < j < |p + q|
      ensures (p + q)[i].data % m <= (p + q)[j].data % m
    {
      if i < |p| && |p| <= j {
        assert (p + q)[i] in p && (p + q)[j] in q;
      }
    }
  }

  lemma {:induction false} DigitSortFromMembers(s: seq<Stick>, e: int, d: int, x: Stick)
    requires e > 0 && 0 <= d && x in DigitSortFrom(s, e, d)
    ensures x in s && d <= Digit(x.data, e)
    decreases 10 - d
  {
    if x in Bucket(s, e, d) {
      BucketMembers(s, e, d, x);
    } else {
      DigitSortFromMembers(s, e, d + 1, x);
    }
  }

  lemma {:induction false} DigitSortFromSortedMod(s: seq<Stick>, e: int, d: int)
    requires e > 0 && NonNegative(s) && SortedMod(s, e) && 0 <= d <= 10
    ensures SortedMod(DigitSortFrom(s, e, d), e * 10)
    decreases 10 - d
  {
    if d < 10 {
      var b, r := Bucket(s, e, d), DigitSortFrom(s, e, d + 1);
      DigitSortFromSortedMod(s, e, d + 1);
      BucketSortedMod(s, e, d);
      forall i, j | 0 <= i < j < |b|
        ensures b[i].data % (e * 10) <= b[j].data % (e * 10)
      {
        BucketMembers(s, e, d, b[i]);
        BucketMembers(s, e, d, b[j]);
        NonNegativeMember(s, b[i]);
        NonNegativeMember(s, b[j]);
        NextDigit(b[i].data, e);
        NextDigit(b[j].data, e);
      }
      forall x, y | x in b && y in r
        ensures x.data % (e * 10) <= y.data % (e * 10)
      {
        BucketMembers(s, e, d, x);
        DigitSortFromMembers(s, e, d + 1, y);
        NonNegativeMember(s, x);
        NonNegativeMember(s, y);
        DigitOrder(x.data, y.data, e);
      }
      SortedModConcat(b, r, e * 10);
    }
  }

  lemma NonNegativeMember(s: seq<Stick>, x: Stick)
    requires NonNegative(s) && x in s
    ensures x.data >= 0
  {
    var k :| 0 <= k < |s| && s[k] == x;
  }

  /** The heart of least-significant-digit radix sort: a stable pass on the
      digit at `e` turns an order on the last digits below `e` into an order
      on the last digits below `10 e`. */
  lemma DigitSortSortsNextDigit(s: seq<Stick>, e: int)
    requires e > 0 && NonNegative(s) && SortedMod(s, e)
    ensures SortedMod(DigitSort(s, e), e * 10)
  {
    DigitSortFromSortedMod(s, e, 0);
  }

  // ---------------------------------------------------------------------------
  // radixSort

  /** The running maximum of `radixSort`'s first loop: `INT_MIN` for no
      sticks, otherwise `std::max(data, maxElement)` stick after stick. */
  function MaxData(s: seq<Stick>): int
  {
    if s == [] then IntMin
    else
      var m := MaxData(s[..|s| - 1]);
      if s[|s| - 1].data < m then m else s[|s| - 1].data
  }

  /** `MaxData` is the largest datum (`INT_MIN` when there is none). */
  lemma {:induction false} MaxDataIsMax(s: seq<Stick>)
    ensures forall k :: 0 <= k < |s| ==> s[k].data <= MaxData(s)
    ensures s == [] ==> MaxData(s) == IntMin
    ensures s != [] ==> MaxData(s) == IntMin || exists k :: 0 <= k < |s| && s[k].data == MaxData(s)
    decreases |s|
  {
    if s != [] {
      var p := s[..|s| - 1];
      MaxDataIsMax(p);
      assert forall k :: 0 <= k < |p| ==> s[k] == p[k];
      if s[|s| - 1].data < MaxData(p) && MaxData(p) != IntMin {
        var k :| 0 <= k < |p| && p[k].data == MaxData(p);
        assert s[k].data == MaxData(s);
      }
    }
  }

  /** How many times the pass loop runs for a maximum `m`: the number of
      decimal digits of `m`, and none when `m` is not positive. */
  function DigitCount(m: int): nat
  {
    if m <= 0 then 0 else 1 + DigitCount(m / 10)
  }

  /** `10^k`. */
  function Pow10(k: nat): int
  {
    if k == 0 then 1 else 10 * Pow10(k - 1)
  }

  /** A positive `m` has `DigitCount(m)` digits: it lies in
      `[10^(n - 1), 10^n)` for `n == DigitCount(m)`. */
  lemma {:induction false} DigitCountBounds(m: int)
    requires m > 0
    ensures DigitCount(m) >= 1
    ensures Pow10(DigitCount(m) - 1) <= m < Pow10(DigitCount(m))
    decreases m
  {
    if m >= 10 {
      DigitCountBounds(m / 10);
    }
  }

  /** A positive quotient means the divisor fits in the dividend. */
  lemma QuotientBounds(m: int, e: int)
    requires e > 0
    ensures m / e > 0 ==> e <= m
    ensures m >= 0 && m / e <= 0 ==> m < e
  {
    MulAwayFromZero(m / e, e);
    assert m == (m / e) * e + m % e;
  }

  /** Members of a permutation carry the same data. */
  lemma PermutationDataBounds(a: seq<Stick>, b: seq<Stick>, lo: int, hi: int)
    requires multiset(a) == multiset(b)
    requires forall k :: 0 <= k < |a| ==> lo <= a[k].data <= hi
    ensures forall k :: 0 <= k < |b| ==> lo <= b[k].data <= hi
  {
    forall k | 0 <= k < |b|
      ensures lo <= b[k].data <= hi
    {
      assert b[k] in multiset(a);
      var j :| 0 <= j < |a| && a[j] == b[k];
    }
  }

  /** Ordered on `data % e` with every datum in `[0, e)` is ordered. */
  lemma SortedModAll(b: seq<Stick>, e: int)
    requires e > 0 && SortedMod(b, e)
    requires forall k :: 0 <= k < |b| ==> 0 <= b[k].data < e
    ensures Sorted(b)
  {
    forall k | 0 <= k < |b|
      ensures b[k].data % e == b[k].data
    {
      DivModUnique(b[k].data, e, 0, b[k].data);
    }
  }

  /** The first loop of `radixSort`: the running maximum over all sticks. */
  method FindMax(a: seq<Stick>) returns (maxElement: int)
    ensures maxElement == MaxData(a)
    ensures forall k :: 0 <= k < |a| ==> a[k].data <= maxElement
  {
    maxElement := IntMin;
    var i := 0;
    while i < |a|
      invariant 0 <= i <= |a| && maxElement == MaxData(a[..i])
    {
      assert a[..i + 1][..i] == a[..i];
      maxElement := if a[i].data < maxElement then maxElement else a[i].data;
      i := i + 1;
    }
    assert a[..|a|] == a;
    MaxDataIsMax(a);
  }

  /** The state of the pass loop after `passes` passes, the next one being on
      the digit at `exponent`: a stable reordering of `a`, ordered on the
      digits below `exponent`, with `DigitCount(max / exponent)` passes to
      go. */
  ghost predicate Passing(a: seq<Stick>, b: seq<Stick>, maxElement: int, exponent: int, passes: nat)
  {
    && exponent > 0 && |b| == |a| && NonNegative(b)
    && Stable(a, b) && SortedMod(b, exponent)
    && (forall k :: 0 <= k < |b| ==> b[k].data <= maxElement)
    && passes + DigitCount(maxElement / exponent) == DigitCount(maxElement)
    && (maxElement / exponent > 0 ==> exponent <= maxElement)
  }

  /** One round of the pass loop: a counting-sort pass on the digit at
      `exponent`, then the next digit. */
  method RadixPass(a: seq<Stick>, b: seq<Stick>, maxElement: int, exponent: int, ghost passes: nat, c: Counters)
    returns (b': seq<Stick>, exponent': int, c': Counters)
    requires Passing(a, b, maxElement, exponent, passes) && maxElement / exponent > 0
    ensures Passing(a, b', maxElement, exponent', passes + 1)
    ensures exponent' == exponent * 10 && maxElement - exponent' < maxElement - exponent
    ensures c' == Counters(c.comparisons, c.accesses + 2 * |a|)
  {
    QuotientBounds(maxElement, exponent);
    NextDigit(maxElement, exponent);
    b', c' := CountSort(b, exponent, c);
    DigitSortStable(b, exponent);
    DigitSortSortsNextDigit(b, exponent);
    StableTransitive(a, b, b');
    StableIsPermutation(b, b');
    PermutationDataBounds(b, b', 0, maxElement);
    exponent' := exponent * 10;
    QuotientBounds(maxElement, exponent');
    assert |b'| == |multiset(b')| == |multiset(b)| == |b|;
  }

  /** The accesses of a radix sort of `a`: two per stick for every decimal
      digit of the maximum. */
  function RadixAccesses(a: seq<Stick>): nat
  {
    2 * |a| * DigitCount(MaxData(a))
  }

  /** `radixSort`: after the maximum is found, one counting-sort pass per
      decimal digit of the maximum, units first; an empty collection (maximum
      `INT_MIN`) and a collection of zeros get no pass. Only accesses are
      counted, two per stick and pass. */
  method RadixSort(a: seq<Stick>, c: Counters) returns (b: seq<Stick>, c': Counters)
    requires NonNegative(a)
    ensures Sorted(b) && Stable(a, b) && multiset(b) == multiset(a)
    ensures c'.comparisons == c.comparisons
    ensures c'.accesses == c.accesses + RadixAccesses(a)
  {
    var maxElement := FindMax(a);
    b, c' := a, c;
    var exponent := 1;
    ghost var passes: nat := 0;
    while maxElement / exponent > 0
      invariant Passing(a, b, maxElement, exponent, passes)
      invariant c'.comparisons == c.comparisons && c'.accesses == c.accesses + 2 * |a| * passes
      decreases maxElement - exponent
    {
      b, exponent, c' := RadixPass(a, b, maxElement, exponent, passes, c');
      PassCost(2 * |a|, passes);
      passes := passes + 1;
    }
    if b != [] {
      QuotientBounds(maxElement, exponent);
      SortedModAll(b, exponent);
    }
    StableIsPermutation(a, b);
  }

  /** One more pass costs one more `w`. */
  lemma PassCost(w: int, passes: nat)
    ensures w * (passes + 1) == w * passes + w
  {
  }

  /** `processRadixSort`. */
  method ProcessRadixSort(a: seq<Stick>, c: Counters) returns (b: seq<Stick>, c': Counters)
    requires NonNegative(a)
    ensures Sorted(b) && Stable(a, b) && multiset(b) == multiset(a)
    ensures c'.comparisons == c.comparisons
    ensures c'.accesses == c.accesses + RadixAccesses(a)
    ensures c.accesses <= c'.accesses
  {
    b, c' := RadixSort(a, c);
    var passes := DigitCount(MaxData(a));
    assert 0 <= |a| * passes;
  }

  // ---------------------------------------------------------------------------
  // A worked example

  /** Eight sticks with data `[170, 45, 75, 90, 802, 24, 2, 66]`. */
  function ExampleInput(): seq<Stick>
  {
    [Stick(0, 170), Stick(1, 45), Stick(2, 75), Stick(3, 90),
     Stick(4, 802), Stick(5, 24), Stick(6, 2), Stick(7, 66)]
  }

  /** The example's sticks in order of their data. */
  function ExampleSorted(): seq<Stick>
  {
    [Stick(6, 2), Stick(5, 24), Stick(1, 45), Stick(7, 66),
     Stick(2, 75), Stick(3, 90), Stick(0, 170), Stick(4, 802)]
  }

  lemma ExampleSortedIsSorted()
    ensures Sorted(ExampleSorted())
    ensures Keys(ExampleSorted()) == [2, 24, 45, 66, 75, 90, 170, 802]
  {
    var t := ExampleSorted();
    assert forall i :: 0 <= i < 7 ==> t[i].data <= t[i + 1].data;
    forall i, j | 0 <= i < j < |t|
      ensures t[i].data <= t[j].data
    {
      var k := i;
      while k < j
        invariant i <= k <= j && t[i].data <= t[k].data
      {
        k := k + 1;
      }
    }
  }

  lemma ExampleSortedIsPermutation()
    ensures multiset(ExampleSorted()) == multiset(ExampleInput())
  {
    var a, t := ExampleInput(), ExampleSorted();
    assert t == [a[6], a[5], a[1], a[7], a[2], a[3], a[0], a[4]];
    SameElements(t, a);
  }

  /** No stick occurs twice. */
  ghost predicate Distinct(s: seq<Stick>)
  {
    forall i, j :: 0 <= i < j < |s| ==> s[i] != s[j]
  }

  /** In a sequence without repetitions every stick occurs at most once. */
  lemma {:induction false} DistinctCount(s: seq<Stick>, z: Stick)
    requires Distinct(s)
    ensures multiset(s)[z] == if z in s then 1 else 0
    decreases |s|
  {
    if s != [] {
      assert s == [s[0]] + s[1..];
      assert s[0] !in s[1..];
      DistinctCount(s[1..], z);
    }
  }

  /** Two sequences without repetitions that hold the same sticks are
      permutations of each other. */
  lemma SameElements(s: seq<Stick>, t: seq<Stick>)
    requires Distinct(s) && Distinct(t)
    requires forall z :: z in s <==> z in t
    ensures multiset(s) == multiset(t)
  {
    forall z
      ensures multiset(s)[z] == multiset(t)[z]
    {
      DistinctCount(s, z);
      DistinctCount(t, z);
    }
  }

  /** Whatever sorted permutation of the example radix sort produces, its
      data are `[2, 24, 45, 66, 75, 90, 170, 802]`. */
  lemma ExampleKeys(b: seq<Stick>)
    requires Sorted(b) && multiset(b) == multiset(ExampleInput())
    ensures Keys(b) == [2, 24, 45, 66, 75, 90, 170, 802]
  {
    ExampleSortedIsSorted();
    ExampleSortedIsPermutation();
    SortedPermutationKeys(b, ExampleSorted());
  }

  /** The example's maximum, 802, has three digits: three passes. */
  lemma ExamplePasses()
    ensures DigitCount(MaxData(ExampleInput())) == 3
  {
    var a := ExampleInput();
    MaxDataIsMax(a);
    assert MaxData(a) == 802 by {
      assert a[4].data <= MaxData(a);
      if MaxData(a) != IntMin {
        var k :| 0 <= k < |a| && a[k].data == MaxData(a);
      }
    }
    assert DigitCount(8) == 1 + DigitCount(0);
    assert DigitCount(80) == 1 + DigitCount(8);
  }

  /** Radix sort of the example gives the data `[2, 24, 45, 66, 75, 90, 170,
      802]` in three passes of eight sticks, 48 accesses. */
  method RadixSortExample() returns (keys: seq<int>, accesses: nat)
    ensures keys == [2, 24, 45, 66, 75, 90, 170, 802]
    ensures accesses == 48
  {
    var b, c := RadixSort(ExampleInput(), Counters(0, 0));
    ExampleKeys(b);
    ExamplePasses();
    keys, accesses := Keys(b), c.accesses;
  }
}
