# Sorting-Stick: the sorting core, modelled in Dafny

Sorting-Stick is a game that visualises sorting algorithms on a row of sticks
of different heights. `StickCollectionController` owns the vector of sticks.
When the player picks an algorithm, `sortElements` labels it with its
complexity and starts a worker thread. The worker runs the algorithm and
counts comparisons and array accesses. `reset` stops the worker, shuffles the
sticks and clears the counters.

This project models that sorting core:

- the six algorithms the player can start: bubble, insertion and selection
  sort, merge sort with its buffered `merge`, quick sort with Lomuto
  `partition`, and LSD radix sort with `countSort`;
- the in-place merge sort the source also contains (`inPlaceMergeSort`,
  `inPlaceMerge`);
- the two counters, exactly as each algorithm bumps them;
- the stop flag `sort_state`, which only the three quadratic sorts poll;
- `sortElements`, `reset`, `resetVariables` and `shuffleSticks`.

Modules, one file each:

- `sticks.dfy` (`Sticks`) defines the data and the ordering notions:
  - `Stick(id, data)`, where a pointer in the vector is modelled by the stick it points to;
  - `Counters`, and `StopFlag`, which fixes from which poll on the worker sees NOT_SORTING;
  - sorted, permutation (`multiset`), and stable (`Stable`: for every key, the sticks carrying it keep their relative order).
- `elementary.dfy` (`Elementary`): bubble, insertion and selection sort.
- `merge.dfy` (`Merging`): merge sort and in-place merge sort. Both are checked against one functional reference, `MergeSortSeq`, which splits where the source splits and takes the left run on ties.
- `quick.dfy` (`Quick`): `partition` and `quickSort`.
- `radix.dfy` (`Radix`): `countSort`, specified by `DigitSort`, which concatenates the ten digit buckets; `radixSort`; and the worked example `[170, 45, 75, 90, 802, 24, 2, 66]`.
- `controller.dfy` (`Controller`): `sortElements`, `reset` and the shuffle.

Every sort is a method that takes the sequence and the counters and returns
new ones. Nothing is stored on the heap.

## Model

| member | source | states |
|---|---|---|
| Sticks.StableIsPermutation | Sorting-Stick/source/Gameplay/Collection/StickCollectionController.cpp:193-197 | a stable reordering (every key's sticks in their old order) is a permutation |
| Sticks.SwapNeighboursStable | Sorting-Stick/source/Gameplay/Collection/StickCollectionController.cpp:193-197 | swapping two neighbours with different data keeps every key's sticks in order, which is why swapping only on strict `<` is stable |
| Sticks.StableSortUnique | Sorting-Stick/source/Gameplay/Collection/StickCollectionController.cpp:582-585 | two sorted stable reorderings of the same sticks are equal: under `compareSticksByData` a stable sort has exactly one possible result |
| Sticks.SortedPermutationKeys | Sorting-Stick/source/Gameplay/Collection/StickCollectionController.cpp:582-585 | two sorted permutations of the same sticks list the same data in the same order |
| Elementary.BubblePass | Sorting-Stick/source/Gameplay/Collection/StickCollectionController.cpp:179-204 | one pass: stable, touches nothing beyond the unsorted prefix, one comparison and two accesses per step; a pass not stopped leaves the largest stick of the prefix at its end and swaps nothing exactly when the prefix was already sorted; it stops exactly at the first poll that sees NOT_SORTING, after one comparison per earlier poll |
| Elementary.BubbleRound | Sorting-Stick/source/Gameplay/Collection/StickCollectionController.cpp:179-212 | a pass grows the sorted suffix by one; a pass with no swap over a placed suffix leaves the whole sequence sorted; a sorted prefix costs exactly its length minus one comparisons |
| Elementary.RoundsCostClosed | Sorting-Stick/source/Gameplay/Collection/StickCollectionController.cpp:174-181 | the comparisons of the first `i` passes add up to `i(2n-i-1)/2`, at most `n(n-1)/2` |
| Elementary.BubbleSort | Sorting-Stick/source/Gameplay/Collection/StickCollectionController.cpp:172-216 | stable permutation however early it is stopped; sorted when never stopped; at most `n(n-1)/2` comparisons, two accesses each; a sorted input is left alone after `n-1` comparisons |
| Elementary.MoveBackStable | Sorting-Stick/source/Gameplay/Collection/StickCollectionController.cpp:234-256 | moving the key back over strictly larger sticks keeps every key's sticks in order |
| Elementary.MoveBackShifts | Sorting-Stick/source/Gameplay/Collection/StickCollectionController.cpp:234-254 | in a sorted prefix the key is shifted past exactly the sticks above it |
| Elementary.ShiftLarger | Sorting-Stick/source/Gameplay/Collection/StickCollectionController.cpp:234-254 | the shifting loop moves `[j+1, i)` one place right, over sticks strictly above the key, and stops below the key or at the front unless the flag cuts it short; one comparison and two accesses per shift |
| Elementary.InsertKey | Sorting-Stick/source/Gameplay/Collection/StickCollectionController.cpp:220-264 | inserting one key is stable; on a sorted prefix that is not stopped, the prefix grows by one and costs one comparison per larger stick before the key |
| Elementary.InsertionStep | Sorting-Stick/source/Gameplay/Collection/StickCollectionController.cpp:220-264 | the comparisons of one insertion add up with the earlier ones to the inversions of the prefix |
| Elementary.SortedHasNoInversions | Sorting-Stick/source/Gameplay/Collection/StickCollectionController.cpp:234 | a sorted sequence has no inversions, so insertion sort compares nothing on it |
| Elementary.InsertionSort | Sorting-Stick/source/Gameplay/Collection/StickCollectionController.cpp:218-267 | stable permutation however early it is stopped; sorted when never stopped, with exactly one comparison per inversion and `2(n-1) + 2·inversions` accesses |
| Elementary.ScanMinimum | Sorting-Stick/source/Gameplay/Collection/StickCollectionController.cpp:276-302 | a scan that is not stopped finds the first minimum of `[i, n)`, with one comparison and one access per later stick; a scan stops exactly at the first poll that sees NOT_SORTING, after one comparison per earlier poll |
| Elementary.SelectRound | Sorting-Stick/source/Gameplay/Collection/StickCollectionController.cpp:273-308 | a round exchanges position `i` with some `m` in `[i, n)`, after a stopped scan too, and costs one access per comparison plus three for the exchange; a round not stopped picks the first minimum of `[i, n)` and extends the sorted prefix |
| Elementary.SelectionSort | Sorting-Stick/source/Gameplay/Collection/StickCollectionController.cpp:269-313 | permutation however early it is stopped; sorted when never stopped, after exactly `n(n-1)/2` comparisons and `n(n-1)/2 + 3(n-1)` accesses; stopped or not, the accesses beyond one per comparison are three per round, at most `n - 1` rounds; needs at least one stick |
| Elementary.SelectionBoundWraps | Sorting-Stick/source/Gameplay/Collection/StickCollectionController.cpp:271 | the unsigned bound `size() - 1` is `n - 1` for a non-empty collection but wraps to the largest `size_t`, `2^64 - 1`, for an empty one |
| Elementary.GuardedSelectionSort | Sorting-Stick/source/Gameplay/Collection/StickCollectionController.cpp:269-313 | selection sort with the bound read as signed: an empty collection is returned unchanged with no cost, every other input behaves as `processSelectionSort` |
| Merging.MergeSeqsPermutation | Sorting-Stick/source/Gameplay/Collection/StickCollectionController.cpp:418-459 | the reference merge holds exactly the sticks of both runs |
| Merging.MergeSeqsSorted | Sorting-Stick/source/Gameplay/Collection/StickCollectionController.cpp:418-459 | merging two sorted runs gives a sorted run |
| Merging.MergeSeqsStable | Sorting-Stick/source/Gameplay/Collection/StickCollectionController.cpp:423 | with a sorted left run, taking the left head on ties keeps every key's sticks in order |
| Merging.MergeSortSeqIsTheStableSort | Sorting-Stick/source/Gameplay/Collection/StickCollectionController.cpp:388-398 | any sorted stable reordering of `s` is the reference merge sort of `s` |
| Merging.MergeWhileBoth | Sorting-Stick/source/Gameplay/Collection/StickCollectionController.cpp:418-441 | while both runs are non-empty, the smaller head is placed (the left one on ties); one comparison and three accesses per stick placed |
| Merging.MergeCopyRest | Sorting-Stick/source/Gameplay/Collection/StickCollectionController.cpp:443-459 | the leftover run is copied behind the merged part, one access per stick |
| Merging.Merge | Sorting-Stick/source/Gameplay/Collection/StickCollectionController.cpp:400-460 | the range becomes the reference merge of its two halves and nothing outside it changes; at least `min(left size, right size)` and fewer than `n` comparisons, `2n + 2·comparisons` accesses |
| Merging.MergeWorkBound | Sorting-Stick/source/Gameplay/Collection/StickCollectionController.cpp:388-398 | the sticks merged over all levels of merge sort number at most `n·⌈log2 n⌉` |
| Merging.MergeSort | Sorting-Stick/source/Gameplay/Collection/StickCollectionController.cpp:388-398 | `mergeSort(left, right)` turns the range into its reference merge sort and leaves the rest untouched; an empty or one-stick range costs nothing; comparisons and accesses stay within the merge work |
| Merging.ProcessMergeSort | Sorting-Stick/source/Gameplay/Collection/StickCollectionController.cpp:382-386 | merge sort is a sorted stable permutation with at most `n·⌈log2 n⌉` comparisons |
| Merging.RotateIntoPlace | Sorting-Stick/source/Gameplay/Collection/StickCollectionController.cpp:355-365 | the inner loop of `inPlaceMerge` rotates the right head in front of the left run, with two accesses per shift and one for the write |
| Merging.InPlaceMergeStep | Sorting-Stick/source/Gameplay/Collection/StickCollectionController.cpp:346-372 | one comparison of the heads either keeps the left head (two accesses) or rotates the right head in (three accesses plus two per stick of the left run) |
| Merging.InPlaceMergeLoop | Sorting-Stick/source/Gameplay/Collection/StickCollectionController.cpp:346-379 | when the halves are out of order, the loop yields the reference merge of the two halves, with at least one rotation and bounded comparisons and accesses |
| Merging.InPlaceMerge | Sorting-Stick/source/Gameplay/Collection/StickCollectionController.cpp:334-380 | the shortcut: when the left half ends at or below where the right one begins, nothing moves and the cost is two comparisons and one access; otherwise the loop merges the halves |
| Merging.InPlaceMergeSort | Sorting-Stick/source/Gameplay/Collection/StickCollectionController.cpp:321-332 | the in-place variant ends in the same order as `mergeSort`: the reference merge sort of the range, with the rest untouched |
| Merging.ProcessInPlaceMergeSort | Sorting-Stick/source/Gameplay/Collection/StickCollectionController.cpp:315-319 | the in-place variant is a sorted stable permutation, equal to the reference merge sort |
| Quick.PartitionStep | Sorting-Stick/source/Gameplay/Collection/StickCollectionController.cpp:491-511 | one step of the scan moves a stick strictly below the pivot into the lower block; one comparison and two accesses, three more for a swap |
| Quick.Partition | Sorting-Stick/source/Gameplay/Collection/StickCollectionController.cpp:486-518 | the pivot, the last stick of the range, lands at `p`; everything before it is strictly smaller and everything after it is at least as large; `p - left` is the number of smaller sticks; nothing outside the range moves; `right - left` comparisons |
| Quick.PivotRank | Sorting-Stick/source/Gameplay/Collection/StickCollectionController.cpp:513-517 | the returned index is fixed by the data alone: `left` plus the number of sticks below the pivot |
| Quick.QuickSort | Sorting-Stick/source/Gameplay/Collection/StickCollectionController.cpp:469-484 | `quickSort(left, right)` sorts the range and leaves the rest untouched, with at most `n(n-1)/2` comparisons |
| Quick.ProcessQuickSort | Sorting-Stick/source/Gameplay/Collection/StickCollectionController.cpp:462-467 | quick sort is a sorted permutation with at most `n(n-1)/2` comparisons; accesses lie between two and five per comparison plus three per stick |
| Radix.CountDigits | Sorting-Stick/source/Gameplay/Collection/StickCollectionController.cpp:543-554 | the counting loop gives each digit the size of its bucket, one access per stick |
| Radix.PrefixSums | Sorting-Stick/source/Gameplay/Collection/StickCollectionController.cpp:556-559 | after the prefix sums, `count[d]` is the running sum `count[0] + ... + count[d]` of the counts before the loop |
| Radix.SumsAreBucketStarts | Sorting-Stick/source/Gameplay/Collection/StickCollectionController.cpp:543-559 | with the counts `CountDigits` produces, the running sum up to `d` is the number of sticks whose digit is at most `d`, which is where bucket `d + 1` starts |
| Radix.PlaceFromBack | Sorting-Stick/source/Gameplay/Collection/StickCollectionController.cpp:561-570 | walking from the back and filling each bucket from its end yields the buckets in digit order, each in input order; one access per stick |
| Radix.CountSort | Sorting-Stick/source/Gameplay/Collection/StickCollectionController.cpp:538-580 | `countSort(exponent)` regroups the sticks by the digit at `exponent` and keeps their order within a digit; `2n` accesses |
| Radix.DigitSortStable | Sorting-Stick/source/Gameplay/Collection/StickCollectionController.cpp:561-570 | a counting-sort pass keeps every key's sticks in order |
| Radix.DigitSortSortsNextDigit | Sorting-Stick/source/Gameplay/Collection/StickCollectionController.cpp:534-535 | a pass on the digit at `e` over a sequence ordered modulo `e` leaves it ordered modulo `10e` |
| Radix.FindMax | Sorting-Stick/source/Gameplay/Collection/StickCollectionController.cpp:528-532 | the running maximum starts at `INT_MIN` and ends at the largest datum |
| Radix.RadixSort | Sorting-Stick/source/Gameplay/Collection/StickCollectionController.cpp:526-536 | radix sort is a sorted stable permutation; one pass per decimal digit of the maximum, `2n` accesses each and no comparisons; an empty input gets no pass |
| Radix.ProcessRadixSort | Sorting-Stick/source/Gameplay/Collection/StickCollectionController.cpp:520-524 | the same, for the whole collection |
| Radix.ExamplePasses | Sorting-Stick/source/Gameplay/Collection/StickCollectionController.cpp:534 | the example's maximum, 802, takes three passes |
| Radix.RadixSortExample | Sorting-Stick/source/Gameplay/Collection/StickCollectionController.cpp:520-580 | radix sort on the example gives `[2, 24, 45, 66, 75, 90, 170, 802]` in 48 accesses |
| Controller.SortedPermutationMatchesReference | Sorting-Stick/source/Gameplay/Collection/StickCollectionController.cpp:131-170 | whichever algorithm finishes, the data come out in the same order as the reference merge sort |
| Controller.SortElements | Sorting-Stick/source/Gameplay/Collection/StickCollectionController.cpp:131-170 | sets the algorithm, the delays and the complexity label; a stopped run ends NOT_SORTING with both delays 0, as `reset` (lines 621-625) leaves them before it waits for the worker (`O(n^2)` exactly for the three polling sorts, `O(nlog(n))` for merge and quick, `O(w'(n+k))` for radix); the sticks stay a permutation and the counters only grow; a run that is not stopped, or that cannot be, sorts; the tie-keeping algorithms are stable and, when they finish, all give the reference merge sort |
| Controller.ShufflePermutation | Sorting-Stick/source/Gameplay/Collection/StickCollectionController.cpp:102-109 | a shuffle is a permutation, whatever the random draws |
| Controller.EveryOrderReachable | Sorting-Stick/source/Gameplay/Collection/StickCollectionController.cpp:102-109 | every rearrangement of the sticks is the result of some sequence of draws |
| Controller.Reset | Sorting-Stick/source/Gameplay/Collection/StickCollectionController.cpp:621-632 | `reset` zeroes both delays, sets NOT_SORTING, clears both counters (`resetVariables`, lines 125-129), keeps the algorithm and its label, and leaves a permutation of the sticks |
| Controller.ResetReachesEveryOrder | Sorting-Stick/source/Gameplay/Collection/StickCollectionController.cpp:621-632 | after a reset the sticks can be in any order |
| Controller.ResetKeepsSortedKeys | Sorting-Stick/source/Gameplay/Collection/StickCollectionController.cpp:621-632 | a reset changes the order but not the multiset of data: sorting afterwards gives the same data order |

## Left out

- Threads and timing. The worker thread, `join` and every `sleep_for` are not modelled. A run is modelled from `sortElements` to the end of its worker. Concurrency with `reset` is reduced to the `StopFlag`: during a run, `sort_state` only goes from SORTING to NOT_SORTING, so some poll onwards sees the stop.
- The view, sound and layout: stick colours, `updateStickPosition`, `resetSticksColor`, `setCompletedColor`, sounds, `render`, `update`, `initialize`. They never touch the order or the counters. `setCompletedColor` only reads `sort_state`.
- `processSortThreadState` and `isCollectionSorted`. `isCollectionSorted` compares the `Stick*` pointers, not their data, and the model has no addresses. So when the game considers a run finished is not modelled.
- The constructor and `initializeSticks`: how many sticks are built and the data they carry. `Stick.h` and the model and view classes are not part of this model, so data is any `int`.
- `destroy` and all memory management.
- Overflow of the `int` counters. The counters are unbounded naturals.
- Randomness. `std::shuffle` with an `mt19937` engine seeded from `random_device` is modelled as a Fisher–Yates shuffle driven by a sequence of draws passed in as a parameter. Its uniformity is not modelled; `EveryOrderReachable` states only that every order can occur.
- `SortElements` requires non-negative data for radix sort. `countSort` indexes `count` with `(data / exponent) % 10`, which can be negative for negative data under C++ truncating division: data `-3` gives index `-3` on the first pass, while data `-5` on the second pass gives `0`. When every datum is negative the source makes no pass and returns the sticks unsorted; that case is outside the model too.
- Radix.RadixSort: does not model `exponent *= 10` overflowing a 32-bit `int` when the maximum is at least 10^9. The model's exponent is unbounded.
- `Digit` follows C++ truncation for negative values. It is used only under the non-negative precondition.
- Merge sort, quick sort and radix sort never poll `sort_state` in the source, so their models take no flag and always run to the end.
- `inPlaceMergeSort` is modelled although `sortElements` never starts it.
- Radix.PlaceRest: the placement loop of `countSort` (lines 561-570) is written as a recursion on the remaining index instead of a `while` loop; it performs the same writes in the same order.
- Elementary.InsertionSort: when stopped, the contract bounds the accesses from below by two per comparison and does not give an exact count.
- Elementary.SelectionSort: when stopped, the contract does not say how many rounds ran, so the comparison count is bounded only through the counters growing and the accesses only up to the number of rounds.
- Controller.SortElements: for selection sort it runs `GuardedSelectionSort`, the corrected selection sort of the finding below, so an empty collection comes back unchanged where the source reads `sticks[0]` out of range.
- Quick.QuickSort: the comparison count is bounded by `n(n-1)/2` and the accesses by linear bounds in the comparisons; the exact count depends on the data.
- Quick.ProcessQuickSort: the same bounds; quick sort is not stable, so only sortedness and permutation are stated.

## Findings

| source | as written | input that shows it | evidently intended | confidence | as-written member | corrected member |
|---|---|---|---|---|---|---|
| Sorting-Stick/source/Gameplay/Collection/StickCollectionController.cpp:271 | `i < sticks.size() - 1` computes the bound in unsigned `size_t`, so for an empty collection it wraps to the largest `size_t`, and round 0 reads `sticks[0]` (line 277), as does line 311 | an empty collection, `n = 0` | no round for an empty collection | medium, not executed | Elementary.SelectionBoundWraps | Elementary.GuardedSelectionSort |
