# Running median over a bounded sliding window

This project models the core of RunMedian, a C++ header-only library that
computes the running median of the last `kSize` values of a numeric stream.
It uses only fixed, pre-allocated memory. The library has two cooperating
structures, and both are modelled as Dafny classes that update their state in
place:

- `Rqueue<T, kSize>` (`CircularQueue.Rqueue`, `circular_queue.dfy`) is a circular
  buffer of `kSize` slots with a head index `queue_pos_` and a size
  `queue_size_`. It records values in arrival order. `Add` overwrites the
  oldest value when the buffer is full. `TryAdd` refuses when the buffer is full.
  `DeleteHead`, `DeleteTail` and `DeleteAll` move only the indices and never
  clear a slot. A ghost sequence `Contents` holds the logical contents.
  `Valid()` ties it to the array: `Contents[i] == queue_[(pos + i) % kSize]`.
- `Runmedian<T, kSize>` (`RunningMedian.Runmedian`, `running_median.dfy`) keeps
  the window ascending in `values_sorted[0..values_count)`. It also owns an
  `Rqueue` that holds the same values in arrival order. `Add` finds the upper
  bound of the new value and the first copy of the queue's head (the value
  about to leave), then pushes the new value into the queue. If the window is
  full, it repositions the sorted prefix in one in-place shift pass with three
  branches: erase right of insert, erase at insert, or erase left of insert.
  If the window is not yet full, it does a plain right-shift insertion.
  `Value` reads the middle element, or the average (`>> 1`) of the two middle
  elements.

`sorted_window.dfy` (module `SortedWindow`) holds the facts about values that
the engine's proofs rest on:
- ascending order;
- the upper-bound insertion point;
- erasing at a position and inserting at a position;
- the median of a sorted window;
- the uniqueness of the sorted arrangement of a multiset, which makes "is
  ascending and a permutation of the queue" the same verdict as the source's
  "sort a copy of the queue and compare".

`median_scenarios.dfy` (module `MedianScenarios`) replays the four
fixed-input tests of the repository (capacity 5) through the engine. It proves
the medians and sizes those tests assert, and that `Clear` then gives size 0
and median 0.

The engine invariant `Runmedian.Valid()` has three parts:
- the sorted prefix is ascending;
- the prefix and the queue's contents are the same multiset;
- `values_count` equals the queue's size, which is at most `kSize`.

Every operation preserves it. The source's `HANDLE_ERROR`/`HANDLE_ERRORV`
checks become `assert` statements that are proved to hold under the invariant.
In particular, the oldest value is always found in the sorted prefix.

Values are unbounded `int`. `kSize` is a constructor argument in 1..255, as
the source's `uint8_t` template parameter requires. The queue's head and size,
the engine's count, `kSize` and the index passed to `At` are `uint8`. The
positions that the upper-bound and find searches return are `nat`.

Two details of the code that the model keeps:
- `operator[]` with an index at or beyond the size returns physical slot
  `queue_[0]`, not the logical head (`include/rqueue.inl:56-61`). The model
  does the same.
- In `Value`, the local named `even` is `values_count % 2`, so it is 1 for an
  odd count (`include/runmedian.inl:57-59`). The model uses the same index
  arithmetic.

## Model

| member | source | states |
|---|---|---|
| CircularQueue.TailSlot | include/rqueue.inl:43 | The slot `Tail` reads, `(pos + size - 1U) % kSize` in 32-bit unsigned arithmetic, wraps only when pos and size are both 0. Otherwise it is (pos + size - 1) reduced mod kSize. |
| CircularQueue.Ring | include/rqueue.hpp:87-89 | The logical contents of a ring have `size` elements, and element i is slot (pos + i) mod kSize. |
| CircularQueue.RingAppend | include/rqueue.inl:13-20 | Writing slot (pos + size) mod kSize of a ring that is not full, and growing the size, appends x to the logical contents. |
| CircularQueue.RingOverwrite | include/rqueue.inl:14-20 | In a full ring, writing the old head's slot and advancing the head by one drops the oldest element and appends x. |
| CircularQueue.RingAdvance | include/rqueue.inl:108-115 | Advancing the head of a non-empty ring by one, and shrinking its size, drops exactly its first logical element. |
| CircularQueue.Rqueue.constructor | include/rqueue.hpp:87-89 | A fresh queue is empty, its head is slot 0, and every slot holds 0. |
| CircularQueue.Rqueue.IncrementPos | include/rqueue.inl:9-11 | The head index moves on by one, wrapping to 0 at kSize. |
| CircularQueue.Rqueue.AddToTail | include/rqueue.inl:13-21 | Not full: the size grows by one, the head stays, and x becomes the last element. Full: the size stays kSize, the head advances, and the contents lose their first element and gain x. Only slot (old pos + old size) mod kSize changes. |
| CircularQueue.Rqueue.Head | include/rqueue.inl:28-37 | On a non-empty queue, the oldest retained element. |
| CircularQueue.Rqueue.Tail | include/rqueue.inl:39-48 | On a non-empty queue, the newest element. On an empty queue, the stale slot that the 32-bit index `pos + size - 1U` selects: slot pos - 1, or slot 0xFFFFFFFF mod kSize when pos is 0. |
| CircularQueue.Rqueue.At | include/rqueue.inl:50-66 | Below the size, logical element `index`, which is slot (pos + index) mod kSize. At or beyond the size, physical slot 0. |
| CircularQueue.Rqueue.Size | include/rqueue.inl:68-79 | The number of logical elements, at most kSize. |
| CircularQueue.Rqueue.Snapshot | include/runmedian.inl:71-74 | What reading indices 0..kSize-1 through `operator[]` yields. For a full queue this is exactly its contents. |
| CircularQueue.Rqueue.Add | include/rqueue.inl:81-88 | Never fails and replaces the oldest element when full (as AddToTail). Afterwards `Tail()` is x. |
| CircularQueue.Rqueue.TryAdd | include/rqueue.inl:90-106 | Returns true exactly when the queue was not full, and then appends x. Otherwise it returns false and leaves head, size, contents and every slot unchanged. |
| CircularQueue.Rqueue.DeleteHead | include/rqueue.inl:108-118 | On a non-empty queue, the size drops by one, the head advances, and the first element is dropped. On an empty queue, nothing changes. No slot is written. |
| CircularQueue.Rqueue.DeleteTail | include/rqueue.inl:120-129 | On a non-empty queue, the size drops by one, the head stays, and the last element is dropped. On an empty queue, nothing changes. No slot is written. |
| CircularQueue.Rqueue.DeleteAll | include/rqueue.inl:131-139 | Size and head become 0 and the contents become empty. Every slot keeps its value. |
| SortedWindow.Insert | include/runmedian.inl:139-150 | Inserting v at k keeps the prefix before k, puts v at k and shifts the rest right by one. It adds one copy of v to the multiset. |
| SortedWindow.Remove | include/runmedian.inl:95-136 | Erasing position e keeps the prefix before e and shifts the rest left by one. It removes one copy of s[e] from the multiset. |
| SortedWindow.EraseRightShape | include/runmedian.inl:99-120 | The array the erase-right pass leaves behind (v at the insert position, then the displaced chain up to the erased slot) is "erase at ie, then insert v at ig". |
| SortedWindow.EraseLeftShape | include/runmedian.inl:127-134 | The array the erase-left pass leaves behind (the shift left over [ie, ig-1), then v at ig-1) is "erase at ie, then insert v at ig-1". |
| SortedWindow.InsertShape | include/runmedian.inl:139-147 | The array the right-shift pass leaves behind is "insert v at ig" on a prefix one longer. |
| SortedWindow.InsertAtUpperBound | include/runmedian.inl:90 | Inserting v at its upper bound keeps an ascending sequence ascending. |
| SortedWindow.RemoveKeepsSorted | include/runmedian.hpp:16-18 | Erasing any position keeps an ascending sequence ascending. |
| SortedWindow.UpperBoundAfterRemove | include/runmedian.inl:127-134 | After erasing position e, v's upper bound moves one place left when e lay left of it. Otherwise it stays where it was. |
| SortedWindow.SortedUnique | include/runmedian.inl:76-81 | Two ascending sequences with the same multiset are equal, so a multiset has exactly one sorted arrangement. |
| SortedWindow.SortedCopyComparison | include/runmedian.inl:67-82 | Comparing a sorted copy of the queue element-wise with `values_sorted` succeeds exactly when `values_sorted` is ascending and a permutation of the queue. |
| SortedWindow.Halve | include/runmedian.inl:59 | The right shift by one is halving rounded down: 2r <= x <= 2r + 1. |
| SortedWindow.MedianSplitsWindow | include/runmedian.inl:42-65 | In a non-empty ascending window, the median lies between the two middle elements. At least half of the window is at most the median, and at least half is at least it. |
| RunningMedian.UpperBound | include/runmedian.inl:90 | On an ascending prefix, the returned position has every element before it at most v and every element from it on greater than v. |
| RunningMedian.Find | include/runmedian.inl:91 | The first position in the prefix holding x, or n when none does. |
| RunningMedian.EraseRightOfInsert | include/runmedian.inl:99-120 | The in-place erase-right pass turns the prefix into "erase at ie, then insert v at ig". Slots past the prefix are unchanged, and the `has_newold` fix-up is never reached. |
| RunningMedian.EraseLeftOfInsert | include/runmedian.inl:127-134 | The in-place erase-left pass turns the prefix into "erase at ie, then insert v at ig - 1". Slots past the prefix are unchanged. |
| RunningMedian.EraseAndInsert | include/runmedian.inl:99-136 | All three branches (erase right of, at, or left of the insert position) give "erase at ie, then insert v at its upper bound in what remains". |
| RunningMedian.ShiftRightInsert | include/runmedian.inl:139-147 | The right-shift loop turns the prefix, one slot longer, into "insert v at ig". |
| RunningMedian.InsertShifting | include/runmedian.inl:139-151 | Both insert-only branches (shift right, or write just past the end) give "insert v at ig". |
| RunningMedian.GrowStep | include/runmedian.inl:139-153 | Inserting v at its upper bound keeps the window ascending, and its multiset becomes that of the queue after appending v. |
| RunningMedian.SlideStep | include/runmedian.inl:91-136 | Erasing the first copy of the oldest arrival and inserting v at its adjusted upper bound keeps the window ascending. Its multiset becomes old minus the oldest arrival plus v, which is the multiset of the slid queue. |
| RunningMedian.Runmedian.constructor | include/runmedian.hpp:64-66 | A fresh engine is valid and empty: count 0, empty queue, all of `values_sorted` zero. |
| RunningMedian.Runmedian.Size | include/runmedian.inl:27-29 | The count, which equals the queue's size and is at most kSize. |
| RunningMedian.Runmedian.IsEmpty | include/runmedian.inl:31-33 | True exactly when `Size()` is 0, which is exactly when the queue is empty. |
| RunningMedian.Runmedian.Value | include/runmedian.inl:42-65 | The median of the sorted window. It is 0 when empty, the middle element for an odd count, and the floor-halved sum of the two middle elements for an even count. |
| RunningMedian.Runmedian.CheckIntegrity | include/runmedian.inl:67-82 | Passes exactly when the window is not full, or when every sorted copy of the queue equals `values_sorted` element-wise. This is the verdict of sorting the copy and comparing. It always passes on a valid engine. |
| RunningMedian.Runmedian.CopyQueue | include/runmedian.inl:71-74 | The copy holds `operator[](i)` for every i below kSize. |
| RunningMedian.Runmedian.Add | include/runmedian.inl:84-157 | Keeps the invariant (ascending, same multiset as the queue, count equals queue size). Not full: the count grows by one and v is added. Full: the count stays kSize, one copy of the oldest arrival leaves and v enters. With kSize 1, `Value()` is v. |
| RunningMedian.Runmedian.ReplaceOldest | include/runmedian.inl:95-136 | The oldest value is found in the window. The full-window pass keeps the invariant and swaps one copy of it for v. |
| RunningMedian.Runmedian.InsertNew | include/runmedian.inl:137-155 | The insert-only pass keeps the invariant and adds v. The count grows by one and stays within kSize. |
| RunningMedian.Runmedian.Clear | include/runmedian.inl:159-165 | From any well-formed state: the queue is empty, its slots are kept, all of `values_sorted` is zero, `Size()` is 0 and `Value()` is 0. |
| MedianScenarios.AddThenRead | include/runmedian.inl:84-157 | After Add, the window is the unique ascending arrangement of the next multiset, and the median read is that window's median. |
| MedianScenarios.Growing | RunMedian.cpp:46-77 | Adding 1..7 with capacity 5 reads medians 1,1,2,2,3,4,5 and sizes 1,2,3,4,5,5,5. Clear then gives size 0 and median 0. |
| MedianScenarios.Decreasing | RunMedian.cpp:79-110 | Adding 7..1 with capacity 5 reads medians 7,6,6,5,5,4,3. Clear then gives size 0 and median 0. |
| MedianScenarios.Diff | RunMedian.cpp:112-160 | Adding 7,1,5,2,6,3,5,10,1,4 reads medians 7,4,5,3,5,3,5,5,5,4, with size 5 from the fifth Add on. Clear then gives size 0 and median 0. |
| MedianScenarios.FullArray | RunMedian.cpp:172-224 | Adding 7,1,5,4,3,2,6,7,8,2,10,1 reads medians 7,4,5,4,4,3,4,4,6,6,7,7, with size 3 after the third Add. Clear then gives size 0 and median 0. |

## Left out

- Lock and unlock hooks (`CONTAINER_LOCK`/`CONTAINER_UNLOCK`, `RegisterCallbacks` in both classes) are external mutual-exclusion callbacks. They are treated as no-ops. Concurrency is not modelled, and neither is the missing unlock on early-return error paths.
- The error callback (`HANDLE_ERROR`, `HANDLE_ERRORV`) is not modelled as a function pointer. Each check is an `assert` proved to hold on every valid state. The early-return path, which the source takes only when a callback is registered and the invariant is already broken, is therefore never modelled.
- Element types are `int` only. Floating-point instantiations are left out because `Value`'s `>> 1` applies only to integers.
- Fixed-width arithmetic on element values is not modelled. The sum of the two middle values and the cast back to the element type could overflow for wide types, and the model uses unbounded `int` instead.
- `std::sort` in `_check_integrity` is not reimplemented. The check is computed as "ascending and a permutation of the queue copy", and `SortedCopyComparison` shows this gives the same verdict.
- `std::upper_bound` and `std::find` are library code. They are modelled by a binary search and a linear search that meet the standard contracts of those algorithms.
- The randomised tests (`Size`, `RandomTest`, `DeleteAll` in RunMedian.cpp) are not replayed because their inputs come from `rand()`. What they assert (integrity after every Add, size 5 once full, size and median 0 after Clear) follows from the contracts of `Runmedian.Add`, `Runmedian.CheckIntegrity` and `Runmedian.Clear`.
- CircularQueue.Rqueue.Head says nothing about the value on an empty queue. The source reads the stale slot at the head index, and the engine uses that value only when the window is full.
- Accessors return values rather than `const T&` references, so aliasing through a returned reference is not modelled.
