# vector — a verified model of a C dynamic array

This project models `vector.c`, a type-erased growable array in C, together
with the two enumerations it uses from `vector.h`. The C record
`struct vector` holds a buffer pointer, `length`, `capacity` and
`element_size`. The model makes it a Dafny class `Vector<T>` with a typed
buffer `buf: array?<T>` in place of the byte block. The live elements are
`Contents() == buf[..length]`.

Every C entry point receives a handle that may be NULL. The model writes
each one as a module-level method over `Vector?<T>`, so a `null` handle takes
the `null_vec_err` branch. Push is the exception: `vec_push_` has no NULL
check (vector.c:107), so `Push` takes a `Vector<T>` with a buffer. A `null`
buffer is the state that a failed `realloc` leaves behind. Where the C code checks the outcome of `malloc` or
`realloc`, the outcome is a boolean parameter (`allocOk`, `reallocOk`), and
the model reproduces the state the code leaves after a failure.

Modules, one file each:

- `VecTypes` (`vec_types.dfy`): `vec_err` and `CmpState`, plus an `Option`
  standing for a returned element copy or NULL.
- `SeqSpec` (`seq_spec.dfy`): value-level definitions of insertion, removal,
  reversal, slicing and mapping, and the laws that relate them.
- `Ordering` (`ordering.dfy`): what a comparator may satisfy, what "sorted"
  means, and the uniqueness of a sorted rearrangement.
- `QuickSort` (`quick_sort.dfy`): the static `quick_sort`, an in-place
  Lomuto quick sort on an array segment.
- `VectorCore` (`vector_core.dfy`): the record and its invariant; init,
  destroy, len, cap, push, pop, insert, remove, get, first and last.
- `VectorAlgorithms` (`vector_algorithms.dfy`): map, reverse, subvec and
  sort, each building a new vector and leaving the source untouched.
- `Demo` (`demo.dfy`): the program in `test.c` and a sorting example, played
  against the model.

The `in_vec_*` static copies in `vector.c` (`in_vec_init`, `in_vec_push`,
`in_vec_get`, `in_vec_destroy`) behave the same as their public twins, so
each pair is modelled once. (`in_vec_get` also tests `index < 0`, which never
holds for a u64, vector.c:358.)

Three behaviours of the code are easy to misread, and the model follows
the code in each:

- **Init capacity.** `vec_init_` uses `def_capa` when it is non-zero and 10
  only for 0 (vector.c:32). This is not the larger of the two. `Init` does
  the same.
- **Failed realloc.** A failed realloc in push or insert leaves `capacity`
  doubled and `array` NULL (vector.c:107-116, 239-248). `Push` and `Insert`
  leave `capacity` doubled and `buf == null`.
- **Empty subvec.** `b == e < length` reaches the forward loop and returns
  an empty vector with no_err (vector.c:509, 563-581). `Subvec` does the
  same.

In the derived algorithms, the only realloc that can happen is the last
push of the two descending subvec branches (vector.c:531, 552). Each of those
branches creates its output with one slot fewer than it pushes. When that
realloc fails, the output has no buffer, so `in_vec_destroy` answers
null_vec_err (vector.c:92-95), and `Subvec` returns no vector with
null_vec_err. Every other push of map, reverse and subvec lands in a slot
that is already there. The copies made by `in_vec_get` can still fail to
be allocated. Map, reverse and the zero-ending descending subvec then call
`in_vec_destroy`, which overwrites the alloc_err with no_err. The other two
subvec branches free the output by hand and keep alloc_err
(vector.c:545-551, 566-572). See "Left out".

## Model

| member | source | states |
|---|---|---|
| VecTypes.CmpState.Value | vector.h:20-24 | inf is -1, eq is 0, sup is 1; the value is `<= 0` exactly when the answer is not sup, and 0 exactly for eq |
| VecTypes.CmpState.Flip | vector.h:20-24 | exchanging the comparator's arguments negates the enumerator's value |
| SeqSpec.Inserted | vector.c:250-260 | insertion at `i` is one element longer, holds `x` at `i`, keeps every element before `i` and moves every later one right by one |
| SeqSpec.Removed | vector.c:290-300 | removal at `i` is one element shorter, keeps every element before `i` and moves every later one left by one |
| SeqSpec.InsertThenRemove | vector.c:221-303 | removing at the index just inserted at gives back the original contents |
| SeqSpec.RemoveThenInsert | vector.c:221-303 | putting a removed element back at its index restores the contents |
| SeqSpec.PushPopDuality | vector.c:102-219 | push is insertion at `length`; pop after push hands back the pushed value and restores the contents |
| SeqSpec.Reversed | vector.c:436-484 | the reference definition of what vec_reverse and the descending subvec branches (vector.c:511-560) build: a sequence of the same length, in reverse index order (its elements are pinned by ReversedAt) |
| SeqSpec.ReversedAt | vector.c:455-480 | element `k` of the reversal is element `|s| - 1 - k` of the source |
| SeqSpec.ReversedInvolution | vector.c:436-484 | reversing twice gives the original order |
| SeqSpec.ReversedExtendLeft | vector.c:455-468 | reversing a range that starts one slot earlier appends that slot's element, which is what each pass of the descending loops does |
| SeqSpec.Slice | vector.c:496-581 | a forward slice has `e - b` elements; a descending slice has `b - e + 1`, because `e` is included |
| SeqSpec.SliceAt | vector.c:511-581 | element `k` of a forward slice is `s[b + k]`; element `k` of a descending slice is `s[b - k]`, and `b - k` never drops below `e` |
| SeqSpec.SliceWhole | vector.c:486-582 | the forward slice `[0, length)` is the whole contents; the descending slice from the last index to 0 is their reversal |
| SeqSpec.MapSeq | vector.c:413-430 | the mapped sequence has the source's length, and its element `k` is `f(source[k])` |
| Ordering.SortedIsOrdered | vector.c:585-626 | for a transitive comparator, no adjacent pair comparing sup means no pair at all compares sup |
| Ordering.PermutationKeepsBounds | vector.c:623-625 | rearranging a partition side keeps its bound against the pivot, so sorting a side cannot break the partition |
| Ordering.SortedAroundPivot | vector.c:614-625 | a sorted side whose elements compare `<= 0` to the pivot, then the pivot, then a sorted side whose elements compare sup to it, form a sorted run |
| Ordering.SortedHeadIsLeast | vector.c:585-626 | under a total preorder, the head of a sorted run compares `<= 0` to every element of it |
| Ordering.SortedTail | vector.c:585-626 | dropping the head of a sorted run leaves a sorted run |
| Ordering.SameHeadTails | vector.c:585-626 | two rearrangements of each other with the same head have tails that are rearrangements of each other |
| Ordering.SortedPermutationsEqual | vector.c:629-658 | under a total order where eq means equal, only one sorted rearrangement exists, so the result of sort is determined by the source |
| QuickSort.SameOutsideTrans | vector.c:623-625 | "nothing outside the segment changed" composes across the two recursive calls |
| QuickSort.SameOutsideParts | vector.c:585-626 | sequences that agree outside `[lo, hi)` have equal prefixes before `lo` and equal suffixes from `hi` |
| QuickSort.ThreeParts | vector.c:585-626 | a sequence's multiset is the sum of the multisets before, inside and after `[lo, hi)` |
| QuickSort.SegmentPermutation | vector.c:585-626 | a rearrangement of the whole array that leaves everything outside the segment in place rearranges the segment |
| QuickSort.SwappedSamePermutation | vector.c:602-608 | exchanging two positions keeps the multiset of elements |
| QuickSort.Swap | vector.c:604-608 | the two slots exchange their values, every other slot keeps its value, and the array keeps its multiset |
| QuickSort.ScanStep | vector.c:601-611 | one pass of the scan: an element comparing `<= 0` to the pivot joins the prefix, by a swap when `i != j`; the prefix still holds only elements comparing `<= 0`, the next run only sup, and the pivot slot is untouched |
| QuickSort.LomutoScan | vector.c:597-612 | after the scan, `[lo, lo + i)` compares `<= 0` to the pivot and `[lo + i, lo + n - 1)` compares sup; the pivot stays in the last slot; the array is a rearrangement, changed only inside the segment |
| QuickSort.Partition | vector.c:594-621 | the pivot, the segment's last element, ends at offset `i`; everything before it compares `<= 0` to it and everything after it compares sup |
| QuickSort.JoinSortedParts | vector.c:623-625 | sorting the two sides of a partition in place keeps the whole a rearrangement and, for an antisymmetric comparator, makes the whole sorted |
| QuickSort.QuickSortJoin | vector.c:623-625 | after both recursive calls, the segment is a rearrangement of the partitioned segment and is sorted when the sides are |
| QuickSort.QuickSortStep | vector.c:623-625 | QuickSortJoin restated over whole-array rearrangements, the form the recursive calls deliver |
| QuickSort.QuickSort | vector.c:585-626 | the array becomes a rearrangement of itself, nothing outside the segment changes, and for an antisymmetric comparator no adjacent pair of the segment compares sup; it terminates because `length` decreases |
| VectorCore.Vector.Valid | vector.c:12-17 | the invariant of struct vector, kept by every operation and also after a failed realloc (vector.c:107-116): `length <= capacity`, `0 < capacity`, and a buffer that is there has `capacity` slots, so the live elements fit in it |
| VectorCore.Vector.Contents | vector.c:12-17 | the live elements, exactly `length` of them |
| VectorCore.Vector.constructor | vector.c:29-37 | a new record with the requested capacity and element size, no live elements and a fresh buffer |
| VectorCore.Init | vector.c:24-44 | no vector and alloc_err exactly when an allocation fails; otherwise no_err and a fresh empty vector with capacity `def_capa`, or 10 when `def_capa` is 0, and the given element size |
| VectorCore.Destroy | vector.c:71-84 | no_err exactly when both handle and buffer are there; otherwise null_vec_err |
| VectorCore.Len | vector.c:177-184 | `length`, the number of live elements, with no_err; 0 and null_vec_err without a handle |
| VectorCore.Cap | vector.c:185-192 | `capacity`, never below `length` and equal to the buffer's slot count, with no_err; 0 and null_vec_err without a handle |
| VectorCore.Realloc | vector.c:109-112 | a successful realloc: a fresh buffer of the new size that begins with the old buffer's elements |
| VectorCore.Push | vector.c:102-125 | capacity doubles exactly when the vector was full; on success the contents become the old contents plus `x` at the end; a failed realloc gives realloc_err, no buffer, the doubled capacity and the old length |
| VectorCore.Pop | vector.c:194-219 | null_vec_err, illegal_del_err when empty, alloc_err when the copy fails, each leaving the contents alone; otherwise the last element is handed back, the contents lose it, and buffer and capacity stay |
| VectorCore.Insert | vector.c:221-262 | null_vec_err, and index_out_of_bounds_err for `index > length`, change nothing; a full vector doubles its capacity and a failed realloc leaves no buffer; a vector that was not full keeps its buffer; otherwise the buffer is the old one or a fresh one and the contents become the old ones with `x` inserted at `index` |
| VectorCore.ShiftInsert | vector.c:250-259 | the memmove of the `length - index` slots one slot right and the store at `index` leave the first `length + 1` slots equal to the old contents with `x` inserted at `index` |
| VectorCore.RemoveShiftAsWritten | vector.c:295-299 | the memmove as written reads `length - index` slots starting at `index + 1`, so its block ends at `length + 1` |
| VectorCore.RemoveShiftAsWrittenOverreads | vector.c:295-299 | on a full vector that block ends past the buffer's last slot |
| VectorCore.RemoveShift | vector.c:295-299 | the corrected count: exactly the slots after `index`, so the block ends at `length` |
| VectorCore.Remove | vector.c:264-303 | null_vec_err, illegal_del_err when empty, index_out_of_bounds_err for `index >= length`, alloc_err when the copy fails, each changing nothing; otherwise `old[index]` is handed back and the contents lose that position, with buffer and capacity kept |
| VectorCore.Get | vector.c:305-338 | checks in order for null_vec_err, illegal_acces_err when empty, index_out_of_bounds_err and alloc_err; otherwise hands back the element at `index`, changing nothing (also in_vec_get, vector.c:341-374) |
| VectorCore.First | vector.c:376-385 | get at index 0: illegal_acces_err when empty, otherwise the first element |
| VectorCore.Last | vector.c:387-396 | get at `length - 1`, which wraps to the largest u64 when empty; the emptiness check still answers illegal_acces_err; otherwise the last element |
| VectorAlgorithms.Map | vector.c:398-434 | null_vec_err without handle or buffer, alloc_err when the output cannot be created; otherwise a fresh vector of the output element size whose element `k` is `f(source[k])`, created with the source's length as capacity (10 for 0) |
| VectorAlgorithms.Reverse | vector.c:436-484 | null_vec_err or alloc_err as for map; otherwise a fresh vector holding the source in reverse order, empty for an empty source |
| VectorAlgorithms.CopyDescendingToZero | vector.c:511-538 | pushes `source[b]` down to `source[0]`; the last push doubles the capacity; if its realloc succeeds, the output holds the source's indices `b` down to 0 inclusive, i.e. `Reversed(source[0..b + 1])`; if it fails, realloc_err and the output has no buffer |
| VectorAlgorithms.CopyDescending | vector.c:542-560 | pushes `source[b]` down to `source[e]` inclusive; the last push doubles the capacity; if its realloc succeeds, the output is `Reversed(source[e..b + 1])`; if it fails, realloc_err and the output has no buffer |
| VectorAlgorithms.CopyForward | vector.c:563-581 | pushes `source[b .. e)` in order into an output with room for all of them, keeping its capacity |
| VectorAlgorithms.Subvec | vector.c:486-582 | null_vec_err; illegal_acces_err unless `e <= length` and `b < length`; alloc_err; for `b > e` a failed realloc on the last push gives no vector and null_vec_err; otherwise the slice `source[b..e)` for `b <= e`, empty for `b == e`, and `source[b], ..., source[e]` for `b > e`, with the capacity each branch leaves |
| VectorAlgorithms.Sort | vector.c:629-658 | null_vec_err or alloc_err as for map; otherwise a fresh vector with the source's length and elements, rearranged; for an antisymmetric comparator no adjacent pair compares sup |
| Demo.CmpInt | test.c:7-11 | cmp_int answers inf, eq or sup exactly when `a` is below, equal to or above `b` |
| Demo.Div10 | test.c:14 | div10 gives the value whose tenfold is `x` |
| Demo.CmpIntIsTotalOrder | test.c:7-11 | cmp_int is a total preorder in which eq means equal |
| Demo.DemoVector | test.c:23-27 | init with capacity 0 and three pushes give capacity 10 and contents 1234, 5132, 9604 |
| Demo.DemoProgram | test.c:19-36 | the vector has length 3 and capacity 10; mapping it through div10 gives 123.4, 513.2, 960.4 and leaves it as it was; both vectors destroy with no_err |
| Demo.InsertThenPush | vector.c:221-262 | inserting 7 at index 0 and then pushing 8 (realloc succeeding) turns the contents into `[7] + old + [8]`, and a vector with its own buffer keeps its contents |
| Demo.InsertKeepsBuffer | vector.c:239-260 | on a vector with room for two more elements, insert at 0 and push leave the buffer and the capacity as they were, and the contents become `[7] + old + [8]` |
| Demo.ExampleAscendingSorted | vector.c:629-658 | `[-213, -34, 10, 20, 30, 2314]` is sorted under cmp_int |
| Demo.ExampleSameElements | vector.c:629-658 | that arrangement holds the elements of `[10, 20, 30, 2314, -213, -34]` |
| Demo.SortExampleUnique | vector.c:629-658 | it is the only sorted arrangement of those elements under cmp_int |
| Demo.ExampleVector | vector.c:102-125 | six pushes onto a vector created with capacity 0 give `[10, 20, 30, 2314, -213, -34]` with capacity 10 |
| Demo.SortExample | vector.c:629-658 | sorting that vector with cmp_int gives `[-213, -34, 10, 20, 30, 2314]`, and its own first element is still 10 |

## Left out

- `vec_panic`, `vec_dbg` and `vec_print_` (vector.c:154-175, 660-712) are not modelled. They only write to stdout or stderr and terminate the process.
- Releasing memory is not modelled. That covers `free` in destroy and on the error paths, and the leak of the old buffer after a failed realloc. `Destroy` models only its result code.
- Byte-level storage is not modelled. `memcpy`/`memmove` on `element_size`-wide slots become typed array assignments. `elemSize` is kept as the record's metadata only, and the product `element_size * capacity` is never formed.
- Map: models no failure of the element copies by `in_vec_get`. Such a failure makes vector.c:415-418 destroy the output and overwrite alloc_err with no_err. The push failure branch (vector.c:422-427) cannot be reached, because the output has a slot for every element.
- Reverse: models no failure of the element copies either. Such a failure makes vector.c:457-459 and 470-473 return NULL with no_err. The push failure branches (vector.c:462-466, 476-480) cannot be reached.
- Subvec: models no failure of the element copies. In the zero-ending descending branch, such a failure returns NULL with no_err (vector.c:514-516, 527-529). In the other two branches it returns NULL with alloc_err (vector.c:545-551, 566-572). The realloc failure of the last descending push is modelled; the forward branch's push failure (vector.c:574-578) cannot be reached.
- Sort: the C code has no failure after creating the output. The temporary `malloc` inside `quick_sort`'s swaps (vector.c:604, 616) is unchecked in C and not modelled.
- Push: does not model the u64 wrap-around of `capacity *= 2`, which needs a capacity above 2^63 that no allocation reaches.
- Insert: does not model the same wrap-around of `capacity *= 2`.
- Push: requires a handle and a buffer. The C code checks neither, and a NULL there is undefined behaviour, not an error code.
- The length of a new vector is taken as 0. The C code never assigns `length` in `vec_init_` or `in_vec_init`, and every caller relies on it being 0.
- Demo.Div10: works on exact reals instead of single-precision floats, so the mapped values are the exact tenths.
- The `GENERIC_VEC*` macros that `test.c` uses are not part of this model. The demo calls the operations directly with integer elements.
- The prototypes in `vector.h` (lines 26-40) are declarations only. Where they differ from the definitions (`vec_map` without `out_element_size`), the definitions in `vector.c` are followed.
- QuickSort: states sortedness for any antisymmetric comparator and a rearrangement for any comparator. It does not state the stack depth of the recursion, which is unbounded on adversarial inputs.

## Findings

| source | as written | input that shows it | evidently intended | confidence | as-written member | corrected member |
|---|---|---|---|---|---|---|
| vector.c:295-299 | the memmove in `vec_remove_` moves `length - index` slots, starting at slot `index + 1` | a full vector (`length == capacity`) and any `index < length`: the block read ends at slot `length + 1`, one past the buffer (lemma `VectorCore.RemoveShiftAsWrittenOverreads`) | move the `length - index - 1` slots after `index`, so the read ends at `length` | not executed | VectorCore.RemoveShiftAsWritten | VectorCore.RemoveShift |
