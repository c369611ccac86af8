# ArrayList — a verified model

This project models `ArrayList<T>`, a generic growable list backed by an
array. The list keeps its elements in slots `[0, size)` of `backingArray`,
and every slot from `size` on is `null`. A new or cleared list has capacity
`INITIAL_CAPACITY` (9). An insertion may first replace the array by one of
twice the length: `addAtIndex` does so when the array is full, and
`addToFront` and `addToBack` do so one slot before it is full. Invalid
arguments raise an exception before anything is changed.

The model has three modules:

- `Slots` (Slots.dfy) is the value layer. `Option<T>` stands for a slot, with
  `None` for Java's `null`. `Error` and `Result<T>` stand for the exceptions
  (`IndexOutOfBounds`, `IllegalArgument`, `NoSuchElement`). `Holds(slots, s)`
  says that a slot sequence represents the element sequence `s`.
  `ShiftRight`, `ShiftLeft` and `Grown` say what the in-place shift and the
  doubling do to the slots. The lemmas relate each of these steps to an
  operation on `s`: insert, remove, append, or keep.
- `ArrayLists` (ArrayList.dfy) is the class `ArrayList<T>`. Its fields are
  `backingArray: array<Option<T>>` and `size`, plus a ghost `Elems: seq<T>`
  holding the live elements. `Valid()` is the class invariant: `0 <= size <=
  backingArray.Length`, `backingArray.Length >= 9`, `|Elems| == size`, and
  `Holds(backingArray[..], Elems)`. Every method keeps the source's own tests
  and loops. Each public operation states its new state as an equation on
  `Elems` and gives the new capacity. It also says when the array object stays
  the same: always for removals, and for insertions unless the growth test fired.
  The two private helpers, `ShiftBackingArray` and `IncreaseCapacityOfArray`,
  state the new slot sequence instead, as `ShiftRight`, `ShiftLeft` or
  `Grown` of the old one.
- `ArrayListClients` (Scenarios.dfy) holds client methods that use only the
  public operations. They show what callers can conclude from the contracts.

Quirks of the source that the model keeps as written:

- `addAtIndex` grows only when the last slot is non-null, which means
  `size == length`.
- `addToFront` and `addToBack` grow when `size == length - 1`. So
  `addAtIndex` can fill the array completely (`AddAtIndexFillsArray`), and in
  that state both `addToBack` and `addToFront`'s shift would write one slot
  past the end. Both methods therefore require `size < backingArray.Length`
  when the data is non-null. Null data still raises `IllegalArgument` first,
  as in the source.
- `removeFromBack` has no emptiness check, despite its documented
  `NoSuchElementException`. It is modelled with `requires size > 0`.
- `isEmpty` and `removeFromFront` test slot 0 for `null` rather than
  comparing `size`. `Slots.SentinelTests` proves that this test agrees with
  `size == 0` under the invariant. It likewise proves that `addAtIndex`'s
  last-slot test agrees with `size == length`.

## Model

| member | source | states |
|---|---|---|
| ArrayLists.ArrayList.constructor | ArrayList.java:10-23 | a new list is valid, empty, and has a fresh array of capacity 9 |
| ArrayLists.ArrayList.ShiftBackingArray | ArrayList.java:33-47 | the right shift makes every slot in `(location, size]` take its left neighbour and empties `location`, so the old slots `[location, size)` move one place right; the left shift makes every slot in `[location, size-1)` take its right neighbour and empties slot `size-1`, so the old slots `(location, size)` move one place left; no other slot changes |
| ArrayLists.ArrayList.IncreaseCapacityOfArray | ArrayList.java:56-63 | the new array is fresh and exactly twice as long; slots `[0, size)` are copied unchanged and every other slot is null; `size` is unchanged |
| ArrayLists.ArrayList.AddAtIndex | ArrayList.java:77-92 | `IndexOutOfBounds` if `index < 0` or `index > size`, checked before the null check, then `IllegalArgument` for null data; an error changes nothing; on success the elements become `s[..index] + [data] + s[index..]`, `size` grows by one, capacity doubles exactly when `size == length` beforehand (into a fresh array; otherwise the same array is kept), slots before `index` keep their values, and slots `index+1..size` take the old neighbour on their left |
| ArrayLists.ArrayList.AddToFront | ArrayList.java:104-118 | `IllegalArgument` for null data, which changes nothing; otherwise the elements become `[data] + s` with every old element one slot to the right, and capacity doubles exactly when `size == length - 1` beforehand, into a fresh array; otherwise the same array is kept |
| ArrayLists.ArrayList.AddToBack | ArrayList.java:128-138 | `IllegalArgument` for null data, which changes nothing; otherwise the elements become `s + [data]`, earlier slots are unchanged, and capacity doubles exactly when `size == length - 1` beforehand, into a fresh array; otherwise the same array is kept |
| ArrayLists.ArrayList.RemoveAtIndex | ArrayList.java:151-159 | `IndexOutOfBounds` iff `index < 0` or `index >= size`, which changes nothing; otherwise returns `s[index]`, leaves `s[..index] + s[index+1..]` in the same array, and nulls the old last slot `size-1` |
| ArrayLists.ArrayList.RemoveFromFront | ArrayList.java:171-180 | `NoSuchElement` exactly when the list is empty, which changes nothing; otherwise returns `s[0]` and leaves `s[1..]`, each element one slot to the left, in the same array |
| ArrayLists.ArrayList.RemoveFromBack | ArrayList.java:190-195 | for a non-empty list, returns the last element, leaves `s[..size-1]`, nulls slot `size-1`, and leaves the other slots and the array unchanged |
| ArrayLists.ArrayList.Get | ArrayList.java:206-212 | `Ok(s[index])` for `0 <= index < size`, otherwise `IndexOutOfBounds`; changes no state |
| ArrayLists.ArrayList.IsEmpty | ArrayList.java:221-226 | the slot-0 null test returns true iff the list has no elements; changes no state |
| ArrayLists.ArrayList.Clear | ArrayList.java:237-241 | whatever the earlier growth, afterwards `size == 0`, the elements are empty, and the array is a fresh one of length 9 whose every slot is null |
| ArrayLists.ArrayList.Size | ArrayList.java:259-262 | returns the number of live elements |
| Slots.SentinelTests | ArrayList.java:221-226 | under the invariant, slot 0 is null iff the list is empty and the last slot is non-null iff `size == length`; these are the tests in `isEmpty`, `removeFromFront` and `addAtIndex` |
| Slots.ShiftRightInserts | ArrayList.java:33-39 | shifting right from `index` and then storing `d` at `index` represents `s[..index] + [d] + s[index..]` |
| Slots.StoreAppends | ArrayList.java:136-137 | storing `d` in slot `size` represents `s + [d]` |
| Slots.ShiftLeftRemoves | ArrayList.java:41-45 | shifting left onto `index` represents `s[..index] + s[index+1..]` |
| Slots.ClearAndShiftRemovesFront | ArrayList.java:175-178 | nulling slot 0 and then shifting left onto 0 represents `s[1..]` |
| Slots.ClearLastRemovesBack | ArrayList.java:191-193 | nulling slot `size-1` represents `s[..size-1]` |
| Slots.GrownHolds | ArrayList.java:56-63 | the doubled array represents the same elements at the same indices, with the remaining slots null |
| ArrayListClients.Observe | ArrayList.java:206-212 | reading indices `0..size-1` through `get` yields exactly the live elements in order |
| ArrayListClients.TenAddToBack | ArrayList.java:128-138 | ten `addToBack` calls on a new list give capacity 18, and `get(i)` returns the i-th value appended |
| ArrayListClients.AddRemoveAddFront | ArrayList.java:104-159 | appending 1, 2, 3 gives `[1,2,3]`; `removeAtIndex(1)` returns 2 and leaves `[1,3]`; `addToFront(0)` then gives `[0,1,3]` |
| ArrayListClients.ErrorCases | ArrayList.java:77-174 | on an empty list, `removeFromFront` raises `NoSuchElement` (the slot-0 test); `addAtIndex(-1, _)` and `addAtIndex(size+1, _)` raise `IndexOutOfBounds`, with and without null data, because the index is checked first; `addAtIndex(0, null)` raises `IllegalArgument`; the list stays empty |
| ArrayListClients.AddAtIndexFillsArray | ArrayList.java:85-87 | eight appends followed by `addAtIndex(8, _)` leave `size == length == 9` without growth, the state that `addToBack` and `addToFront` cannot handle |
| ArrayListClients.GrowThenClear | ArrayList.java:237-241 | after the capacity has grown to 18, `clear` resets it to 9, and the list is then empty with size 0 |
| ArrayListClients.InsertThenGet | ArrayList.java:77-92 | after `addAtIndex(i, v)` with a valid `i`, `get(i)` returns `v`; at `i == size` the elements are those of an append, although the capacity may differ from `addToBack`'s because the two grow on different tests |

## Left out

- `getBackingArray` (ArrayList.java:249-252) returns the internal array itself. Callers could change the list's slots through that alias, which would break the invariant. The scenarios read `backingArray.Length` directly instead.
- The unchecked generic-array casts (ArrayList.java:19-21, 55-57, 236-239) are an artefact of Java's type erasure. A typed `array<Option<T>>` replaces them.
- `backingArray.length * 2` can overflow Java's 32-bit `int`. The model uses unbounded integers.
- The cost claims in the doc comments (amortized O(1), O(n)) are not functional properties.
- The `backingArray = null` before reallocation in `clear` only matters to garbage collection. The next statement assigns a new array anyway.
- AddToBack: requires `size < backingArray.Length` for non-null data. Java instead throws `ArrayIndexOutOfBoundsException` at ArrayList.java:136 when `size == length`, a state that `addAtIndex` can reach. That exception is not modelled.
- AddToFront: requires `size < backingArray.Length` for non-null data. Java instead throws `ArrayIndexOutOfBoundsException` in the shift at ArrayList.java:37 when `size == length`. That exception is not modelled.
- RemoveFromBack: requires `size > 0`. On an empty list the source reads index -1 and throws `ArrayIndexOutOfBoundsException`, not the documented `NoSuchElementException`. That case is not modelled.
- ShiftBackingArray: requires the location ranges its callers pass. The out-of-range indexing Java would do for other locations is not modelled.
