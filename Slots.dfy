/** The value layer beneath the array-backed list: slot sequences, the
    errors the list reports, and what each in-place step of the list does to
    the slots, stated as functions on sequences with lemmas that relate them
    to the list of live elements. */
module Slots {

  /** A buffer slot: `None` stands for Java's `null`. */
  datatype Option<T> = None | Some(value: T)

  /** The exceptions the list throws. */
  datatype Error = IndexOutOfBounds | IllegalArgument | NoSuchElement

  /** The outcome of an operation that may throw. */
  datatype Result<T> = Ok(value: T) | Err(error: Error)

  /** `slots` represents the live elements `s`: the first `|s|` slots hold
      them in order and every later slot is empty. */
  ghost predicate Holds<T>(slots: seq<Option<T>>, s: seq<T>)
  {
    |s| <= |slots| &&
    (forall i :: 0 <= i < |s| ==> slots[i] == Some(s[i])) &&
    (forall i :: |s| <= i < |slots| ==> slots[i] == None)
  }

  /** The slots after the right shift used for insertion: every slot in
      `(location, size]` takes its left neighbour and `location` is emptied. */
  function ShiftRight<T>(slots: seq<Option<T>>, location: int, size: int): (r: seq<Option<T>>)
    requires 0 <= location <= size < |slots|
    ensures |r| == |slots|
  {
    seq(|slots|, i requires 0 <= i < |slots| =>
      if location < i <= size then slots[i - 1]
      else if i == location then None
      else slots[i])
  }

  /** The slots after the left shift used for removal: every slot in
      `[location, size - 1)` takes its right neighbour and slot `size - 1`
      is emptied. */
  function ShiftLeft<T>(slots: seq<Option<T>>, location: int, size: int): (r: seq<Option<T>>)
    requires 0 <= location < size <= |slots|
    ensures |r| == |slots|
  {
    seq(|slots|, i requires 0 <= i < |slots| =>
      if location <= i < size - 1 then slots[i + 1]
      else if i == size - 1 then None
      else slots[i])
  }

  /** A buffer of twice the length holding copies of the first `size` slots
      and nothing else. */
  function Grown<T>(slots: seq<Option<T>>, size: int): (r: seq<Option<T>>)
    requires 0 <= size <= |slots|
    ensures |r| == 2 * |slots|
  {
    seq(2 * |slots|, i requires 0 <= i < 2 * |slots| => if i < size then slots[i] else None)
  }

  /** The two null tests the list uses in place of comparing `size`: slot 0
      is empty exactly when there are no elements, and the last slot is
      occupied exactly when every slot is. */
  lemma SentinelTests<T>(slots: seq<Option<T>>, s: seq<T>)
    requires Holds(slots, s) && |slots| > 0
    ensures slots[0].None? <==> |s| == 0
    ensures slots[|slots| - 1].Some? <==> |s| == |slots|
  {
  }

  /** Shifting right from `index` and then storing `d` at `index` inserts
      `d` at position `index` of the live elements. */
  lemma ShiftRightInserts<T>(slots: seq<Option<T>>, s: seq<T>, index: int, d: T)
    requires Holds(slots, s)
    requires 0 <= index <= |s| < |slots|
    ensures Holds(ShiftRight(slots, index, |s|)[index := Some(d)], s[..index] + [d] + s[index..])
  {
  }

  /** Storing `d` in the first free slot appends it. */
  lemma StoreAppends<T>(slots: seq<Option<T>>, s: seq<T>, d: T)
    requires Holds(slots, s) && |s| < |slots|
    ensures Holds(slots[|s| := Some(d)], s + [d])
  {
  }

  /** Shifting left onto `index` removes the element at position `index`. */
  lemma ShiftLeftRemoves<T>(slots: seq<Option<T>>, s: seq<T>, index: int)
    requires Holds(slots, s)
    requires 0 <= index < |s|
    ensures Holds(ShiftLeft(slots, index, |s|), s[..index] + s[index + 1..])
  {
  }

  /** Emptying slot 0 and then shifting left onto 0 removes the first
      element. */
  lemma ClearAndShiftRemovesFront<T>(slots: seq<Option<T>>, s: seq<T>)
    requires Holds(slots, s) && |s| > 0
    ensures Holds(ShiftLeft(slots[0 := None], 0, |s|), s[1..])
  {
  }

  /** Emptying the last occupied slot removes the last element. */
  lemma ClearLastRemovesBack<T>(slots: seq<Option<T>>, s: seq<T>)
    requires Holds(slots, s) && |s| > 0
    ensures Holds(slots[|s| - 1 := None], s[..|s| - 1])
  {
  }

  /** Growing keeps every live element at its index and in order, and
      leaves the new slots empty. */
  lemma GrownHolds<T>(slots: seq<Option<T>>, s: seq<T>)
    requires Holds(slots, s)
    ensures Holds(Grown(slots, |s|), s)
    ensures |Grown(slots, |s|)| == 2 * |slots|
  {
  }
}
