/** Clients of the list that use only its public operations, and what the
    operations' contracts let them conclude. */
module ArrayListClients {
  import opened Slots
  import opened ArrayLists

  /** Reads every element through `Get`, in order. */
  method Observe<T>(l: ArrayList<T>) returns (s: seq<T>)
    requires l.Valid()
    ensures s == l.Elems
  {
    s := [];
    var n := l.Size();
    for i := 0 to n
      invariant s == l.Elems[..i]
    {
      var r := l.Get(i);
      s := s + [r.value];
    }
  }

  /** Ten `AddToBack` calls on a new list: the ninth doubles the capacity
      from 9 to 18, and every value is read back at the index it was
      appended at. */
  method TenAddToBack() returns (capacity: int, contents: seq<int>)
    ensures capacity == 18
    ensures |contents| == 10 && forall k :: 0 <= k < 10 ==> contents[k] == k
  {
    var l := new ArrayList<int>();
    for i := 0 to 10
      invariant l.Valid() && fresh(l.backingArray)
      invariant l.Elems == seq(i, k => k)
      invariant l.backingArray.Length == if i <= 8 then INITIAL_CAPACITY else 2 * INITIAL_CAPACITY
    {
      var _ := l.AddToBack(Some(i));
    }
    capacity := l.backingArray.Length;
    contents := Observe(l);
  }

  /** Appending 1, 2 and 3, removing at index 1, then adding 0 at the front. */
  method AddRemoveAddFront() returns (afterAdds: seq<int>, removed: Result<int>, afterRemove: seq<int>, afterFront: seq<int>)
    ensures afterAdds == [1, 2, 3]
    ensures removed == Ok(2)
    ensures afterRemove == [1, 3]
    ensures afterFront == [0, 1, 3]
  {
    var l := new ArrayList<int>();
    var _ := l.AddToBack(Some(1));
    var _ := l.AddToBack(Some(2));
    var _ := l.AddToBack(Some(3));
    afterAdds := Observe(l);
    removed := l.RemoveAtIndex(1);
    afterRemove := Observe(l);
    var _ := l.AddToFront(Some(0));
    afterFront := Observe(l);
  }

  /** The list's own errors: removing from the front of an empty list, and
      inserting one place past either end, with and without data. */
  method ErrorCases() returns (emptyFront: Result<int>, below: Result<()>, above: Result<()>, nullBelow: Result<()>, nullAbove: Result<()>, nullAt: Result<()>, stillEmpty: bool)
    ensures emptyFront == Err(NoSuchElement)
    ensures below == Err(IndexOutOfBounds) && above == Err(IndexOutOfBounds)
    ensures nullBelow == Err(IndexOutOfBounds) && nullAbove == Err(IndexOutOfBounds)
    ensures nullAt == Err(IllegalArgument)
    ensures stillEmpty
  {
    var l := new ArrayList<int>();
    emptyFront := l.RemoveFromFront();
    below := l.AddAtIndex(-1, Some(5));
    above := l.AddAtIndex(1, Some(5));
    nullBelow := l.AddAtIndex(-1, None);
    nullAbove := l.AddAtIndex(1, None);
    nullAt := l.AddAtIndex(0, None);
    stillEmpty := l.IsEmpty();
  }

  /** Eight appends followed by an insertion at index 8 fill all nine
      slots: `AddAtIndex` grows only once the last slot is occupied, so it
      leaves `size == backingArray.Length`, the state in which `AddToBack`
      and `AddToFront` would index past the end of the array. */
  method AddAtIndexFillsArray() returns (size: int, capacity: int)
    ensures size == 9 && capacity == 9
  {
    var l := new ArrayList<int>();
    for i := 0 to 8
      invariant l.Valid() && fresh(l.backingArray)
      invariant |l.Elems| == i && l.backingArray.Length == INITIAL_CAPACITY
    {
      var _ := l.AddToBack(Some(i));
    }
    var _ := l.AddAtIndex(8, Some(8));
    size := l.Size();
    capacity := l.backingArray.Length;
  }

  /** After growth, `Clear` brings the capacity back to 9 and empties the
      list. */
  method GrowThenClear() returns (grown: int, cleared: int, emptied: bool, n: int)
    ensures grown == 18 && cleared == 9 && emptied && n == 0
  {
    var l := new ArrayList<int>();
    for i := 0 to 9
      invariant l.Valid() && fresh(l.backingArray)
      invariant |l.Elems| == i
      invariant l.backingArray.Length == if i <= 8 then INITIAL_CAPACITY else 2 * INITIAL_CAPACITY
    {
      var _ := l.AddToBack(Some(i));
    }
    grown := l.backingArray.Length;
    l.Clear();
    cleared := l.backingArray.Length;
    emptied := l.IsEmpty();
    n := l.Size();
  }

  /** `AddAtIndex` at index `size` stores the same elements as `AddToBack`,
      and the element inserted at `index` is then read back at `index`. */
  method InsertThenGet<T>(l: ArrayList<T>, index: int, v: T) returns (got: Result<T>)
    requires l.Valid()
    requires 0 <= index <= |l.Elems|
    modifies l, l.backingArray
    ensures l.Valid()
    ensures got == Ok(v)
    ensures index == old(|l.Elems|) ==> l.Elems == old(l.Elems) + [v]
  {
    var _ := l.AddAtIndex(index, Some(v));
    got := l.Get(index);
  }
}
