/** A generic growable list kept in an array of slots: the live elements
    occupy slots `[0, size)`, every later slot is empty, and an insertion
    may first double the array: `AddAtIndex` when it is full, `AddToFront`
    and `AddToBack` when one slot is still free. */
module ArrayLists {
  import opened Slots

  /** The capacity of a new or cleared list. */
  const INITIAL_CAPACITY: int := 9

  class ArrayList<T> {
    var backingArray: array<Option<T>>
    var size: int

    /** The live elements, in order. */
    ghost var Elems: seq<T>

    /** The class invariant. */
    ghost predicate Valid()
      reads this, backingArray
    {
      0 <= size <= backingArray.Length &&
      backingArray.Length >= INITIAL_CAPACITY &&
      |Elems| == size &&
      Holds(backingArray[..], Elems)
    }

    constructor ()
      ensures Valid() && fresh(backingArray)
      ensures backingArray.Length == INITIAL_CAPACITY
      ensures Elems == []
    {
      backingArray := new Option<T>[INITIAL_CAPACITY](_ => None);
      size := 0;
      Elems := [];
    }

    /** Moves slots one place right (opening `location`) or one place left
        (closing `location`), emptying the slot that is given up. */
    method ShiftBackingArray(location: int, shiftDirection: bool)
      requires shiftDirection ==> 0 <= location <= size < backingArray.Length
      requires !shiftDirection ==> 0 <= location < size <= backingArray.Length
      modifies backingArray
      ensures shiftDirection ==>
        backingArray[..] == ShiftRight(old(backingArray[..]), location, size)
      ensures !shiftDirection ==>
        backingArray[..] == ShiftLeft(old(backingArray[..]), location, size)
    {
      if shiftDirection {
        var i := size;
        while i != location
          invariant location <= i <= size
          invariant forall k :: 0 <= k < backingArray.Length ==>
            backingArray[k] == if i < k <= size then old(backingArray[k - 1]) else old(backingArray[k])
          decreases i - location
        {
          backingArray[i] := backingArray[i - 1];
          i := i - 1;
        }
        backingArray[location] := None;
      } else {
        var i := location;
        while i < size - 1
          invariant location <= i <= size - 1
          invariant forall k :: 0 <= k < backingArray.Length ==>
            backingArray[k] == if location <= k < i then old(backingArray[k + 1]) else old(backingArray[k])
        {
          backingArray[i] := backingArray[i + 1];
          i := i + 1;
        }
        backingArray[size - 1] := None;
      }
    }

    /** Replaces the array by one of twice the length holding the first
        `size` slots. */
    method IncreaseCapacityOfArray()
      requires 0 <= size <= backingArray.Length
      modifies this`backingArray
      ensures fresh(backingArray)
      ensures backingArray[..] == Grown(old(backingArray[..]), size)
    {
      var tempArray := new Option<T>[backingArray.Length * 2](_ => None);
      for i := 0 to size
        invariant backingArray == old(backingArray)
        invariant forall k :: 0 <= k < tempArray.Length ==>
          tempArray[k] == if k < i then backingArray[k] else None
      {
        tempArray[i] := backingArray[i];
      }
      backingArray := tempArray;
    }

    method AddAtIndex(index: int, data: Option<T>) returns (r: Result<()>)
      requires Valid()
      modifies this, backingArray
      ensures Valid()
      ensures r == if index < 0 || index > old(size) then Err(IndexOutOfBounds)
                   else if data.None? then Err(IllegalArgument)
                   else Ok(())
      ensures r.Err? ==> unchanged(this) && unchanged(backingArray)
      ensures r.Ok? ==> size == old(size) + 1
      ensures r.Ok? ==> Elems == old(Elems)[..index] + [data.value] + old(Elems)[index..]
      ensures r.Ok? ==>
        backingArray.Length == if old(size) == old(backingArray.Length) then 2 * old(backingArray.Length) else old(backingArray.Length)
      ensures backingArray == old(backingArray) || fresh(backingArray)
      ensures old(size) < old(backingArray.Length) ==> backingArray == old(backingArray)
      ensures r.Ok? && old(size) == old(backingArray.Length) ==> fresh(backingArray)
      ensures r.Ok? ==> forall k :: 0 <= k < index ==> backingArray[k] == old(backingArray[k])
      ensures r.Ok? ==> forall k :: index < k <= old(size) ==> backingArray[k] == old(backingArray[k - 1])
    {
      if index < 0 || index > size {
        return Err(IndexOutOfBounds);
      } else if data.None? {
        return Err(IllegalArgument);
      }
      SentinelTests(backingArray[..], Elems);
      if backingArray[backingArray.Length - 1].Some? {
        GrownHolds(backingArray[..], Elems);
        IncreaseCapacityOfArray();
      }
      ghost var before := backingArray[..];
      ShiftBackingArray(index, true);
      backingArray[index] := data;
      assert backingArray[..] == ShiftRight(before, index, size)[index := data];
      ShiftRightInserts(before, Elems, index, data.value);
      size := size + 1;
      Elems := Elems[..index] + [data.value] + Elems[index..];
      return Ok(());
    }

    method AddToFront(data: Option<T>) returns (r: Result<()>)
      requires Valid()
      requires data.Some? ==> size < backingArray.Length
      modifies this, backingArray
      ensures Valid()
      ensures r == if data.None? then Err(IllegalArgument) else Ok(())
      ensures r.Err? ==> unchanged(this) && unchanged(backingArray)
      ensures r.Ok? ==> size == old(size) + 1
      ensures r.Ok? ==> Elems == [data.value] + old(Elems)
      ensures r.Ok? ==>
        backingArray.Length == if old(size) == old(backingArray.Length) - 1 then 2 * old(backingArray.Length) else old(backingArray.Length)
      ensures backingArray == old(backingArray) || fresh(backingArray)
      ensures old(size) != old(backingArray.Length) - 1 ==> backingArray == old(backingArray)
      ensures r.Ok? && old(size) == old(backingArray.Length) - 1 ==> fresh(backingArray)
      ensures r.Ok? ==> forall k :: 0 < k <= old(size) ==> backingArray[k] == old(backingArray[k - 1])
    {
      if data.None? {
        return Err(IllegalArgument);
      }
      if backingArray.Length - 1 == size {
        GrownHolds(backingArray[..], Elems);
        IncreaseCapacityOfArray();
      }
      ghost var before := backingArray[..];
      ShiftBackingArray(0, true);
      backingArray[0] := data;
      assert backingArray[..] == ShiftRight(before, 0, size)[0 := data];
      ShiftRightInserts(before, Elems, 0, data.value);
      assert Elems[..0] + [data.value] + Elems[0..] == [data.value] + Elems;
      size := size + 1;
      Elems := [data.value] + Elems;
      return Ok(());
    }

    method AddToBack(data: Option<T>) returns (r: Result<()>)
      requires Valid()
      requires data.Some? ==> size < backingArray.Length
      modifies this, backingArray
      ensures Valid()
      ensures r == if data.None? then Err(IllegalArgument) else Ok(())
      ensures r.Err? ==> unchanged(this) && unchanged(backingArray)
      ensures r.Ok? ==> size == old(size) + 1
      ensures r.Ok? ==> Elems == old(Elems) + [data.value]
      ensures r.Ok? ==>
        backingArray.Length == if old(size) == old(backingArray.Length) - 1 then 2 * old(backingArray.Length) else old(backingArray.Length)
      ensures backingArray == old(backingArray) || fresh(backingArray)
      ensures old(size) != old(backingArray.Length) - 1 ==> backingArray == old(backingArray)
      ensures r.Ok? && old(size) == old(backingArray.Length) - 1 ==> fresh(backingArray)
      ensures r.Ok? ==> forall k :: 0 <= k < old(size) ==> backingArray[k] == old(backingArray[k])
    {
      if data.None? {
        return Err(IllegalArgument);
      }
      if size == backingArray.Length - 1 {
        GrownHolds(backingArray[..], Elems);
        IncreaseCapacityOfArray();
      }
      ghost var before := backingArray[..];
      backingArray[size] := data;
      assert backingArray[..] == before[size := data];
      StoreAppends(before, Elems, data.value);
      size := size + 1;
      Elems := Elems + [data.value];
      return Ok(());
    }

    method RemoveAtIndex(index: int) returns (r: Result<T>)
      requires Valid()
      modifies this, backingArray
      ensures Valid()
      ensures backingArray == old(backingArray)
      ensures r == if 0 <= index < old(size) then Ok(old(Elems)[index]) else Err(IndexOutOfBounds)
      ensures r.Err? ==> unchanged(this) && unchanged(backingArray)
      ensures r.Ok? ==> size == old(size) - 1
      ensures r.Ok? ==> Elems == old(Elems)[..index] + old(Elems)[index + 1..]
      ensures r.Ok? ==> backingArray[old(size) - 1] == None
      ensures r.Ok? ==> forall k :: 0 <= k < index ==> backingArray[k] == old(backingArray[k])
      ensures r.Ok? ==> forall k :: index <= k < old(size) - 1 ==> backingArray[k] == old(backingArray[k + 1])
    {
      if index < 0 || index >= size {
        return Err(IndexOutOfBounds);
      }
      var temp := backingArray[index];
      ghost var before := backingArray[..];
      ShiftBackingArray(index, false);
      ShiftLeftRemoves(before, Elems, index);
      size := size - 1;
      Elems := Elems[..index] + Elems[index + 1..];
      return Ok(temp.value);
    }

    method RemoveFromFront() returns (r: Result<T>)
      requires Valid()
      modifies this, backingArray
      ensures Valid()
      ensures backingArray == old(backingArray)
      ensures r == if old(size) == 0 then Err(NoSuchElement) else Ok(old(Elems)[0])
      ensures r.Err? ==> unchanged(this) && unchanged(backingArray)
      ensures r.Ok? ==> size == old(size) - 1
      ensures r.Ok? ==> Elems == old(Elems)[1..]
      ensures r.Ok? ==> forall k :: 0 <= k < old(size) - 1 ==> backingArray[k] == old(backingArray[k + 1])
    {
      SentinelTests(backingArray[..], Elems);
      if backingArray[0].None? {
        return Err(NoSuchElement);
      }
      var temp := backingArray[0];
      ghost var before := backingArray[..];
      backingArray[0] := None;
      assert backingArray[..] == before[0 := None];
      ShiftBackingArray(0, false);
      ClearAndShiftRemovesFront(before, Elems);
      size := size - 1;
      Elems := Elems[1..];
      return Ok(temp.value);
    }

    method RemoveFromBack() returns (r: T)
      requires Valid()
      requires size > 0
      modifies this, backingArray
      ensures Valid()
      ensures backingArray == old(backingArray)
      ensures r == old(Elems)[old(size) - 1]
      ensures size == old(size) - 1
      ensures Elems == old(Elems)[..old(size) - 1]
      ensures backingArray[old(size) - 1] == None
      ensures forall k :: 0 <= k < size ==> backingArray[k] == old(backingArray[k])
    {
      var returnedValue := backingArray[size - 1];
      ghost var before := backingArray[..];
      backingArray[size - 1] := None;
      assert backingArray[..] == before[size - 1 := None];
      ClearLastRemovesBack(before, Elems);
      size := size - 1;
      Elems := Elems[..size];
      return returnedValue.value;
    }

    method Get(index: int) returns (r: Result<T>)
      requires Valid()
      ensures r == if 0 <= index < |Elems| then Ok(Elems[index]) else Err(IndexOutOfBounds)
    {
      if index < 0 || index >= size {
        return Err(IndexOutOfBounds);
      }
      assert backingArray[..][index] == Some(Elems[index]);
      return Ok(backingArray[index].value);
    }

    method IsEmpty() returns (r: bool)
      requires Valid()
      ensures r <==> Elems == []
    {
      SentinelTests(backingArray[..], Elems);
      if backingArray[0].None? {
        return true;
      }
      return false;
    }

    method Clear()
      requires Valid()
      modifies this
      ensures Valid() && fresh(backingArray)
      ensures backingArray.Length == INITIAL_CAPACITY
      ensures size == 0 && Elems == []
      ensures forall k :: 0 <= k < backingArray.Length ==> backingArray[k] == None
    {
      backingArray := new Option<T>[INITIAL_CAPACITY](_ => None);
      size := 0;
      Elems := [];
    }

    method Size() returns (r: int)
      requires Valid()
      ensures r == |Elems|
    {
      return size;
    }
  }
}
