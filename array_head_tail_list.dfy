/**
 * A generic double-ended list kept in one array. The logical contents are
 * the slots `listArray[0 .. numberOfElements)`, front to back; the slots
 * beyond them are unused and the model says nothing about them, except
 * that a new array and a cleared array hold `None` (Java `null`) in every slot.
 */
module HeadTailList {
  import opened Wrappers
  import Growth

  /** The one exception the list throws: `NegativeArraySizeException` from the constructor. */
  datatype Error = NegativeArraySize

  /**
   * The indices `getIndex(_, from, to, step)` visits before it reaches `to`:
   * `from, from + 1, …, to - 1` upward, `from, from - 1, …, to + 1` downward.
   */
  ghost predicate Scanned(k: int, from: int, to: int, step: int)
  {
    if step == 1 then from <= k < to else to < k <= from
  }

  class ArrayHeadTailList<T(==)> {
    var listArray: array<Option<T>>
    var numberOfElements: int
    /** The logical contents, front to back. */
    ghost var Contents: seq<T>

    /** The object invariant: the size fits the array, and the prefix holds the contents. */
    ghost predicate Valid()
      reads this, listArray
    {
      0 <= numberOfElements <= listArray.Length &&
      |Contents| == numberOfElements &&
      forall i :: 0 <= i < numberOfElements ==> listArray[i] == Some(Contents[i])
    }

    /** An empty list over a fresh array of exactly `capacity` null slots. */
    constructor (capacity: int)
      requires capacity >= 0
      ensures Valid() && fresh(listArray)
      ensures Contents == [] && listArray.Length == capacity
      ensures forall i :: 0 <= i < listArray.Length ==> listArray[i] == None
    {
      listArray := new Option<T>[capacity](_ => None);
      numberOfElements := 0;
      Contents := [];
    }

    /** The number of entries. */
    function Size(): (r: int)
      reads this, listArray
      requires Valid()
      ensures r == |Contents|
    {
      numberOfElements
    }

    /** Whether the list holds no entry. */
    predicate IsEmpty()
      reads this, listArray
      requires Valid()
      ensures IsEmpty() <==> Contents == []
    {
      numberOfElements == 0
    }

    /** Whether every slot of the array holds an entry, so that an add must grow it first. */
    predicate IsFull()
      reads this, listArray
      requires Valid()
      ensures IsFull() <==> |Contents| == listArray.Length
    {
      numberOfElements == listArray.Length
    }

    /**
     * The entry at `givenPosition`, or `None` when the position is outside
     * `[0, size)`; never fails.
     */
    function GetEntry(givenPosition: int): (r: Option<T>)
      reads this, listArray
      requires Valid()
      ensures 0 <= givenPosition < |Contents| ==> r == Some(Contents[givenPosition])
      ensures !(0 <= givenPosition < |Contents|) ==> r == None
    {
      if givenPosition >= 0 && givenPosition < numberOfElements then listArray[givenPosition] else None
    }

    /**
     * Replaces the array by a longer copy (`Arrays.copyOf`): the old slots
     * keep their values, the new ones are null. The model grows by at least
     * one slot where the source doubles (see `Growth.NewCapacity`).
     */
    method ExpandArray()
      requires Valid()
      modifies this
      ensures Valid() && fresh(listArray)
      ensures listArray.Length == Growth.NewCapacity(old(listArray.Length))
      ensures listArray[..old(listArray.Length)] == old(listArray[..])
      ensures forall i :: old(listArray.Length) <= i < listArray.Length ==> listArray[i] == None
      ensures Contents == old(Contents) && numberOfElements == old(numberOfElements)
    {
      var newArray := new Option<T>[Growth.NewCapacity(listArray.Length)](_ => None);
      var i := 0;
      while i < listArray.Length
        invariant 0 <= i <= listArray.Length
        invariant forall k :: 0 <= k < i ==> newArray[k] == listArray[k]
        invariant forall k :: listArray.Length <= k < newArray.Length ==> newArray[k] == None
        modifies newArray
      {
        newArray[i] := listArray[i];
        i := i + 1;
      }
      listArray := newArray;
    }

    /**
     * The `addFront` shift, `System.arraycopy(listArray, 0, listArray, 1, n)`:
     * each of the `n` entries moves one slot toward the back, the highest first
     * so that none is overwritten before it has moved.
     */
    method ShiftTowardBack()
      requires 0 <= numberOfElements
      requires Growth.ArraycopyInBounds(0, 1, numberOfElements, listArray.Length)
      modifies listArray
      ensures forall k :: 1 <= k <= numberOfElements ==> listArray[k] == old(listArray[k - 1])
      ensures forall k :: 0 <= k < listArray.Length && !(1 <= k <= numberOfElements) ==> listArray[k] == old(listArray[k])
    {
      var i := numberOfElements;
      while i > 0
        invariant 0 <= i <= numberOfElements
        invariant forall k :: i < k <= numberOfElements ==> listArray[k] == old(listArray[k - 1])
        invariant forall k :: 0 <= k < listArray.Length && !(i < k <= numberOfElements) ==> listArray[k] == old(listArray[k])
      {
        listArray[i] := listArray[i - 1];
        i := i - 1;
      }
    }

    /**
     * The `removeFront` shift, `System.arraycopy(listArray, 1, listArray, 0, n - 1)`:
     * each entry after the first moves one slot toward the front, the lowest
     * first. The source copies `n` elements here (see the findings in `Growth`).
     */
    method ShiftTowardFront()
      requires 0 < numberOfElements
      requires Growth.ArraycopyInBounds(1, 0, Growth.CopyLength(numberOfElements, -1), listArray.Length)
      modifies listArray
      ensures forall k :: 0 <= k < numberOfElements - 1 ==> listArray[k] == old(listArray[k + 1])
      ensures forall k :: numberOfElements - 1 <= k < listArray.Length ==> listArray[k] == old(listArray[k])
    {
      var i := 0;
      while i < numberOfElements - 1
        invariant 0 <= i <= numberOfElements - 1
        invariant forall k :: 0 <= k < i ==> listArray[k] == old(listArray[k + 1])
        invariant forall k :: i <= k < listArray.Length ==> listArray[k] == old(listArray[k])
      {
        listArray[i] := listArray[i + 1];
        i := i + 1;
      }
    }

    /**
     * The shared add (`addElement`): grow when full, shift if the entry goes
     * to the front, store it, and count it.
     */
    method AddElement(atFront: bool, newEntry: T)
      requires Valid()
      modifies this, listArray
      ensures Valid()
      ensures Contents == if atFront then [newEntry] + old(Contents) else old(Contents) + [newEntry]
      ensures numberOfElements == old(numberOfElements) + 1
      ensures old(numberOfElements) == old(listArray.Length) ==>
                fresh(listArray) && listArray.Length == Growth.NewCapacity(old(listArray.Length))
      ensures old(numberOfElements) < old(listArray.Length) ==> listArray == old(listArray)
    {
      ghost var wasFull := IsFull();
      if IsFull() {
        ExpandArray();
      }
      if atFront {
        if wasFull {
          Growth.AddFrontShiftInBoundsAfterGrowth(numberOfElements);
        } else {
          Growth.AddFrontShiftInBounds(numberOfElements, listArray.Length);
        }
        ShiftTowardBack();
        listArray[0] := Some(newEntry);
        Contents := [newEntry] + Contents;
      } else {
        listArray[numberOfElements] := Some(newEntry);
        Contents := Contents + [newEntry];
      }
      numberOfElements := numberOfElements + 1;
    }

    /** Adds `newEntry` before every other entry; the others move one position back. */
    method AddFront(newEntry: T)
      requires Valid()
      modifies this, listArray
      ensures Valid()
      ensures Contents == [newEntry] + old(Contents)
      ensures numberOfElements == old(numberOfElements) + 1
      ensures old(numberOfElements) == old(listArray.Length) ==>
                fresh(listArray) && listArray.Length == Growth.NewCapacity(old(listArray.Length))
      ensures old(numberOfElements) < old(listArray.Length) ==> listArray == old(listArray)
    {
      AddElement(true, newEntry);
    }

    /** Adds `newEntry` after every other entry; the others keep their positions. */
    method AddBack(newEntry: T)
      requires Valid()
      modifies this, listArray
      ensures Valid()
      ensures Contents == old(Contents) + [newEntry]
      ensures forall i :: 0 <= i < old(numberOfElements) ==> GetEntry(i) == old(GetEntry(i))
      ensures numberOfElements == old(numberOfElements) + 1
      ensures old(numberOfElements) == old(listArray.Length) ==>
                fresh(listArray) && listArray.Length == Growth.NewCapacity(old(listArray.Length))
      ensures old(numberOfElements) < old(listArray.Length) ==> listArray == old(listArray)
    {
      AddElement(false, newEntry);
    }

    /**
     * The shared removal (`removeElement`) on a non-empty list: take the
     * first or the last entry, shift the rest when it was the first, and
     * uncount it. The array is not replaced.
     */
    method RemoveElement(atFront: bool) returns (removedEntry: T)
      requires Valid() && numberOfElements > 0
      modifies this, listArray
      ensures Valid() && listArray == old(listArray)
      ensures numberOfElements == old(numberOfElements) - 1
      ensures atFront ==> removedEntry == old(Contents)[0] && Contents == old(Contents)[1..]
      ensures !atFront ==> removedEntry == old(Contents)[|old(Contents)| - 1] &&
                           Contents == old(Contents)[..|old(Contents)| - 1]
    {
      var removedEntryIndex := if atFront then 0 else numberOfElements - 1;
      removedEntry := listArray[removedEntryIndex].value;
      if atFront {
        Growth.RemoveFrontInBounds(numberOfElements, listArray.Length);
        ShiftTowardFront();
        Contents := Contents[1..];
      } else {
        Contents := Contents[..numberOfElements - 1];
      }
      numberOfElements := numberOfElements - 1;
    }

    /** Removes and returns the first entry; on an empty list returns `None` and changes nothing. */
    method RemoveFront() returns (r: Option<T>)
      requires Valid()
      modifies this, listArray
      ensures Valid() && listArray == old(listArray)
      ensures old(Contents) == [] ==> r == None && unchanged(this) && unchanged(listArray)
      ensures old(Contents) != [] ==> r == Some(old(Contents)[0]) && Contents == old(Contents)[1..]
      ensures old(Contents) != [] ==> numberOfElements == old(numberOfElements) - 1
    {
      if !IsEmpty() {
        var e := RemoveElement(true);
        r := Some(e);
      } else {
        r := None;
      }
    }

    /** Removes and returns the last entry; on an empty list returns `None` and changes nothing. */
    method RemoveBack() returns (r: Option<T>)
      requires Valid()
      modifies this, listArray
      ensures Valid() && listArray == old(listArray)
      ensures old(Contents) == [] ==> r == None && unchanged(this) && unchanged(listArray)
      ensures old(Contents) != [] ==> r == Some(old(Contents)[|old(Contents)| - 1]) &&
                                      Contents == old(Contents)[..|old(Contents)| - 1]
      ensures old(Contents) != [] ==> numberOfElements == old(numberOfElements) - 1
    {
      if !IsEmpty() {
        var e := RemoveElement(false);
        r := Some(e);
      } else {
        r := None;
      }
    }

    /** Empties the list and nulls every slot (`Arrays.fill`), keeping the array. */
    method Clear()
      requires Valid()
      modifies this, listArray
      ensures Valid() && listArray == old(listArray)
      ensures Contents == [] && numberOfElements == 0
      ensures forall i :: 0 <= i < listArray.Length ==> listArray[i] == None
    {
      var i := 0;
      while i < listArray.Length
        invariant 0 <= i <= listArray.Length
        invariant forall k :: 0 <= k < i ==> listArray[k] == None
        modifies listArray
      {
        listArray[i] := None;
        i := i + 1;
      }
      numberOfElements := 0;
      Contents := [];
    }

    /**
     * The shared linear search (`getIndex`): visits `start, start + step, …`
     * until `stop`, and returns the first visited index holding `anEntry`,
     * or -1 when none does.
     */
    method GetIndex(anEntry: T, start: int, stop: int, step: int) returns (r: int)
      requires Valid()
      requires (step == 1 && 0 <= start <= stop <= numberOfElements) ||
               (step == -1 && -1 <= stop <= start < numberOfElements)
      ensures r == -1 || (Scanned(r, start, stop, step) && Contents[r] == anEntry)
      ensures r != -1 ==> forall k :: Scanned(k, start, r, step) ==> Contents[k] != anEntry
      ensures r == -1 ==> forall k :: Scanned(k, start, stop, step) ==> Contents[k] != anEntry
    {
      var i := start;
      while i != stop
        invariant step == 1 ==> start <= i <= stop
        invariant step == -1 ==> stop <= i <= start
        invariant forall k :: Scanned(k, start, i, step) ==> Contents[k] != anEntry
        decreases if step == 1 then stop - i else i - stop
      {
        if listArray[i] == Some(anEntry) {
          return i;
        }
        i := i + step;
      }
      return -1;
    }

    /** The first position of `anEntry`, or -1 when it is absent. */
    method IndexOf(anEntry: T) returns (r: int)
      requires Valid()
      ensures -1 <= r < |Contents|
      ensures r == -1 <==> anEntry !in Contents
      ensures r != -1 ==> Contents[r] == anEntry && forall k :: 0 <= k < r ==> Contents[k] != anEntry
    {
      r := GetIndex(anEntry, 0, numberOfElements, 1);
    }

    /** The last position of `anEntry`, or -1 when it is absent. */
    method LastIndexOf(anEntry: T) returns (r: int)
      requires Valid()
      ensures -1 <= r < |Contents|
      ensures r == -1 <==> anEntry !in Contents
      ensures r != -1 ==> Contents[r] == anEntry && forall k :: r < k < |Contents| ==> Contents[k] != anEntry
    {
      r := GetIndex(anEntry, numberOfElements - 1, -1, -1);
    }

    /** Whether some entry equals `anEntry`. */
    method Contains(anEntry: T) returns (b: bool)
      requires Valid()
      ensures b <==> anEntry in Contents
    {
      var i := IndexOf(anEntry);
      b := i != -1;
    }
  }

  /**
   * The constructor with its failure: a negative capacity throws
   * `NegativeArraySizeException`; otherwise an empty list of that capacity.
   */
  method NewList<T(==)>(capacity: int) returns (r: Result<ArrayHeadTailList<T>, Error>)
    ensures capacity < 0 <==> r.Failure?
    ensures r.Failure? ==> r.error == NegativeArraySize
    ensures r.Success? ==> fresh(r.value) && fresh(r.value.listArray) && r.value.Valid() &&
                           r.value.Contents == [] && r.value.listArray.Length == capacity
  {
    if capacity >= 0 {
      var l := new ArrayHeadTailList<T>(capacity);
      r := Success(l);
    } else {
      r := Failure(NegativeArraySize);
    }
  }
}
