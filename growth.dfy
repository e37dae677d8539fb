/**
 * The arithmetic of the backing array: how `expandArray` chooses the new
 * length, and the bounds `System.arraycopy` checks before it copies.
 * Each discrepancy of the source is kept here as written, beside the
 * corrected definition that the list itself uses.
 */
module Growth {

  /** Growth exactly as `expandArray` writes it: twice the current length. */
  function DoubledCapacity(length: nat): nat
  {
    length * 2
  }

  /** As written, doubling leaves no room for one more element exactly when the array is empty. */
  lemma DoubledCapacityRoom(length: nat)
    ensures DoubledCapacity(length) > length <==> length > 0
  {
  }

  /**
   * Capacity 0, full with 0 elements: growth leaves length 0, so there is
   * still no slot 0 to write.
   */
  lemma DoubledCapacityStuckAtZero()
    ensures DoubledCapacity(0) == 0
  {
  }

  /**
   * Growth as the list uses it: twice the current length, but at least one
   * slot, so that an add on a full list always finds room.
   */
  function NewCapacity(length: nat): (c: nat)
    ensures c > length
    ensures length > 0 ==> c == DoubledCapacity(length)
    ensures length == 0 ==> c == 1
  {
    if length == 0 then 1 else length * 2
  }

  /**
   * The bounds `System.arraycopy(a, srcPos, a, destPos, length)` demands of
   * one array of `arrayLength` slots; when they fail it throws
   * `IndexOutOfBoundsException` and copies nothing.
   */
  predicate ArraycopyInBounds(srcPos: int, destPos: int, length: int, arrayLength: nat)
  {
    0 <= srcPos && 0 <= destPos && 0 <= length &&
    srcPos + length <= arrayLength && destPos + length <= arrayLength
  }

  /**
   * The number of elements `changeArray` copies: `numberOfElements + lengthMod`.
   * As written, `removeFront` passes `lengthMod = 0` and `removeBack` passes -1.
   */
  function CopyLength(count: nat, lengthMod: int): int
  {
    count + lengthMod
  }

  /**
   * As written, `removeFront` on a non-empty list copies within bounds exactly
   * when the list is not full; on a full list the copy throws.
   */
  lemma RemoveFrontAsWrittenInBounds(count: nat, capacity: nat)
    requires 0 < count <= capacity
    ensures ArraycopyInBounds(1, 0, CopyLength(count, 0), capacity) <==> count < capacity
  {
  }

  /** The shortest failing case: capacity 1, one element, `removeFront()`. */
  lemma RemoveFrontAsWrittenFailsOnFullList()
    ensures !ArraycopyInBounds(1, 0, CopyLength(1, 0), 1)
  {
  }

  /**
   * Corrected, with `lengthMod = -1` (the `count - 1` entries after the first,
   * the value `removeBack` already passes), the `removeFront` shift is in
   * bounds on every non-empty list, full or not.
   */
  lemma RemoveFrontInBounds(count: nat, capacity: nat)
    requires 0 < count <= capacity
    ensures ArraycopyInBounds(1, 0, CopyLength(count, -1), capacity)
  {
  }

  /**
   * The `addFront` shift (all `count` elements up by one) is in bounds
   * exactly when the list is not full, which is why growth must make room first.
   */
  lemma AddFrontShiftInBounds(count: nat, capacity: nat)
    requires count <= capacity
    ensures ArraycopyInBounds(0, 1, count, capacity) <==> count < capacity
  {
  }

  /** After the corrected growth of a full array, the `addFront` shift is in bounds. */
  lemma AddFrontShiftInBoundsAfterGrowth(count: nat)
    ensures ArraycopyInBounds(0, 1, count, NewCapacity(count))
  {
  }

  /** As written, growth of an empty full array leaves the `addFront` shift out of bounds. */
  lemma AddFrontShiftAsWrittenFailsAtZero()
    ensures !ArraycopyInBounds(0, 1, 0, DoubledCapacity(0))
  {
  }
}
