# ArrayHeadTailList in Dafny

A model of `ArrayHeadTailList<T>`, a generic double-ended list stored in a
single array. Entries are added and removed at the front and at the back. There is
indexed lookup, forward and backward linear search, and `clear`. The array doubles
when an add finds it full. The logical contents are always the slots
`listArray[0 .. numberOfElements)`, front to back.

Layout:

- `wrappers.dfy` (module `Wrappers`): `Option`, which stands for a Java `null` slot or
  result, and `Result`, which stands for the constructor's exception.
- `growth.dfy` (module `Growth`): the growth rule of `expandArray` and the bounds that
  `System.arraycopy` checks. Each one is given as written and in corrected form (see
  "## Findings").
- `array_head_tail_list.dfy` (module `HeadTailList`): the class `ArrayHeadTailList`.
  It has the fields `listArray: array<Option<T>>` and `numberOfElements: int`, plus a
  ghost `Contents: seq<T>`. `Valid()` ties the array prefix to `Contents`. Every public
  operation except `display()` (see "## Left out") and every private helper of the
  source is a member, and each mutating
  method states its new `Contents`, size and array in terms of the old ones.
  The private `changeArray` helper does two different shifts, depending on its
  arguments. The model gives each shift its own method: `ShiftTowardBack` loops from
  the highest index down, and `ShiftTowardFront` loops from index 0 up. Both match
  `System.arraycopy`'s copy-through-a-temporary behaviour on overlapping ranges.
- `scenarios.dfy` (module `Scenarios`): clients that use only the list's contracts.
  They cover round trips, order, growth, search on `[a, b, a]`, clear-then-add, and a
  trace model (`Replay`) showing that the size is the adds minus the successful removals.

Equality in `indexOf`/`lastIndexOf`/`contains` is `anEntry.equals(slot)`.
Prefix slots are never null, so it is modelled as `==` on `T(==)`.

## Model

| member | source | states |
|---|---|---|
| `HeadTailList.ArrayHeadTailList.constructor` | ArrayHeadTailList.java:12-23 | for capacity >= 0: an empty list over a fresh array of exactly that many null slots |
| `HeadTailList.NewList` | ArrayHeadTailList.java:12-23 | fails with `NegativeArraySize` exactly when capacity < 0; otherwise a fresh valid empty list of that capacity |
| `HeadTailList.ArrayHeadTailList.Size` | ArrayHeadTailList.java:158-160 | the size is the length of the logical contents |
| `HeadTailList.ArrayHeadTailList.IsEmpty` | ArrayHeadTailList.java:167-169 | true exactly when the contents are empty |
| `HeadTailList.ArrayHeadTailList.IsFull` | ArrayHeadTailList.java:171-173 | true exactly when the contents fill every slot of the array |
| `HeadTailList.ArrayHeadTailList.GetEntry` | ArrayHeadTailList.java:95-99 | the entry at a position in [0, size), None for any other position; reads only |
| `HeadTailList.ArrayHeadTailList.ExpandArray` | ArrayHeadTailList.java:175-177 | a fresh array of the grown length whose first old-length slots equal the old array and whose new slots are null; contents and size unchanged |
| `HeadTailList.ArrayHeadTailList.ShiftTowardBack` | ArrayHeadTailList.java:179-186 | slots 1..n receive the old slots 0..n-1; every other slot is unchanged |
| `HeadTailList.ArrayHeadTailList.ShiftTowardFront` | ArrayHeadTailList.java:179-186 | slots 0..n-2 receive the old slots 1..n-1; slots from n-1 on are unchanged |
| `HeadTailList.ArrayHeadTailList.AddElement` | ArrayHeadTailList.java:198-207 | contents gain the entry at the chosen end; size + 1; a full array is replaced by a fresh grown one, otherwise kept |
| `HeadTailList.ArrayHeadTailList.AddFront` | ArrayHeadTailList.java:32-35 | contents become [x] + old contents; size + 1; growth exactly when full |
| `HeadTailList.ArrayHeadTailList.AddBack` | ArrayHeadTailList.java:44-47 | contents become old contents + [x]; existing entries keep their positions; size + 1; growth exactly when full |
| `HeadTailList.ArrayHeadTailList.RemoveElement` | ArrayHeadTailList.java:188-196 | on a non-empty list: returns the first (or last) entry, and the contents lose it; size - 1; same array |
| `HeadTailList.ArrayHeadTailList.RemoveFront` | ArrayHeadTailList.java:58-63 | non-empty: returns old[0], and the contents become old[1..]; empty: None and nothing changes |
| `HeadTailList.ArrayHeadTailList.RemoveBack` | ArrayHeadTailList.java:72-77 | non-empty: returns old[n-1], and the contents become old[..n-1]; empty: None and nothing changes |
| `HeadTailList.ArrayHeadTailList.Clear` | ArrayHeadTailList.java:81-86 | contents empty, size 0, every slot null, same array (capacity unchanged) |
| `HeadTailList.ArrayHeadTailList.GetIndex` | ArrayHeadTailList.java:209-217 | returns the first index visited (stepping up or down) that holds the entry, with none before it holding it; -1 only when no visited index holds it |
| `HeadTailList.ArrayHeadTailList.IndexOf` | ArrayHeadTailList.java:127-129 | the smallest position holding the entry; -1 exactly when the entry is absent |
| `HeadTailList.ArrayHeadTailList.LastIndexOf` | ArrayHeadTailList.java:138-140 | the largest position holding the entry; -1 exactly when the entry is absent |
| `HeadTailList.ArrayHeadTailList.Contains` | ArrayHeadTailList.java:148-150 | true exactly when some entry equals the argument |
| `Growth.DoubledCapacityRoom` | ArrayHeadTailList.java:175-177 | as written, growth makes room for one more entry exactly when the old length is positive |
| `Growth.DoubledCapacityStuckAtZero` | ArrayHeadTailList.java:175-177 | as written, growing a zero-length array yields length 0, with no slot 0 to write |
| `Growth.AddFrontShiftAsWrittenFailsAtZero` | ArrayHeadTailList.java:179-186 | as written, the addFront copy after growth from length 0 is out of bounds |
| `Growth.NewCapacity` | ArrayHeadTailList.java:175-177 | the corrected growth: always longer than before, twice the length when it is positive, 1 from 0 |
| `Growth.AddFrontShiftInBounds` | ArrayHeadTailList.java:198-207 | the addFront copy of all n entries one slot up is in bounds exactly when the list is not full |
| `Growth.AddFrontShiftInBoundsAfterGrowth` | ArrayHeadTailList.java:198-207 | after corrected growth of a full array, the addFront copy is in bounds |
| `Growth.RemoveFrontAsWrittenInBounds` | ArrayHeadTailList.java:188-196 | as written, the removeFront copy on a non-empty list is in bounds exactly when the list is not full |
| `Growth.RemoveFrontAsWrittenFailsOnFullList` | ArrayHeadTailList.java:188-196 | capacity 1 holding one entry: the removeFront copy as written is out of bounds |
| `Growth.RemoveFrontInBounds` | ArrayHeadTailList.java:51-57 | with the corrected length, the removeFront copy is in bounds on every non-empty list, full or not |
| `Scenarios.AddFrontThenRemoveFront` | ArrayHeadTailList.java:32-63 | on any list, addFront(x) then removeFront() returns x and restores the contents |
| `Scenarios.AddBackThenRemoveBack` | ArrayHeadTailList.java:44-77 | on any list, addBack(x) then removeBack() returns x and restores the contents |
| `Scenarios.FrontBackOrder` | ArrayHeadTailList.java:32-47 | addFront(a); addBack(b) on an empty list gives getEntry(0) == a, getEntry(1) == b, size 2 |
| `Scenarios.EmptyRoundTrip` | ArrayHeadTailList.java:32-63 | addFront(x); removeFront() on an empty list returns x and leaves it empty |
| `Scenarios.RemoveFromEmpty` | ArrayHeadTailList.java:58-77 | both removals on an empty list return None and the size stays 0 |
| `Scenarios.GrowthByAddBack` | ArrayHeadTailList.java:198-207 | capacity 2 after three addBack calls: capacity 4, size 3, entries 1, 2, 3 in order |
| `Scenarios.GrowthFromZero` | ArrayHeadTailList.java:175-177 | with the corrected growth, an add to a zero-capacity list succeeds and the array has one slot |
| `Scenarios.SearchOnABA` | ArrayHeadTailList.java:127-150 | on [a, b, a]: indexOf(a) is 0, lastIndexOf(a) is 2, an absent value gives -1 and contains is false |
| `Scenarios.ClearThenAddBack` | ArrayHeadTailList.java:81-86 | after clear the list is empty, and a following addBack(y) puts y at position 0 |
| `Scenarios.ReplaySize` | ArrayHeadTailList.java:25-77 | after any sequence of adds and removes: size = old size + adds - removals that found the list non-empty |
| `Scenarios.Run` | ArrayHeadTailList.java:25-77 | running a trace through the list's operations yields the replayed contents, and the size given by ReplaySize |

## Left out

- `display()` (ArrayHeadTailList.java:101-118) writes to the console only and changes no state, so it is not modelled.
- `HeadTailListInterface` is not part of this model; the class's own public methods are taken as the interface.
- Null entries are not modelled. `anEntry.equals(...)` becomes `==`, so the model has neither the exception a null argument raises nor dynamic dispatch of `equals`.
- The exception type `NegativeArraySizeException` is modelled as the `NegativeArraySize` error of `NewList`. The constructor itself requires capacity >= 0.
- Java's 32-bit `int` is not modelled: neither a count past 2^31 - 1 nor the overflow of `length * 2`. Allocation failure is not modelled either. Both are limits of the environment.
- Unused slots are left unconstrained. These are the slots at `numberOfElements` and beyond, which may hold stale references after a removal. The exceptions are a new array, the new slots after growth, and the slots after `clear`, which are all null.
- HeadTailList.ArrayHeadTailList.ExpandArray: grows a zero-length array to length 1 rather than 0, following the correction in "## Findings". Every other length is doubled, as in the source.
- HeadTailList.ArrayHeadTailList.ShiftTowardFront: copies `numberOfElements - 1` slots, not the source's `numberOfElements` (see "## Findings"). So it does not reproduce the source copying the stale slot `n` into slot `n-1`, and it does not throw on a full list.
- HeadTailList.ArrayHeadTailList.AddElement: at capacity 0 it succeeds and leaves one slot. The source as written throws there: at line 184, or at the arraycopy of line 181 for a front add (see "## Findings").
- HeadTailList.ArrayHeadTailList.AddFront: at capacity 0 it succeeds, while the source as written throws at the arraycopy of line 181 (see "## Findings").
- HeadTailList.ArrayHeadTailList.AddBack: at capacity 0 it succeeds, while the source as written throws at the write of line 184 (see "## Findings").
- HeadTailList.ArrayHeadTailList.RemoveElement: with `atFront` on a full list it returns the first entry. In the source as written, the arraycopy at line 181 throws before the count is decremented (see "## Findings").
- Scenarios.FrontBackOrder: holds for every capacity, including 0, only because of the corrected growth. With capacity 0 the source as written throws at the first add.
- Scenarios.EmptyRoundTrip: holds at capacities 0 and 1 only because of the two corrections.
  - At capacity 0 it relies on the growth of `Growth.NewCapacity`; the source as written throws in `addFront` at the arraycopy of line 181.
  - At capacity 1, `addFront` leaves the list full. It then relies on `ShiftTowardFront` copying n - 1 elements; the source as written throws in `removeFront` at the arraycopy of line 181.
- Scenarios.AddFrontThenRemoveFront: holds on every valid list only because of the two corrections.
  - Whenever `addFront` leaves the list full, the source as written throws in `removeFront` at the arraycopy of line 181. This happens from capacity c with c - 1 entries, and from a full list of capacity 1, which grows to 2. The model relies on `ShiftTowardFront` copying n - 1 elements.
  - At capacity 0 it also relies on `Growth.NewCapacity`; the source as written throws in `addFront` at line 181.
- Scenarios.AddBackThenRemoveBack: holds at capacity 0 only because of the growth of `Growth.NewCapacity`. The source as written throws in `addBack` at the write of line 184.
- Scenarios.ClearThenAddBack: holds on a list of capacity 0 only because of the growth of `Growth.NewCapacity`. After `clear`, the source as written throws in `addBack` at the write of line 184.
- Scenarios.Run: holds for every trace only because of the two corrections. In the source as written, a trace throws in either of two cases.
  - An add meets a full array of capacity 0: the failure is at line 184 for `addBack`, or line 181 for `addFront`.
  - A `removeFront` meets a full list: the failure is at line 181.
- HeadTailList.ArrayHeadTailList.RemoveFront: on a full list it returns the first entry as documented at ArrayHeadTailList.java:51-57. The source as written throws `IndexOutOfBoundsException` there (see "## Findings").

## Findings

| source | as written | input that shows it | evidently intended | confidence | as-written member | corrected member |
|---|---|---|---|---|---|---|
| ArrayHeadTailList.java:175-177 | `expandArray` sets the new length to `listArray.length * 2` | `new ArrayHeadTailList<>(0)` then `addBack(x)`: growth gives length 0 and `listArray[0] = x` is out of bounds (with `addFront(x)`, the arraycopy to index 1 fails first) | growth makes room for at least one more entry | not executed; high | `Growth.DoubledCapacityStuckAtZero` | `Growth.NewCapacity` |
| ArrayHeadTailList.java:58-63 | `removeFront` passes `lengthMod = 0`, so `arraycopy(listArray, 1, listArray, 0, numberOfElements)` runs | capacity 1, `addBack(x)`, `removeFront()`: the copy reads index 1 of a 1-slot array and throws before the size is decremented | shift the `numberOfElements - 1` entries after the first, as the doc comment at lines 51-57 says | not executed; high | `Growth.RemoveFrontAsWrittenFailsOnFullList` | `Growth.RemoveFrontInBounds` |

The class uses the corrected definitions:
- `ExpandArray` grows to `Growth.NewCapacity`.
- `AddElement` establishes the bounds of the front shift through `Growth.AddFrontShiftInBounds` or, after growth, `Growth.AddFrontShiftInBoundsAfterGrowth`.
- `RemoveElement` establishes the bounds that `ShiftTowardFront` requires through `Growth.RemoveFrontInBounds`. That shift copies `Growth.CopyLength(n, -1)` elements, where the source passes `lengthMod = 0`.
