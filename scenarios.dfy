/**
 * Clients of the list that use nothing but the contracts of its
 * operations: order, round trips, growth, search, emptying.
 */
module Scenarios {
  import opened Wrappers
  import opened HeadTailList

  /** On any list, `addFront(x)` then `removeFront()` returns `x` and restores the contents. */
  method AddFrontThenRemoveFront<T(==)>(l: ArrayHeadTailList<T>, x: T) returns (r: Option<T>)
    requires l.Valid()
    modifies l, l.listArray
    ensures l.Valid()
    ensures r == Some(x) && l.Contents == old(l.Contents)
  {
    l.AddFront(x);
    r := l.RemoveFront();
  }

  /** On any list, `addBack(x)` then `removeBack()` returns `x` and restores the contents. */
  method AddBackThenRemoveBack<T(==)>(l: ArrayHeadTailList<T>, x: T) returns (r: Option<T>)
    requires l.Valid()
    modifies l, l.listArray
    ensures l.Valid()
    ensures r == Some(x) && l.Contents == old(l.Contents)
  {
    l.AddBack(x);
    r := l.RemoveBack();
  }

  /** `addFront(a); addBack(b)` on an empty list puts `a` at position 0 and `b` at position 1. */
  method FrontBackOrder<T(==)>(capacity: nat, a: T, b: T) returns (e0: Option<T>, e1: Option<T>, size: int)
    ensures e0 == Some(a) && e1 == Some(b) && size == 2
  {
    var l := new ArrayHeadTailList<T>(capacity);
    l.AddFront(a);
    l.AddBack(b);
    e0 := l.GetEntry(0);
    e1 := l.GetEntry(1);
    size := l.Size();
  }

  /** On an empty list, `addFront(x); removeFront()` returns `x` and leaves the list empty. */
  method EmptyRoundTrip<T(==)>(capacity: nat, x: T) returns (r: Option<T>, empty: bool)
    ensures r == Some(x) && empty
  {
    var l := new ArrayHeadTailList<T>(capacity);
    l.AddFront(x);
    r := l.RemoveFront();
    empty := l.IsEmpty();
  }

  /** Removal from an empty list answers `None` at both ends and the size stays 0. */
  method RemoveFromEmpty<T(==)>(capacity: nat) returns (front: Option<T>, back: Option<T>, size: int)
    ensures front == None && back == None && size == 0
  {
    var l := new ArrayHeadTailList<T>(capacity);
    front := l.RemoveFront();
    back := l.RemoveBack();
    size := l.Size();
  }

  /** Capacity 2, then `addBack(1); addBack(2); addBack(3)`: one growth to 4, contents `[1, 2, 3]`. */
  method GrowthByAddBack() returns (capacity: int, size: int, e0: Option<int>, e1: Option<int>, e2: Option<int>)
    ensures capacity == 4 && size == 3
    ensures e0 == Some(1) && e1 == Some(2) && e2 == Some(3)
  {
    var l := new ArrayHeadTailList<int>(2);
    l.AddBack(1);
    l.AddBack(2);
    l.AddBack(3);
    capacity := l.listArray.Length;
    size := l.Size();
    e0 := l.GetEntry(0);
    e1 := l.GetEntry(1);
    e2 := l.GetEntry(2);
  }

  /** Growth from capacity 0: the first add still succeeds and the array has one slot. */
  method GrowthFromZero<T(==)>(x: T) returns (capacity: int, e0: Option<T>)
    ensures capacity == 1 && e0 == Some(x)
  {
    var l := new ArrayHeadTailList<T>(0);
    l.AddFront(x);
    capacity := l.listArray.Length;
    e0 := l.GetEntry(0);
  }

  /** On `[a, b, a]`, `indexOf(a)` is 0, `lastIndexOf(a)` is 2, and an absent `c` gives -1 and `contains` false. */
  method SearchOnABA<T(==)>(a: T, b: T, c: T) returns (first: int, last: int, missing: int, found: bool)
    requires c != a && c != b
    ensures first == 0 && last == 2 && missing == -1 && !found
  {
    var l := new ArrayHeadTailList<T>(1);
    l.AddBack(a);
    l.AddBack(b);
    l.AddBack(a);
    assert l.Contents == [a, b, a];
    assert l.Contents[0] == a && l.Contents[2] == a;
    first := l.IndexOf(a);
    last := l.LastIndexOf(a);
    missing := l.IndexOf(c);
    found := l.Contains(c);
  }

  /** After `clear()` the list is empty, and `addBack(y)` then puts `y` at position 0. */
  method ClearThenAddBack<T(==)>(l: ArrayHeadTailList<T>, y: T) returns (emptied: bool, e0: Option<T>)
    requires l.Valid()
    modifies l, l.listArray
    ensures l.Valid() && l.Contents == [y]
    ensures emptied && e0 == Some(y)
  {
    l.Clear();
    emptied := l.IsEmpty();
    l.AddBack(y);
    e0 := l.GetEntry(0);
  }

  /** One call of a sequence of list updates. */
  datatype Op<T> = AddFrontOp(entry: T) | AddBackOp(entry: T) | RemoveFrontOp | RemoveBackOp

  /** The contents after one update, as the operations' contracts state it. */
  function Step<T>(s: seq<T>, op: Op<T>): seq<T>
  {
    match op
    case AddFrontOp(x) => [x] + s
    case AddBackOp(x) => s + [x]
    case RemoveFrontOp => if s == [] then s else s[1..]
    case RemoveBackOp => if s == [] then s else s[..|s| - 1]
  }

  /** The contents after a sequence of updates, applied from the first. */
  function Replay<T>(s: seq<T>, ops: seq<Op<T>>): seq<T>
    decreases |ops|
  {
    if ops == [] then s else Replay(Step(s, ops[0]), ops[1..])
  }

  /** The number of adds in `ops`. */
  function Adds<T>(ops: seq<Op<T>>): nat
    decreases |ops|
  {
    if ops == [] then 0
    else (if ops[0].AddFrontOp? || ops[0].AddBackOp? then 1 else 0) + Adds(ops[1..])
  }

  /** The number of removals in `ops` that find the list non-empty, starting from `s`. */
  function Removals<T>(s: seq<T>, ops: seq<Op<T>>): nat
    decreases |ops|
  {
    if ops == [] then 0
    else (if (ops[0].RemoveFrontOp? || ops[0].RemoveBackOp?) && s != [] then 1 else 0)
         + Removals(Step(s, ops[0]), ops[1..])
  }

  /** The size after any sequence of updates is the old size plus the adds minus the successful removals. */
  lemma {:induction false} ReplaySize<T>(s: seq<T>, ops: seq<Op<T>>)
    ensures |Replay(s, ops)| == |s| + Adds(ops) - Removals(s, ops)
    decreases |ops|
  {
    if ops != [] {
      ReplaySize(Step(s, ops[0]), ops[1..]);
    }
  }

  /** Runs `ops` on `l` through its public operations. */
  method Run<T(==)>(l: ArrayHeadTailList<T>, ops: seq<Op<T>>)
    requires l.Valid()
    modifies l, l.listArray
    ensures l.Valid()
    ensures l.Contents == Replay(old(l.Contents), ops)
    ensures l.Size() == |old(l.Contents)| + Adds(ops) - Removals(old(l.Contents), ops)
  {
    var i := 0;
    while i < |ops|
      invariant 0 <= i <= |ops|
      invariant l.Valid()
      invariant l.listArray == old(l.listArray) || fresh(l.listArray)
      invariant Replay(l.Contents, ops[i..]) == Replay(old(l.Contents), ops)
    {
      assert ops[i..][0] == ops[i] && ops[i..][1..] == ops[i + 1..];
      match ops[i] {
        case AddFrontOp(x) => l.AddFront(x);
        case AddBackOp(x) => l.AddBack(x);
        case RemoveFrontOp => var _ := l.RemoveFront();
        case RemoveBackOp => var _ := l.RemoveBack();
      }
      i := i + 1;
    }
    assert ops[i..] == [];
    ReplaySize(old(l.Contents), ops);
  }
}
