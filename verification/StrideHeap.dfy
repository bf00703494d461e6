/** The binary min-heap of pass values, in elements 1..count of an array, as proc.c keeps it. */
module StrideHeap {

  ghost predicate Ordered(s: seq<int>, n: nat) {
    n < |s| && forall i | 2 <= i <= n :: s[i / 2] <= s[i]
  }

  /** What the heap holds. */
  ghost function Bag(s: seq<int>, n: nat): multiset<int>
    requires n < |s|
  {
    multiset(s[1..n + 1])
  }

  /** Ordered but for the element at `k`, which may be smaller than its parent. */
  ghost predicate OrderedBut(s: seq<int>, n: nat, k: nat) {
    && n < |s| && 1 <= k <= n
    && (forall i | 2 <= i <= n && i != k :: s[i / 2] <= s[i])
    && (forall i | 2 <= i <= n && i / 2 == k && k >= 2 :: s[k / 2] <= s[i])
  }

  /** Ordered but for the element at `k`, which may be larger than its children. */
  ghost predicate OrderedAbove(s: seq<int>, n: nat, k: nat) {
    && n < |s| && 1 <= k
    && (forall i | 2 <= i <= n && i / 2 != k :: s[i / 2] <= s[i])
    && (forall i | 2 <= i <= n && i / 2 == k && k >= 2 :: s[k / 2] <= s[i])
  }

  /** The root is a smallest element. */
  lemma {:induction false} RootIsLeast(s: seq<int>, n: nat, i: nat)
    requires Ordered(s, n) && 1 <= i <= n
    ensures s[1] <= s[i]
    decreases i
  {
    if i > 1 {
      RootIsLeast(s, n, i / 2);
    }
  }

  lemma RootIsMin(s: seq<int>, n: nat)
    requires Ordered(s, n) && n >= 1
    ensures s[1] in Bag(s, n)
    ensures forall x <- Bag(s, n) :: s[1] <= x
  {
    var t := s[1..n + 1];
    assert t[0] == s[1];
    forall x | x in Bag(s, n)
      ensures s[1] <= x
    {
      assert x in t;
      var j :| 0 <= j < |t| && t[j] == x;
      RootIsLeast(s, n, j + 1);
    }
  }

  function Swapped(s: seq<int>, i: nat, j: nat): seq<int>
    requires i < |s| && j < |s|
  {
    s[i := s[j]][j := s[i]]
  }

  lemma SwapKeepsBag(s: seq<int>, i: nat, j: nat, n: nat)
    requires 1 <= i <= n < |s| && 1 <= j <= n
    ensures Bag(Swapped(s, i, j), n) == Bag(s, n)
  {
  }

  lemma BagSnoc(s: seq<int>, n: nat)
    requires n + 1 < |s|
    ensures Bag(s, n + 1) == Bag(s, n) + multiset{s[n + 1]}
  {
    assert s[1..n + 2] == s[1..n + 1] + [s[n + 1]];
  }

  class Heap {
    const heap: array<int>
    var count: nat

    ghost predicate Valid()
      reads this, heap
    {
      count < heap.Length && Ordered(heap[..], count)
    }

    ghost function Contents(): multiset<int>
      reads this, heap
      requires Valid()
    {
      Bag(heap[..], count)
    }

    constructor (nproc: nat)
      ensures Valid() && fresh(heap) && heap.Length == nproc + 1 && count == 0 && Contents() == multiset{}
    {
      heap := new int[nproc + 1](_ => 0);
      count := 0;
    }

    method Swap(i: nat, j: nat)
      requires i < heap.Length && j < heap.Length
      modifies heap
      ensures heap[..] == Swapped(old(heap[..]), i, j)
    {
      heap[i], heap[j] := heap[j], heap[i];
      assert heap[..] == Swapped(old(heap[..]), i, j);
    }

    /** proc.c push. */
    method Push(x: int)
      requires Valid() && count + 1 < heap.Length
      modifies this, heap
      ensures Valid() && count == old(count) + 1
      ensures Contents() == old(Contents()) + multiset{x}
    {
      hide OrderedBut, Bag, Swapped;
      ghost var bag := Contents() + multiset{x};
      Appended(heap[..], count, x);
      count := count + 1;
      heap[count] := x;
      assert heap[..] == old(heap[..])[count := x];
      var child: nat, parent: nat := count, count / 2;
      while child > 1 && heap[child] < heap[parent]
        invariant 1 <= child <= count && parent == child / 2 && OrderedBut(heap[..], count, child)
        invariant count == old(count) + 1 < heap.Length
        invariant Bag(heap[..], count) == bag
      {
        SwapKeepsBag(heap[..], child, parent, count);
        SiftUp(heap[..], count, child);
        Swap(child, parent);
        child := parent;
        parent := child / 2;
      }
      SiftedUp(heap[..], count, child);
    }

    /** proc.c pop: a smallest element, taken out. */
    method Pop() returns (min: int)
      requires Valid() && count >= 1
      modifies this, heap
      ensures Valid() && count == old(count) - 1
      ensures min == old(heap[1]) && min in old(Contents()) && forall x <- old(Contents()) :: min <= x
      ensures Contents() == old(Contents()) - multiset{min}
    {
      hide Ordered, OrderedAbove, Bag, Swapped;
      min := heap[1];
      RootIsMin(heap[..], count);
      Removed(heap[..], count);
      ghost var bag := Contents() - multiset{min};
      Swap(1, count);
      count := count - 1;
      var parent: nat, child: nat := 1, 2;
      if child + 1 <= count {
        child := if heap[child] < heap[child + 1] then child else child + 1;
      }
      while child <= count && heap[child] < heap[parent]
        invariant 1 <= parent && SmallerChild(heap[..], count, parent, child)
        invariant OrderedAbove(heap[..], count, parent)
        invariant Bag(heap[..], count) == bag
        invariant count == old(count) - 1 < heap.Length
        decreases heap.Length - parent
      {
        SwapKeepsBag(heap[..], child, parent, count);
        SiftDown(heap[..], count, parent, child);
        Swap(child, parent);
        parent := child;
        child := parent * 2;
        if child + 1 <= count {
          child := if heap[child] < heap[child + 1] then child else child + 1;
        }
      }
      SiftedDown(heap[..], count, parent, child);
    }
  }

  lemma Appended(s: seq<int>, n: nat, x: int)
    requires Ordered(s, n) && n + 1 < |s|
    ensures OrderedBut(s[n + 1 := x], n + 1, n + 1)
    ensures Bag(s[n + 1 := x], n + 1) == Bag(s, n) + multiset{x}
  {
    BagSnoc(s[n + 1 := x], n);
    assert s[n + 1 := x][1..n + 1] == s[1..n + 1];
  }

  lemma SiftUp(s: seq<int>, n: nat, k: nat)
    requires OrderedBut(s, n, k) && k > 1 && s[k] < s[k / 2]
    ensures OrderedBut(Swapped(s, k, k / 2), n, k / 2)
  {
  }

  lemma SiftedUp(s: seq<int>, n: nat, k: nat)
    requires OrderedBut(s, n, k) && (k > 1 ==> s[k / 2] <= s[k])
    ensures Ordered(s, n)
  {
  }

  /** The last element moved to the root's place. */
  lemma Removed(s: seq<int>, n: nat)
    requires Ordered(s, n) && n >= 1
    ensures OrderedAbove(Swapped(s, 1, n), n - 1, 1)
    ensures Bag(Swapped(s, 1, n), n - 1) == Bag(s, n) - multiset{s[1]}
  {
    SwapKeepsBag(s, 1, n, n);
    BagSnoc(Swapped(s, 1, n), n - 1);
  }

  /** `child` is the smaller of `parent`'s children, if there are any. */
  ghost predicate SmallerChild(s: seq<int>, n: nat, parent: nat, child: nat) {
    && n < |s| && child / 2 == parent && (child > n ==> child == 2 * parent)
    && (2 * parent <= n ==> child <= n && s[child] <= s[2 * parent])
    && (2 * parent + 1 <= n ==> s[child] <= s[2 * parent + 1])
  }

  lemma SiftDown(s: seq<int>, n: nat, parent: nat, child: nat)
    requires OrderedAbove(s, n, parent) && SmallerChild(s, n, parent, child) && child <= n && s[child] < s[parent]
    ensures OrderedAbove(Swapped(s, child, parent), n, child)
  {
  }

  lemma SiftedDown(s: seq<int>, n: nat, parent: nat, child: nat)
    requires OrderedAbove(s, n, parent) && SmallerChild(s, n, parent, child)
    requires child <= n ==> s[child] >= s[parent]
    ensures Ordered(s, n)
  {
  }
}
