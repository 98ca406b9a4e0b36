/**
 The due-time priority queue: a slice-backed binary min-heap of items keyed by
 a timestamp. The raw heap-interface methods (Len, Less, Swap, Push, Pop) work
 on the slice as it is; PushItem and PopItem restore the heap order with the
 sift-up and sift-down steps of Go's container/heap, written out here.
 */
module Queue {
  import opened Wrappers

  /** An entry of the queue: the payload and the instant it is due. */
  datatype Item<T> = Item(task: T, priority: int)

  /** Index of the parent of heap position i. */
  function Parent(i: nat): nat
    requires i > 0
  {
    (i - 1) / 2
  }

  /** Min-heap order: no entry is due before its parent. */
  ghost predicate IsHeap<T>(s: seq<Item<T>>) {
    forall k :: 0 < k < |s| ==> s[Parent(k)].priority <= s[k].priority
  }

  /** Heap order on s while position j sifts up: every parent edge holds except
      the one into j, and j's parent is not after j's children. */
  ghost predicate SiftingUp<T>(s: seq<Item<T>>, j: nat) {
    && j < |s|
    && (forall k :: 0 < k < |s| && k != j ==> s[Parent(k)].priority <= s[k].priority)
    && (0 < j ==> forall k :: 0 < k < |s| && Parent(k) == j ==> s[Parent(j)].priority <= s[k].priority)
  }

  /** Heap order on the prefix s[..n] while position i sifts down: every parent
      edge holds except those out of i, and i's parent is not after i's children. */
  ghost predicate SiftingDown<T>(s: seq<Item<T>>, n: nat, i: nat) {
    && i <= n <= |s|
    && (forall k :: 0 < k < n && Parent(k) != i ==> s[Parent(k)].priority <= s[k].priority)
    && (0 < i ==> forall k :: 0 < k < n && Parent(k) == i ==> s[Parent(i)].priority <= s[k].priority)
  }

  /** The root of a heap is due no later than any other entry. */
  lemma {:induction false} HeapRootIsMin<T>(s: seq<Item<T>>, k: nat)
    requires IsHeap(s)
    requires k < |s|
    ensures s[0].priority <= s[k].priority
    decreases k
  {
    if k > 0 {
      HeapRootIsMin(s, Parent(k));
    }
  }

  /** An entry strictly earlier than every other entry of a heap is at its root. */
  lemma StrictMinIsRoot<T>(s: seq<Item<T>>, x: Item<T>)
    requires IsHeap(s)
    requires x in s
    requires forall y :: y in multiset(s) - multiset{x} ==> x.priority < y.priority
    ensures s[0] == x
  {
    HeapRootIsMin(s, 0);
    var k :| 0 <= k < |s| && s[k] == x;
    HeapRootIsMin(s, k);
  }

  /** After an entry due no later than any other is removed, every entry
      left is due no earlier than it: successive pops are in order. */
  lemma NextPopNotEarlier<T>(s: seq<Item<T>>, x: Item<T>, t: seq<Item<T>>)
    requires forall k :: 0 <= k < |s| ==> x.priority <= s[k].priority
    requires multiset(t) == multiset(s) - multiset{x}
    ensures forall k :: 0 <= k < |t| ==> x.priority <= t[k].priority
  {
    forall k | 0 <= k < |t| ensures x.priority <= t[k].priority {
      assert t[k] in multiset(t);
      assert t[k] in multiset(s);
      var l :| 0 <= l < |s| && s[l] == t[k];
    }
  }

  /** Exchanging two positions keeps the same entries. */
  lemma SwapKeepsEntries<T>(s: seq<Item<T>>, i: nat, j: nat)
    requires i < |s| && j < |s|
    ensures multiset(s[i := s[j]][j := s[i]]) == multiset(s)
  {
    if i != j {
      calc {
        multiset(s[i := s[j]][j := s[i]]);
        multiset(s[i := s[j]]) - multiset{s[i := s[j]][j]} + multiset{s[i]};
        multiset(s) - multiset{s[i]} + multiset{s[j]} - multiset{s[j]} + multiset{s[i]};
      }
    }
  }

  /** One sift-up step: exchanging position j with its parent, which is due
      strictly after it, moves the gap in heap order from j to the parent. */
  lemma SiftUpStep<T>(s: seq<Item<T>>, j: nat)
    requires SiftingUp(s, j) && 0 < j
    requires s[j].priority < s[Parent(j)].priority
    ensures var i := Parent(j); var t := s[i := s[j]][j := s[i]];
      SiftingUp(t, i) && multiset(t) == multiset(s)
  {
    var i := Parent(j);
    var t := s[i := s[j]][j := s[i]];
    SwapKeepsEntries(s, i, j);
    forall k | 0 < k < |t| && k != i
      ensures t[Parent(k)].priority <= t[k].priority
    {
      if k == j {
      } else if Parent(k) == j {
      } else if Parent(k) == i {
        assert s[i].priority <= s[k].priority;
      }
    }
  }

  /** The child Down picks, the later-numbered one only when strictly
      earlier, is due no later than any child of i. */
  lemma EarlierChild<T>(s: seq<Item<T>>, n: nat, i: nat, j: nat)
    requires n <= |s| && 2 * i + 1 < n
    requires j == if 2 * i + 2 < n && s[2 * i + 2].priority < s[2 * i + 1].priority then 2 * i + 2 else 2 * i + 1
    ensures forall k :: 0 < k < n && Parent(k) == i ==> s[j].priority <= s[k].priority
  {
    forall k | 0 < k < n && Parent(k) == i ensures s[j].priority <= s[k].priority {
      Children(i, k);
    }
  }

  /** One sift-down step: exchanging position i with its earlier child j,
      due strictly before it, moves the gap in heap order from i to j and
      leaves the entries and the slots from n on as they were. */
  lemma SiftDownStep<T>(s: seq<Item<T>>, n: nat, i: nat, j: nat)
    requires SiftingDown(s, n, i)
    requires i < j < n && Parent(j) == i
    requires forall k :: 0 < k < n && Parent(k) == i ==> s[j].priority <= s[k].priority
    requires s[j].priority < s[i].priority
    ensures var t := s[i := s[j]][j := s[i]];
      SiftingDown(t, n, j) && multiset(t) == multiset(s) && t[n..] == s[n..]
  {
    var t := s[i := s[j]][j := s[i]];
    SwapKeepsEntries(s, i, j);
    forall k | 0 < k < n && Parent(k) != j
      ensures t[Parent(k)].priority <= t[k].priority
    {
      if k == i {
      } else if k == j {
      } else if Parent(k) == i {
      }
    }
  }

  /** The children of heap position i are 2i+1 and 2i+2. */
  lemma Children(i: nat, k: nat)
    requires k > 0
    ensures Parent(k) == i <==> k == 2 * i + 1 || k == 2 * i + 2
  {
  }

  /** Sift-down stops once i is due no later than each of its children. */
  lemma SiftDownDone<T>(s: seq<Item<T>>, n: nat, i: nat)
    requires SiftingDown(s, n, i)
    requires forall k :: 0 < k < n && Parent(k) == i ==> s[i].priority <= s[k].priority
    ensures forall k :: 0 < k < n ==> s[Parent(k)].priority <= s[k].priority
  {
  }

  class PriorityQueue<T> {
    /** The backing slice `*pq`. */
    var items: seq<Item<T>>

    constructor ()
      ensures items == []
    {
      items := [];
    }

    ghost predicate Valid()
      reads this
    {
      IsHeap(items)
    }

    /** Number of entries held. */
    function Len(): (n: nat)
      reads this
      ensures n == |items|
      ensures n == 0 <==> Peek().None?
    {
      |items|
    }

    /** Position i is due strictly before position j; equal instants are not Less. */
    function Less(i: int, j: int): (b: bool)
      reads this
      requires 0 <= i < |items| && 0 <= j < |items|
      ensures b <==> items[i].priority < items[j].priority
    {
      items[i].priority < items[j].priority
    }

    /** The root entry, or None (Go: nil) when the queue is empty. On a heap
        it is an entry due no later than any other. */
    function Peek(): (r: Option<Item<T>>)
      reads this
      ensures r.None? <==> |items| == 0
      ensures r.Some? ==> r.value == items[0]
      ensures r.Some? && IsHeap(items) ==> forall k :: 0 <= k < |items| ==> r.value.priority <= items[k].priority
    {
      if |items| == 0 then None
      else
        ghost var s := items;
        assert IsHeap(s) ==> forall k :: 0 <= k < |s| ==> s[0].priority <= s[k].priority by {
          if IsHeap(s) {
            forall k | 0 <= k < |s| ensures s[0].priority <= s[k].priority {
              HeapRootIsMin(s, k);
            }
          }
        }
        Some(items[0])
    }

    /** Exchanges positions i and j and nothing else. */
    method Swap(i: int, j: int)
      requires 0 <= i < |items| && 0 <= j < |items|
      modifies this
      ensures items == old(items)[i := old(items)[j]][j := old(items)[i]]
    {
      items := items[i := items[j]][j := items[i]];
    }

    /** Raw heap-interface Push: appends x at the end of the slice. */
    method Push(x: Item<T>)
      modifies this
      ensures items == old(items) + [x]
    {
      items := items + [x];
    }

    /** Raw heap-interface Pop: removes and returns the last slot of the slice. */
    method Pop() returns (x: Item<T>)
      requires |items| > 0
      modifies this
      ensures x == old(items)[|old(items)| - 1]
      ensures items == old(items)[..|old(items)| - 1]
      ensures multiset(items) == multiset(old(items)) - multiset{x}
    {
      var n := |items|;
      x := items[n - 1];
      assert items == items[..n - 1] + [x];
      items := items[..n - 1];
    }

    /** container/heap up: moves position j0 towards the root while it is due
        strictly before its parent. */
    method Up(j0: nat)
      requires SiftingUp(items, j0)
      modifies this
      ensures IsHeap(items)
      ensures |items| == |old(items)|
      ensures multiset(items) == multiset(old(items))
    {
      var j := j0;
      // Go computes the parent as (j-1)/2 and stops when it equals j, which
      // with truncating division happens exactly at the root.
      while 0 < j && Less(j, Parent(j))
        invariant SiftingUp(items, j)
        invariant |items| == |old(items)|
        invariant multiset(items) == multiset(old(items))
        decreases j
      {
        var i := Parent(j);
        SiftUpStep(items, j);
        Swap(i, j);
        j := i;
      }
    }

    /** container/heap down: within the prefix items[..n], moves position i0
        towards the leaves while its earlier child is due strictly before it. */
    method Down(i0: nat, n: nat)
      requires SiftingDown(items, n, i0)
      modifies this
      ensures |items| == |old(items)|
      ensures forall k :: 0 < k < n ==> items[Parent(k)].priority <= items[k].priority
      ensures items[n..] == old(items)[n..]
      ensures multiset(items) == multiset(old(items))
    {
      var i := i0;
      while true
        invariant SiftingDown(items, n, i)
        invariant items[n..] == old(items)[n..]
        invariant multiset(items) == multiset(old(items))
        decreases n - i
      {
        var j1 := 2 * i + 1;
        if j1 >= n {
          SiftDownDone(items, n, i);
          break;
        }
        var j := j1;
        var j2 := j1 + 1;
        if j2 < n && Less(j2, j1) {
          j := j2;
        }
        EarlierChild(items, n, i, j);
        if !Less(j, i) {
          SiftDownDone(items, n, i);
          break;
        }
        SiftDownStep(items, n, i, j);
        Swap(i, j);
        i := j;
      }
    }

    /** heap.Push: appends x and sifts it up. */
    method PushItem(x: Item<T>)
      requires Valid()
      modifies this
      ensures Valid()
      ensures |items| == |old(items)| + 1
      ensures multiset(items) == multiset(old(items)) + multiset{x}
      ensures (forall k :: 0 <= k < |old(items)| ==> x.priority < old(items)[k].priority) ==> Peek() == Some(x)
    {
      Push(x);
      Up(|items| - 1);
      if forall k :: 0 <= k < |old(items)| ==> x.priority < old(items)[k].priority {
        forall y | y in multiset(items) - multiset{x}
          ensures x.priority < y.priority
        {
          assert y in multiset(old(items));
        }
        StrictMinIsRoot(items, x);
      }
    }

    /** heap.Pop: moves the root to the end, sifts the new root down over the
        rest, and removes and returns the old root. */
    method PopItem() returns (x: Item<T>)
      requires Valid()
      requires |items| > 0
      modifies this
      ensures Valid()
      ensures x == old(items)[0]
      ensures forall k :: 0 <= k < |old(items)| ==> x.priority <= old(items)[k].priority
      ensures |items| == |old(items)| - 1
      ensures multiset(items) == multiset(old(items)) - multiset{x}
    {
      forall k | 0 <= k < |items| ensures items[0].priority <= items[k].priority {
        HeapRootIsMin(items, k);
      }
      var n := Len() - 1;
      SwapKeepsEntries(items, 0, n);
      Swap(0, n);
      Down(0, n);
      assert items[n] == items[n..][0];
      x := Pop();
    }
  }
}
