/**
 * Binary min-heap order over the sequence of priorities in the heap's slots, and
 * the facts sift-up and sift-down rely on. Slot k's parent is slot (k - 1) / 2.
 */
module HeapOrder {

  /** The slot of the parent of heap slot k. */
  function Parent(k: int): (p: int)
    requires k > 0
    ensures 0 <= p < k
  {
    (k - 1) / 2
  }

  /** p with slots i and j exchanged. */
  function Swapped(p: seq<int>, i: int, j: int): seq<int>
    requires 0 <= i < |p| && 0 <= j < |p|
  {
    p[i := p[j]][j := p[i]]
  }

  /** Heap order: no slot holds less than its parent. */
  ghost predicate Ordered(p: seq<int>)
  {
    forall k :: 0 < k < |p| ==> p[Parent(k)] <= p[k]
  }

  /**
   * Heap order on p[..n], except between slot x and its children. No slot has
   * parent -1, so OrderedBelow(p, n, -1) is heap order on all of p[..n].
   */
  ghost predicate OrderedBelow(p: seq<int>, n: int, x: int)
  {
    && n <= |p|
    && forall k :: 0 < k < n && Parent(k) != x ==> p[Parent(k)] <= p[k]
  }

  /** Heap order on p[..n], except between slot x and its parent. */
  ghost predicate OrderedAbove(p: seq<int>, n: int, x: int)
  {
    && n <= |p|
    && forall k :: 0 < k < n && k != x ==> p[Parent(k)] <= p[k]
  }

  /** The parent of slot x holds no more than the children of x in p[..n]. */
  ghost predicate Bridged(p: seq<int>, n: int, x: int)
    requires 0 <= x < |p| && n <= |p|
  {
    x > 0 ==> forall k {:trigger Parent(k)} :: 0 < k < n && Parent(k) == x ==> p[Parent(x)] <= p[k]
  }

  /** In a heap-ordered sequence the root holds the least priority. */
  lemma {:induction false} RootIsLeast(p: seq<int>, i: int)
    requires Ordered(p) && 0 <= i < |p|
    ensures p[0] <= p[i]
    decreases i
  {
    if i > 0 {
      RootIsLeast(p, Parent(i));
    }
  }

  /** One step of sift-up: swapping a slot with a larger parent moves the exception up. */
  lemma UpStep(p: seq<int>, j: int)
    requires 0 < j < |p| && OrderedAbove(p, |p|, j) && Bridged(p, |p|, j)
    requires p[j] < p[Parent(j)]
    ensures OrderedAbove(Swapped(p, Parent(j), j), |p|, Parent(j))
    ensures Bridged(Swapped(p, Parent(j), j), |p|, Parent(j))
  {
    var i, q := Parent(j), Swapped(p, Parent(j), j);
    forall k | 0 < k < |p| && k != i
      ensures q[Parent(k)] <= q[k]
    {
      if k == j {
      } else if Parent(k) == j {
        assert q[Parent(k)] == p[i];
      } else if Parent(k) == i {
        assert p[i] <= p[k];
      }
    }
    if i > 0 {
      forall k | 0 < k < |p| && Parent(k) == i
        ensures q[Parent(i)] <= q[k]
      {
        assert p[Parent(i)] <= p[i];
      }
    }
  }

  /** Sift-up stops where the exception is gone: at the root, or below a parent no larger. */
  lemma UpDone(p: seq<int>, j: int)
    requires 0 <= j < |p| && OrderedAbove(p, |p|, j)
    requires j == 0 || p[Parent(j)] <= p[j]
    ensures Ordered(p)
  {
  }

  /** The children of slot i are slots 2i+1 and 2i+2. */
  lemma ChildSlots(i: int, c: int)
    requires c > 0 && Parent(c) == i
    ensures c == 2 * i + 1 || c == 2 * i + 2
  {
  }

  /** Slot j is a child of slot i in p[..n] holding no more than its sibling. */
  ghost predicate LeastChild(p: seq<int>, n: int, i: int, j: int)
    requires 0 <= i && n <= |p|
  {
    && (j == 2 * i + 1 || j == 2 * i + 2) && j < n
    && (2 * i + 1 < n ==> p[j] <= p[2 * i + 1])
    && (2 * i + 2 < n ==> p[j] <= p[2 * i + 2])
  }

  /**
   * One step of sift-down: swapping a slot with its smaller child, when that child
   * is smaller still, moves the exception down to the child's slot.
   */
  lemma DownStep(p: seq<int>, n: int, i: int, j: int)
    requires 0 <= i < n <= |p| && LeastChild(p, n, i, j)
    requires OrderedBelow(p, n, i) && Bridged(p, n, i)
    requires p[j] < p[i]
    ensures OrderedBelow(Swapped(p, i, j), n, j)
    ensures Bridged(Swapped(p, i, j), n, j)
  {
    var q := Swapped(p, i, j);
    assert Parent(j) == i;
    forall k | 0 < k < n && Parent(k) != j
      ensures q[Parent(k)] <= q[k]
    {
      if k == j {
      } else if k == i {
        assert p[Parent(i)] <= p[j];
      } else if Parent(k) == i {
        ChildSlots(i, k);
        assert p[j] <= p[k];
      }
    }
    forall k | 0 < k < n && Parent(k) == j
      ensures q[Parent(j)] <= q[k]
    {
      assert p[j] <= p[k];
    }
  }

  /** Sift-down stops where the exception is gone: no child in p[..n], or none smaller. */
  lemma DownDone(p: seq<int>, n: int, i: int)
    requires 0 <= i < |p| && n <= |p| && OrderedBelow(p, n, i)
    requires 2 * i + 1 < n ==> p[i] <= p[2 * i + 1]
    requires 2 * i + 2 < n ==> p[i] <= p[2 * i + 2]
    ensures OrderedBelow(p, n, -1)
  {
    forall k | 0 < k < n && Parent(k) == i
      ensures p[Parent(k)] <= p[k]
    {
      ChildSlots(i, k);
    }
  }

  /** Raising the priority in slot i of a heap leaves the exception only below slot i. */
  lemma RaiseKeepsOrder(p: seq<int>, i: int, v: int)
    requires Ordered(p) && 0 <= i < |p| && p[i] <= v
    ensures OrderedBelow(p[i := v], |p|, i) && Bridged(p[i := v], |p|, i)
  {
    var q := p[i := v];
    forall k | 0 < k < |p| && Parent(k) != i
      ensures q[Parent(k)] <= q[k]
    {
      assert p[Parent(k)] <= p[k];
    }
    if i > 0 {
      forall k | 0 < k < |p| && Parent(k) == i
        ensures q[Parent(i)] <= q[k]
      {
        assert p[Parent(i)] <= p[i] <= p[k];
      }
    }
  }

  /** A heap satisfies the entry condition of sift-up at any slot. */
  lemma OrderedIsBridged(p: seq<int>, i: int)
    requires Ordered(p) && 0 <= i < |p|
    ensures OrderedAbove(p, |p|, i) && Bridged(p, |p|, i)
  {
    if i > 0 {
      forall k | 0 < k < |p| && Parent(k) == i
        ensures p[Parent(i)] <= p[k]
      {
        assert p[Parent(i)] <= p[i];
      }
    }
  }

  /** Appending to a heap leaves the exception only above the new last slot. */
  lemma AppendAbove(p: seq<int>, v: int)
    requires Ordered(p)
    ensures OrderedAbove(p + [v], |p| + 1, |p|) && Bridged(p + [v], |p| + 1, |p|)
  {
    var q := p + [v];
    forall k | 0 < k < |q| && k != |p|
      ensures q[Parent(k)] <= q[k]
    {
      assert p[Parent(k)] <= p[k];
    }
  }

  /**
   * The first step of heap.Pop: moving the last slot to the root leaves p[..n]
   * ordered except below the root.
   */
  lemma SwapLastToRoot(p: seq<int>)
    requires Ordered(p) && |p| > 0
    ensures OrderedBelow(Swapped(p, 0, |p| - 1), |p| - 1, 0)
  {
    var n, q := |p| - 1, Swapped(p, 0, |p| - 1);
    forall k | 0 < k < n && Parent(k) != 0
      ensures q[Parent(k)] <= q[k]
    {
      assert p[Parent(k)] <= p[k];
    }
  }

  /** A prefix ordered with no exception is a heap. */
  lemma PrefixOrdered(p: seq<int>, n: int)
    requires 0 <= n <= |p| && OrderedBelow(p, n, -1)
    ensures Ordered(p[..n])
  {
  }

}
