/**
 * The LFU cache's heap as values: pq lists, slot by slot, the keys of the entries
 * in the heap, and index maps each key in the heap to its slot (Go's entry.index).
 * Linked says the two agree; the lemmas say how each step of the cache keeps them
 * in agreement and what it does to the priorities in the heap's slots. Most lemmas
 * take the state before a step and the state after it; NonemptyHeap,
 * RootIsLeastFrequent and LinkedSize are facts about one state.
 */
module Slots {
  import opened Accounting
  import opened HeapOrder

  /** Every slot names a key whose recorded slot is that one, and every recorded slot holds its key. */
  ghost predicate Linked(pq: seq<Key>, index: map<Key, int>)
  {
    && (forall i :: 0 <= i < |pq| ==> pq[i] in index && index[pq[i]] == i)
    && (forall k :: k in index ==> 0 <= index[k] < |pq| && pq[index[k]] == k)
  }

  /** The priority of the entry under k; 0 for a key with no entry. */
  function Prio<V>(cache: map<Key, Entry<V>>, k: Key): int
  {
    if k in cache then cache[k].priority else 0
  }

  /** The priorities of the entries in the heap's slots, in slot order. */
  ghost function PrioritiesOf<V>(pq: seq<Key>, cache: map<Key, Entry<V>>): (r: seq<int>)
    ensures |r| == |pq|
  {
    seq(|pq|, i requires 0 <= i < |pq| => Prio(cache, pq[i]))
  }

  /** Swap's step: exchanging two slots and recording both new slots. */
  lemma SwapLinks<V>(pq: seq<Key>, index: map<Key, int>, cache: map<Key, Entry<V>>, i: int, j: int,
                     pq1: seq<Key>, index1: map<Key, int>)
    requires 0 <= i < |pq| && 0 <= j < |pq| && Linked(pq, index)
    requires pq1 == pq[i := pq[j]][j := pq[i]] && index1 == index[pq1[i] := i][pq1[j] := j]
    ensures Linked(pq1, index1) && index1.Keys == index.Keys
    ensures PrioritiesOf(pq1, cache) == Swapped(PrioritiesOf(pq, cache), i, j)
  {
  }

  /** Push's step: appending a key not yet in the heap, with its slot recorded. */
  lemma PushLinks<V>(pq: seq<Key>, index: map<Key, int>, cache: map<Key, Entry<V>>, key: Key,
                     pq1: seq<Key>, index1: map<Key, int>)
    requires key !in index && Linked(pq, index)
    requires pq1 == pq + [key] && index1 == index[key := |pq|]
    ensures Linked(pq1, index1) && index1.Keys == index.Keys + {key}
    ensures PrioritiesOf(pq1, cache) == PrioritiesOf(pq, cache) + [Prio(cache, key)]
  {
  }

  /** Pop's step: dropping the last slot, whose key is marked as out of the heap with slot -1. */
  lemma PopLinks<V>(pq: seq<Key>, index: map<Key, int>, cache: map<Key, Entry<V>>, key: Key,
                    pq1: seq<Key>, index1: map<Key, int>)
    requires |pq| > 0 && Linked(pq, index) && key == pq[|pq| - 1]
    requires pq1 == pq[..|pq| - 1] && index1 == index[key := -1]
    ensures Linked(pq1, index1 - {key}) && index1.Keys == index.Keys
    ensures PrioritiesOf(pq1, cache) == PrioritiesOf(pq, cache)[..|pq1|]
  {
    assert forall i :: 0 <= i < |pq1| ==> pq1[i] != key;
  }

  /** When the heap holds exactly the resident keys, a nonempty cache has a nonempty heap. */
  lemma NonemptyHeap<V>(pq: seq<Key>, index: map<Key, int>, cache: map<Key, Entry<V>>)
    requires Linked(pq, index) && index.Keys == cache.Keys && cache != map[]
    ensures |pq| > 0
  {
    var k :| k in cache;
    assert k in index;
  }

  /** The entry in the root slot of an ordered heap holding every resident key is a least frequently used one. */
  lemma RootIsLeastFrequent<V>(pq: seq<Key>, index: map<Key, int>, cache: map<Key, Entry<V>>)
    requires Linked(pq, index) && index.Keys == cache.Keys && Ordered(PrioritiesOf(pq, cache)) && |pq| > 0
    ensures LeastFrequent(cache, pq[0])
  {
    var p := PrioritiesOf(pq, cache);
    forall k | k in cache
      ensures cache[pq[0]].priority <= cache[k].priority
    {
      RootIsLeast(p, index[k]);
    }
  }

  /** incrementPriority's step: one more use of a key in an ordered heap leaves it out of order only below that key's slot. */
  lemma UsedPriorities<V>(pq: seq<Key>, index: map<Key, int>, cache: map<Key, Entry<V>>, key: Key,
                          cache1: map<Key, Entry<V>>)
    requires Linked(pq, index) && key in index && key in cache && Ordered(PrioritiesOf(pq, cache))
    requires cache1 == Used(cache, key)
    ensures OrderedBelow(PrioritiesOf(pq, cache1), |pq|, index[key])
    ensures Bridged(PrioritiesOf(pq, cache1), |pq|, index[key])
  {
    var p := PrioritiesOf(pq, cache);
    RaiseKeepsOrder(p, index[key], cache[key].priority + 1);
    assert PrioritiesOf(pq, cache1) == p[index[key] := cache[key].priority + 1];
  }

  /** A map step that keeps the priority of every key in the heap keeps the heap's priorities. */
  lemma SamePriorities<V>(pq: seq<Key>, index: map<Key, int>, cache: map<Key, Entry<V>>, cache1: map<Key, Entry<V>>)
    requires Linked(pq, index)
    requires forall k :: k in index ==> Prio(cache1, k) == Prio(cache, k)
    ensures PrioritiesOf(pq, cache1) == PrioritiesOf(pq, cache)
  {
  }

  /**
   * What the cache keeps true between operations: entries keyed by their own keys,
   * the heap holding exactly the resident keys in heap order of priority, and the
   * byte total equal to the cost of the resident entries.
   */
  ghost predicate Coherent<V>(pq: seq<Key>, index: map<Key, int>, cache: map<Key, Entry<V>>, nbytes: int, size: V -> nat)
  {
    && Keyed(cache)
    && Linked(pq, index)
    && index.Keys == cache.Keys
    && Ordered(PrioritiesOf(pq, cache))
    && nbytes == Bytes(cache, size)
  }

  /** Add's step on a resident key before the priority goes up: the value is replaced and charged for its new length. */
  lemma ReplaceCoherent<V>(pq: seq<Key>, index: map<Key, int>, cache: map<Key, Entry<V>>, nbytes: int, size: V -> nat,
                           key: Key, value: V, cache1: map<Key, Entry<V>>, nbytes1: int)
    requires Coherent(pq, index, cache, nbytes, size) && key in cache
    requires cache1 == cache[key := cache[key].(value := value)]
    requires nbytes1 == nbytes + (size(value) - size(cache[key].value))
    ensures Coherent(pq, index, cache1, nbytes1, size)
  {
    BytesUpdate(cache, key, cache1[key], size);
    SamePriorities(pq, index, cache, cache1);
  }

  /** incrementPriority's step before heap.Fix: everything but the heap order below the key's slot still holds. */
  lemma UsedCoherent<V>(pq: seq<Key>, index: map<Key, int>, cache: map<Key, Entry<V>>, nbytes: int, size: V -> nat,
                        key: Key, cache1: map<Key, Entry<V>>)
    requires Coherent(pq, index, cache, nbytes, size) && key in cache
    requires cache1 == Used(cache, key)
    ensures Keyed(cache1) && index.Keys == cache1.Keys && nbytes == Bytes(cache1, size)
    ensures key in index && 0 <= index[key] < |pq|
    ensures OrderedBelow(PrioritiesOf(pq, cache1), |pq|, index[key])
    ensures Bridged(PrioritiesOf(pq, cache1), |pq|, index[key])
  {
    UsedKeeps(cache, key, size);
    UsedPriorities(pq, index, cache, key, cache1);
  }

  /** Add's step on a new key before heap.Push: the heap, which does not hold the key yet, keeps its priorities. */
  lemma InsertOrdered<V>(pq: seq<Key>, index: map<Key, int>, cache: map<Key, Entry<V>>, nbytes: int, size: V -> nat,
                         key: Key, value: V, cache1: map<Key, Entry<V>>)
    requires Coherent(pq, index, cache, nbytes, size) && key !in cache
    requires cache1 == cache[key := Entry(key, value, 1)]
    ensures key !in index && Linked(pq, index) && Ordered(PrioritiesOf(pq, cache1))
  {
    SamePriorities(pq, index, cache, cache1);
  }

  /** Add's step on a new key after heap.Push: the entry is resident, in the heap, and charged its whole cost. */
  lemma InsertCoherent<V>(cache: map<Key, Entry<V>>, nbytes: int, size: V -> nat, key: Key, value: V,
                          pq1: seq<Key>, index1: map<Key, int>, cache1: map<Key, Entry<V>>, nbytes1: int)
    requires Keyed(cache) && key !in cache && nbytes == Bytes(cache, size)
    requires cache1 == cache[key := Entry(key, value, 1)] && nbytes1 == nbytes + Cost(key, value, size)
    requires Linked(pq1, index1) && index1.Keys == cache.Keys + {key} && Ordered(PrioritiesOf(pq1, cache1))
    ensures Coherent(pq1, index1, cache1, nbytes1, size)
  {
    BytesInsert(cache, key, Entry(key, value, 1), size);
  }

  /** RemoveOldest's step after heap.Pop: deleting the popped entry and its cost. */
  lemma DeleteCoherent<V>(pq: seq<Key>, index: map<Key, int>, cache: map<Key, Entry<V>>, nbytes: int, size: V -> nat,
                          key: Key, index1: map<Key, int>, cache1: map<Key, Entry<V>>, nbytes1: int)
    requires Keyed(cache) && index.Keys == cache.Keys && key in cache && nbytes == Bytes(cache, size)
    requires Linked(pq, index - {key}) && Ordered(PrioritiesOf(pq, cache))
    requires index1 == index - {key} && cache1 == cache - {key}
    requires nbytes1 == nbytes - Cost(key, cache[key].value, size)
    ensures Coherent(pq, index1, cache1, nbytes1, size)
  {
    BytesRemove(cache, key, size);
    SamePriorities(pq, index1, cache, cache1);
  }

  /** A heap linked to index has one slot per key of index. */
  lemma {:induction false} LinkedSize(pq: seq<Key>, index: map<Key, int>)
    requires Linked(pq, index)
    ensures |index| == |pq|
    decreases |pq|
  {
    if |pq| > 0 {
      var key := pq[|pq| - 1];
      PopLinks<bool>(pq, index, map[], key, pq[..|pq| - 1], index[key := -1]);
      assert index[key := -1] - {key} == index - {key};
      LinkedSize(pq[..|pq| - 1], index - {key});
      assert (index - {key}).Keys == index.Keys - {key};
    } else {
      assert forall k :: k !in index;
      assert index.Keys == {};
    }
  }

}
