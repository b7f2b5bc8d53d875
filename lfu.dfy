/**
 * The LFU cache of pkg/cachestruct/lfu/lfu.go: a map from key to entry, a binary
 * min-heap of the same entries ordered by access frequency, and a running byte
 * total kept within a budget by evicting the least frequently used entry.
 *
 * Go's map and heap share *entry pointers. Here the map holds each entry (key,
 * value, priority) as a value, the heap's slots hold keys, and each entry's heap
 * slot (Go's entry.index) is kept in the map index, so that the heap operations
 * change only pq and index, as Go's change only the slice and the index fields.
 */
module Lfu {
  import opened Wrappers
  import opened Accounting
  import opened HeapOrder
  import opened Slots

  /** The condition of Add's eviction loop: a budget is set and the byte total exceeds it. */
  predicate OverBudget(maxBytes: int, nbytes: int)
  {
    maxBytes != 0 && maxBytes < nbytes
  }

  /**
   * New accepts any budget. With a negative one, Add's eviction loop condition
   * holds whatever the cache holds (m == map[] included, where RemoveOldest
   * changes nothing): Add never returns.
   */
  lemma NegativeBudgetNeverSettles<V>(maxBytes: int, size: V -> nat, m: map<Key, Entry<V>>)
    requires maxBytes < 0
    ensures OverBudget(maxBytes, Bytes(m, size))
  {
  }

  /**
   * Eviction stopped in time: if anything was evicted, the byte total was still
   * over budget just before the last eviction, so every eviction was needed.
   */
  ghost predicate StoppedInTime<V>(maxBytes: int, nbytes: int, log: seq<(Key, V)>, size: V -> nat)
  {
    log != [] ==> OverBudget(maxBytes, nbytes + Cost(log[|log| - 1].0, log[|log| - 1].1, size))
  }

  /** An eviction made while over budget, logged last, was needed. */
  lemma StopStep<V>(maxBytes: int, nbytes: int, log: seq<(Key, V)>, x: (Key, V), size: V -> nat)
    requires OverBudget(maxBytes, nbytes + Cost(x.0, x.1, size))
    ensures StoppedInTime(maxBytes, nbytes, log + [x], size)
  {
  }

  /** The hook's record grows with the eviction log when a hook is configured, and stays as it was otherwise. */
  lemma LogGrows<T>(log0: seq<T>, log: seq<T>, x: T, hooked: bool)
    ensures (log0 + (if hooked then log else [])) + (if hooked then [x] else [])
         == log0 + (if hooked then log + [x] else [])
  {
    if hooked {
      assert (log0 + log) + [x] == log0 + (log + [x]);
    } else {
      assert log0 + [] == log0;
    }
  }

  class Cache<V> {
    /** The byte budget; 0 means unlimited. */
    const maxBytes: int
    /** Value.Len(): the byte length every stored value reports. */
    const size: V -> nat
    /** Whether an OnEvicted hook is configured; the exported field may be set or cleared at any time. */
    var hooked: bool

    var nbytes: int
    /** The resident entries, each under its own key. */
    var cache: map<Key, Entry<V>>
    /** Go's priorityQueue: slot i holds the key of the entry in that slot. */
    var pq: seq<Key>
    /** The heap slot of each entry in the heap: Go's entry.index. */
    var index: map<Key, int>
    /** The calls made to OnEvicted, in order: (key, value) of each evicted entry. */
    var evicted: seq<(Key, V)>

    /** The invariant that holds after every public operation. */
    ghost predicate Valid()
      reads this
    {
      Coherent(pq, index, cache, nbytes, size) && maxBytes >= 0
    }

    /** New: an empty cache with the given budget, value length and eviction hook. */
    constructor (maxBytes: int, size: V -> nat, hooked: bool)
      requires maxBytes >= 0
      ensures Valid()
      ensures this.maxBytes == maxBytes && this.size == size && this.hooked == hooked
      ensures cache == map[] && nbytes == 0 && evicted == []
    {
      this.maxBytes := maxBytes;
      this.size := size;
      this.hooked := hooked;
      nbytes := 0;
      cache := map[];
      pq := [];
      index := map[];
      evicted := [];
    }

    /** Assigning OnEvicted: sets or clears the hook for the evictions that follow, and changes nothing else. */
    method SetOnEvicted(hooked: bool)
      requires Valid()
      modifies this`hooked
      ensures Valid() && this.hooked == hooked
    {
      this.hooked := hooked;
    }

    /** Len: the number of resident entries, which is also the heap's length. */
    function Len(): (n: nat)
      reads this
      requires Valid()
      ensures n == |pq|
    {
      LinkedSize(pq, index);
      |cache|
    }

    /** Get: the stored value of a resident key, whose priority it raises by one. */
    method Get(key: Key) returns (value: Option<V>)
      requires Valid()
      modifies this`cache, this`pq, this`index
      ensures Valid()
      ensures key !in old(cache) ==> value == None && cache == old(cache) && pq == old(pq) && index == old(index)
      ensures key in old(cache) ==> value == Some(old(cache)[key].value) && cache == Used(old(cache), key)
    {
      if key in cache {
        value := Some(cache[key].value);
        IncrementPriority(key);
        return;
      }
      value := None;
    }

    /**
     * RemoveOldest: evicts one entry of least priority, subtracts its cost and
     * reports it to the hook; on an empty cache it does nothing. The victim is
     * the key of the evicted entry.
     */
    method RemoveOldest() returns (ghost victim: Key)
      requires Valid()
      modifies this`cache, this`pq, this`index, this`nbytes, this`evicted
      ensures Valid()
      ensures old(cache) == map[] ==>
                cache == old(cache) && nbytes == old(nbytes) && evicted == old(evicted)
      ensures old(cache) != map[] ==>
                && LeastFrequent(old(cache), victim)
                && cache == old(cache) - {victim}
                && nbytes == old(nbytes) - Cost(victim, old(cache)[victim].value, size)
                && evicted == old(evicted) + (if hooked then [(victim, old(cache)[victim].value)] else [])
    {
      if |cache| == 0 {
        victim := [];
        return;
      }
      NonemptyHeap(pq, index, cache);
      var key := HeapPop();
      var ent := cache[key];
      ghost var index0, cache0, nbytes0 := index, cache, nbytes;
      cache := cache - {key};
      index := index - {key};
      nbytes := nbytes - (|ent.key| + size(ent.value));
      DeleteCoherent(pq, index0, cache0, nbytes0, size, key, index, cache, nbytes);
      if hooked {
        evicted := evicted + [(ent.key, ent.value)];
      }
      victim := key;
    }

    /**
     * Add: stores value under key (a new entry at priority 1, or the value replaced
     * and the priority raised by one), then evicts least frequently used entries
     * until the byte budget holds. The log lists the evicted entries in order,
     * whether or not a hook saw them.
     */
    method Add(key: Key, value: V) returns (ghost log: seq<(Key, V)>)
      requires Valid()
      modifies this`cache, this`pq, this`index, this`nbytes, this`evicted
      ensures Valid()
      ensures Shrunk(Touch(old(cache), key, value), cache, log)
      ensures !OverBudget(maxBytes, Bytes(Touch(old(cache), key, value), size)) ==> cache == Touch(old(cache), key, value)
      ensures !OverBudget(maxBytes, nbytes) && StoppedInTime(maxBytes, nbytes, log, size)
      ensures evicted == old(evicted) + (if hooked then log else [])
    {
      Store(key, value);
      ghost var t, log0 := cache, evicted;
      log := [];
      ShrunkStart(t);
      while maxBytes != 0 && maxBytes < nbytes
        invariant Valid()
        invariant Shrunk(t, cache, log)
        invariant cache != t ==> OverBudget(maxBytes, Bytes(t, size))
        invariant evicted == log0 + (if hooked then log else [])
        invariant StoppedInTime(maxBytes, nbytes, log, size)
        decreases cache.Keys
      {
        ghost var victim;
        victim, log := Evict(t, log0, log);
      }
    }

    /**
     * One turn of Add's eviction loop: RemoveOldest while over budget, with the
     * evicted entry appended to the log of what has left t.
     */
    method Evict(ghost t: map<Key, Entry<V>>, ghost log0: seq<(Key, V)>, ghost log: seq<(Key, V)>)
      returns (ghost victim: Key, ghost log1: seq<(Key, V)>)
      requires Valid() && OverBudget(maxBytes, nbytes)
      requires Shrunk(t, cache, log) && evicted == log0 + (if hooked then log else [])
      modifies this`cache, this`pq, this`index, this`nbytes, this`evicted
      ensures Valid() && cache.Keys < old(cache.Keys)
      ensures LeastFrequent(old(cache), victim) && cache == old(cache) - {victim}
      ensures nbytes == old(nbytes) - Cost(victim, old(cache)[victim].value, size)
      ensures log1 == log + [(victim, old(cache)[victim].value)]
      ensures Shrunk(t, cache, log1) && evicted == log0 + (if hooked then log1 else [])
      ensures StoppedInTime(maxBytes, nbytes, log1, size)
    {
      ghost var c0 := cache;
      victim := RemoveOldest();
      EvictStep(t, c0, log, victim, cache);
      LogGrows(log0, log, (victim, c0[victim].value), hooked);
      StopStep(maxBytes, nbytes, log, (victim, c0[victim].value), size);
      log1 := log + [(victim, c0[victim].value)];
    }

    /**
     * The first half of Add: a resident key gets the new value, is charged the change
     * in value length and is used once more; a new key gets an entry of priority 1,
     * pushed on the heap and charged its whole cost.
     */
    method Store(key: Key, value: V)
      requires Valid()
      modifies this`cache, this`pq, this`index, this`nbytes
      ensures Valid()
      ensures cache == Touch(old(cache), key, value)
      ensures nbytes == old(nbytes) + if key in old(cache) then size(value) - size(old(cache)[key].value)
                                      else Cost(key, value, size)
    {
      if key in cache {
        var ent := cache[key];
        ghost var cache0, nbytes0 := cache, nbytes;
        nbytes := nbytes + (size(value) - size(ent.value));
        cache := cache[key := ent.(value := value)];
        ReplaceCoherent(pq, index, cache0, nbytes0, size, key, value, cache, nbytes);
        IncrementPriority(key);
      } else {
        ghost var cache0, nbytes0 := cache, nbytes;
        cache := cache[key := Entry(key, value, 1)];
        InsertOrdered(pq, index, cache0, nbytes0, size, key, value, cache);
        HeapPush(key);
        nbytes := nbytes + (|key| + size(value));
        InsertCoherent(cache0, nbytes0, size, key, value, pq, index, cache, nbytes);
      }
    }

    /** incrementPriority: raises the priority of the entry under key by one and restores heap order. */
    method IncrementPriority(key: Key)
      requires Valid() && key in cache
      modifies this`cache, this`pq, this`index
      ensures Valid()
      ensures cache == Used(old(cache), key)
    {
      ghost var cache0 := cache;
      cache := Used(cache, key);
      UsedCoherent(pq, index, cache0, nbytes, size, key, cache);
      Fix(index[key]);
    }

    // ---- priorityQueue: Less, Swap, Push, Pop and the container/heap operations over them ----

    /** Less: the entry in slot i is less frequently used than the one in slot j. */
    function Less(i: int, j: int): (b: bool)
      reads this
      requires 0 <= i < |pq| && 0 <= j < |pq|
      ensures b <==> PrioritiesOf(pq, cache)[i] < PrioritiesOf(pq, cache)[j]
    {
      Prio(cache, pq[i]) < Prio(cache, pq[j])
    }

    /** Swap: exchanges two heap slots and records both entries' new slots. */
    method Swap(i: int, j: int)
      requires 0 <= i < |pq| && 0 <= j < |pq| && Linked(pq, index)
      modifies this`pq, this`index
      ensures pq == old(pq)[i := old(pq[j])][j := old(pq[i])]
      ensures Linked(pq, index) && index.Keys == old(index.Keys)
      ensures PrioritiesOf(pq, cache) == Swapped(PrioritiesOf(old(pq), cache), i, j)
    {
      ghost var pq0, index0 := pq, index;
      pq := pq[i := pq[j]][j := pq[i]];
      index := index[pq[i] := i][pq[j] := j];
      SwapLinks(pq0, index0, cache, i, j, pq, index);
    }

    /** priorityQueue.Push: records the next slot for key and appends it. */
    method PushLast(key: Key)
      requires key !in index && Linked(pq, index)
      modifies this`pq, this`index
      ensures pq == old(pq) + [key] && index == old(index)[key := old(|pq|)]
      ensures Linked(pq, index) && index.Keys == old(index.Keys) + {key}
      ensures PrioritiesOf(pq, cache) == PrioritiesOf(old(pq), cache) + [Prio(cache, key)]
    {
      ghost var pq0, index0 := pq, index;
      index := index[key := |pq|];
      pq := pq + [key];
      PushLinks(pq0, index0, cache, key, pq, index);
    }

    /** priorityQueue.Pop: removes the last slot and marks its key's slot as -1. */
    method PopLast() returns (key: Key)
      requires |pq| > 0 && Linked(pq, index)
      modifies this`pq, this`index
      ensures key == old(pq[|pq| - 1]) && pq == old(pq[..|pq| - 1]) && index == old(index)[key := -1]
      ensures Linked(pq, index - {key}) && index.Keys == old(index.Keys)
      ensures PrioritiesOf(pq, cache) == PrioritiesOf(old(pq), cache)[..|pq|]
    {
      ghost var pq0, index0 := pq, index;
      key := pq[|pq| - 1];
      index := index[key := -1];
      pq := pq[..|pq| - 1];
      PopLinks(pq0, index0, cache, key, pq, index);
    }

    /** heap.Push: inserts key, whose entry is already in the map, into the heap. */
    method HeapPush(key: Key)
      requires key !in index && Linked(pq, index) && Ordered(PrioritiesOf(pq, cache))
      modifies this`pq, this`index
      ensures Linked(pq, index) && index.Keys == old(index.Keys) + {key}
      ensures Ordered(PrioritiesOf(pq, cache))
    {
      AppendAbove(PrioritiesOf(pq, cache), Prio(cache, key));
      PushLast(key);
      Up(|pq| - 1);
    }

    /**
     * heap.Pop: removes from the heap and returns the key of an entry of least
     * priority; the map still holds the entry and the caller deletes it.
     */
    method HeapPop() returns (key: Key)
      requires Linked(pq, index) && index.Keys == cache.Keys && Ordered(PrioritiesOf(pq, cache)) && |pq| > 0
      modifies this`pq, this`index
      ensures LeastFrequent(cache, key)
      ensures Linked(pq, index - {key}) && index.Keys == old(index.Keys) && index[key] == -1
      ensures Ordered(PrioritiesOf(pq, cache))
    {
      RootIsLeastFrequent(pq, index, cache);
      RootToLast();
      ghost var p := PrioritiesOf(pq, cache);
      key := PopLast();
      assert PrioritiesOf(pq, cache) == p[..|pq|];
    }

    /**
     * The first steps of heap.Pop: swaps the root into the last slot and sifts the
     * entry that took its place down through the other slots.
     */
    method RootToLast()
      requires Linked(pq, index) && Ordered(PrioritiesOf(pq, cache)) && |pq| > 0
      modifies this`pq, this`index
      ensures Linked(pq, index) && index.Keys == old(index.Keys)
      ensures |pq| == old(|pq|) && pq[|pq| - 1] == old(pq[0])
      ensures Ordered(PrioritiesOf(pq, cache)[..|pq| - 1])
    {
      var n := |pq| - 1;
      SwapLastToRoot(PrioritiesOf(pq, cache));
      Swap(0, n);
      var _ := Down(0, n);
      PrefixOrdered(PrioritiesOf(pq, cache), n);
    }

    /** heap.Fix, for the one use lfu.go makes of it: after the priority in slot i went up. */
    method Fix(i: int)
      requires 0 <= i < |pq| && Linked(pq, index)
      requires OrderedBelow(PrioritiesOf(pq, cache), |pq|, i) && Bridged(PrioritiesOf(pq, cache), |pq|, i)
      modifies this`pq, this`index
      ensures Linked(pq, index) && index.Keys == old(index.Keys)
      ensures Ordered(PrioritiesOf(pq, cache))
    {
      var moved := Down(i, |pq|);
      if !moved {
        OrderedIsBridged(PrioritiesOf(pq, cache), i);
        Up(i);
      }
    }

    /** Sift-up: moves the entry in slot j0 towards the root until its parent is no larger. */
    method Up(j0: int)
      requires 0 <= j0 < |pq| && Linked(pq, index)
      requires OrderedAbove(PrioritiesOf(pq, cache), |pq|, j0) && Bridged(PrioritiesOf(pq, cache), |pq|, j0)
      modifies this`pq, this`index
      ensures Linked(pq, index) && index.Keys == old(index.Keys)
      ensures Ordered(PrioritiesOf(pq, cache))
    {
      var j := j0;
      while true
        invariant 0 <= j < |pq| && Linked(pq, index) && index.Keys == old(index.Keys)
        invariant OrderedAbove(PrioritiesOf(pq, cache), |pq|, j) && Bridged(PrioritiesOf(pq, cache), |pq|, j)
        decreases j
      {
        if j == 0 {
          UpDone(PrioritiesOf(pq, cache), j);
          break;
        }
        var i := Parent(j);
        if !Less(j, i) {
          UpDone(PrioritiesOf(pq, cache), j);
          break;
        }
        UpStep(PrioritiesOf(pq, cache), j);
        Swap(i, j);
        j := i;
      }
    }

    /**
     * Sift-down within pq[..n]: moves the entry in slot i0 towards the leaves until
     * no child is smaller; reports whether it moved.
     */
    method Down(i0: int, n: int) returns (moved: bool)
      requires 0 <= i0 < |pq| && 0 <= n <= |pq| && Linked(pq, index)
      requires OrderedBelow(PrioritiesOf(pq, cache), n, i0) && Bridged(PrioritiesOf(pq, cache), n, i0)
      modifies this`pq, this`index
      ensures Linked(pq, index) && index.Keys == old(index.Keys)
      ensures OrderedBelow(PrioritiesOf(pq, cache), n, -1)
      ensures |pq| == old(|pq|) && forall k :: n <= k < |pq| ==> pq[k] == old(pq)[k]
      ensures !moved ==> pq == old(pq)
      ensures moved ==> pq != old(pq)
    {
      var i := i0;
      while true
        invariant i0 <= i < |pq| == old(|pq|) && (i == i0 || i < n)
        invariant Linked(pq, index) && index.Keys == old(index.Keys)
        invariant OrderedBelow(PrioritiesOf(pq, cache), n, i) && Bridged(PrioritiesOf(pq, cache), n, i)
        invariant forall k :: n <= k < |pq| ==> pq[k] == old(pq)[k]
        invariant i == i0 ==> pq == old(pq)
        invariant i != i0 ==> pq[i0] != old(pq)[i0]
        decreases n - i
      {
        var j := DownOnce(i, n);
        if j == i {
          break;
        }
        i := j;
      }
      moved := i > i0;
    }

    /**
     * One iteration of sift-down's loop: swaps slot i with its smaller child when
     * that child is smaller still and returns the child's slot, or returns i when
     * sift-down is finished.
     */
    method DownOnce(i: int, n: int) returns (j: int)
      requires 0 <= i < |pq| && 0 <= n <= |pq| && Linked(pq, index)
      requires OrderedBelow(PrioritiesOf(pq, cache), n, i) && Bridged(PrioritiesOf(pq, cache), n, i)
      modifies this`pq, this`index
      ensures Linked(pq, index) && index.Keys == old(index.Keys) && |pq| == old(|pq|)
      ensures j == i ==> pq == old(pq) && OrderedBelow(PrioritiesOf(pq, cache), n, -1)
      ensures j != i ==> && i < j < n
                         && OrderedBelow(PrioritiesOf(pq, cache), n, j) && Bridged(PrioritiesOf(pq, cache), n, j)
                         && forall k :: n <= k < |pq| ==> pq[k] == old(pq)[k]
      ensures j != i ==> LeastChild(PrioritiesOf(old(pq), cache), n, i, j)
      ensures j != i ==> && pq == old(pq)[i := old(pq)[j]][j := old(pq)[i]]
                         && Prio(cache, old(pq)[j]) < Prio(cache, old(pq)[i])
    {
      ghost var p := PrioritiesOf(pq, cache);
      j := i;
      var j1 := 2 * i + 1;
      if j1 < n {
        var c := j1;
        if j1 + 1 < n && Less(j1 + 1, j1) {
          c := j1 + 1;
        }
        assert LeastChild(p, n, i, c);
        if Less(c, i) {
          j := c;
        }
      }
      if j == i {
        DownDone(p, n, i);
      } else {
        DownStep(p, n, i, j);
        Swap(i, j);
      }
    }
  }
}
