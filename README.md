# LFU cache (pkg/cachestruct/lfu) in Dafny

This project models the least-frequently-used cache of `pkg/cachestruct/lfu/lfu.go`.
The cache holds a map from key to entry and a binary min-heap of the same entries,
ordered by `priority`, the access-frequency counter. Each entry keeps its heap slot
in `index`. The cache also keeps a running byte total `nbytes`, checked against the
budget `maxBytes`, where 0 means unlimited.

- `Get` returns a resident entry's value and raises its priority by one.
- `Add` stores a new entry at priority 1, or replaces the value of a resident entry
  and raises its priority. It then calls `RemoveOldest` until the budget holds.
- `RemoveOldest` pops a least-frequently-used entry from the heap, deletes it from
  the map, subtracts its cost `len(key) + value.Len()` and reports it to the
  `OnEvicted` hook.

The files, one Dafny module each:

- `accounting.dfy` (`Accounting`): an entry as a value, and the resident entries as
  a `map<Key, Entry<V>>`. This file defines:
  - the byte total `Bytes` of a map, and how inserts, updates and deletes change it;
  - `Used` (one more use of a key) and `Touch` (the map after `Add`, before
    eviction);
  - `LeastFrequent`, and the account `Shrunk` of what `Add`'s eviction loop removes.
- `heap_order.dfy` (`HeapOrder`): heap order over the sequence of priorities in the
  heap's slots. It holds the facts that sift-up and sift-down rely on, one lemma per
  loop step.
- `slots.dfy` (`Slots`): the heap as slot-to-key `pq` plus key-to-slot `index`.
  `Linked` says the two agree. `Coherent` is the cache's invariant. Most lemmas here
  take the state before one step of the cache and the state after it. `NonemptyHeap`,
  `RootIsLeastFrequent` and `LinkedSize` are facts about a single state.
- `lfu.dfy` (`Lfu`): the class `Cache<V>`, whose fields the methods update in place
  as the Go methods do. The `priorityQueue` methods and the `container/heap`
  operations that lfu.go calls are methods of the same class over `pq` and `index`.
- `wrappers.dfy` (`Wrappers`): `Option`, for Get's `(value, ok)` result.

## Model

| member | source | states |
|---|---|---|
| `Accounting.BytesRemove` | pkg/cachestruct/lfu/lfu.go:50 | The byte total of the resident entries is any one entry's `len(key) + value.Len()` plus the total of the others, whichever entry is split off. |
| `Accounting.BytesInsert` | pkg/cachestruct/lfu/lfu.go:69 | Inserting a new key raises the byte total by exactly `len(key) + value.Len()`. |
| `Accounting.BytesUpdate` | pkg/cachestruct/lfu/lfu.go:58 | Replacing a resident entry changes the byte total by the new cost minus the old one. |
| `Accounting.Used` | pkg/cachestruct/lfu/lfu.go:80-81 | One more use: the same keys; every other entry unchanged; this entry's key and value kept and its priority one higher. |
| `Accounting.UsedKeeps` | pkg/cachestruct/lfu/lfu.go:80-81 | Raising a priority leaves the byte total unchanged, and every entry still under its own key. |
| `Accounting.Touch` | pkg/cachestruct/lfu/lfu.go:56-70 | The entries after Add and before eviction are the old keys plus `key`, every other entry unchanged. `key` holds the new value. Its priority is the old one plus 1 if it was resident, and 1 if it is new. |
| `Accounting.TouchBytes` | pkg/cachestruct/lfu/lfu.go:57-69 | Before eviction, Add changes the byte total by `value.Len() - old.Len()` for a resident key, and by `len(key) + value.Len()` for a new key. |
| `Accounting.EvictStep` | pkg/cachestruct/lfu/lfu.go:71-73 | Evicting a least-frequently-used entry and logging it keeps the account of the eviction loop. Every remaining entry is as Add left it. No evicted entry has a higher priority than a remaining one. Each evicted entry is logged once, with its value. The log runs in nondecreasing order of priority. |
| `Accounting.OrderStep` | pkg/cachestruct/lfu/lfu.go:71-73 | The entry evicted next has no lower priority than any entry evicted before it. |
| `Accounting.LogStep` | pkg/cachestruct/lfu/lfu.go:51-53 | Appending the entry that leaves the map to the log keeps the log equal to the entries gone, one record each, with their values. |
| `HeapOrder.RootIsLeast` | pkg/cachestruct/lfu/lfu.go:90-93 | In a heap ordered by `Less`, no slot holds a lower priority than the root. |
| `HeapOrder.UpStep` | pkg/cachestruct/lfu/lfu.go:68 | One sift-up swap with a larger parent moves the only out-of-order slot one level up. |
| `HeapOrder.DownStep` | pkg/cachestruct/lfu/lfu.go:48 | One sift-down swap with the smaller, and smaller still, child moves the only out-of-order slot one level down. |
| `HeapOrder.RaiseKeepsOrder` | pkg/cachestruct/lfu/lfu.go:81-82 | Raising the priority in one slot of a heap leaves it out of order only below that slot. |
| `HeapOrder.SwapLastToRoot` | pkg/cachestruct/lfu/lfu.go:48 | Moving the last slot to the root leaves the rest of the heap out of order only below the root. |
| `Slots.SwapLinks` | pkg/cachestruct/lfu/lfu.go:95-99 | Swapping two slots and recording both new slots keeps every `pq[i].index == i` and the same keys in the heap. The priorities in the slots are swapped accordingly. |
| `Slots.PushLinks` | pkg/cachestruct/lfu/lfu.go:101-106 | Recording `index = len(pq)` and appending keeps every slot's index right. The heap gains exactly that key, and the new last priority is that entry's. |
| `Slots.PopLinks` | pkg/cachestruct/lfu/lfu.go:108-115 | Dropping the last slot and marking its key with -1 keeps the other keys' indices right. The remaining priorities are a prefix of the old ones. |
| `Slots.NonemptyHeap` | pkg/cachestruct/lfu/lfu.go:44-48 | When the heap holds exactly the map's keys, a nonempty map means a nonempty heap, so the heap pop after the `len(c.cache) == 0` guard is safe. |
| `Slots.RootIsLeastFrequent` | pkg/cachestruct/lfu/lfu.go:90-93 | The key at the root of the ordered heap is a resident entry of minimum priority among all resident entries. |
| `Slots.UsedPriorities` | pkg/cachestruct/lfu/lfu.go:80-83 | `ent.priority++` leaves the heap ordered except below that entry's slot, which is what heap.Fix needs. |
| `Slots.SamePriorities` | pkg/cachestruct/lfu/lfu.go:59 | A map change that keeps every heap key's priority, such as `ent.value = value`, keeps the heap's priorities. |
| `Slots.ReplaceCoherent` | pkg/cachestruct/lfu/lfu.go:57-59 | Replacing a resident value and charging the length difference keeps the cache's invariant. |
| `Slots.UsedCoherent` | pkg/cachestruct/lfu/lfu.go:80-82 | After `ent.priority++` everything in the invariant holds except heap order below the entry's slot. |
| `Slots.InsertOrdered` | pkg/cachestruct/lfu/lfu.go:62-67 | A new entry placed in the map, and not yet in the heap, leaves the heap linked and ordered. |
| `Slots.InsertCoherent` | pkg/cachestruct/lfu/lfu.go:62-69 | After heap.Push and `nbytes += len(key) + value.Len()`, the invariant holds with the new entry resident. |
| `Slots.DeleteCoherent` | pkg/cachestruct/lfu/lfu.go:48-50 | Deleting the popped entry from the map and subtracting its cost restores the invariant. |
| `Slots.LinkedSize` | pkg/cachestruct/lfu/lfu.go:76-78 | A heap whose slots and indices agree has exactly one slot per indexed key. |
| `Lfu.NegativeBudgetNeverSettles` | pkg/cachestruct/lfu/lfu.go:71-73 | With a negative budget, the eviction loop's condition holds for every cache content, the empty cache included. |
| `Lfu.Cache.constructor` | pkg/cachestruct/lfu/lfu.go:27-33 | New gives an empty cache with the given budget and hook, `nbytes == 0` and nothing evicted. The invariant holds. |
| `Lfu.Cache.SetOnEvicted` | pkg/cachestruct/lfu/lfu.go:15-16 | Assigning the exported `OnEvicted` field sets or clears the hook for later evictions. Nothing else changes, and the invariant is kept. |
| `Lfu.Cache.Len` | pkg/cachestruct/lfu/lfu.go:76-78 | The number of map entries equals the length of the heap. |
| `Lfu.Cache.Get` | pkg/cachestruct/lfu/lfu.go:35-42 | Absent key: not found; map, heap and index unchanged; nbytes and the eviction log untouched. Present key: the stored value is returned, exactly that entry's priority rises by 1 (`Used`), and nothing is evicted. The invariant is kept. |
| `Lfu.Cache.RemoveOldest` | pkg/cachestruct/lfu/lfu.go:44-54 | Empty cache: nothing changes. Otherwise exactly one entry of least priority is deleted, its cost is subtracted, and the hook, if set, gets its key and value once. The invariant is kept. |
| `Lfu.Cache.Add` | pkg/cachestruct/lfu/lfu.go:56-74 | Add terminates. Afterwards the budget holds: `maxBytes == 0` or `nbytes <= maxBytes`. What remains is `Touch` minus entries none of which outranks a remaining one, logged once each, in nondecreasing order of priority, and reported to the hook in that order. Nothing is evicted if `Touch` fits the budget. Eviction stops as soon as the budget holds: the total was still over budget just before the last eviction (`StoppedInTime`). The invariant is kept. |
| `Lfu.Cache.Evict` | pkg/cachestruct/lfu/lfu.go:71-73 | One turn of the eviction loop, taken while over budget, removes exactly one least-frequently-used key and subtracts its cost. The log becomes the old log plus that entry with its value, and the hook's record grows by the same entry. The eviction account is kept, and this eviction was needed. The invariant is kept. |
| `Lfu.Cache.Store` | pkg/cachestruct/lfu/lfu.go:57-70 | The map becomes `Touch(old map, key, value)`. `nbytes` changes by `value.Len() - old.Len()` for a resident key, or by `len(key) + value.Len()` for a new one. The invariant is kept. |
| `Lfu.Cache.IncrementPriority` | pkg/cachestruct/lfu/lfu.go:80-83 | The map becomes `Used(old map, key)`, and the heap is reordered so that the invariant holds again. |
| `Lfu.Cache.Less` | pkg/cachestruct/lfu/lfu.go:90-93 | True exactly when slot i's entry has a lower priority than slot j's. |
| `Lfu.Cache.Swap` | pkg/cachestruct/lfu/lfu.go:95-99 | The two slots are exchanged, and every slot's recorded index stays its own slot. |
| `Lfu.Cache.PushLast` | pkg/cachestruct/lfu/lfu.go:101-106 | The key is appended with `index = old length`, and the slots and indices still agree. |
| `Lfu.Cache.PopLast` | pkg/cachestruct/lfu/lfu.go:108-115 | The last slot's key is returned with its index set to -1. The slice shrinks by one, and the other keys stay linked. |
| `Lfu.Cache.HeapPush` | pkg/cachestruct/lfu/lfu.go:68 | heap.Push: the heap gains exactly the new key and stays linked and ordered. |
| `Lfu.Cache.HeapPop` | pkg/cachestruct/lfu/lfu.go:48 | heap.Pop returns a key of least priority among the resident entries, marked -1. The rest stay linked and ordered. |
| `Lfu.Cache.RootToLast` | pkg/cachestruct/lfu/lfu.go:48 | heap.Pop's swap-and-sift-down puts the old root in the last slot and leaves the other slots ordered. |
| `Lfu.Cache.Fix` | pkg/cachestruct/lfu/lfu.go:82 | After a priority rise in slot i, heap.Fix restores heap order, keeping the same keys linked. |
| `Lfu.Cache.Up` | pkg/cachestruct/lfu/lfu.go:68 | Sift-up from slot j0 restores heap order when the only disorder is above j0. |
| `Lfu.Cache.Down` | pkg/cachestruct/lfu/lfu.go:82 | Sift-down from slot i0 within the first n slots restores their order and leaves later slots alone. It reports whether it moved: `moved` exactly when the slots changed. |
| `Lfu.Cache.DownOnce` | pkg/cachestruct/lfu/lfu.go:48 | One sift-down step. If the smaller child is strictly smaller, it swaps slot i with that child (`LeastChild` of i, before the swap) and returns the child's slot. Otherwise it changes nothing and stops with the prefix ordered. |

## Left out

- pkg/cache.go, the lock-guarded wrapper with lazy construction, is not part of this model. The cache itself is single-threaded (lfu.go:9).
- container/heap is not part of this model. `HeapPush`, `HeapPop`, `Fix`, `Up` and `Down` are textbook sift-up and sift-down over `Less` and `Swap`. Only their contracts are claimed: a least-priority entry comes out, and the heap stays ordered. Among equal priorities, which entry goes first is not specified.
- Lfu.Cache.Fix: proved only for a slot whose priority went up, the one use lfu.go makes of heap.Fix (line 82).
- Go's `*entry` pointers, shared by the map and the heap, are modelled as an entry value in the map plus a key in the heap. Each entry's `index` field becomes the `index` map. No other alias of an entry exists in lfu.go.
- `entry.index` keeps Go's zero value between `c.cache[key] = ent` and heap.Push (lines 67-68). The model records a slot only when Push sets one.
- `int64` overflow of `nbytes` and `int` overflow of `priority` are not modelled; both are unbounded integers.
- `cache.Value` is a type parameter `V`, and `Value.Len()` is a function `size: V -> nat` fixed at construction.
- The `OnEvicted` callback is foreign code. The model records each call it would receive, `(key, value)`, in the `evicted` log, and `hooked` says whether a hook is set. The exported field may be reassigned at any time, which `SetOnEvicted` models. Which function is called is not modelled, only whether one is.
- `priorityQueue.Len` (line 88) is `|pq|`, used directly.
- Lfu.Cache.Add and Lfu.Cache.RemoveOldest return ghost results (the eviction log, the victim key) that Go's versions do not have. They name what was evicted in the contracts and change nothing.
- Lfu.Cache.constructor: requires `maxBytes >= 0`, which Go's `New` does not check. See Findings.

## Findings

| source | as written | input that shows it | evidently intended | confidence | as-written member | corrected member |
|---|---|---|---|---|---|---|
| pkg/cachestruct/lfu/lfu.go:71-73 | `New` accepts any `int64` budget, and Add loops while `maxBytes != 0 && maxBytes < nbytes`. | `New(-1, nil)`, then `Add("a", v)`: once the cache is empty, `nbytes == 0 > -1` still holds, and `RemoveOldest` changes nothing, so Add never returns. | The budget is non-negative, 0 meaning unlimited, so Add always returns. | high; not executed | `Lfu.NegativeBudgetNeverSettles` | `Lfu.Cache.constructor` |
