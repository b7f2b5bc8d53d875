/**
 * The resident entries of the LFU cache as a map from key to entry, what they
 * cost in bytes, and how Add and eviction change that map. Everything here is a
 * value; the class in lfu.dfy keeps its map field equal to the map these
 * functions describe.
 */
module Accounting {

  /** A Go string is an immutable sequence of bytes; len(key) counts those bytes. */
  type Key = seq<bv8>

  /**
   * Go's entry without its heap slot: the key, the stored value and the LFU
   * priority (the access-frequency counter). The slot lives in the cache's index map.
   */
  datatype Entry<V> = Entry(key: Key, value: V, priority: int)

  /** Every entry is stored under its own key. */
  ghost predicate Keyed<V>(m: map<Key, Entry<V>>)
  {
    forall k :: k in m ==> m[k].key == k
  }

  /** Bytes charged for one resident entry: len(key) + value.Len(). */
  function Cost<V>(key: Key, value: V, size: V -> nat): nat
  {
    |key| + size(value)
  }

  /** The byte total of a cache whose resident entries are m. */
  ghost function Bytes<V>(m: map<Key, Entry<V>>, size: V -> nat): nat
    decreases m.Keys
  {
    if m == map[] then 0
    else
      var k :| k in m;
      assert (m - {k}).Keys < m.Keys;
      Cost(k, m[k].value, size) + Bytes(m - {k}, size)
  }

  /** Any resident entry can be split off the byte total, whichever key the sum took first. */
  lemma {:induction false} BytesRemove<V>(m: map<Key, Entry<V>>, k: Key, size: V -> nat)
    requires k in m
    ensures Bytes(m, size) == Cost(k, m[k].value, size) + Bytes(m - {k}, size)
    decreases m.Keys
  {
    var j :| j in m && Bytes(m, size) == Cost(j, m[j].value, size) + Bytes(m - {j}, size);
    if j != k {
      assert (m - {j}).Keys < m.Keys;
      assert (m - {k}).Keys < m.Keys;
      BytesRemove(m - {j}, k, size);
      BytesRemove(m - {k}, j, size);
      assert m - {j} - {k} == m - {k} - {j};
    }
  }

  /** Inserting a new key raises the byte total by exactly that entry's cost. */
  lemma BytesInsert<V>(m: map<Key, Entry<V>>, k: Key, e: Entry<V>, size: V -> nat)
    requires k !in m
    ensures Bytes(m[k := e], size) == Bytes(m, size) + Cost(k, e.value, size)
  {
    BytesRemove(m[k := e], k, size);
    assert m[k := e] - {k} == m;
  }

  /** Replacing a resident entry changes the byte total by the difference of the two costs. */
  lemma BytesUpdate<V>(m: map<Key, Entry<V>>, k: Key, e: Entry<V>, size: V -> nat)
    requires k in m
    ensures Bytes(m[k := e], size) == Bytes(m, size) - Cost(k, m[k].value, size) + Cost(k, e.value, size)
  {
    BytesRemove(m, k, size);
    BytesRemove(m[k := e], k, size);
    assert m[k := e] - {k} == m - {k};
  }

  /** One more use of the entry under key: incrementPriority's effect on the map. */
  function Used<V>(m: map<Key, Entry<V>>, key: Key): (r: map<Key, Entry<V>>)
    requires key in m
    ensures r.Keys == m.Keys
    ensures forall k :: k in m && k != key ==> r[k] == m[k]
    ensures r[key].key == m[key].key && r[key].value == m[key].value && r[key].priority == m[key].priority + 1
  {
    m[key := m[key].(priority := m[key].priority + 1)]
  }

  /** Raising one entry's priority leaves the byte total and the keying as they were. */
  lemma UsedKeeps<V>(m: map<Key, Entry<V>>, key: Key, size: V -> nat)
    requires key in m
    ensures Bytes(Used(m, key), size) == Bytes(m, size)
    ensures Keyed(m) ==> Keyed(Used(m, key))
  {
    BytesUpdate(m, key, Used(m, key)[key], size);
  }

  /**
   * The resident entries after Add(key, value) and before any eviction: a resident
   * entry gets the new value and one more use; a new key gets an entry of priority 1.
   */
  function Touch<V>(m: map<Key, Entry<V>>, key: Key, value: V): (r: map<Key, Entry<V>>)
    ensures r.Keys == m.Keys + {key}
    ensures forall k :: k in m && k != key ==> r[k] == m[k]
    ensures r[key].value == value
    ensures r[key].priority == if key in m then m[key].priority + 1 else 1
    ensures Keyed(m) ==> Keyed(r)
  {
    if key in m then Used(m[key := m[key].(value := value)], key)
    else m[key := Entry(key, value, 1)]
  }

  /**
   * Add's byte accounting before eviction: a re-added key is charged the change in
   * value length; a new key is charged its whole cost.
   */
  lemma TouchBytes<V>(m: map<Key, Entry<V>>, key: Key, value: V, size: V -> nat)
    ensures Bytes(Touch(m, key, value), size)
         == if key in m then Bytes(m, size) + size(value) - size(m[key].value)
            else Bytes(m, size) + Cost(key, value, size)
  {
    if key in m {
      var r := m[key := m[key].(value := value)];
      BytesUpdate(m, key, r[key], size);
      UsedKeeps(r, key, size);
    } else {
      BytesInsert(m, key, Entry(key, value, 1), size);
    }
  }

  /** key is resident and no resident entry has a lower priority. */
  ghost predicate LeastFrequent<V>(m: map<Key, Entry<V>>, key: Key)
  {
    key in m && forall k :: k in m ==> m[key].priority <= m[k].priority
  }

  /**
   * log records the entries of before that are gone from after: each of them
   * exactly once, with the value it held.
   */
  ghost predicate Logged<V>(before: map<Key, Entry<V>>, after: map<Key, Entry<V>>, log: seq<(Key, V)>)
  {
    && |log| == |before.Keys - after.Keys|
    && (forall i :: 0 <= i < |log| ==> Gone(before, after, log[i]))
    && (forall i, j :: 0 <= i < j < |log| ==> log[i].0 != log[j].0)
  }

  /** The logged pair x is an entry of before, with the value it held there, that after no longer holds. */
  ghost predicate Gone<V>(before: map<Key, Entry<V>>, after: map<Key, Entry<V>>, x: (Key, V))
  {
    x.0 in before && x.0 !in after && x.1 == before[x.0].value
  }

  /**
   * c is what is left of t after evicting, in order, the entries in log: every
   * remaining entry as it was in t, no evicted entry more frequently used than a
   * remaining one, each evicted entry recorded once with its value, and the log
   * in order of priority.
   */
  ghost predicate Shrunk<V>(t: map<Key, Entry<V>>, c: map<Key, Entry<V>>, log: seq<(Key, V)>)
  {
    && (forall k :: k in c ==> k in t && c[k] == t[k])
    && (forall k, j :: k in t && k !in c && j in c ==> t[k].priority <= t[j].priority)
    && Logged(t, c, log)
    && InOrder(t, log)
  }

  /** No logged entry had a higher priority in t than one logged after it. */
  ghost predicate InOrder<V>(t: map<Key, Entry<V>>, log: seq<(Key, V)>)
  {
    forall i, j :: 0 <= i < j < |log| && log[i].0 in t && log[j].0 in t ==> t[log[i].0].priority <= t[log[j].0].priority
  }

  /** Nothing evicted yet. */
  lemma ShrunkStart<V>(t: map<Key, Entry<V>>)
    ensures Shrunk(t, t, [])
  {
    assert t.Keys - t.Keys == {};
  }

  /** One eviction of a least frequently used entry, recorded at the end of the log, keeps the account. */
  lemma EvictStep<V>(t: map<Key, Entry<V>>, c: map<Key, Entry<V>>, log: seq<(Key, V)>, k: Key, c1: map<Key, Entry<V>>)
    requires Shrunk(t, c, log) && LeastFrequent(c, k) && c1 == c - {k}
    ensures Shrunk(t, c1, log + [(k, c[k].value)])
  {
    forall j, i | j in t && j !in c1 && i in c1
      ensures t[j].priority <= t[i].priority
    {
      if j == k {
        assert c[k].priority <= c[i].priority;
      }
    }
    LogStep(t, c, log, k, c1);
    OrderStep(t, c, log, k);
  }

  /** The entry evicted next has no lower priority than any evicted before it, which all had left c. */
  lemma OrderStep<V>(t: map<Key, Entry<V>>, c: map<Key, Entry<V>>, log: seq<(Key, V)>, k: Key)
    requires InOrder(t, log) && k in c && forall j :: j in c ==> j in t
    requires forall i :: 0 <= i < |log| ==> Gone(t, c, log[i])
    requires forall j, i :: j in t && j !in c && i in c ==> t[j].priority <= t[i].priority
    ensures InOrder(t, log + [(k, c[k].value)])
  {
    var log1 := log + [(k, c[k].value)];
    forall i, j | 0 <= i < j < |log1| && log1[i].0 in t && log1[j].0 in t
      ensures t[log1[i].0].priority <= t[log1[j].0].priority
    {
      assert log1[i] == log[i] && Gone(t, c, log[i]);
      if j < |log| {
        assert log1[j] == log[j];
      }
    }
  }

  /** Logging the one entry that leaves c keeps the log of what has left t. */
  lemma LogStep<V>(t: map<Key, Entry<V>>, c: map<Key, Entry<V>>, log: seq<(Key, V)>, k: Key, c1: map<Key, Entry<V>>)
    requires Logged(t, c, log) && k in c && c1 == c - {k}
    requires forall j :: j in c ==> j in t && c[j] == t[j]
    ensures Logged(t, c1, log + [(k, c[k].value)])
  {
    GoneOneMore(t, c, k, c1);
    LogStepGone(t, c, log, k, c1);
    LogStepDistinct(t, c, log, k);
  }

  /** Removing a key of c from c adds exactly one key to those t has lost. */
  lemma GoneOneMore<V>(t: map<Key, Entry<V>>, c: map<Key, Entry<V>>, k: Key, c1: map<Key, Entry<V>>)
    requires k in c && k in t && c1 == c - {k}
    ensures |t.Keys - c1.Keys| == |t.Keys - c.Keys| + 1
  {
    var gone := t.Keys - c.Keys;
    assert t.Keys - c1.Keys == gone + {k};
    assert |gone + {k}| == |gone| + 1;
  }

  /** Each pair of the longer log is gone from c1. */
  lemma LogStepGone<V>(t: map<Key, Entry<V>>, c: map<Key, Entry<V>>, log: seq<(Key, V)>, k: Key, c1: map<Key, Entry<V>>)
    requires forall i :: 0 <= i < |log| ==> Gone(t, c, log[i])
    requires k in c && c1 == c - {k} && k in t && c[k] == t[k]
    ensures forall i :: 0 <= i < |log| + 1 ==> Gone(t, c1, (log + [(k, c[k].value)])[i])
  {
    var log1 := log + [(k, c[k].value)];
    forall i | 0 <= i < |log1|
      ensures Gone(t, c1, log1[i])
    {
      if i < |log| {
        assert log1[i] == log[i] && Gone(t, c, log[i]);
      }
    }
  }

  /** The key of the entry that leaves c is not yet in the log, so the longer log names each key once. */
  lemma LogStepDistinct<V>(t: map<Key, Entry<V>>, c: map<Key, Entry<V>>, log: seq<(Key, V)>, k: Key)
    requires forall i :: 0 <= i < |log| ==> Gone(t, c, log[i])
    requires forall i, j :: 0 <= i < j < |log| ==> log[i].0 != log[j].0
    requires k in c
    ensures forall i, j :: 0 <= i < j < |log| + 1 ==> (log + [(k, c[k].value)])[i].0 != (log + [(k, c[k].value)])[j].0
  {
    var log1 := log + [(k, c[k].value)];
    forall i, j | 0 <= i < j < |log1|
      ensures log1[i].0 != log1[j].0
    {
      assert log1[i] == log[i] && Gone(t, c, log[i]);
      if j < |log| {
        assert log1[j] == log[j];
      }
    }
  }

}
