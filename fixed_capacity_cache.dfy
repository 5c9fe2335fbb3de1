/**
 * `FixedCapacityCache`: a key/value cache that holds at most `maxSize`
 * entries and, when a new key would take it over that bound, evicts the
 * least recently used one.
 *
 * Its state is two coupled collections that every operation updates in
 * place: the value table `cache` (a JavaScript `Map`) and the recency queue
 * `keySet` (a JavaScript `Set`, iterated oldest first, newest last). Reading
 * or writing a key moves it to the newest end of `keySet`; eviction takes the
 * oldest one from the front.
 */
module Cache {
  import opened InsertionOrderedSet
  import opened MaxSize

  /** `get`'s result: `None` is the `undefined` a miss returns. */
  datatype Option<T> = None | Some(value: T)

  /**
   * Inserting a new key into a full table and then evicting the oldest key
   * gives the table without the oldest key plus the new entry, and the queue
   * shifted by one with the new key last. A map and sequence identity that
   * exists only to discharge the eviction branch of `Set`.
   */
  lemma EvictedShape<K, V>(table: map<K, V>, keys: seq<K>, key: K, value: V)
    requires keys != [] && keys[0] != key
    ensures table[key := value] - {keys[0]} == (table - {keys[0]})[key := value]
    ensures (keys + [key])[1..] == keys[1..] + [key]
  {
  }

  class FixedCapacityCache<K(==), V> {
    /** The value table. */
    var cache: map<K, V>
    /** The recency queue: each cached key once, least recently used first. */
    var keySet: seq<K>
    /** The capacity, fixed at construction. */
    const maxSize: Capacity

    /**
     * The object invariant: the table and the queue hold the same keys, the
     * queue holds each of them once, the capacity is usable and the number of
     * entries is within it.
     */
    ghost predicate Valid()
      reads this
    {
      Distinct(keySet) &&
      cache.Keys == Elems(keySet) &&
      maxSize.Usable() &&
      !maxSize.Exceeds(|keySet|)
    }

    /**
     * Under the invariant the table has exactly as many entries as the queue,
     * and that number is within the capacity.
     */
    lemma ValidSizes()
      requires Valid()
      ensures |cache| == |keySet| && !maxSize.Exceeds(|cache|)
    {
      DistinctCard(keySet);
    }

    /** The cache holds as many entries as its capacity allows. */
    ghost predicate Full()
      reads this
    {
      maxSize == AtMost(|keySet|)
    }

    /** An empty cache whose capacity is the clamped argument. */
    constructor (requested: MaxSizeArg)
      ensures Valid()
      ensures maxSize == Clamp(requested)
      ensures cache == map[] && keySet == []
    {
      maxSize := Clamp(requested);
      cache := map[];
      keySet := [];
    }

    /**
     * Look `key` up. A miss returns `None` and changes nothing; a hit returns
     * the stored value, leaves the table as it is and makes `key` the most
     * recently used key, every other key keeping its place in the queue.
     */
    method Get(key: K) returns (r: Option<V>)
      requires Valid()
      modifies this
      ensures Valid()
      ensures cache == old(cache)
      ensures key !in old(cache) ==> r == None && keySet == old(keySet)
      ensures key in old(cache) ==>
        r == Some(old(cache)[key]) && keySet == Remove(old(keySet), key) + [key]
    {
      if key !in keySet {
        return None;
      }
      MoveKeyToEnd(key);
      return Some(cache[key]);
    }

    /**
     * Store `value` under `key` and return it.
     *   - An existing key gets the new value and becomes the most recently
     *     used; no other entry changes and nothing is evicted.
     *   - A new key is added as the most recently used; if the cache was full,
     *     exactly one entry leaves it: the least recently used one.
     */
    method Set(key: K, value: V) returns (r: V)
      requires Valid()
      modifies this
      ensures Valid()
      ensures r == value
      ensures key in cache && cache[key] == value
      ensures key in old(cache) ==>
        cache == old(cache)[key := value] &&
        keySet == Remove(old(keySet), key) + [key] &&
        |keySet| == old(|keySet|)
      ensures key !in old(cache) && !old(Full()) ==>
        cache == old(cache)[key := value] &&
        keySet == old(keySet) + [key]
      ensures key !in old(cache) && old(Full()) ==>
        old(keySet) != [] &&
        cache == (old(cache) - {old(keySet)[0]})[key := value] &&
        keySet == old(keySet)[1..] + [key]
    {
      if key in cache {
        cache := cache[key := value];
        MoveKeyToEnd(key);
        return value;
      }

      ExceedsAfterOneMore(maxSize, |keySet|);
      cache := cache[key := value];
      keySet := Add(keySet, key);
      assert keySet == old(keySet) + [key];

      if maxSize.Exceeds(|keySet|) {
        var keyToRemove := keySet[0];
        assert keyToRemove == old(keySet)[0] && keyToRemove != key;
        RemoveOldest(keySet);
        cache := cache - {keyToRemove};
        keySet := Remove(keySet, keyToRemove);
        EvictedShape(old(cache), old(keySet), key, value);
      }

      return value;
    }

    /** Forget `key`; a key that is not cached leaves everything as it was. */
    method Delete(key: K)
      requires Valid()
      modifies this
      ensures Valid()
      ensures cache == old(cache) - {key}
      ensures keySet == Remove(old(keySet), key)
      ensures key !in old(cache) ==> cache == old(cache) && keySet == old(keySet)
      ensures |keySet| == if key in old(cache) then old(|keySet|) - 1 else old(|keySet|)
    {
      cache := cache - {key};
      keySet := Remove(keySet, key);
      RemoveDistinct(old(keySet), key);
    }

    /** The number of cached entries: within the capacity, and the size of the table. */
    method Size() returns (n: nat)
      requires Valid()
      ensures n == |keySet| && n == |cache|
      ensures !maxSize.Exceeds(n)
    {
      ValidSizes();
      n := |keySet|;
    }

    /** Empty both collections; the capacity stays. */
    method Clear()
      requires Valid()
      modifies this
      ensures Valid()
      ensures cache == map[] && keySet == []
    {
      cache := map[];
      keySet := [];
    }

    /**
     * Delete `key` from the queue and add it again, so that it becomes the
     * most recently used key and the others keep their order. Both callers,
     * `Get` and `Set`, pass a key they have just found in the cache.
     */
    method MoveKeyToEnd(key: K)
      requires Distinct(keySet) && key in keySet
      modifies this
      ensures cache == old(cache)
      ensures keySet == Remove(old(keySet), key) + [key]
      ensures Distinct(keySet)
      ensures Elems(keySet) == Elems(old(keySet)) && |keySet| == old(|keySet|)
    {
      MoveToEnd(keySet, key);
      MoveToEndKeepsSet(keySet, key);
      keySet := Remove(keySet, key);
      keySet := Add(keySet, key);
    }
  }
}
