/**
 What a read, a write, a purge and a smaller size do to one cache (src/core/caching.js),
 in entries, ages and counters; and that no read ever returns an item older than the ttl
 (`NeverStale`).  Times and ttls are seconds.
 */
module CacheCalls {
  import opened JsMap
  import opened Wrappers

  import opened Cache

  /** A read finds an item if and only if it is there and at most as old as the ttl. */
  lemma AnswersExactly<V>(l: Lane<V>, key: string, now: real, ttl: nat)
    ensures var item := Get(l.entries, key);
            ReadResult(l.entries, key, now, ttl) ==
            if item.Some? && now <= item.value.stamp + ttl as real then Some(item.value.value) else None
  {
  }

  /** It then counts a hit and moves the entry to the end; otherwise it counts a miss, and
      an older entry is gone.  Other keys are not affected. */
  lemma ReadExactly<V>(l: Lane<V>, key: string, now: real, ttl: nat, k: string)
    requires Unique(l.entries)
    ensures var item, after := Get(l.entries, key), AfterRead(l, key, now, ttl);
            after.evictions == l.evictions &&
            if item.Some? && now <= item.value.stamp + ttl as real then
              after.hits == l.hits + 1 && after.misses == l.misses && |after.entries| == |l.entries| > 0 &&
              after.entries[|after.entries| - 1] == (key, item.value) && Get(after.entries, k) == Get(l.entries, k)
            else
              after.hits == l.hits && after.misses == l.misses + 1 &&
              |after.entries| == |l.entries| - (if item.Some? then 1 else 0) &&
              Get(after.entries, k) == if k == key then None else Get(l.entries, k)
  {
    HasIsSome(l.entries, key);
    GetAfterDelete(l.entries, key, k);
    GetAfterDelete(l.entries, key, key);
    if Get(l.entries, key).Some? {
      GetAfterAppend(Delete(l.entries, key), key, Get(l.entries, key).value, k);
    }
  }

  /** A write puts the item last, and counts an eviction exactly when a new key comes to a
      full cache. */
  lemma WriteExactly<V>(l: Lane<V>, key: string, value: V, now: real, capacity: Positive)
    requires Unique(l.entries) && |l.entries| <= capacity
    ensures var after := AfterWrite(l, key, value, now, capacity);
            var evicts := !Has(l.entries, key) && |l.entries| == capacity;
            after.hits == l.hits && after.misses == l.misses &&
            after.evictions == l.evictions + (if evicts then 1 else 0) &&
            |after.entries| == (if evicts || Has(l.entries, key) then |l.entries| else |l.entries| + 1) &&
            after.entries[|after.entries| - 1] == (key, Item(value, now)) &&
            Get(after.entries, key) == Some(Item(value, now))
  {
    GetAfterDelete(l.entries, key, key);
    var others := Delete(l.entries, key);
    GetAfterAppend(if |others| >= capacity then others[1..] else others, key, Item(value, now), key);
  }

  /** A purge leaves exactly the entries that are at most as old as the ttl, in their order,
      and counts nothing. */
  lemma PurgeExactly<V>(l: Lane<V>, now: real, ttl: nat, k: string)
    requires Unique(l.entries)
    ensures var item, after := Get(l.entries, k), Purged(l, now, ttl);
            Get(after.entries, k) == (if item.Some? && now <= item.value.stamp + ttl as real then item else None) &&
            Embeds(after.entries, l.entries) && after == l.(entries := after.entries)
  {
    var keep := (item: Item<V>) => Fresh(item, now, ttl);
    GetAfterFilter(l.entries, keep, k);
    FilterShrinks(l.entries, keep);
  }

  /** A smaller size keeps the entries at the end, and counts those that go. */
  lemma ShrinkExactly<V>(l: Lane<V>, size: nat)
    ensures var after := Shrunk(l, size);
            |after.entries| == (if |l.entries| <= size then |l.entries| else size) &&
            after.entries == l.entries[|l.entries| - |after.entries|..] &&
            after.evictions == l.evictions + |l.entries| - |after.entries| &&
            after.hits == l.hits && after.misses == l.misses
  {
  }

  /** Clearing forgets the counters too; removing a key counts nothing. */
  lemma ClearAndRemoveExactly<V>(l: Lane<V>, now: real, key: string, capacity: Positive, ttl: nat)
    requires Unique(l.entries)
    ensures Step(l, At(now, Clear), capacity, ttl) == Lane([], 0, 0, 0)
    ensures var after := Step(l, At(now, Remove(key)), capacity, ttl);
            !Has(after.entries, key) && after == l.(entries := after.entries)
  {
    GetAfterDelete(l.entries, key, key);
  }

  /** Settings that are missing or zero fall back to 1000 entries and an hour. */
  lemma DefaultsExactly(c: Config)
    ensures c.maxSize > 0 ==> c.Capacity() == c.maxSize
    ensures c.maxSize == 0 ==> c.Capacity() == 1000
    ensures c.ttl > 0 ==> c.Ttl() == c.ttl
    ensures c.ttl == 0 ==> c.Ttl() == 60 * 60
  {
  }

  /** New settings replace those given and leave the others. */
  lemma UpdatedExactly(c: Config, size: Option<int>, ttl: Option<int>)
    requires (size.Some? ==> size.value > 0) && (ttl.Some? ==> ttl.value > 0)
    ensures c.Updated(size, ttl).maxSize == (if size.Some? then size.value else c.maxSize)
    ensures c.Updated(size, ttl).ttl == (if ttl.Some? then ttl.value else c.ttl)
  {
  }

  /** At any size and after any operations: what a read returns is the last write of its
      key, and that is at most as old as the ttl. */
  lemma NeverStale<V>(ops: seq<Timed<V>>, capacity: Positive, ttl: nat, now: real, key: string)
    ensures ReadResult(Run(ops, capacity, ttl).entries, key, now, ttl).Some? ==>
              key in Written(ops) && now - Written(ops)[key].stamp <= ttl as real &&
              ReadResult(Run(ops, capacity, ttl).entries, key, now, ttl) == Some(Written(ops)[key].value)
  {
    Coherent(ops, capacity, ttl);
    AnswersExactly(Run(ops, capacity, ttl), key, now, ttl);
  }
}
