/**
 The LRU cache with time-to-live (src/core/caching.js).

 The functions on `Lane` say what one operation does to one cache type; the class holds
 the JavaScript object's fields.  The main results compare two capacities on the same
 operations (`Inclusion`, `HitInclusion`, `CountersCompare`), relate the cache to a plain
 map (`Coherent`, `ExactWhenLargeEnough`), and identify the evicted key
 (`EvictsLeastRecentlyTouched`).  Times are seconds, as the source's `Date.now() / 1000`.
 */
module Cache {
  import opened Wrappers
  import opened JsMap
  import opened Sets

  datatype Item<V> = Item(value: V, stamp: real)

  type Entries<V> = Map<string, Item<V>>

  type Positive = n: nat | n > 0 witness 1

  datatype Lane<V> = Lane(entries: Entries<V>, hits: nat, misses: nat, evictions: nat)

  datatype Op<V> = Read(key: string) | Write(key: string, value: V) | Remove(key: string) | Clear | Purge

  datatype Timed<V> = At(now: real, op: Op<V>)

  // ---------- one operation on one cache type ----------

  predicate Fresh<V>(item: Item<V>, now: real, ttl: nat) {
    now - item.stamp <= ttl as real
  }

  function ReadResult<V>(entries: Entries<V>, key: string, now: real, ttl: nat): Option<V> {
    var found := Get(entries, key);
    if found.Some? && Fresh(found.value, now, ttl) then Some(found.value.value) else None
  }

  function AfterRead<V>(l: Lane<V>, key: string, now: real, ttl: nat): Lane<V> {
    var found := Get(l.entries, key);
    if found.None? then
      l.(misses := l.misses + 1)
    else if Fresh(found.value, now, ttl) then
      l.(entries := Delete(l.entries, key) + [(key, found.value)], hits := l.hits + 1)
    else
      l.(entries := Delete(l.entries, key), misses := l.misses + 1)
  }

  function AfterWrite<V>(l: Lane<V>, key: string, value: V, now: real, capacity: Positive): Lane<V>
  {
    var others := Delete(l.entries, key);
    var kept := if |others| >= capacity then others[1..] else others;
    l.(entries := kept + [(key, Item(value, now))],
       evictions := l.evictions + if |others| >= capacity then 1 else 0)
  }

  function Purged<V>(l: Lane<V>, now: real, ttl: nat): Lane<V> {
    l.(entries := Filter(l.entries, item => Fresh(item, now, ttl)))
  }

  function Step<V>(l: Lane<V>, t: Timed<V>, capacity: Positive, ttl: nat): Lane<V>
  {
    match t.op
    case Read(key) => AfterRead(l, key, t.now, ttl)
    case Write(key, value) => AfterWrite(l, key, value, t.now, capacity)
    case Remove(key) => l.(entries := Delete(l.entries, key))
    case Clear => Lane([], 0, 0, 0)
    case Purge => Purged(l, t.now, ttl)
  }

  function Run<V>(ops: seq<Timed<V>>, capacity: Positive, ttl: nat): Lane<V>
  {
    if ops == [] then Lane([], 0, 0, 0)
    else Step(Run(ops[..|ops| - 1], capacity, ttl), ops[|ops| - 1], capacity, ttl)
  }

  lemma StepKeepsUnique<V>(l: Lane<V>, t: Timed<V>, capacity: Positive, ttl: nat)
    requires Unique(l.entries) && |l.entries| <= capacity
    ensures var after := Step(l, t, capacity, ttl);
            Unique(after.entries) && |after.entries| <= capacity
  {
    match t.op
    case Read(key) =>
      GetAfterDelete(l.entries, key, key);
      HasIsSome(l.entries, key);
      if Get(l.entries, key).Some? {
        GetAfterAppend(Delete(l.entries, key), key, Get(l.entries, key).value, key);
      }
    case Write(key, value) =>
      GetAfterDelete(l.entries, key, key);
      var others := Delete(l.entries, key);
      var kept := if |others| >= capacity then others[1..] else others;
      GetAfterAppend(kept, key, Item(value, t.now), key);
    case Remove(key) =>
      GetAfterDelete(l.entries, key, key);
    case Clear =>
    case Purge =>
      var keep := item => Fresh(item, t.now, ttl);
      GetAfterFilter(l.entries, keep, "");
      FilterShrinks(l.entries, keep);
  }

  lemma {:induction false} FilterShrinks<V>(m: Entries<V>, keep: Item<V> -> bool)
    ensures |Filter(m, keep)| <= |m|
    ensures Embeds(Filter(m, keep), m)
  {
    if m != [] {
      FilterShrinks(m[1..], keep);
      if keep(m[0].1) {
        assert Filter(m, keep)[1..] == Filter(m[1..], keep);
      }
    }
  }

  lemma {:induction false} RunKeepsUnique<V>(ops: seq<Timed<V>>, capacity: Positive, ttl: nat)
    ensures Unique(Run(ops, capacity, ttl).entries) && |Run(ops, capacity, ttl).entries| <= capacity
  {
    if ops != [] {
      RunKeepsUnique(ops[..|ops| - 1], capacity, ttl);
      StepKeepsUnique(Run(ops[..|ops| - 1], capacity, ttl), ops[|ops| - 1], capacity, ttl);
    }
  }

  // ---------- two capacities ----------

  ghost predicate Fits<V>(l: Lane<V>, capacity: nat) {
    Unique(l.entries) && |l.entries| <= capacity
  }

  /** An order-preserving part, which lacks at most the difference of the capacities. */
  ghost predicate Included<V>(small: Lane<V>, large: Lane<V>, n: nat, m: nat) {
    Embeds(small.entries, large.entries) && |large.entries| - |small.entries| <= m - n
  }

  lemma DeleteIncluded<V>(small: Lane<V>, large: Lane<V>, n: nat, m: nat, key: string)
    requires Fits(small, n) && Fits(large, m) && Included(small, large, n, m)
    ensures Included(small.(entries := Delete(small.entries, key)), large.(entries := Delete(large.entries, key)), n, m)
  {
    GetAfterDelete(small.entries, key, key);
    GetAfterDelete(large.entries, key, key);
    EmbedsDelete(small.entries, large.entries, key);
    EmbedsGet(small.entries, large.entries, key);
  }

  lemma ReadIncluded<V>(small: Lane<V>, large: Lane<V>, key: string, now: real, n: nat, m: nat, ttl: nat)
    requires 0 < n <= m && Fits(small, n) && Fits(large, m) && Included(small, large, n, m)
    ensures Included(AfterRead(small, key, now, ttl), AfterRead(large, key, now, ttl), n, m)
  {
    var s, l := small.entries, large.entries;
    HasIsSome(s, key);
    HasIsSome(l, key);
    EmbedsGet(s, l, key);
    DeleteIncluded(small, large, n, m, key);
    GetAfterDelete(s, key, key);
    GetAfterDelete(l, key, key);
    if Has(l, key) {
      EmbedsAppend(Delete(s, key), Delete(l, key), (key, Get(l, key).value));
    }
    if !Has(s, key) {
      DeleteAbsent(s, key);
    }
  }

  lemma WriteIncluded<V>(small: Lane<V>, large: Lane<V>, key: string, value: V, now: real, n: nat, m: nat, ttl: nat)
    requires 0 < n <= m && Fits(small, n) && Fits(large, m) && Included(small, large, n, m)
    ensures Included(AfterWrite(small, key, value, now, n), AfterWrite(large, key, value, now, m), n, m)
  {
    var s, l := Delete(small.entries, key), Delete(large.entries, key);
    DeleteIncluded(small, large, n, m, key);
    GetAfterDelete(small.entries, key, key);
    GetAfterDelete(large.entries, key, key);
    if |s| >= n {
      EmbedsTail(s, l);
    }
    var s' := if |s| >= n then s[1..] else s;
    var l' := if |l| >= m then l[1..] else l;
    EmbedsAppend(s', l', (key, Item(value, now)));
  }

  lemma StepIncluded<V>(small: Lane<V>, large: Lane<V>, t: Timed<V>, n: nat, m: nat, ttl: nat)
    requires 0 < n <= m && Fits(small, n) && Fits(large, m) && Included(small, large, n, m)
    ensures Included(Step(small, t, n, ttl), Step(large, t, m, ttl), n, m)
  {
    match t.op
    case Read(key) => ReadIncluded(small, large, key, t.now, n, m, ttl);
    case Write(key, value) => WriteIncluded(small, large, key, value, t.now, n, m, ttl);
    case Remove(key) => DeleteIncluded(small, large, n, m, key);
    case Clear =>
    case Purge =>
      EmbedsFilter(small.entries, large.entries, item => Fresh(item, t.now, ttl));
  }

  /** On the same operations, a smaller cache holds an order-preserving part of what a
      larger one holds, with equal values and time stamps. */
  lemma {:induction false} Inclusion<V>(ops: seq<Timed<V>>, n: nat, m: nat, ttl: nat)
    requires 0 < n <= m
    ensures Included(Run(ops, n, ttl), Run(ops, m, ttl), n, m)
  {
    if ops != [] {
      var init := ops[..|ops| - 1];
      Inclusion(init, n, m, ttl);
      RunKeepsUnique(init, n, ttl);
      RunKeepsUnique(init, m, ttl);
      StepIncluded(Run(init, n, ttl), Run(init, m, ttl), ops[|ops| - 1], n, m, ttl);
    }
  }

  /** What the smaller cache answers, the larger one answers too. */
  lemma HitInclusion<V>(ops: seq<Timed<V>>, key: string, now: real, n: nat, m: nat, ttl: nat)
    requires 0 < n <= m
    ensures var small := ReadResult(Run(ops, n, ttl).entries, key, now, ttl);
            small.Some? ==> ReadResult(Run(ops, m, ttl).entries, key, now, ttl) == small
  {
    Inclusion(ops, n, m, ttl);
    RunKeepsUnique(ops, m, ttl);
    EmbedsGet(Run(ops, n, ttl).entries, Run(ops, m, ttl).entries, key);
    HasIsSome(Run(ops, n, ttl).entries, key);
  }

  /** The larger cache counts at least as many hits, of the same number of reads. */
  lemma {:induction false} CountersCompare<V>(ops: seq<Timed<V>>, n: nat, m: nat, ttl: nat)
    requires 0 < n <= m
    ensures var small, large := Run(ops, n, ttl), Run(ops, m, ttl);
            small.hits <= large.hits && small.hits + small.misses == large.hits + large.misses
  {
    if ops != [] {
      var init, last := ops[..|ops| - 1], ops[|ops| - 1];
      CountersCompare(init, n, m, ttl);
      if last.op.Read? {
        HitInclusion(init, last.op.key, last.now, n, m, ttl);
      }
    }
  }

  // ---------- against a plain map ----------

  /** The last write per key that was neither removed nor cleared since. */
  function Written<V>(ops: seq<Timed<V>>): map<string, Item<V>> {
    if ops == [] then map[]
    else
      var before, t := Written(ops[..|ops| - 1]), ops[|ops| - 1];
      match t.op
      case Write(key, value) => before[key := Item(value, t.now)]
      case Remove(key) => before - {key}
      case Clear => map[]
      case _ => before
  }

  ghost predicate AgreesWith<V>(entries: Entries<V>, m: map<string, Item<V>>) {
    forall k :: Get(entries, k).Some? ==> k in m && m[k] == Get(entries, k).value
  }

  /** How one step changes the answer for a key. */
  lemma StepGet<V>(l: Lane<V>, t: Timed<V>, k: string, capacity: Positive, ttl: nat)
    requires Unique(l.entries)
    ensures var before, after := Get(l.entries, k), Get(Step(l, t, capacity, ttl).entries, k);
            match t.op
            case Write(key, value) =>
              if k == key then after == Some(Item(value, t.now))
              else after == before || (after == None && |Delete(l.entries, key)| >= capacity)
            case Remove(key) => after == if k == key then None else before
            case Clear => after == None
            case Read(key) =>
              after == if k == key && before.Some? && t.now - before.value.stamp > ttl as real then None else before
            case Purge => after == if before.Some? && t.now - before.value.stamp > ttl as real then None else before
  {
    match t.op
    case Read(key) =>
      GetAfterDelete(l.entries, key, k);
      GetAfterDelete(l.entries, key, key);
      if Get(l.entries, key).Some? {
        GetAfterAppend(Delete(l.entries, key), key, Get(l.entries, key).value, k);
      }
    case Write(key, value) =>
      GetAfterDelete(l.entries, key, k);
      GetAfterDelete(l.entries, key, key);
      var others := Delete(l.entries, key);
      if |others| >= capacity {
        HasIsSome(others[1..], others[0].0);
        GetAfterAppend(others[1..], key, Item(value, t.now), k);
      } else {
        GetAfterAppend(others, key, Item(value, t.now), k);
      }
    case Remove(key) => GetAfterDelete(l.entries, key, k);
    case Clear =>
    case Purge => GetAfterFilter(l.entries, item => Fresh(item, t.now, ttl), k);
  }

  /** Whatever the cache holds is what was last written. */
  lemma {:induction false} Coherent<V>(ops: seq<Timed<V>>, capacity: Positive, ttl: nat)
    ensures AgreesWith(Run(ops, capacity, ttl).entries, Written(ops))
  {
    if ops != [] {
      var init, last := ops[..|ops| - 1], ops[|ops| - 1];
      Coherent(init, capacity, ttl);
      RunKeepsUnique(init, capacity, ttl);
      forall k | Get(Run(ops, capacity, ttl).entries, k).Some?
        ensures k in Written(ops) && Written(ops)[k] == Get(Run(ops, capacity, ttl).entries, k).value
      {
        StepGet(Run(init, capacity, ttl), last, k, capacity, ttl);
      }
    }
  }

  ghost function KeysWritten<V>(ops: seq<Timed<V>>): set<string> {
    set t | t in ops && t.op.Write? :: t.op.key
  }

  ghost predicate TimesAscend<V>(ops: seq<Timed<V>>) {
    forall i, j :: 0 <= i < j < |ops| ==> ops[i].now <= ops[j].now
  }

  lemma {:induction false} EntriesWereWritten<V>(ops: seq<Timed<V>>, capacity: Positive, ttl: nat)
    ensures Keys(Run(ops, capacity, ttl).entries) <= KeysWritten(ops)
  {
    Coherent(ops, capacity, ttl);
    WrittenKeys(ops);
    forall k | k in Keys(Run(ops, capacity, ttl).entries)
      ensures k in KeysWritten(ops)
    {
      HasIsSome(Run(ops, capacity, ttl).entries, k);
    }
  }

  lemma {:induction false} WrittenKeys<V>(ops: seq<Timed<V>>)
    ensures Written(ops).Keys <= KeysWritten(ops)
  {
    if ops != [] {
      WrittenKeys(ops[..|ops| - 1]);
      var last := ops[|ops| - 1];
      if last.op.Write? {
        assert last in ops;
      }
    }
  }

  /** With room for every key ever written, no last write of at most the ttl's age is lost. */
  lemma {:induction false} NothingLost<V>(ops: seq<Timed<V>>, capacity: Positive, ttl: nat, now: real, k: string)
    requires |KeysWritten(ops)| <= capacity
    requires TimesAscend(ops) && (ops != [] ==> ops[|ops| - 1].now <= now)
    requires k in Written(ops) && now - Written(ops)[k].stamp <= ttl as real
    ensures Get(Run(ops, capacity, ttl).entries, k) == Some(Written(ops)[k])
  {
    var init, last := ops[..|ops| - 1], ops[|ops| - 1];
    var l := Run(init, capacity, ttl);
    RunKeepsUnique(init, capacity, ttl);
    assert KeysWritten(init) <= KeysWritten(ops);
    SubsetSize(KeysWritten(init), KeysWritten(ops));
    StepGet(l, last, k, capacity, ttl);
    if !(last.op.Write? && last.op.key == k) {
      NothingLost(init, capacity, ttl, last.now, k);
      if last.op.Write? {
        RoomForOne(ops, capacity, ttl);
      }
    }
  }

  lemma RoomForOne<V>(ops: seq<Timed<V>>, capacity: Positive, ttl: nat)
    requires ops != [] && ops[|ops| - 1].op.Write? && |KeysWritten(ops)| <= capacity
    ensures |Delete(Run(ops[..|ops| - 1], capacity, ttl).entries, ops[|ops| - 1].op.key)| < capacity
  {
    var init, key := ops[..|ops| - 1], ops[|ops| - 1].op.key;
    var others := Delete(Run(init, capacity, ttl).entries, key);
    RunKeepsUnique(init, capacity, ttl);
    EntriesWereWritten(init, capacity, ttl);
    GetAfterDelete(Run(init, capacity, ttl).entries, key, key);
    KeyCount(others);
    forall x | x in Keys(others)
      ensures x in KeysWritten(ops) - {key}
    {
      GetAfterDelete(Run(init, capacity, ttl).entries, key, x);
      assert x in Keys(Run(init, capacity, ttl).entries);
    }
    assert ops[|ops| - 1] in ops && key in KeysWritten(ops);
    SubsetSize(Keys(others), KeysWritten(ops) - {key});
  }

  /** Such a cache is a plain map whose entries expire: a read returns the last write of its
      key if and only if that is at most as old as the ttl. */
  lemma ExactWhenLargeEnough<V>(ops: seq<Timed<V>>, capacity: Positive, ttl: nat, now: real, k: string)
    requires |KeysWritten(ops)| <= capacity
    requires TimesAscend(ops) && (ops != [] ==> ops[|ops| - 1].now <= now)
    ensures ReadResult(Run(ops, capacity, ttl).entries, k, now, ttl)
         == if k in Written(ops) && now - Written(ops)[k].stamp <= ttl as real
            then Some(Written(ops)[k].value) else None
  {
    Coherent(ops, capacity, ttl);
    if k in Written(ops) && now - Written(ops)[k].stamp <= ttl as real {
      NothingLost(ops, capacity, ttl, now, k);
    }
  }

  // ---------- what is evicted ----------

  predicate Touches<V>(l: Lane<V>, t: Timed<V>, key: string, ttl: nat) {
    match t.op
    case Write(k, _) => k == key
    case Read(k) => k == key && ReadResult(l.entries, k, t.now, ttl).Some?
    case _ => false
  }

  /** The position of the last operation that wrote the key or read it successfully. */
  function LastTouch<V>(ops: seq<Timed<V>>, capacity: Positive, ttl: nat, key: string): (n: nat)
    ensures n <= |ops|
  {
    if ops == [] then 0
    else
      var init := ops[..|ops| - 1];
      if Touches(Run(init, capacity, ttl), ops[|ops| - 1], key, ttl) then |ops|
      else LastTouch(init, capacity, ttl, key)
  }

  function Recency<V>(ops: seq<Timed<V>>, capacity: Positive, ttl: nat): string -> int
  {
    k => LastTouch(ops, capacity, ttl, k)
  }

  ghost predicate Ascends<V>(m: Entries<V>, rank: string -> int) {
    m != [] ==> (forall k :: Has(m[1..], k) ==> rank(m[0].0) < rank(k)) && Ascends(m[1..], rank)
  }

  lemma {:induction false} AscendsPart<V>(s: Entries<V>, l: Entries<V>, rank: string -> int)
    requires Embeds(s, l) && Unique(l) && Ascends(l, rank)
    ensures Ascends(s, rank)
    decreases |l|
  {
    if s != [] {
      if s[0] == l[0] && Embeds(s[1..], l[1..]) {
        AscendsPart(s[1..], l[1..], rank);
        forall k | Has(s[1..], k)
          ensures rank(s[0].0) < rank(k)
        {
          EmbedsGet(s[1..], l[1..], k);
        }
      } else {
        AscendsPart(s, l[1..], rank);
      }
    }
  }

  lemma {:induction false} AscendsAppend<V>(m: Entries<V>, key: string, item: Item<V>, rank: string -> int,
                                            rank': string -> int)
    requires Unique(m) && !Has(m, key) && Ascends(m, rank)
    requires forall k :: Has(m, k) ==> rank'(k) == rank(k) < rank'(key)
    ensures Ascends(m + [(key, item)], rank')
  {
    if m != [] {
      assert (m + [(key, item)])[1..] == m[1..] + [(key, item)];
      AscendsAppend(m[1..], key, item, rank, rank');
      forall k | Has(m[1..] + [(key, item)], k)
        ensures rank'(m[0].0) < rank'(k)
      {
        GetAfterAppend(m[1..], key, item, k);
      }
    }
  }

  lemma {:induction false} AscendsSame<V>(m: Entries<V>, rank: string -> int, rank': string -> int)
    requires Ascends(m, rank) && forall k :: Has(m, k) ==> rank'(k) == rank(k)
    ensures Ascends(m, rank')
  {
    if m != [] {
      AscendsSame(m[1..], rank, rank');
    }
  }

  lemma {:induction false} DeleteEmbeds<V>(m: Entries<V>, key: string)
    ensures Embeds(Delete(m, key), m)
  {
    EmbedsSelf(m);
    if m != [] {
      if m[0].0 == key {
        EmbedsSelf(m[1..]);
      } else {
        DeleteEmbeds(m[1..], key);
        assert Delete(m, key)[1..] == Delete(m[1..], key);
      }
    }
  }

  lemma {:induction false} EmbedsSelf<T>(s: seq<T>)
    ensures Embeds(s, s)
  {
    if s != [] {
      EmbedsSelf(s[1..]);
    }
  }

  /** What one step leaves, apart from an entry moved or added at the end. */
  function Kept<V>(l: Lane<V>, t: Timed<V>, capacity: Positive, ttl: nat): Entries<V>
  {
    match t.op
    case Read(key) => if Get(l.entries, key).Some? then Delete(l.entries, key) else l.entries
    case Write(key, _) =>
      var others := Delete(l.entries, key);
      if |others| >= capacity then others[1..] else others
    case _ => Step(l, t, capacity, ttl).entries
  }

  lemma KeptEmbeds<V>(l: Lane<V>, t: Timed<V>, capacity: Positive, ttl: nat)
    requires Unique(l.entries)
    ensures var kept := Kept(l, t, capacity, ttl);
            Embeds(kept, l.entries) && Unique(kept) &&
            (t.op.Write? || (t.op.Read? && Get(l.entries, t.op.key).Some?) ==> !Has(kept, t.op.key))
  {
    EmbedsSelf(l.entries);
    match t.op
    case Read(key) =>
      GetAfterDelete(l.entries, key, key);
      DeleteEmbeds(l.entries, key);
    case Write(key, _) =>
      GetAfterDelete(l.entries, key, key);
      DeleteEmbeds(l.entries, key);
      if |Delete(l.entries, key)| >= capacity {
        EmbedsTail(Delete(l.entries, key), l.entries);
      }
    case Remove(key) =>
      GetAfterDelete(l.entries, key, key);
      DeleteEmbeds(l.entries, key);
    case Clear =>
    case Purge =>
      FilterShrinks(l.entries, item => Fresh(item, t.now, ttl));
      GetAfterFilter(l.entries, item => Fresh(item, t.now, ttl), "");
  }

  /** The insertion order is the order of the last touches. */
  lemma {:induction false} OrderedByTouch<V>(ops: seq<Timed<V>>, capacity: Positive, ttl: nat)
    ensures Ascends(Run(ops, capacity, ttl).entries, Recency(ops, capacity, ttl))
  {
    if ops != [] {
      var init, t := ops[..|ops| - 1], ops[|ops| - 1];
      var l := Run(init, capacity, ttl);
      var rank, rank' := Recency(init, capacity, ttl), Recency(ops, capacity, ttl);
      OrderedByTouch(init, capacity, ttl);
      RunKeepsUnique(init, capacity, ttl);
      var kept := Kept(l, t, capacity, ttl);
      KeptEmbeds(l, t, capacity, ttl);
      AscendsPart(kept, l.entries, rank);
      if t.op.Write? {
        AscendsAppend(kept, t.op.key, Item(t.op.value, t.now), rank, rank');
      } else if t.op.Read? && ReadResult(l.entries, t.op.key, t.now, ttl).Some? {
        AscendsAppend(kept, t.op.key, Get(l.entries, t.op.key).value, rank, rank');
      } else {
        AscendsSame(kept, rank, rank');
      }
    }
  }

  /** A write that evicts drops the key whose last touch is the oldest. */
  lemma EvictsLeastRecentlyTouched<V>(ops: seq<Timed<V>>, key: string, value: V, now: real, capacity: Positive,
                                      ttl: nat)
    requires |Delete(Run(ops, capacity, ttl).entries, key)| >= capacity
    ensures var before := Run(ops, capacity, ttl);
            var after := AfterWrite(before, key, value, now, capacity);
            exists evicted :: Has(before.entries, evicted) && !Has(after.entries, evicted) && evicted != key &&
              forall k :: Has(before.entries, k) && k != key && k != evicted ==>
                Has(after.entries, k) && LastTouch(ops, capacity, ttl, evicted) < LastTouch(ops, capacity, ttl, k)
  {
    var before := Run(ops, capacity, ttl);
    var others := Delete(before.entries, key);
    var rank := Recency(ops, capacity, ttl);
    OrderedByTouch(ops, capacity, ttl);
    RunKeepsUnique(ops, capacity, ttl);
    GetAfterDelete(before.entries, key, key);
    DeleteEmbeds(before.entries, key);
    AscendsPart(others, before.entries, rank);
    var evicted := others[0].0;
    forall k
      ensures (Has(others, k) <==> k != key && Has(before.entries, k)) &&
              (Has(AfterWrite(before, key, value, now, capacity).entries, k) <==> k == key || Has(others[1..], k))
    {
      GetAfterDelete(before.entries, key, k);
      GetAfterAppend(others[1..], key, Item(value, now), k);
    }
    assert Has(others, evicted);
    forall k | Has(before.entries, k) && k != key && k != evicted
      ensures LastTouch(ops, capacity, ttl, evicted) < LastTouch(ops, capacity, ttl, k)
    {
      assert Has(others[1..], k);
      assert rank(evicted) < rank(k);
    }
  }

  // ---------- the class ----------

  const CACHE_TYPES: seq<string> := ["blocks", "transactions", "accounts", "contracts", "metadata"]

  datatype Config = Config(maxSize: nat, ttl: nat) {
    /** A zero falls back to the default, as `||` does in the source. */
    function Capacity(): (n: nat)
      ensures n > 0
    {
      if maxSize == 0 then 1000 else maxSize
    }

    function Ttl(): nat {
      if ttl == 0 then 3600 else ttl
    }

    /** The given settings over the present ones. */
    function Updated(newSize: Option<int>, newTtl: Option<int>): (c: Config)
      requires newSize.Some? ==> newSize.value > 0
      requires newTtl.Some? ==> newTtl.value > 0
    {
      Config(if newSize.Some? then newSize.value else maxSize, if newTtl.Some? then newTtl.value else ttl)
    }
  }

  const DEFAULT_CONFIGS: map<string, Config> := map[
    "blocks" := Config(1000, 3600), "transactions" := Config(5000, 1800), "accounts" := Config(10000, 900),
    "contracts" := Config(500, 7200), "metadata" := Config(500, 86400)]

  /** A cache type without a configuration: its settings are read as undefined, which falls
      back like a zero where only `||` looks at them. */
  const UNCONFIGURED: Config := Config(0, 0)

  /** `NoConfig` is the error of reading a setting of a missing configuration. */
  datatype Failure = InvalidType(name: string) | InvalidSize | InvalidTtl | NoConfig(name: string)

  /** How many types at the front have a configuration. */
  function Configured(types: seq<string>, configs: map<string, Config>): (n: nat)
    ensures n <= |types| && (forall i :: 0 <= i < n ==> types[i] in configs)
    ensures n < |types| ==> types[n] !in configs
  {
    if types == [] || types[0] !in configs then 0 else 1 + Configured(types[1..], configs)
  }

  function ExpiredKeys<V>(m: Entries<V>, now: real, ttl: nat): seq<string> {
    if m == [] then []
    else if Fresh(m[0].1, now, ttl) then ExpiredKeys(m[1..], now, ttl)
    else [m[0].0] + ExpiredKeys(m[1..], now, ttl)
  }

  function DeleteAll<V>(m: Entries<V>, keys: seq<string>): Entries<V>
    decreases |keys|
  {
    if keys == [] then m else DeleteAll(Delete(m, keys[0]), keys[1..])
  }

  lemma {:induction false} DeleteAllSkips<V>(x: (string, Item<V>), m: Entries<V>, keys: seq<string>)
    requires x.0 !in keys
    ensures DeleteAll([x] + m, keys) == [x] + DeleteAll(m, keys)
    decreases |keys|
  {
    if keys != [] {
      assert Delete([x] + m, keys[0]) == [x] + Delete(m, keys[0]);
      DeleteAllSkips(x, Delete(m, keys[0]), keys[1..]);
    }
  }

  lemma {:induction false} ExpiredKeysPresent<V>(m: Entries<V>, now: real, ttl: nat, key: string)
    requires key in ExpiredKeys(m, now, ttl)
    ensures Has(m, key)
  {
    if key in ExpiredKeys(m[1..], now, ttl) {
      ExpiredKeysPresent(m[1..], now, ttl, key);
    }
  }

  /** Deleting the collected keys one after the other leaves the fresh entries, in order. */
  lemma {:induction false} DeletingExpired<V>(m: Entries<V>, now: real, ttl: nat)
    requires Unique(m)
    ensures DeleteAll(m, ExpiredKeys(m, now, ttl)) == Filter(m, item => Fresh(item, now, ttl))
    ensures |ExpiredKeys(m, now, ttl)| + |Filter(m, item => Fresh(item, now, ttl))| == |m|
  {
    if m != [] {
      DeletingExpired(m[1..], now, ttl);
      if Fresh(m[0].1, now, ttl) {
        if m[0].0 in ExpiredKeys(m[1..], now, ttl) {
          ExpiredKeysPresent(m[1..], now, ttl, m[0].0);
        }
        assert m == [m[0]] + m[1..];
        DeleteAllSkips(m[0], m[1..], ExpiredKeys(m, now, ttl));
      }
    }
  }

  /** The number of entries in all caches together. */
  function Held<V>(types: seq<string>, lanes: map<string, Lane<V>>): nat {
    if types == [] then 0
    else (if types[0] in lanes then |lanes[types[0]].entries| else 0) + Held(types[1..], lanes)
  }

  lemma {:induction false} HeldSame<V>(types: seq<string>, lanes: map<string, Lane<V>>, t: string, l: Lane<V>)
    requires t !in types
    ensures Held(types, lanes[t := l]) == Held(types, lanes)
  {
    if types != [] {
      HeldSame(types[1..], lanes, t, l);
    }
  }

  lemma {:induction false} HeldChanges<V>(types: seq<string>, lanes: map<string, Lane<V>>, i: nat, l: Lane<V>)
    requires i < |types| && types[i] in lanes
    requires forall j, k :: 0 <= j < k < |types| ==> types[j] != types[k]
    ensures Held(types, lanes[types[i] := l]) + |lanes[types[i]].entries| == Held(types, lanes) + |l.entries|
  {
    if i == 0 {
      HeldSame(types[1..], lanes, types[0], l);
    } else {
      HeldChanges(types[1..], lanes, i - 1, l);
    }
  }

  function ConfigIn(configs: map<string, Config>, t: string): Config {
    if t in configs then configs[t] else UNCONFIGURED
  }

  /** The caches after the first n types have been purged. */
  function PurgeFirst<V>(types: seq<string>, lanes: map<string, Lane<V>>, configs: map<string, Config>, now: real,
                         n: nat): (after: map<string, Lane<V>>)
    requires n <= |types|
    ensures after.Keys == lanes.Keys
  {
    if n == 0 then lanes
    else
      var before, t := PurgeFirst(types, lanes, configs, now, n - 1), types[n - 1];
      if t in before then before[t := Purged(before[t], now, ConfigIn(configs, t).Ttl())] else before
  }

  /** Each of them once, and no other. */
  lemma {:induction false} PurgeFirstAt<V>(types: seq<string>, lanes: map<string, Lane<V>>,
                                           configs: map<string, Config>, now: real, n: nat, t: string)
    requires n <= |types| && t in lanes
    requires forall i, j :: 0 <= i < j < |types| ==> types[i] != types[j]
    ensures PurgeFirst(types, lanes, configs, now, n)[t]
         == if t in types[..n] then Purged(lanes[t], now, ConfigIn(configs, t).Ttl()) else lanes[t]
  {
    if n > 0 {
      PurgeFirstAt(types, lanes, configs, now, n - 1, t);
      assert types[..n] == types[..n - 1] + [types[n - 1]];
    }
  }

  /**
   `lanes` gathers, per cache type, the source's `caches`, `hit_counts`, `miss_counts` and
   `eviction_counts`; `types` is the list of valid cache types.
   */
  class BlockchainCache<V> {
    const types: seq<string>
    var lanes: map<string, Lane<V>>
    var configs: map<string, Config>

    /** What a configuration lacks does not matter to an empty cache. */
    ghost predicate Valid()
      reads this
    {
      (forall t :: t in types <==> t in lanes) && "" !in types &&
      (forall i, j :: 0 <= i < j < |types| ==> types[i] != types[j]) &&
      forall t :: t in lanes ==> Holds(t, lanes[t])
    }

    ghost predicate Holds(t: string, l: Lane<V>)
      reads this
    {
      Unique(l.entries) && |l.entries| <= ConfigOf(t).Capacity() && (t !in configs ==> l.entries == [])
    }

    function ConfigOf(t: string): Config
      reads this
    {
      ConfigIn(configs, t)
    }

    constructor (configs: Option<map<string, Config>>)
      ensures Valid() && types == CACHE_TYPES
      ensures this.configs == if configs.Some? then configs.value else DEFAULT_CONFIGS
      ensures forall t :: t in types ==> lanes[t] == Lane([], 0, 0, 0)
    {
      types := CACHE_TYPES;
      this.configs := if configs.Some? then configs.value else DEFAULT_CONFIGS;
      lanes := map t | t in CACHE_TYPES :: Lane([], 0, 0, 0);
    }

    method Store(t: string, l: Lane<V>)
      requires Valid() && t in types && Holds(t, l)
      modifies this`lanes
      ensures Valid() && lanes == old(lanes)[t := l]
    {
      lanes := lanes[t := l];
    }

    method Get(t: string, key: string, now: real) returns (r: Result<Option<V>, Failure>)
      requires Valid()
      modifies this`lanes
      ensures Valid()
      ensures t !in types ==> r == Err(InvalidType(t)) && lanes == old(lanes)
      ensures t in types ==>
        r == Ok(ReadResult(old(lanes[t]).entries, key, now, ConfigOf(t).Ttl())) &&
        lanes == old(lanes)[t := AfterRead(old(lanes[t]), key, now, ConfigOf(t).Ttl())]
    {
      if t !in types {
        return Err(InvalidType(t));
      }
      var lane, found := ReadLane(lanes[t], key, now, ConfigOf(t).Ttl());
      Store(t, lane);
      return Ok(found);
    }

    method Set(t: string, key: string, value: V, now: real) returns (r: Result<(), Failure>)
      requires Valid()
      modifies this`lanes
      ensures Valid()
      ensures t !in types ==> r == Err(InvalidType(t)) && lanes == old(lanes)
      ensures t in types && t !in configs ==> r == Err(NoConfig(t)) && lanes == old(lanes)
      ensures t in types && t in configs ==>
        r == Ok(()) && lanes == old(lanes)[t := AfterWrite(old(lanes[t]), key, value, now, configs[t].Capacity())]
    {
      if t !in types {
        return Err(InvalidType(t));
      }
      if t !in configs {
        return Err(NoConfig(t));
      }
      var lane, maxSize := lanes[t], configs[t].Capacity();
      lane := WriteLane(lane, key, value, now, maxSize);
      Store(t, lane);
      return Ok(());
    }

    method Delete(t: string, key: string) returns (r: Result<bool, Failure>)
      requires Valid()
      modifies this`lanes
      ensures Valid()
      ensures t !in types ==> r == Err(InvalidType(t)) && lanes == old(lanes)
      ensures t in types ==>
        r == Ok(Has(old(lanes[t]).entries, key)) &&
        lanes == old(lanes)[t := Step(old(lanes[t]), At(0.0, Remove(key)), ConfigOf(t).Capacity(), ConfigOf(t).Ttl())]
    {
      if t !in types {
        return Err(InvalidType(t));
      }
      var lane := lanes[t];
      GetAfterDelete(lane.entries, key, key);
      DeleteAbsentOrNot(lane.entries, key);
      if Has(lane.entries, key) {
        Store(t, lane.(entries := JsMap.Delete(lane.entries, key)));
        return Ok(true);
      }
      return Ok(false);
    }

    /** Without a type, which an empty string is too, every cache is cleared. */
    method ClearCache(t: Option<string>) returns (r: Result<(), Failure>)
      requires Valid()
      modifies this`lanes
      ensures Valid()
      ensures t.Some? && t.value != "" && t.value !in types ==> r == Err(InvalidType(t.value)) && lanes == old(lanes)
      ensures t.Some? && t.value != "" && t.value in types ==>
        r == Ok(()) && lanes == old(lanes)[t.value := Lane([], 0, 0, 0)]
      ensures t.None? || t.value == "" ==> r == Ok(()) && forall u :: u in types ==> lanes[u] == Lane([], 0, 0, 0)
    {
      if t.Some? && t.value != "" {
        if t.value !in types {
          return Err(InvalidType(t.value));
        }
        Store(t.value, Lane([], 0, 0, 0));
      } else {
        ClearAll();
      }
      return Ok(());
    }

    method ClearAll()
      requires Valid()
      modifies this`lanes
      ensures Valid() && forall u :: u in types ==> lanes[u] == Lane([], 0, 0, 0)
    {
      for i := 0 to |types|
        invariant Valid()
        invariant forall u :: u in types[..i] ==> lanes[u] == Lane([], 0, 0, 0)
      {
        Store(types[i], Lane([], 0, 0, 0));
      }
    }

    /** A smaller size drops the oldest entries until the rest fits. */
    method SetCacheConfig(t: string, maxSize: Option<int>, ttl: Option<int>) returns (r: Result<(), Failure>)
      requires Valid()
      modifies this
      ensures Valid()
      ensures r == if t !in types then Err(InvalidType(t))
                   else if maxSize.Some? && maxSize.value <= 0 then Err(InvalidSize)
                   else if ttl.Some? && ttl.value <= 0 then Err(InvalidTtl) else Ok(())
      ensures r.Err? ==> lanes == old(lanes) && configs == old(configs)
      ensures r.Ok? ==>
        lanes == (if maxSize.Some? then old(lanes)[t := Shrunk(old(lanes[t]), maxSize.value)] else old(lanes)) &&
        configs == old(configs)[t := old(ConfigOf(t)).Updated(maxSize, ttl)]
    {
      if t !in types {
        return Err(InvalidType(t));
      }
      if maxSize.Some? && maxSize.value <= 0 {
        return Err(InvalidSize);
      }
      if ttl.Some? && ttl.value <= 0 {
        return Err(InvalidTtl);
      }
      var config, lane := ConfigOf(t).Updated(maxSize, ttl), lanes[t];
      if maxSize.Some? {
        lane := DropOldest(lane, maxSize.value);
      }
      Install(t, config, lane);
      return Ok(());
    }

    method Install(t: string, config: Config, lane: Lane<V>)
      requires Valid() && t in types && Unique(lane.entries) && |lane.entries| <= config.Capacity()
      modifies this`lanes, this`configs
      ensures Valid() && lanes == old(lanes)[t := lane] && configs == old(configs)[t := config]
    {
      configs := configs[t := config];
      lanes := lanes[t := lane];
    }

    method PurgeLane(t: string, now: real) returns (removed: nat)
      requires Valid() && t in types && t in configs
      modifies this`lanes
      ensures Valid()
      ensures lanes == old(lanes)[t := Purged(old(lanes[t]), now, configs[t].Ttl())]
      ensures removed == |old(lanes[t]).entries| - |lanes[t].entries|
    {
      var lane, ttl := lanes[t], configs[t].Ttl();
      StepKeepsUnique(lane, At(now, Purge), configs[t].Capacity(), ttl);
      DeletingExpired(lane.entries, now, ttl);
      var cache;
      cache, removed := DropExpired(lane.entries, now, ttl);
      Store(t, lane.(entries := cache));
    }

    /** Without a type the caches are purged in turn, up to one that has no configuration. */
    method PurgeExpiredItems(t: Option<string>, now: real) returns (r: Result<nat, Failure>)
      requires Valid()
      modifies this`lanes
      ensures Valid()
      ensures t.Some? && t.value != "" && t.value !in types ==> r == Err(InvalidType(t.value)) && lanes == old(lanes)
      ensures t.Some? && t.value != "" && t.value in types && t.value !in configs ==>
        r == Err(NoConfig(t.value)) && lanes == old(lanes)
      ensures t.Some? && t.value != "" && t.value in types && t.value in configs ==>
        r == Ok(|old(lanes[t.value]).entries| - |lanes[t.value].entries|) &&
        lanes == old(lanes)[t.value := Purged(old(lanes[t.value]), now, configs[t.value].Ttl())]
      ensures t.None? || t.value == "" ==>
        lanes == PurgeFirst(types, old(lanes), configs, now, Configured(types, configs)) &&
        if Configured(types, configs) < |types| then r == Err(NoConfig(types[Configured(types, configs)]))
        else r.Ok? && r.value == Held(types, old(lanes)) - Held(types, lanes)
    {
      if t.Some? && t.value != "" {
        if t.value !in types {
          return Err(InvalidType(t.value));
        }
        if t.value !in configs {
          return Err(NoConfig(t.value));
        }
        var removed := PurgeLane(t.value, now);
        return Ok(removed);
      }
      r := PurgeAll(now);
    }

    /** The first n types are purged, and that many entries of the given caches are gone. */
    ghost predicate PurgedSoFar(start: map<string, Lane<V>>, now: real, n: nat, removed: int)
      requires n <= |types|
      reads this
    {
      lanes == PurgeFirst(types, start, configs, now, n) && removed == Held(types, start) - Held(types, lanes)
    }

    /** One pass of the loop over the cache types. */
    method PurgeNext(i: nat, now: real, before: nat, ghost start: map<string, Lane<V>>) returns (removed: nat)
      requires Valid() && i < |types| && types[i] in configs
      requires PurgedSoFar(start, now, i, before)
      modifies this`lanes
      ensures Valid() && PurgedSoFar(start, now, i + 1, removed)
    {
      ghost var lanes' := lanes;
      var one := PurgeLane(types[i], now);
      HeldChanges(types, lanes', i, lanes[types[i]]);
      removed := before + one;
    }

    method PurgeAll(now: real) returns (r: Result<nat, Failure>)
      requires Valid()
      modifies this`lanes
      ensures Valid() && lanes == PurgeFirst(types, old(lanes), configs, now, Configured(types, configs))
      ensures Configured(types, configs) < |types| ==> r == Err(NoConfig(types[Configured(types, configs)]))
      ensures Configured(types, configs) == |types| ==>
        r.Ok? && r.value == Held(types, old(lanes)) - Held(types, lanes)
    {
      var removed := 0;
      for i := 0 to |types|
        invariant Valid() && i <= Configured(types, configs) && PurgedSoFar(old(lanes), now, i, removed)
      {
        if types[i] !in configs {
          return Err(NoConfig(types[i]));
        }
        removed := PurgeNext(i, now, removed, old(lanes));
      }
      return Ok(removed);
    }
  }

  method ReadLane<V>(l: Lane<V>, key: string, now: real, ttl: nat) returns (r: Lane<V>, found: Option<V>)
    requires Unique(l.entries)
    ensures r == AfterRead(l, key, now, ttl) && found == ReadResult(l.entries, key, now, ttl)
    ensures Unique(r.entries) && |r.entries| <= |l.entries|
    ensures var item := Get(l.entries, key);
            found == if item.Some? && now - item.value.stamp <= ttl as real then Some(item.value.value) else None
  {
    r := l;
    HasIsSome(l.entries, key);
    GetAfterDelete(l.entries, key, key);
    if Has(r.entries, key) {
      var item := Get(r.entries, key).value;
      r := r.(entries := Delete(r.entries, key));
      if now - item.stamp <= ttl as real {
        GetAfterAppend(r.entries, key, item, key);
        r := r.(entries := Put(r.entries, key, item), hits := r.hits + 1);
        return r, Some(item.value);
      }
    }
    r := r.(misses := r.misses + 1);
    return r, None;
  }

  method WriteLane<V>(l: Lane<V>, key: string, value: V, now: real, maxSize: nat) returns (r: Lane<V>)
    requires maxSize > 0 && Unique(l.entries) && |l.entries| <= maxSize
    ensures r == AfterWrite(l, key, value, now, maxSize) && Unique(r.entries) && |r.entries| <= maxSize
  {
    r := l;
    GetAfterDelete(l.entries, key, key);
    DeleteAbsentOrNot(l.entries, key);
    if Has(r.entries, key) {
      r := r.(entries := Delete(r.entries, key));
    }
    if |r.entries| >= maxSize {
      var firstKey := r.entries[0].0;
      r := r.(entries := Delete(r.entries, firstKey), evictions := r.evictions + 1);
    }
    GetAfterAppend(r.entries, key, Item(value, now), key);
    r := r.(entries := Put(r.entries, key, Item(value, now)));
  }

  method DropOldest<V>(l: Lane<V>, size: nat) returns (r: Lane<V>)
    requires Unique(l.entries)
    ensures r == Shrunk(l, size) && Unique(r.entries) && |r.entries| <= size
  {
    r := l;
    while |r.entries| > size
      invariant Unique(r.entries) && Shrunk(r, size) == Shrunk(l, size)
      decreases |r.entries|
    {
      var firstKey := r.entries[0].0;
      r := r.(entries := Delete(r.entries, firstKey), evictions := r.evictions + 1);
    }
  }

  method CollectExpired<V>(m: Entries<V>, now: real, ttl: nat) returns (keys: seq<string>)
    ensures keys == ExpiredKeys(m, now, ttl)
  {
    keys := [];
    for i := 0 to |m|
      invariant keys + ExpiredKeys(m[i..], now, ttl) == ExpiredKeys(m, now, ttl)
    {
      if now - m[i].1.stamp > ttl as real {
        keys := keys + [m[i].0];
      }
    }
  }

  /** Collects the expired keys, then deletes them. */
  method DropExpired<V>(m: Entries<V>, now: real, ttl: nat) returns (cache: Entries<V>, removed: nat)
    requires Unique(m)
    ensures cache == Filter(m, item => Fresh(item, now, ttl)) && removed == |m| - |cache|
  {
    var keys := CollectExpired(m, now, ttl);
    DeletingExpired(m, now, ttl);
    cache, removed := m, 0;
    while removed < |keys|
      invariant removed <= |keys|
      invariant DeleteAll(cache, keys[removed..]) == DeleteAll(m, keys)
    {
      cache := Delete(cache, keys[removed]);
      removed := removed + 1;
    }
  }

  function Shrunk<V>(l: Lane<V>, size: nat): Lane<V> {
    var excess := if |l.entries| > size then |l.entries| - size else 0;
    l.(entries := l.entries[excess..], evictions := l.evictions + excess)
  }

  lemma DeleteAbsentOrNot<V>(m: Entries<V>, key: string)
    ensures !Has(m, key) ==> Delete(m, key) == m
  {
    if !Has(m, key) {
      DeleteAbsent(m, key);
    }
  }
}
