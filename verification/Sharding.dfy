/**
 Cross-shard routing and validator reassignment (src/runtime/sharding.js).

 A ledger is what the shards' pools and the pending list hold.  `RunConserves` says that
 with fresh ids every routed transaction is in exactly one place, `RunPlaces` that it is
 the right one, and `ShufflesLose` what reassignments can lose.

 Block numbers are compared with timestamps in seconds, as the code does.
 */
module Sharding {
  import opened Wrappers
  import opened Shuffle
  import Arithmetic
  import StringHash

  type Id = seq<StringHash.CodeUnit>

  type ValidatorId = string

  /** What a transaction gets when it crosses shards; `done` once its status is processed. */
  datatype Crossing = Crossing(source: nat, destination: nat, done: bool)

  datatype Transaction = Transaction(id: Id, receiver: Id, timestamp: real, crossing: Option<Crossing>)

  datatype Ledger = Ledger(pools: seq<seq<Transaction>>, pending: seq<Transaction>)

  // ---------- what each call does ----------

  function ShardOf(id: Id, total: nat): (shard: nat)
    requires total > 0
    ensures shard < total
  {
    StringHash.Abs(StringHash.ToInt32(StringHash.Polynomial(id))) % total
  }

  predicate Holds(pool: seq<Transaction>, id: Id) {
    exists i :: 0 <= i < |pool| && pool[i].id == id
  }

  function AddToPool(pool: seq<Transaction>, tx: Transaction): seq<Transaction> {
    if Holds(pool, tx.id) then pool else pool + [tx]
  }

  function Routed(l: Ledger, tx: Transaction, now: real): Ledger
    requires |l.pools| > 0
  {
    var from, to := ShardOf(tx.id, |l.pools|), ShardOf(tx.receiver, |l.pools|);
    var stamped := tx.(timestamp := now);
    if from == to then l.(pools := l.pools[from := AddToPool(l.pools[from], stamped)])
    else l.(pending := l.pending + [stamped.(crossing := Some(Crossing(from, to, false)))])
  }

  /** A pending transaction that names its two shards. */
  predicate Waiting(tx: Transaction, total: nat) {
    tx.crossing.Some? && tx.crossing.value.source < total && tx.crossing.value.destination < total &&
    !tx.crossing.value.done
  }

  predicate Due(tx: Transaction, block: int) {
    tx.crossing.Some? && !tx.crossing.value.done && (block as real) > tx.timestamp
  }

  function Finished(tx: Transaction): Transaction
    requires tx.crossing.Some?
  {
    tx.(crossing := Some(tx.crossing.value.(done := true)))
  }

  /** The list is walked from its end, so the last due transaction moves first. */
  function Moved(pending: seq<Transaction>, block: int): seq<Transaction> {
    if pending == [] then []
    else Moved(pending[1..], block) + if Due(pending[0], block) then [Finished(pending[0])] else []
  }

  function Kept(pending: seq<Transaction>, block: int): seq<Transaction> {
    if pending == [] then []
    else (if Due(pending[0], block) then [] else [pending[0]]) + Kept(pending[1..], block)
  }

  ghost predicate Addressed(moved: seq<Transaction>, total: nat) {
    forall i :: 0 <= i < |moved| ==> moved[i].crossing.Some? && moved[i].crossing.value.destination < total
  }

  /** Each moved transaction joins the pool of its destination. */
  function Deliver(pools: seq<seq<Transaction>>, moved: seq<Transaction>): (r: seq<seq<Transaction>>)
    requires Addressed(moved, |pools|)
    ensures |r| == |pools|
  {
    if moved == [] then pools
    else
      var before, tx := Deliver(pools, moved[..|moved| - 1]), moved[|moved| - 1];
      var to := tx.crossing.value.destination;
      before[to := AddToPool(before[to], tx)]
  }

  /** One more transaction comes to the end of its destination's pool, unless its id is there. */
  lemma DeliverExactly(pools: seq<seq<Transaction>>, moved: seq<Transaction>, tx: Transaction)
    requires Addressed(moved + [tx], |pools|) && Addressed(moved, |pools|)
    ensures (moved + [tx])[|moved|] == tx && Deliver(pools, []) == pools
    ensures var to, before, after := tx.crossing.value.destination, Deliver(pools, moved), Deliver(pools, moved + [tx]);
            (forall i :: 0 <= i < |pools| && i != to ==> after[i] == before[i]) &&
            if exists j :: 0 <= j < |before[to]| && before[to][j].id == tx.id then after[to] == before[to]
            else after[to] == before[to] + [tx]
  {
    assert (moved + [tx])[..|moved|] == moved;
    assert (moved + [tx])[|moved|] == tx;
  }

  ghost predicate AllWaiting(pending: seq<Transaction>, total: nat) {
    forall i :: 0 <= i < |pending| ==> Waiting(pending[i], total)
  }

  lemma {:induction false} MovedAreAddressed(pending: seq<Transaction>, block: int, total: nat)
    requires AllWaiting(pending, total)
    ensures Addressed(Moved(pending, block), total) && AllWaiting(Kept(pending, block), total)
  {
    if pending != [] {
      MovedAreAddressed(pending[1..], block, total);
    }
  }

  ghost function Processed(l: Ledger, block: int): Ledger
    requires AllWaiting(l.pending, |l.pools|)
  {
    MovedAreAddressed(l.pending, block, |l.pools|);
    Ledger(Deliver(l.pools, Moved(l.pending, block)), Kept(l.pending, block))
  }

  /** The walk from the end of the pending list has reached position i. */
  ghost predicate Walked(start: Ledger, i: nat, block: int, l: Ledger, processed: seq<Transaction>) {
    i <= |start.pending| && l.pending == start.pending[..i] + Kept(start.pending[i..], block) &&
    processed == Moved(start.pending[i..], block) && Addressed(processed, |start.pools|) &&
    l.pools == Deliver(start.pools, processed)
  }

  lemma Splice<T>(s: seq<T>, i: nat, rest: seq<T>)
    requires i < |s|
    ensures var whole := s[..i + 1] + rest;
      whole[i] == s[i] && whole == s[..i] + ([s[i]] + rest) && whole[..i] + whole[i + 1..] == s[..i] + rest
    ensures s[i..] == [s[i]] + s[i + 1..]
  {}

  lemma WalkMoves(start: Ledger, i: nat, block: int, l: Ledger, processed: seq<Transaction>, to: nat)
    requires i < |start.pending| && Walked(start, i + 1, block, l, processed) && i < |l.pending|
    requires Due(start.pending[i], block) && |l.pools| == |start.pools|
    requires to == start.pending[i].crossing.value.destination < |start.pools|
    ensures
      var tx := Finished(start.pending[i]);
      Walked(start, i, block, Ledger(l.pools[to := AddToPool(l.pools[to], tx)], l.pending[..i] + l.pending[i + 1..]),
             processed + [tx])
  {
    Splice(start.pending, i, Kept(start.pending[i + 1..], block));
    assert [] + Kept(start.pending[i + 1..], block) == Kept(start.pending[i + 1..], block);
  }

  // ---------- exactly the due ones ----------

  lemma {:induction false} KeptInOrder(a: seq<Transaction>, b: seq<Transaction>, block: int)
    ensures Kept(a + b, block) == Kept(a, block) + Kept(b, block)
  {
    if a == [] {
      assert a + b == b && Kept(a, block) == [];
    } else {
      assert (a + b)[1..] == a[1..] + b && (a + b)[0] == a[0];
      KeptInOrder(a[1..], b, block);
      var first := if Due(a[0], block) then [] else [a[0]];
      assert first + (Kept(a[1..], block) + Kept(b, block)) == (first + Kept(a[1..], block)) + Kept(b, block);
    }
  }

  lemma {:induction false} MovedInReverse(a: seq<Transaction>, b: seq<Transaction>, block: int)
    ensures Moved(a + b, block) == Moved(b, block) + Moved(a, block)
  {
    if a == [] {
      assert a + b == b && Moved(a, block) == [];
    } else {
      assert (a + b)[1..] == a[1..] + b && (a + b)[0] == a[0];
      MovedInReverse(a[1..], b, block);
      var first := if Due(a[0], block) then [Finished(a[0])] else [];
      assert (Moved(b, block) + Moved(a[1..], block)) + first == Moved(b, block) + (Moved(a[1..], block) + first);
    }
  }

  /** What stays keeps its order, and what moves goes in the reverse of it. */
  lemma OrderExactly(a: seq<Transaction>, b: seq<Transaction>, block: int)
    ensures Kept(a + b, block) == Kept(a, block) + Kept(b, block)
    ensures Moved(a + b, block) == Moved(b, block) + Moved(a, block)
  {
    KeptInOrder(a, b, block);
    MovedInReverse(a, b, block);
  }

  /** A routed transaction is stamped with the time.  Between two shards it waits at the end
      of the list with both numbers; within one it joins that pool unless its id is there. */
  lemma RoutedExactly(l: Ledger, tx: Transaction, now: real)
    requires |l.pools| > 0
    ensures var from, to := ShardOf(tx.id, |l.pools|), ShardOf(tx.receiver, |l.pools|);
            var after := Routed(l, tx, now);
            if from != to then
              after.pools == l.pools &&
              after.pending == l.pending + [Transaction(tx.id, tx.receiver, now, Some(Crossing(from, to, false)))]
            else
              after.pending == l.pending && |after.pools| == |l.pools| &&
              (forall i :: 0 <= i < |l.pools| && i != from ==> after.pools[i] == l.pools[i]) &&
              if exists i :: 0 <= i < |l.pools[from]| && l.pools[from][i].id == tx.id
              then after.pools[from] == l.pools[from]
              else after.pools[from] == l.pools[from] + [Transaction(tx.id, tx.receiver, now, tx.crossing)]
  {
  }

  function Match(tx: Transaction, id: Id): nat {
    if tx.id == id then 1 else 0
  }

  function CopiesIn(txs: seq<Transaction>, id: Id): nat {
    if txs == [] then 0 else CopiesIn(txs[..|txs| - 1], id) + Match(txs[|txs| - 1], id)
  }

  function CopiesPooled(pools: seq<seq<Transaction>>, id: Id): nat {
    if pools == [] then 0 else CopiesPooled(pools[..|pools| - 1], id) + CopiesIn(pools[|pools| - 1], id)
  }

  /** In how many places a transaction with this id is. */
  function Copies(l: Ledger, id: Id): nat {
    CopiesPooled(l.pools, id) + CopiesIn(l.pending, id)
  }

  lemma {:induction false} CopiesAppend(a: seq<Transaction>, b: seq<Transaction>, id: Id)
    ensures CopiesIn(a + b, id) == CopiesIn(a, id) + CopiesIn(b, id)
    decreases |b|
  {
    if b == [] {
      assert a + b == a;
    } else {
      assert (a + b)[..|a + b| - 1] == a + b[..|b| - 1];
      CopiesAppend(a, b[..|b| - 1], id);
    }
  }

  lemma {:induction false} MovedOrKept(pending: seq<Transaction>, block: int, id: Id)
    ensures CopiesIn(Moved(pending, block), id) + CopiesIn(Kept(pending, block), id) == CopiesIn(pending, id)
  {
    if pending != [] {
      var head, tail := pending[0], pending[1..];
      MovedOrKept(tail, block, id);
      assert pending == [head] + tail;
      CopiesAppend([head], tail, id);
      CopiesAppend(Moved(tail, block), if Due(head, block) then [Finished(head)] else [], id);
      CopiesAppend(if Due(head, block) then [] else [head], Kept(tail, block), id);
    }
  }

  /** What is moved is what is due, and what stays is the rest. */
  lemma {:induction false} ExactlyTheDue(pending: seq<Transaction>, block: int, tx: Transaction)
    ensures tx in Kept(pending, block) <==>
      tx in pending && (tx.crossing.None? || tx.crossing.value.done || block as real <= tx.timestamp)
    ensures tx in Moved(pending, block) <==>
      exists i :: 0 <= i < |pending| && pending[i].crossing.Some? && !pending[i].crossing.value.done &&
        block as real > pending[i].timestamp &&
        tx == pending[i].(crossing := Some(Crossing(pending[i].crossing.value.source,
                                                    pending[i].crossing.value.destination, true)))
  {
    if pending != [] {
      var tail := pending[1..];
      ExactlyTheDue(tail, block, tx);
      assert forall i :: 0 <= i < |tail| ==> tail[i] == pending[i + 1];
      if tx in Moved(tail, block) {
        var i :| 0 <= i < |tail| && Due(tail[i], block) && tx == Finished(tail[i]);
        assert Due(pending[i + 1], block) && tx == Finished(pending[i + 1]);
      }
    }
  }

  // ---------- conservation ----------

  lemma {:induction false} HoldsACopy(pool: seq<Transaction>, id: Id)
    ensures Holds(pool, id) <==> CopiesIn(pool, id) > 0
  {
    if pool != [] {
      var init := pool[..|pool| - 1];
      HoldsACopy(init, id);
      if Holds(init, id) {
        var i :| 0 <= i < |init| && init[i].id == id;
        assert pool[i].id == id;
      }
      if Holds(pool, id) && pool[|pool| - 1].id != id {
        var i :| 0 <= i < |pool| && pool[i].id == id;
        assert init[i].id == id;
      }
    }
  }

  lemma {:induction false} OnePoolChanges(pools: seq<seq<Transaction>>, i: nat, pool: seq<Transaction>, id: Id)
    requires i < |pools|
    ensures CopiesPooled(pools[i := pool], id) + CopiesIn(pools[i], id) == CopiesPooled(pools, id) + CopiesIn(pool, id)
  {
    var last := |pools| - 1;
    if i == last {
      assert pools[i := pool][..last] == pools[..last];
    } else {
      assert pools[i := pool][..last] == pools[..last][i := pool];
      OnePoolChanges(pools[..last], i, pool, id);
    }
  }

  lemma {:induction false} PoolHasFewer(pools: seq<seq<Transaction>>, i: nat, id: Id)
    requires i < |pools|
    ensures CopiesIn(pools[i], id) <= CopiesPooled(pools, id)
  {
    if i < |pools| - 1 {
      PoolHasFewer(pools[..|pools| - 1], i, id);
    }
  }

  /** Nothing is duplicated, and not every copy is dropped. */
  predicate Conserved(before: nat, after: nat) {
    after <= before && (before > 0 ==> after > 0)
  }

  lemma AddingConserves(pools: seq<seq<Transaction>>, i: nat, tx: Transaction, id: Id)
    requires i < |pools|
    ensures CopiesPooled(pools, id) <= CopiesPooled(pools[i := AddToPool(pools[i], tx)], id)
    ensures Conserved(CopiesPooled(pools, id) + Match(tx, id), CopiesPooled(pools[i := AddToPool(pools[i], tx)], id))
  {
    HoldsACopy(pools[i], tx.id);
    PoolHasFewer(pools, i, id);
    OnePoolChanges(pools, i, AddToPool(pools[i], tx), id);
    assert (pools[i] + [tx])[..|pools[i]|] == pools[i];
  }

  lemma {:induction false} DeliverConserves(pools: seq<seq<Transaction>>, moved: seq<Transaction>, id: Id)
    requires Addressed(moved, |pools|)
    ensures CopiesPooled(pools, id) <= CopiesPooled(Deliver(pools, moved), id)
    ensures Conserved(CopiesPooled(pools, id) + CopiesIn(moved, id), CopiesPooled(Deliver(pools, moved), id))
  {
    if moved != [] {
      var init, tx := moved[..|moved| - 1], moved[|moved| - 1];
      DeliverConserves(pools, init, id);
      AddingConserves(Deliver(pools, init), tx.crossing.value.destination, tx, id);
    }
  }

  lemma ProcessedConserves(l: Ledger, block: int, id: Id)
    requires AllWaiting(l.pending, |l.pools|)
    ensures Conserved(Copies(l, id), Copies(Processed(l, block), id))
  {
    MovedAreAddressed(l.pending, block, |l.pools|);
    MovedOrKept(l.pending, block, id);
    DeliverConserves(l.pools, Moved(l.pending, block), id);
  }

  lemma RoutedConserves(l: Ledger, tx: Transaction, now: real, id: Id)
    requires |l.pools| > 0
    ensures Conserved(Copies(l, id) + Match(tx, id), Copies(Routed(l, tx, now), id))
  {
    var from, to := ShardOf(tx.id, |l.pools|), ShardOf(tx.receiver, |l.pools|);
    if from == to {
      AddingConserves(l.pools, from, tx.(timestamp := now), id);
    } else {
      assert Routed(l, tx, now).pending[..|l.pending|] == l.pending;
    }
  }

  // ---------- runs ----------

  datatype Call = Route(tx: Transaction, now: real) | Process(block: int)

  ghost predicate Ready(l: Ledger) {
    |l.pools| > 0 && AllWaiting(l.pending, |l.pools|)
  }

  ghost function After(l: Ledger, c: Call): (r: Ledger)
    requires Ready(l)
    ensures Ready(r) && |r.pools| == |l.pools|
  {
    match c
    case Route(tx, now) => Routed(l, tx, now)
    case Process(block) =>
      MovedAreAddressed(l.pending, block, |l.pools|);
      Processed(l, block)
  }

  ghost function Run(l: Ledger, calls: seq<Call>): (r: Ledger)
    requires Ready(l)
    ensures Ready(r) && |r.pools| == |l.pools|
  {
    if calls == [] then l else After(Run(l, calls[..|calls| - 1]), calls[|calls| - 1])
  }

  function Arrival(c: Call, id: Id): nat {
    if c.Route? then Match(c.tx, id) else 0
  }

  function TimesRouted(calls: seq<Call>, id: Id): nat {
    if calls == [] then 0 else TimesRouted(calls[..|calls| - 1], id) + Arrival(calls[|calls| - 1], id)
  }

  lemma CallConserves(l: Ledger, c: Call, id: Id)
    requires Ready(l)
    ensures Conserved(Copies(l, id) + Arrival(c, id), Copies(After(l, c), id))
  {
    match c
    case Route(tx, now) => RoutedConserves(l, tx, now, id);
    case Process(block) => ProcessedConserves(l, block, id);
  }

  /** A routed id is never lost, nor in more places than it was routed times: one that was
      routed once is in exactly one pool, or pending. */
  lemma {:induction false} RunConserves(l: Ledger, calls: seq<Call>, id: Id)
    requires Ready(l)
    ensures Conserved(Copies(l, id) + TimesRouted(calls, id), Copies(Run(l, calls), id))
  {
    if calls != [] {
      RunConserves(l, calls[..|calls| - 1], id);
      CallConserves(Run(l, calls[..|calls| - 1]), calls[|calls| - 1], id);
    }
  }

  lemma FreshIsInOnePlace(l: Ledger, calls: seq<Call>, id: Id)
    requires Ready(l) && Copies(l, id) == 0
    ensures TimesRouted(calls, id) == 1 ==> Copies(Run(l, calls), id) == 1
    ensures TimesRouted(calls, id) == 0 <==> Copies(Run(l, calls), id) == 0
  {
    RunConserves(l, calls, id);
  }

  // ---------- the right place ----------

  /** A pooled transaction lies in its receiver's shard: it came there directly, or crossed
      over from the shard of its id. */
  predicate AtHome(tx: Transaction, shard: nat, total: nat)
    requires total > 0
  {
    ShardOf(tx.receiver, total) == shard &&
    (tx.crossing.Some? && tx.crossing.value.done ==>
       tx.crossing.value == Crossing(ShardOf(tx.id, total), shard, true) && ShardOf(tx.id, total) != shard) &&
    (tx.crossing.Some? ==> tx.crossing.value.done) &&
    (tx.crossing.None? ==> ShardOf(tx.id, total) == shard)
  }

  predicate OnTheWay(tx: Transaction, total: nat)
    requires total > 0
  {
    tx.crossing == Some(Crossing(ShardOf(tx.id, total), ShardOf(tx.receiver, total), false)) &&
    ShardOf(tx.id, total) != ShardOf(tx.receiver, total)
  }

  ghost predicate PoolsPlaced(pools: seq<seq<Transaction>>) {
    forall s, i :: 0 <= s < |pools| && 0 <= i < |pools[s]| ==> AtHome(pools[s][i], s, |pools|)
  }

  ghost predicate AllOnTheWay(txs: seq<Transaction>, total: nat)
    requires total > 0
  {
    forall i :: 0 <= i < |txs| ==> OnTheWay(txs[i], total)
  }

  ghost predicate Placed(l: Ledger)
    requires Ready(l)
  {
    PoolsPlaced(l.pools) && AllOnTheWay(l.pending, |l.pools|)
  }

  ghost predicate Arriving(moved: seq<Transaction>, total: nat)
    requires total > 0
  {
    forall i :: 0 <= i < |moved| ==>
      moved[i].crossing.Some? && moved[i].crossing.value.destination < total &&
      AtHome(moved[i], moved[i].crossing.value.destination, total)
  }

  lemma {:induction false} MovedArrive(pending: seq<Transaction>, block: int, total: nat)
    requires total > 0 && AllOnTheWay(pending, total)
    ensures Arriving(Moved(pending, block), total) && AllOnTheWay(Kept(pending, block), total)
  {
    if pending != [] {
      MovedArrive(pending[1..], block, total);
    }
  }

  lemma {:induction false} DeliverPlaces(pools: seq<seq<Transaction>>, moved: seq<Transaction>)
    requires |pools| > 0 && Addressed(moved, |pools|) && PoolsPlaced(pools) && Arriving(moved, |pools|)
    ensures PoolsPlaced(Deliver(pools, moved))
  {
    if moved != [] {
      var init, tx := moved[..|moved| - 1], moved[|moved| - 1];
      DeliverPlaces(pools, init);
    }
  }

  /** Fresh transactions do not claim to have crossed. */
  ghost predicate PlainCalls(calls: seq<Call>) {
    forall i :: 0 <= i < |calls| && calls[i].Route? ==> calls[i].tx.crossing.None?
  }

  /** Every transaction is where it belongs after every run. */
  lemma {:induction false} RunPlaces(l: Ledger, calls: seq<Call>)
    requires Ready(l) && Placed(l) && PlainCalls(calls)
    ensures Placed(Run(l, calls))
  {
    if calls != [] {
      var before := Run(l, calls[..|calls| - 1]);
      RunPlaces(l, calls[..|calls| - 1]);
      match calls[|calls| - 1]
      case Route(tx, now) =>
      case Process(block) =>
        MovedArrive(before.pending, block, |l.pools|);
        MovedAreAddressed(before.pending, block, |l.pools|);
        DeliverPlaces(before.pools, Moved(before.pending, block));
    }
  }

  // ---------- reassigning validators ----------

  datatype Roster = Roster(count: nat, validators: seq<seq<ValidatorId>>)

  /** A call that shuffles has a choice for every position. */
  ghost predicate CanReassign(r: Roster, draws: seq<nat>) {
    |r.validators| > 0 && (r.count >= |r.validators| ==> Draws(draws, |Flatten(r.validators)|))
  }

  /** Only every so many calls shuffle: the others count. */
  ghost function Reassigned(r: Roster, draws: seq<nat>): (after: Roster)
    requires CanReassign(r, draws)
    ensures |after.validators| == |r.validators|
  {
    if r.count >= |r.validators| then Roster(0, Deal(Shuffled(Flatten(r.validators), draws), |r.validators|))
    else r.(count := r.count + 1)
  }

  /** As many calls as there are shards only count up by one; the next one starts over at 0 and
      deals the shuffled roster out, the i-th shard getting the i-th part of it. */
  lemma ReassignedExactly(r: Roster, draws: seq<nat>, i: nat)
    requires CanReassign(r, draws) && i < |r.validators|
    ensures r.count < |r.validators| ==> Reassigned(r, draws) == Roster(r.count + 1, r.validators)
    ensures r.count >= |r.validators| ==>
              var all, size := Flatten(r.validators), |Flatten(r.validators)| / |r.validators|;
              0 <= i * size <= (i + 1) * size <= |Shuffled(all, draws)| == |all| &&
              Reassigned(r, draws).count == 0 &&
              Reassigned(r, draws).validators[i] == Shuffled(all, draws)[i * size..(i + 1) * size]
  {
    if r.count >= |r.validators| {
      var all, n := Flatten(r.validators), |r.validators|;
      ShuffledPermutes(all, draws);
      assert |multiset(Shuffled(all, draws))| == |Shuffled(all, draws)| && |multiset(all)| == |all|;
      Quotient(|all|, n);
      SliceAt(Shuffled(all, draws), |all| / n, n, i);
    }
  }

  ghost predicate Possible(r: Roster, calls: seq<seq<nat>>)
    decreases |calls|
  {
    calls == [] || (CanReassign(r, calls[0]) && Possible(Reassigned(r, calls[0]), calls[1..]))
  }

  ghost function RosterAfter(r: Roster, calls: seq<seq<nat>>): (after: Roster)
    requires Possible(r, calls)
    ensures |after.validators| == |r.validators|
    decreases |calls|
  {
    if calls == [] then r else RosterAfter(Reassigned(r, calls[0]), calls[1..])
  }

  function Everyone(r: Roster): multiset<ValidatorId> {
    multiset(Flatten(r.validators))
  }

  lemma SmallerBy<T>(part: multiset<T>, left: multiset<T>, whole: multiset<T>)
    requires part + left == whole
    ensures part <= whole && |part| == |whole| - |left|
  {}

  lemma MultipleLeft(length: nat, n: nat)
    requires n > 0
    ensures (length - length % n) % n == 0
  {
    Arithmetic.DivModUnique(length - length % n, n, length / n, 0);
  }

  lemma ReassigningLoses(r: Roster, draws: seq<nat>)
    requires CanReassign(r, draws)
    ensures Everyone(Reassigned(r, draws)) <= Everyone(r)
    ensures |Everyone(Reassigned(r, draws))| in {|Everyone(r)|, |Everyone(r)| - |Everyone(r)| % |r.validators|}
  {
    if r.count >= |r.validators| {
      var left := DealLeavesOut(Flatten(r.validators), draws, |r.validators|);
      SmallerBy(Everyone(Reassigned(r, draws)), multiset(left), Everyone(r));
    }
  }

  /** Reassignment never duplicates a validator, and over any number of calls at most
      length mod n of them are lost: only the first shuffle can lose any. */
  lemma {:induction false} ShufflesLose(r: Roster, calls: seq<seq<nat>>)
    requires Possible(r, calls) && |r.validators| > 0
    ensures Everyone(RosterAfter(r, calls)) <= Everyone(r)
    ensures |Everyone(RosterAfter(r, calls))| in {|Everyone(r)|, |Everyone(r)| - |Everyone(r)| % |r.validators|}
    decreases |calls|
  {
    if calls != [] {
      ReassigningLoses(r, calls[0]);
      ShufflesLose(Reassigned(r, calls[0]), calls[1..]);
      MultipleLeft(|Everyone(r)|, |r.validators|);
    }
  }

  lemma EqualBySize<T>(part: multiset<T>, whole: multiset<T>)
    requires part <= whole && |part| == |whole|
    ensures part == whole
  {
    SmallerBy(part, whole - part, whole);
  }

  /** A roster that divides evenly keeps everyone for ever. */
  lemma EvenRosterKeepsAll(r: Roster, calls: seq<seq<nat>>)
    requires Possible(r, calls) && |r.validators| > 0 && |Everyone(r)| % |r.validators| == 0
    ensures Everyone(RosterAfter(r, calls)) == Everyone(r)
  {
    ShufflesLose(r, calls);
    EqualBySize(Everyone(RosterAfter(r, calls)), Everyone(r));
  }

  // ---------- the classes ----------

  class Shard {
    const shardId: nat
    var transactionPool: seq<Transaction>
    var validators: seq<ValidatorId>

    constructor (shardId: nat, validators: seq<ValidatorId>)
      ensures this.shardId == shardId && this.validators == validators && transactionPool == []
    {
      this.shardId, this.validators, transactionPool := shardId, validators, [];
    }

    method AddTransaction(tx: Transaction)
      modifies this`transactionPool
      ensures transactionPool == AddToPool(old(transactionPool), tx)
    {
      if !Holds(transactionPool, tx.id) {
        transactionPool := transactionPool + [tx];
      }
    }
  }

  class ShardingManager {
    const totalShards: nat
    var shards: seq<Shard>
    var crossShardTransactions: seq<Transaction>
    var crossShardShuffleCount: nat

    ghost var ledger: Ledger   // what the pools and the pending list hold
    ghost var roster: Roster   // which validators each shard has

    ghost predicate Distinguished()
      reads this
    {
      totalShards > 0 && |shards| == totalShards && Distinct(shards) &&
      |ledger.pools| == totalShards && |roster.validators| == totalShards
    }

    /** The two ghost fields are what the shards and the other fields hold. */
    ghost predicate Valid()
      reads this, shards
    {
      Distinguished() && Ready(ledger) && ledger.pending == crossShardTransactions &&
      roster.count == crossShardShuffleCount &&
      (forall i :: 0 <= i < totalShards ==> shards[i].transactionPool == ledger.pools[i]) &&
      (forall i :: 0 <= i < totalShards ==> shards[i].validators == roster.validators[i])
    }

    /** The constructor and `initialize`.  Without shards there is nowhere to route to. */
    constructor (totalShards: nat)
      ensures totalShards > 0 ==> Valid()
      ensures this.totalShards == totalShards == |shards| && fresh(shards) && crossShardTransactions == []
      ensures ledger == Ledger(seq(totalShards, _ => []), []) && roster == Roster(0, seq(totalShards, _ => []))
    {
      this.totalShards := totalShards;
      shards, crossShardTransactions, crossShardShuffleCount := [], [], 0;
      ledger, roster := Ledger(seq(totalShards, _ => []), []), Roster(0, seq(totalShards, _ => []));
      new;
      for i := 0 to totalShards
        invariant |shards| == i && Distinct(shards) && fresh(shards)
        invariant forall j :: 0 <= j < i ==> shards[j].transactionPool == [] && shards[j].validators == []
        invariant crossShardTransactions == [] && crossShardShuffleCount == 0
        invariant ledger == Ledger(seq(totalShards, _ => []), []) && roster == Roster(0, seq(totalShards, _ => []))
      {
        var shard := new Shard(i, []);
        shards := shards + [shard];
      }
    }

    method DetermineShard(id: Id) returns (shard: nat)
      requires totalShards > 0
      ensures shard == ShardOf(id, totalShards)
      ensures shard == StringHash.Abs(StringHash.ToInt32(StringHash.Polynomial(id))) % totalShards
    {
      var hash := StringHash.Hash(id);
      shard := hash % totalShards;
    }

    method RouteTransaction(tx: Transaction, now: real) returns (shardId: nat, crossed: bool)
      requires Valid()
      modifies this`crossShardTransactions, this`ledger, shards
      ensures Valid() && ledger == Routed(old(ledger), tx, now)
      ensures shardId == ShardOf(tx.id, totalShards) && (crossed <==> ShardOf(tx.receiver, totalShards) != shardId)
    {
      var stamped := tx.(timestamp := now);
      shardId := DetermineShard(tx.id);
      var destination := DetermineShard(tx.receiver);
      crossed := shardId != destination;
      if !crossed {
        AddTo(shardId, stamped);
      } else {
        AddPending(stamped.(crossing := Some(Crossing(shardId, destination, false))));
      }
    }

    /** One shard's pool changes, and nothing else does. */
    method AddTo(i: nat, tx: Transaction)
      requires Valid() && i < totalShards
      modifies this`ledger, shards
      ensures Valid() && ledger == old(ledger).(pools := old(ledger).pools[i := AddToPool(old(ledger).pools[i], tx)])
    {
      shards[i].AddTransaction(tx);
      ledger := ledger.(pools := ledger.pools[i := AddToPool(ledger.pools[i], tx)]);
    }

    method AddPending(tx: Transaction)
      requires Valid() && Waiting(tx, totalShards)
      modifies this`crossShardTransactions, this`ledger
      ensures Valid() && ledger == old(ledger).(pending := old(ledger).pending + [tx])
    {
      crossShardTransactions := crossShardTransactions + [tx];
      ledger := ledger.(pending := crossShardTransactions);
    }

    /** `splice(i, 1)`. */
    method RemovePending(i: nat)
      requires Valid() && i < |crossShardTransactions|
      modifies this`crossShardTransactions, this`ledger
      ensures Valid() && ledger == old(ledger).(pending := old(ledger).pending[..i] + old(ledger).pending[i + 1..])
    {
      crossShardTransactions := crossShardTransactions[..i] + crossShardTransactions[i + 1..];
      ledger := ledger.(pending := crossShardTransactions);
    }

    method ProcessCrossShardTransactions(block: int) returns (processed: seq<Transaction>)
      requires Valid()
      modifies this`crossShardTransactions, this`ledger, shards
      ensures Valid() && ledger == Processed(old(ledger), block) && processed == Moved(old(ledger).pending, block)
    {
      ghost var start := ledger;
      processed := [];
      var i := |crossShardTransactions| - 1;
      while i >= 0
        invariant -1 <= i < |start.pending| && Valid() && Walked(start, i + 1, block, ledger, processed)
      {
        var tx := crossShardTransactions[i];
        if Due(tx, block) {
          WalkMoves(start, i, block, ledger, processed, tx.crossing.value.destination);
          AddTo(tx.crossing.value.destination, Finished(tx));
          processed := processed + [Finished(tx)];
          RemovePending(i);
        }
        i := i - 1;
      }
      assert start.pending[0..] == start.pending;
    }

    method ShuffleValidators(draws: seq<nat>)
      requires Valid() && CanReassign(roster, draws)
      modifies this`crossShardShuffleCount, this`roster, shards
      ensures Valid() && roster == Reassigned(old(roster), draws)
    {
      if crossShardShuffleCount >= totalShards {
        var all := AllValidators();
        var shuffled := ShuffleArray(all, draws);
        AssignSlices(shuffled[..]);
      } else {
        crossShardShuffleCount := crossShardShuffleCount + 1;
        roster := roster.(count := crossShardShuffleCount);
      }
    }

    method AllValidators() returns (all: seq<ValidatorId>)
      requires Valid()
      ensures all == Flatten(roster.validators)
    {
      all := [];
      for i := 0 to |shards|
        invariant all == Flatten(roster.validators[..i])
      {
        assert roster.validators[..i + 1][..i] == roster.validators[..i];
        all := all + shards[i].validators;
      }
      assert roster.validators[..|shards|] == roster.validators;
    }

    method AssignSlices(shuffled: seq<ValidatorId>)
      requires Valid()
      modifies this`crossShardShuffleCount, this`roster, shards
      ensures Valid() && roster == Roster(0, Deal(shuffled, totalShards))
    {
      crossShardShuffleCount := 0;
      Quotient(|shuffled|, totalShards);
      var perShard := |shuffled| / totalShards;
      ghost var shares := Deal(shuffled, totalShards);
      roster := Roster(0, shares);
      for i := 0 to totalShards
        invariant roster == Roster(0, shares) && shares == Deal(shuffled, totalShards) && crossShardShuffleCount == 0
        invariant forall j :: 0 <= j < i ==> shards[j].validators == shares[j]
        invariant forall j :: 0 <= j < totalShards ==> shards[j].transactionPool == ledger.pools[j]
      {
        SliceAt(shuffled, perShard, totalShards, i);
        shards[i].validators := shuffled[i * perShard..(i + 1) * perShard];
      }
    }
  }
}
