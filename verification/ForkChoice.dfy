/**
 Which peer chain a node takes (src/core/fork.js), in terms of the chains alone.

 `TakenExactly` says it for one offer under each of the three strategies, and `RunGrows`
 what it means over any run: the chain gets strictly longer, harder or later each time.
 */
module ForkChoice {
  import opened Runs
  import opened Wrappers

  import opened Fork

  // ---------- what counts as a fork ----------

  /** Position c is the last that the chains share, and both go on after it. */
  ghost predicate PartAfter(local: seq<Block>, peer: seq<Block>, c: nat) {
    c + 1 < |local| && c + 1 < |peer| && (forall i :: 0 <= i <= c ==> local[i].hash == peer[i].hash) &&
    local[c + 1].hash != peer[c + 1].hash
  }

  lemma PartsAtPrefix(local: seq<Block>, peer: seq<Block>, c: nat)
    ensures PartAfter(local, peer, c) <==>
            CommonPrefix(local, peer) == c + 1 && c + 1 < |local| && c + 1 < |peer|
  {
  }

  /** A fork is reported just when one of the two branches after the last shared block is as
      long as the threshold, and the report gives that block and both lengths. */
  lemma DetectedExactly(local: seq<Block>, peer: seq<Block>, threshold: int, now: real, c: nat)
    requires c < |local| && c < |peer|
    ensures PartAfter(local, peer, c) && (|local| - 1 - c >= threshold || |peer| - 1 - c >= threshold)
       <==> Detect(local, peer, threshold, now) ==
            Some(ForkInfo(c, local[c].hash, |local| - 1 - c, |peer| - 1 - c, now))
  {
    PartsAtPrefix(local, peer, c);
  }

  ghost predicate Forked(local: seq<Block>, peer: seq<Block>, threshold: int) {
    exists c: nat :: PartAfter(local, peer, c) && (|local| - 1 - c >= threshold || |peer| - 1 - c >= threshold)
  }

  lemma ForkedExactly(local: seq<Block>, peer: seq<Block>, threshold: int, now: real)
    ensures Detect(local, peer, threshold, now).Some? <==> Forked(local, peer, threshold)
  {
    var found := Detect(local, peer, threshold, now);
    if found.Some? {
      DetectedExactly(local, peer, threshold, now, found.value.commonAncestorIndex);
    }
    if Forked(local, peer, threshold) {
      var c: nat :| PartAfter(local, peer, c) && (|local| - 1 - c >= threshold || |peer| - 1 - c >= threshold);
      DetectedExactly(local, peer, threshold, now, c);
    }
  }

  // ---------- what each strategy compares ----------

  /** The difficulties from position i on, added up. */
  function DifficultyFrom(chain: seq<Block>, i: nat): int
    requires i <= |chain|
    decreases |chain| - i
  {
    if i == |chain| then 0 else chain[i].fields.difficulty + DifficultyFrom(chain, i + 1)
  }

  lemma {:induction false} DifficultyAppends(chain: seq<Block>, b: Block, i: nat)
    requires i <= |chain|
    ensures DifficultyFrom(chain + [b], i) == DifficultyFrom(chain, i) + b.fields.difficulty
    decreases |chain| - i
  {
    if i < |chain| {
      DifficultyAppends(chain, b, i + 1);
    } else {
      assert DifficultyFrom(chain + [b], i) == b.fields.difficulty + DifficultyFrom(chain + [b], i + 1);
    }
  }

  lemma {:induction false} DifficultyAddsUp(chain: seq<Block>)
    ensures TotalDifficulty(chain) == DifficultyFrom(chain, 0)
  {
    if chain != [] {
      var init := chain[..|chain| - 1];
      DifficultyAddsUp(init);
      DifficultyAppends(init, chain[|chain| - 1], 0);
      assert init + [chain[|chain| - 1]] == chain;
    }
  }

  // ---------- one offer ----------

  /** The three comparisons, each in its own terms. */
  ghost predicate Beats(strategy: Strategy, peer: seq<Block>, local: seq<Block>)
    requires peer != [] && local != []
  {
    match strategy
    case LongestChain => |peer| > |local|
    case CumulativeDifficulty => DifficultyFrom(peer, 0) > DifficultyFrom(local, 0)
    case LatestTimestamp => peer[|peer| - 1].fields.timestamp > local[|local| - 1].fields.timestamp
  }

  /** The peer's chain is taken if and only if there is a fork, the peer's is better under
      the strategy, and every block of it but the first fits on the one before. */
  lemma TakenExactly(local: seq<Block>, peer: seq<Block>, strategy: Strategy, threshold: int, validate: Block -> bool)
    requires local != [] && peer != []
    ensures Replaces(local, peer, strategy, threshold, validate) <==>
              Forked(local, peer, threshold) &&
              (strategy.LongestChain? ==> |peer| > |local|) &&
              (strategy.CumulativeDifficulty? ==> DifficultyFrom(peer, 0) > DifficultyFrom(local, 0)) &&
              (strategy.LatestTimestamp? ==>
                 peer[|peer| - 1].fields.timestamp > local[|local| - 1].fields.timestamp) &&
              forall i :: 1 <= i < |peer| ==>
                peer[i].fields.index == peer[i - 1].fields.index + 1 &&
                peer[i].fields.previousHash == peer[i - 1].hash && validate(peer[i])
    ensures Step(local, Offer(peer, strategy, threshold), validate) ==
            if Replaces(local, peer, strategy, threshold, validate) then peer else local
  {
    ForkedExactly(local, peer, threshold, 0.0);
    DifficultyAddsUp(local);
    DifficultyAddsUp(peer);
    if Linked(peer, validate) {
      forall i | 1 <= i < |peer|
        ensures peer[i].fields.index == peer[i - 1].fields.index + 1 &&
                peer[i].fields.previousHash == peer[i - 1].hash && validate(peer[i])
      {
        assert LinkedTo(peer[i], peer[i - 1], validate);
      }
    }
  }

  // ---------- whole runs ----------

  lemma StepBeats(chain: seq<Block>, offer: Offer, validate: Block -> bool)
    requires chain != []
    ensures var after := Step(chain, offer, validate);
            after != [] && (after == chain || Beats(offer.strategy, after, chain))
  {
    if offer.peer != [] {
      TakenExactly(chain, offer.peer, offer.strategy, offer.threshold, validate);
    } else {
      ForkedExactly(chain, offer.peer, offer.threshold, 0.0);
    }
  }

  /** The same chain as before, or a better one. */
  ghost predicate NoWorse(strategy: Strategy, before: seq<Block>, now: seq<Block>)
    requires before != []
  {
    now != [] && (now == before || Beats(strategy, now, before))
  }

  lemma StaysNoWorse(before: seq<Block>, now: seq<Block>, offer: Offer, validate: Block -> bool)
    requires before != [] && NoWorse(offer.strategy, before, now)
    ensures NoWorse(offer.strategy, before, Step(now, offer, validate))
  {
    StepBeats(now, offer, validate);
  }

  lemma RunNext(chain: seq<Block>, offers: seq<Offer>, validate: Block -> bool, n: nat)
    requires n < |offers|
    ensures Run(chain, offers[..n + 1], validate) == Step(Run(chain, offers[..n], validate), offers[n], validate)
  {
    assert offers[..n + 1][..n] == offers[..n];
  }

  lemma {:induction false} RunNonEmpty(chain: seq<Block>, offers: seq<Offer>, validate: Block -> bool)
    requires chain != []
    ensures Run(chain, offers, validate) != []
  {
    if offers != [] {
      RunNonEmpty(chain, offers[..|offers| - 1], validate);
      StepBeats(Run(chain, offers[..|offers| - 1], validate), offers[|offers| - 1], validate);
    }
  }

  /** Between any two moments of a run under one strategy the chain is the same, or strictly
      longer, strictly harder in total, or ends strictly later. */
  lemma RunGrows(chain: seq<Block>, offers: seq<Offer>, validate: Block -> bool, strategy: Strategy, m: nat, n: nat)
    requires chain != [] && m <= n <= |offers|
    requires forall i :: 0 <= i < |offers| ==> offers[i].strategy == strategy
    ensures var before, after := Run(chain, offers[..m], validate), Run(chain, offers[..n], validate);
            before != [] && after != [] && (after == before || Beats(strategy, after, before))
  {
    var before := Run(chain, offers[..m], validate);
    RunNonEmpty(chain, offers[..m], validate);
    var state := (prefix: seq<Offer>) => Run(chain, prefix, validate);
    var promise := (now: seq<Block>) => NoWorse(strategy, before, now);
    forall k | m <= k < n
      ensures Carries(state, promise, offers, k)
    {
      RunNext(chain, offers, validate, k);
      var now := Run(chain, offers[..k], validate);
      if promise(now) {
        StaysNoWorse(before, now, offers[k], validate);
      }
    }
    PromiseCarried(state, promise, offers, m, n);
  }
}
