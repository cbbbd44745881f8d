/**
 Fork detection and resolution (src/core/fork.js).

 The handler expects its own block interface; `Fields` and `validate` stand for it.
 `SharedOnlyInPrefix` says that what `detect_fork` calls the common ancestor really is
 the last thing two linked chains share; `RunKeepsGenesis` and `RunGains` are about any
 run of resolutions, and `MapIsInverse` about the rebuilt hash map.
 */
module Fork {
  import opened Wrappers

  datatype Fields = Fields(index: int, previousHash: string, timestamp: real, difficulty: int, body: string)

  datatype Block = Block(fields: Fields, hash: string)

  datatype Strategy = LongestChain | CumulativeDifficulty | LatestTimestamp

  datatype ForkInfo = ForkInfo(
    commonAncestorIndex: nat, commonAncestorHash: string, localForkLength: nat, peerForkLength: nat,
    detectionTime: real)

  // ---------- detection ----------

  /** The number of leading positions at which the hashes agree. */
  function CommonPrefix(a: seq<Block>, b: seq<Block>): (n: nat)
    ensures n <= |a| && n <= |b|
    ensures forall i :: 0 <= i < n ==> a[i].hash == b[i].hash
    ensures n < |a| && n < |b| ==> a[n].hash != b[n].hash
  {
    if a == [] || b == [] || a[0].hash != b[0].hash then 0 else 1 + CommonPrefix(a[1..], b[1..])
  }

  function Detect(local: seq<Block>, peer: seq<Block>, threshold: int, now: real): Option<ForkInfo> {
    var common := CommonPrefix(local, peer);
    if |peer| < 2 || |local| < 2 || common == 0 || common == |local| || common == |peer| then None
    else if |local| - common >= threshold || |peer| - common >= threshold then
      Some(ForkInfo(common - 1, local[common - 1].hash, |local| - common, |peer| - common, now))
    else None
  }

  // ---------- linked chains ----------

  predicate LinkedTo(b: Block, previous: Block, validate: Block -> bool) {
    b.fields.index == previous.fields.index + 1 && b.fields.previousHash == previous.hash && validate(b)
  }

  /** `_is_chain_valid`; the first block is not looked at. */
  predicate Linked(chain: seq<Block>, validate: Block -> bool) {
    forall i :: 1 <= i < |chain| ==> LinkedTo(chain[i], chain[i - 1], validate)
  }

  /** Every block carries the hash of its fields. */
  predicate Sealed(chain: seq<Block>, h: Fields -> string) {
    forall i :: 0 <= i < |chain| ==> chain[i].hash == h(chain[i].fields)
  }

  /** The hash tells the blocks of the two chains apart. */
  predicate Separates(h: Fields -> string, a: seq<Block>, b: seq<Block>) {
    forall i, j :: 0 <= i < |a| && 0 <= j < |b| && h(a[i].fields) == h(b[j].fields) ==> a[i].fields == b[j].fields
  }

  lemma {:induction false} IndexAt(chain: seq<Block>, validate: Block -> bool, i: nat)
    requires Linked(chain, validate) && i < |chain|
    ensures chain[i].fields.index == chain[0].fields.index + i
  {
    if i > 0 {
      IndexAt(chain, validate, i - 1);
      assert LinkedTo(chain[i], chain[i - 1], validate);
    }
  }

  /** A hash shared at one position is shared at every position below. */
  lemma {:induction false} SharedBelow(a: seq<Block>, b: seq<Block>, validate: Block -> bool, h: Fields -> string,
                                       i: nat, k: nat)
    requires Linked(a, validate) && Linked(b, validate) && Sealed(a, h) && Sealed(b, h) && Separates(h, a, b)
    requires k <= i < |a| && i < |b| && a[i].hash == b[i].hash
    ensures a[k].hash == b[k].hash
    decreases i
  {
    if k < i {
      assert a[i].fields == b[i].fields;
      assert LinkedTo(a[i], a[i - 1], validate) && LinkedTo(b[i], b[i - 1], validate);
      SharedBelow(a, b, validate, h, i - 1, k);
    }
  }

  /** Two linked chains with a common first block share a hash only at equal positions of
      the common prefix: after it, never again. */
  lemma SharedOnlyInPrefix(a: seq<Block>, b: seq<Block>, validate: Block -> bool, h: Fields -> string, i: nat, j: nat)
    requires Linked(a, validate) && Linked(b, validate) && Sealed(a, h) && Sealed(b, h) && Separates(h, a, b)
    requires CommonPrefix(a, b) > 0 && i < |a| && j < |b|
    ensures a[i].hash == b[j].hash <==> i == j < CommonPrefix(a, b)
  {
    if a[i].hash == b[j].hash {
      IndexAt(a, validate, i);
      IndexAt(b, validate, j);
      assert a[0].fields == b[0].fields && a[i].fields == b[j].fields;
      if i >= CommonPrefix(a, b) {
        SharedBelow(a, b, validate, h, i, CommonPrefix(a, b));
      }
    }
  }

  // ---------- resolution ----------

  function TotalDifficulty(chain: seq<Block>): int {
    if chain == [] then 0 else TotalDifficulty(chain[..|chain| - 1]) + chain[|chain| - 1].fields.difficulty
  }

  /** What the strategy compares. */
  function Measure(strategy: Strategy, chain: seq<Block>): real
    requires chain != []
  {
    match strategy
    case LongestChain => |chain| as real
    case CumulativeDifficulty => TotalDifficulty(chain) as real
    case LatestTimestamp => chain[|chain| - 1].fields.timestamp
  }

  /** The peer's chain replaces the local one. */
  predicate Replaces(local: seq<Block>, peer: seq<Block>, strategy: Strategy, threshold: int, validate: Block -> bool)
  {
    Detect(local, peer, threshold, 0.0).Some? && Measure(strategy, peer) > Measure(strategy, local) &&
    Linked(peer, validate)
  }

  /** The hash map of a chain: the last block with each hash. */
  function HashMap(chain: seq<Block>): (m: map<string, Block>)
    ensures forall i :: 0 <= i < |chain| ==> chain[i].hash in m
    ensures forall x :: x in m ==> m[x] in chain && m[x].hash == x
  {
    if chain == [] then map[]
    else
      var init, last := chain[..|chain| - 1], chain[|chain| - 1];
      HashMap(init)[last.hash := last]
  }

  /** On a linked chain whose blocks the hash tells apart, the map gives every block back. */
  lemma MapIsInverse(chain: seq<Block>, validate: Block -> bool, h: Fields -> string, i: nat)
    requires Linked(chain, validate) && Sealed(chain, h) && Separates(h, chain, chain) && i < |chain|
    ensures chain[i].hash in HashMap(chain) && HashMap(chain)[chain[i].hash] == chain[i]
  {
    var found := HashMap(chain)[chain[i].hash];
    var j :| 0 <= j < |chain| && chain[j] == found;
    IndexAt(chain, validate, i);
    IndexAt(chain, validate, j);
  }

  // ---------- whole runs ----------

  datatype Offer = Offer(peer: seq<Block>, strategy: Strategy, threshold: int)

  function Step(chain: seq<Block>, offer: Offer, validate: Block -> bool): seq<Block> {
    if Replaces(chain, offer.peer, offer.strategy, offer.threshold, validate) then offer.peer else chain
  }

  function Run(chain: seq<Block>, offers: seq<Offer>, validate: Block -> bool): seq<Block> {
    if offers == [] then chain
    else Step(Run(chain, offers[..|offers| - 1], validate), offers[|offers| - 1], validate)
  }

  /** Whatever is offered, under whatever strategies: the genesis hash never changes, and
      a linked chain is only ever replaced by a linked one. */
  lemma {:induction false} RunKeepsGenesis(chain: seq<Block>, offers: seq<Offer>, validate: Block -> bool)
    requires chain != [] && Linked(chain, validate)
    ensures var after := Run(chain, offers, validate);
            after != [] && after[0].hash == chain[0].hash && Linked(after, validate)
  {
    if offers != [] {
      RunKeepsGenesis(chain, offers[..|offers| - 1], validate);
    }
  }

  /** Under one strategy its measure never falls, and grows with every replacement. */
  lemma {:induction false} RunGains(chain: seq<Block>, offers: seq<Offer>, validate: Block -> bool, strategy: Strategy)
    requires chain != [] && Linked(chain, validate)
    requires forall i :: 0 <= i < |offers| ==> offers[i].strategy == strategy
    ensures Run(chain, offers, validate) != []
    ensures Measure(strategy, chain) <= Measure(strategy, Run(chain, offers, validate))
    ensures Run(chain, offers, validate) != chain ==>
            Measure(strategy, chain) < Measure(strategy, Run(chain, offers, validate))
  {
    if offers != [] {
      RunKeepsGenesis(chain, offers[..|offers| - 1], validate);
      RunGains(chain, offers[..|offers| - 1], validate, strategy);
    }
  }

  // ---------- the classes ----------

  /** What the handler uses of its blockchain. */
  class Ledger {
    var chain: seq<Block>
    var blockHashMap: map<string, Block>

    constructor (chain: seq<Block>)
      ensures this.chain == chain && blockHashMap == HashMap(chain)
    {
      this.chain := chain;
      this.blockHashMap := HashMap(chain);
    }
  }

  /** The scanning loop of `detect_fork`. */
  method CommonAncestor(chain: seq<Block>, peer: seq<Block>, minLength: nat) returns (common: Option<nat>)
    requires minLength <= |chain| && minLength <= |peer| && (minLength == |chain| || minLength == |peer|)
    ensures common == if CommonPrefix(chain, peer) == 0 then None else Some(CommonPrefix(chain, peer) - 1)
  {
    common := None;
    for i := 0 to minLength
      invariant common == if i == 0 then None else Some(i - 1)
      invariant forall k :: 0 <= k < i ==> chain[k].hash == peer[k].hash
    {
      if chain[i].hash == peer[i].hash {
        common := Some(i);
      } else {
        assert CommonPrefix(chain, peer) == i;
        break;
      }
    }
  }

  /** The comparison that the three strategies start with. */
  method IsBetter(peer: seq<Block>, local: seq<Block>, strategy: Strategy) returns (better: bool)
    requires peer != [] && local != []
    ensures better <==> Measure(strategy, peer) > Measure(strategy, local)
  {
    match strategy {
      case LongestChain => better := |peer| > |local|;
      case CumulativeDifficulty => better := TotalDifficulty(peer) > TotalDifficulty(local);
      case LatestTimestamp => better := peer[|peer| - 1].fields.timestamp > local[|local| - 1].fields.timestamp;
    }
  }

  class ForkHandler {
    const blockchain: Ledger
    const validate: Block -> bool
    var threshold: int
    var strategy: Strategy
    var forks: seq<ForkInfo>

    constructor (blockchain: Ledger, validate: Block -> bool, threshold: int, strategy: Strategy)
      ensures this.blockchain == blockchain && this.validate == validate
      ensures this.threshold == threshold && this.strategy == strategy && forks == []
    {
      this.blockchain, this.validate := blockchain, validate;
      this.threshold, this.strategy, this.forks := threshold, strategy, [];
    }

    method DetectFork(peer: seq<Block>, now: real) returns (detected: bool)
      modifies this`forks
      ensures var info := Detect(blockchain.chain, peer, threshold, now);
              detected == info.Some? && forks == if detected then old(forks) + [info.value] else old(forks)
    {
      var chain := blockchain.chain;
      if |peer| < 2 || |chain| < 2 {
        return false;
      }
      var minLength := if |chain| <= |peer| then |chain| else |peer|;
      var commonAncestor := CommonAncestor(chain, peer, minLength);
      if commonAncestor.Some? && commonAncestor.value < minLength - 1 {
        var common := commonAncestor.value;
        var localLength, peerLength := |chain| - common - 1, |peer| - common - 1;
        if localLength >= threshold || peerLength >= threshold {
          forks := forks + [ForkInfo(common, chain[common].hash, localLength, peerLength, now)];
          return true;
        }
      }
      return false;
    }

    method ResolveFork(peer: seq<Block>, now: real) returns (replaced: bool)
      requires blockchain.chain != []
      modifies this`forks, blockchain
      ensures blockchain.chain == Step(old(blockchain.chain), Offer(peer, strategy, threshold), validate)
      ensures replaced <==> Replaces(old(blockchain.chain), peer, strategy, threshold, validate)
      ensures blockchain.blockHashMap == if replaced then HashMap(blockchain.chain) else old(blockchain.blockHashMap)
      ensures var info := Detect(old(blockchain.chain), peer, threshold, now);
              forks == if info.Some? then old(forks) + [info.value] else old(forks)
    {
      var detected := DetectFork(peer, now);
      if !detected {
        return false;
      }
      var better := IsBetter(peer, blockchain.chain, strategy);
      if !better {
        return false;
      }
      var valid := IsChainValid(peer);
      if !valid {
        return false;
      }
      blockchain.chain := peer;
      UpdateBlockHashMap();
      return true;
    }

    method IsChainValid(chain: seq<Block>) returns (valid: bool)
      ensures valid <==> Linked(chain, validate)
    {
      var i := 1;
      while i < |chain|
        invariant i >= 1 && forall j :: 1 <= j < i && j < |chain| ==> LinkedTo(chain[j], chain[j - 1], validate)
      {
        var current, previous := chain[i], chain[i - 1];
        if current.fields.index != previous.fields.index + 1 {
          return false;
        }
        if current.fields.previousHash != previous.hash {
          return false;
        }
        if !validate(current) {
          return false;
        }
        i := i + 1;
      }
      return true;
    }

    method UpdateBlockHashMap()
      modifies blockchain`blockHashMap
      ensures blockchain.blockHashMap == HashMap(blockchain.chain)
    {
      blockchain.blockHashMap := map[];
      for i := 0 to |blockchain.chain|
        invariant blockchain.blockHashMap == HashMap(blockchain.chain[..i])
      {
        var block := blockchain.chain[i];
        assert blockchain.chain[..i + 1][..i] == blockchain.chain[..i];
        blockchain.blockHashMap := blockchain.blockHashMap[block.hash := block];
      }
      assert blockchain.chain[..|blockchain.chain|] == blockchain.chain;
    }
  }
}
