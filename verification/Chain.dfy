/**
 Blocks and the full node's chain (src/core/block.js, src/core/blockchain.js).

 The digest and the JSON text of a header are parameters (`Hashing`).  The chain's
 operations keep it valid in every run (`RunStaysValid`).
 */
module Chain {
  import opened Digests
  import opened Merkle
  import opened Wrappers

  /** The fields that `calculateHash` puts into the hashed JSON text. */
  datatype Fields = Fields(
    index: int, timestamp: real, txRoot: string, stateRoot: string, receiptRoot: string,
    previousHash: string, nonce: int, validator: Option<string>, difficulty: int)

  /** A header with the hash it claims. */
  datatype Header = Header(fields: Fields, hash: string)

  datatype Tx = Tx(id: string, json: string, valid: bool)

  datatype Block = Block(header: Header, transactions: seq<Tx>)

  datatype Hashing = Hashing(sha: string -> string, encode: Fields -> string) {
    function Hash(f: Fields): string {
      sha(encode(f))
    }
  }

  // ---------- a block ----------

  function JsonTexts(txs: seq<Tx>): seq<string> {
    seq(|txs|, i requires 0 <= i < |txs| => txs[i].json)
  }

  function TxRoot(h: Hashing, txs: seq<Tx>): string {
    if txs == [] then ZERO_HASH else Root(Sha(h.sha), Leaves(Sha(h.sha), JsonTexts(txs)))
  }

  datatype BlockError =
    | BadHash
    | BadIndex
    | BadPreviousHash
    | InvalidTransaction(id: string)
    | BadTxRoot
    | BadTimestamp
    | BadDifficulty

  function InvalidTransactions(txs: seq<Tx>): seq<BlockError> {
    if txs == [] then []
    else (if txs[0].valid then [] else [InvalidTransaction(txs[0].id)]) + InvalidTransactions(txs[1..])
  }

  /** The root is that of the transactions' texts; without transactions it is all zeros. */
  lemma TxRootExactly(h: Hashing, txs: seq<Tx>, texts: seq<string>)
    requires |texts| == |txs| && forall i :: 0 <= i < |txs| ==> texts[i] == txs[i].json
    ensures TxRoot(h, txs) == if txs == [] then ZERO_HASH else Root(Sha(h.sha), Leaves(Sha(h.sha), texts))
  {
    assert JsonTexts(txs) == texts;
  }

  /** One complaint for each invalid transaction, by its id and in order. */
  lemma {:induction false} InvalidExactly(txs: seq<Tx>, tx: Tx)
    ensures InvalidTransactions([]) == []
    ensures InvalidTransactions(txs + [tx])
         == InvalidTransactions(txs) + if tx.valid then [] else [InvalidTransaction(tx.id)]
  {
    if txs == [] {
      assert txs + [tx] == [tx] && [tx][1..] == [];
    } else {
      assert (txs + [tx])[1..] == txs[1..] + [tx];
      InvalidExactly(txs[1..], tx);
    }
  }

  predicate Follows(b: Header, previous: Header) {
    b.fields.index == previous.fields.index + 1 && b.fields.previousHash == previous.hash &&
    previous.fields.timestamp < b.fields.timestamp
  }

  /** What a block must satisfy by itself. */
  predicate Sound(h: Hashing, b: Block) {
    b.header.hash == h.Hash(b.header.fields) && (forall tx :: tx in b.transactions ==> tx.valid) &&
    b.header.fields.txRoot == TxRoot(h, b.transactions) && b.header.fields.difficulty >= 1
  }

  lemma {:induction false} NoInvalidTransactions(txs: seq<Tx>)
    ensures InvalidTransactions(txs) == [] <==> forall tx :: tx in txs ==> tx.valid
  {
    if txs != [] {
      NoInvalidTransactions(txs[1..]);
      assert txs == [txs[0]] + txs[1..];
    }
  }

  /** `Block.validate`: the list of errors, empty exactly for a sound block that follows
      the previous one, if there is one. */
  method Validate(h: Hashing, b: Block, previous: Option<Block>) returns (errors: seq<BlockError>)
    ensures errors == [] <==> Sound(h, b) && (previous.Some? ==> Follows(b.header, previous.value.header))
    ensures errors == [] <==>
              b.header.hash == h.sha(h.encode(b.header.fields)) && (forall tx :: tx in b.transactions ==> tx.valid) &&
              b.header.fields.txRoot == TxRoot(h, b.transactions) && b.header.fields.difficulty >= 1 &&
              (previous.Some? ==>
                 b.header.fields.index == previous.value.header.fields.index + 1 &&
                 b.header.fields.previousHash == previous.value.header.hash &&
                 b.header.fields.timestamp > previous.value.header.fields.timestamp)
  {
    errors := [];
    var f := b.header.fields;
    if b.header.hash != h.Hash(f) {
      errors := errors + [BadHash];
    }
    if previous.Some? && f.index != previous.value.header.fields.index + 1 {
      errors := errors + [BadIndex];
    }
    if previous.Some? && f.previousHash != previous.value.header.hash {
      errors := errors + [BadPreviousHash];
    }
    NoInvalidTransactions(b.transactions);
    errors := errors + InvalidTransactions(b.transactions);
    if f.txRoot != TxRoot(h, b.transactions) {
      errors := errors + [BadTxRoot];
    }
    if previous.Some? && f.timestamp <= previous.value.header.fields.timestamp {
      errors := errors + [BadTimestamp];
    }
    if f.difficulty < 1 {
      errors := errors + [BadDifficulty];
    }
  }

  // ---------- a chain ----------

  predicate ValidChain(h: Hashing, chain: seq<Block>) {
    chain != [] && Sound(h, chain[0]) &&
    forall i :: 1 <= i < |chain| ==> Sound(h, chain[i]) && Follows(chain[i].header, chain[i - 1].header)
  }

  lemma {:induction false} IndicesFollowPositions(h: Hashing, chain: seq<Block>, i: nat)
    requires ValidChain(h, chain) && i < |chain|
    ensures chain[i].header.fields.index == chain[0].header.fields.index + i
  {
    if i > 0 {
      IndicesFollowPositions(h, chain, i - 1);
    }
  }

  // ---------- the class ----------

  function Unconfirmed(mempool: seq<Tx>, confirmed: seq<Tx>): seq<Tx> {
    if mempool == [] then []
    else
      var rest := Unconfirmed(mempool[1..], confirmed);
      if HasId(confirmed, mempool[0].id) then rest else [mempool[0]] + rest
  }

  predicate HasId(txs: seq<Tx>, id: string) {
    exists tx :: tx in txs && tx.id == id
  }

  /** The difficulty after a block arrives: every tenth block compares the time of the
      last ten with the time they should have taken.  `None` is the error thrown when no
      block stands ten positions before the latest block's index. */
  function Retargeted(chain: seq<Block>, difficulty: int, blockTime: real): Option<int>
    requires chain != []
  {
    var latest := chain[|chain| - 1].header.fields;
    if latest.index % 10 == 0 && latest.index > 0 then
      if latest.index - 10 >= |chain| then None
      else
        var elapsed := latest.timestamp - chain[latest.index - 10].header.fields.timestamp;
        if elapsed < blockTime * 10.0 / 2.0 then Some(difficulty + 1)
        else if elapsed > blockTime * 10.0 * 2.0 then Some(if difficulty - 1 > 1 then difficulty - 1 else 1)
        else Some(difficulty)
    else Some(difficulty)
  }

  /** On a valid chain that happens only if the genesis block's index is above ten. */
  lemma RetargetThrowsExactly(h: Hashing, chain: seq<Block>, difficulty: int, blockTime: real)
    requires ValidChain(h, chain)
    ensures var latest := chain[|chain| - 1].header.fields.index;
            Retargeted(chain, difficulty, blockTime).None?
            <==> latest > 0 && latest % 10 == 0 && chain[0].header.fields.index > 10
  {
    IndicesFollowPositions(h, chain, |chain| - 1);
  }

  /** At every tenth index, faster than half of ten block times raises the difficulty by
      one, slower than twice that lowers it by one, to one at the least. */
  lemma RetargetExactly(chain: seq<Block>, difficulty: int, blockTime: real)
    requires chain != []
    ensures var latest := chain[|chain| - 1].header.fields;
            var adjusted := Retargeted(chain, difficulty, blockTime);
            if latest.index <= 0 || latest.index % 10 != 0 then adjusted == Some(difficulty)
            else
              (adjusted.None? <==> latest.index >= |chain| + 10) &&
              (latest.index < |chain| + 10 ==>
                 var elapsed := latest.timestamp - chain[latest.index - 10].header.fields.timestamp;
                 (elapsed < 5.0 * blockTime ==> adjusted == Some(difficulty + 1)) &&
                 (5.0 * blockTime <= elapsed <= 20.0 * blockTime ==> adjusted == Some(difficulty)) &&
                 (elapsed > 20.0 * blockTime && elapsed >= 5.0 * blockTime ==>
                    adjusted.Some? && 1 <= adjusted.value &&
                    (difficulty <= 2 ==> adjusted.value == 1) &&
                    (difficulty > 2 ==> adjusted.value == difficulty - 1)))
  {
  }

  /** n blocks without transactions, the first with index 11. */
  function FromEleven(h: Hashing, n: nat): (chain: seq<Block>)
    requires n > 0
    ensures |chain| == n
  {
    var rest := if n == 1 then [] else FromEleven(h, n - 1);
    var previous := if n == 1 then ZERO_HASH else rest[n - 2].header.hash;
    var f := Fields(10 + n, n as real, ZERO_HASH, ZERO_HASH, ZERO_HASH, previous, 0, None, 1);
    rest + [Block(Header(f, h.Hash(f)), [])]
  }

  /** They are valid chains, however many blocks there are. */
  lemma {:induction false} FromElevenValid(h: Hashing, n: nat)
    ensures forall k :: 0 < k <= n ==>
              var last := FromEleven(h, k)[k - 1].header.fields;
              ValidChain(h, FromEleven(h, k)) && last.index == 10 + k && last.timestamp == k as real
  {
    if n > 0 {
      FromElevenValid(h, n - 1);
      if n > 1 {
        ExtendsValid(h, FromEleven(h, n - 1), FromEleven(h, n)[n - 1]);
      }
    }
  }

  /** Block 20 of this valid chain is taken, and the adjustment that follows throws. */
  lemma RetargetCanThrow(h: Hashing, difficulty: int, blockTime: real)
    ensures Retargeted(FromEleven(h, 10), difficulty, blockTime).None?
  {
    FromElevenValid(h, 10);
  }

  method RemoveConfirmed(mempool: seq<Tx>, confirmed: seq<Tx>) returns (kept: seq<Tx>)
    ensures kept == Unconfirmed(mempool, confirmed)
  {
    kept := [];
    for k := 0 to |mempool|
      invariant kept + Unconfirmed(mempool[k..], confirmed) == Unconfirmed(mempool, confirmed)
    {
      if !HasId(confirmed, mempool[k].id) {
        kept := kept + [mempool[k]];
      }
    }
  }

  /** Exactly the pending transactions whose id is not confirmed stay pending. */
  lemma {:induction false} UnconfirmedExactly(mempool: seq<Tx>, confirmed: seq<Tx>, tx: Tx)
    ensures tx in Unconfirmed(mempool, confirmed)
       <==> tx in mempool && forall i :: 0 <= i < |confirmed| ==> confirmed[i].id != tx.id
  {
    if mempool != [] {
      UnconfirmedExactly(mempool[1..], confirmed, tx);
    }
  }

  /** They keep their order: one more at the end stays there or goes. */
  lemma {:induction false} UnconfirmedInOrder(mempool: seq<Tx>, confirmed: seq<Tx>, tx: Tx)
    ensures Unconfirmed([], confirmed) == []
    ensures Unconfirmed(mempool + [tx], confirmed)
         == Unconfirmed(mempool, confirmed) + if exists c :: c in confirmed && c.id == tx.id then [] else [tx]
  {
    if mempool == [] {
      assert mempool + [tx] == [tx] && [tx][1..] == [];
    } else {
      assert (mempool + [tx])[1..] == mempool[1..] + [tx];
      UnconfirmedInOrder(mempool[1..], confirmed, tx);
    }
  }

  class Blockchain {
    const hashing: Hashing
    const blockTime: real
    var chain: seq<Block>
    var mempool: seq<Tx>
    var difficulty: int

    ghost predicate Valid()
      reads this
    {
      chain != []
    }

    constructor (hashing: Hashing, chain: seq<Block>, blockTime: real, difficulty: int, mempool: seq<Tx>)
      requires chain != []
      ensures Valid() && this.chain == chain && this.mempool == mempool && this.difficulty == difficulty
      ensures this.hashing == hashing && this.blockTime == blockTime
    {
      this.hashing, this.blockTime := hashing, blockTime;
      this.chain, this.mempool, this.difficulty := chain, mempool, difficulty;
    }

    /** `None` if adjusting the difficulty throws; the block is then in the chain. */
    method AddBlock(block: Block) returns (added: Option<bool>)
      requires Valid()
      modifies this
      ensures Valid() && chain == Step(hashing, old(chain), Add(block))
      ensures chain == old(chain) + [block] || chain == old(chain)
      ensures chain == old(chain) + [block] <==>
                Sound(hashing, block) && Follows(block.header, old(chain)[|old(chain)| - 1].header)
      ensures chain == old(chain) ==> added == Some(false) && mempool == old(mempool) && difficulty == old(difficulty)
      ensures chain != old(chain) ==>
        var retargeted := Retargeted(chain, old(difficulty), blockTime);
        mempool == Unconfirmed(old(mempool), block.transactions) &&
        added == (if retargeted.Some? then Some(true) else None) &&
        difficulty == (if retargeted.Some? then retargeted.value else old(difficulty))
    {
      var latest := chain[|chain| - 1];
      var errors := Validate(hashing, block, Some(latest));
      if errors != [] {
        return Some(false);
      }
      if block.header.fields.index != latest.header.fields.index + 1 {
        return Some(false);
      }
      if block.header.fields.previousHash != latest.header.hash {
        return Some(false);
      }
      chain := chain + [block];
      mempool := RemoveConfirmed(mempool, block.transactions);
      var adjusted := AdjustDifficulty();
      return if adjusted then Some(true) else None;
    }

    method AdjustDifficulty() returns (adjusted: bool)
      requires Valid()
      modifies this`difficulty
      ensures var retargeted := Retargeted(chain, old(difficulty), blockTime);
              adjusted == retargeted.Some? &&
              difficulty == if adjusted then retargeted.value else old(difficulty)
    {
      var latest := chain[|chain| - 1].header.fields;
      if latest.index % 10 == 0 && latest.index > 0 {
        if latest.index - 10 >= |chain| {
          return false;
        }
        var previous := chain[latest.index - 10].header.fields;
        var elapsed := latest.timestamp - previous.timestamp;
        var expected := blockTime * 10.0;
        if elapsed < expected / 2.0 {
          difficulty := difficulty + 1;
        } else if elapsed > expected * 2.0 {
          difficulty := if difficulty - 1 > 1 then difficulty - 1 else 1;
        }
      }
      return true;
    }

    /** Replaced only by a strictly longer chain that is valid from its own genesis on. */
    method ReplaceChain(newChain: seq<Block>) returns (replaced: bool)
      requires Valid()
      modifies this`chain
      ensures Valid() && chain == Step(hashing, old(chain), Replace(newChain))
      ensures replaced <==> |newChain| > |old(chain)| && ValidChain(hashing, newChain)
      ensures chain == if replaced then newChain else old(chain)
    {
      if |newChain| <= |chain| {
        return false;
      }
      var valid := IsValidChain(hashing, newChain);
      if !valid {
        return false;
      }
      chain := newChain;
      return true;
    }
  }

  /** `isValidChain`: validates the genesis block alone and every other against its
      predecessor, collecting the positions that fail. */
  method IsValidChain(h: Hashing, chain: seq<Block>) returns (valid: bool)
    requires chain != []
    ensures valid <==> ValidChain(h, chain)
  {
    var failures: seq<nat> := [];
    var errors := Validate(h, chain[0], None);
    if errors != [] {
      failures := failures + [0];
    }
    for i := 1 to |chain|
      invariant failures == [] <==> ValidChain(h, chain[..i])
    {
      errors := Validate(h, chain[i], Some(chain[i - 1]));
      if errors != [] {
        failures := failures + [i];
      }
      ExtendsValid(h, chain[..i], chain[i]);
      assert chain[..i] + [chain[i]] == chain[..i + 1];
    }
    assert chain[..|chain|] == chain;
    valid := failures == [];
  }

  /** One more block keeps a chain valid exactly when it is sound and follows the last. */
  lemma ExtendsValid(h: Hashing, chain: seq<Block>, b: Block)
    requires chain != []
    ensures ValidChain(h, chain + [b])
       <==> ValidChain(h, chain) && Sound(h, b) && Follows(b.header, chain[|chain| - 1].header)
  {
    var longer := chain + [b];
    if ValidChain(h, longer) {
      assert Sound(h, longer[|chain|]) && Follows(longer[|chain|].header, longer[|chain| - 1].header);
      forall i | 1 <= i < |chain|
        ensures Sound(h, chain[i]) && Follows(chain[i].header, chain[i - 1].header)
      {
        assert longer[i] == chain[i] && longer[i - 1] == chain[i - 1];
      }
    }
  }

  // ---------- whole runs ----------

  datatype Op = Add(block: Block) | Replace(chain: seq<Block>)

  /** The chain after a call of `addBlock` or `replaceChain`. */
  function Step(h: Hashing, chain: seq<Block>, op: Op): seq<Block>
    requires chain != []
  {
    match op
    case Add(b) => if Sound(h, b) && Follows(b.header, chain[|chain| - 1].header) then chain + [b] else chain
    case Replace(c) => if |c| > |chain| && ValidChain(h, c) then c else chain
  }

  /** A valid chain takes a block exactly if it is valid with it, and another chain exactly if
      that is valid and strictly longer. */
  lemma StepExactly(h: Hashing, chain: seq<Block>, b: Block, c: seq<Block>)
    requires ValidChain(h, chain)
    ensures Step(h, chain, Add(b)) == if ValidChain(h, chain + [b]) then chain + [b] else chain
    ensures Step(h, chain, Replace(c)) == if ValidChain(h, c) && |chain| < |c| then c else chain
  {
    ExtendsValid(h, chain, b);
  }

  function Run(h: Hashing, chain: seq<Block>, ops: seq<Op>): (after: seq<Block>)
    requires chain != []
    ensures after != []
  {
    if ops == [] then chain else Step(h, Run(h, chain, ops[..|ops| - 1]), ops[|ops| - 1])
  }

  /** A valid chain stays valid and never gets shorter, whatever is offered to it. */
  lemma {:induction false} RunStaysValid(h: Hashing, chain: seq<Block>, ops: seq<Op>)
    requires ValidChain(h, chain)
    ensures ValidChain(h, Run(h, chain, ops)) && |Run(h, chain, ops)| >= |chain|
  {
    if ops != [] {
      var before := Run(h, chain, ops[..|ops| - 1]);
      RunStaysValid(h, chain, ops[..|ops| - 1]);
      if ops[|ops| - 1].Add? {
        ExtendsValid(h, before, ops[|ops| - 1].block);
      }
    }
  }
}
