/**
 What two full nodes know about each other once they agree on one hash
 (src/core/block.js, src/core/blockchain.js).

 Valid chains with one hash at a position have the same headers from genesis to there
 (`TipDeterminesHeaders`), and at each of them transaction lists that fill the same Merkle
 tree (`TipDeterminesFilledTrees`), which are not always the same lists: validation never
 looks for repeats (`RepeatedTransactionStaysSound`).
 */
module ChainTips {
  import opened Digests

  import opened Chain
  import opened Merkle
  import opened MerkleRoots

  // ---------- headers ----------

  predicate HeadersCollide(h: Hashing, a: Header, b: Header) {
    a.fields != b.fields && h.Hash(a.fields) == h.Hash(b.fields)
  }

  /** Two valid chains with one hash at position n agree on every header from genesis up to
      n, or two of their headers collide under the hash. */
  lemma {:induction false} TipDeterminesHeaders(h: Hashing, a: seq<Block>, b: seq<Block>, n: nat)
    requires ValidChain(h, a) && ValidChain(h, b) && n < |a| && n < |b| && a[n].header.hash == b[n].header.hash
    ensures (forall k :: 0 <= k <= n ==> a[k].header == b[k].header) ||
            exists k :: 0 <= k <= n && HeadersCollide(h, a[k].header, b[k].header)
  {
    assert Sound(h, a[n]) && Sound(h, b[n]);
    if a[n].header.fields != b[n].header.fields {
      assert HeadersCollide(h, a[n].header, b[n].header);
    } else if n > 0 {
      assert Follows(a[n].header, a[n - 1].header) && Follows(b[n].header, b[n - 1].header);
      TipDeterminesHeaders(h, a, b, n - 1);
    }
  }

  // ---------- transactions ----------

  /** Some string hashed for this list has the digest that stands for no transactions. */
  ghost predicate HashesToZero(sha: string -> string, data: seq<string>) {
    exists x :: x in TreeInputs(sha, data) && sha(x) == ZERO_HASH
  }

  ghost predicate Broken(sha: string -> string, a: seq<string>, b: seq<string>) {
    Collision(sha, TreeInputs(sha, a), TreeInputs(sha, b)) || Confused(sha, a, b) || Confused(sha, b, a) ||
    HashesToZero(sha, a) || HashesToZero(sha, b)
  }

  lemma {:induction false} RootIsHashed(sha: string -> string, level: seq<string>) returns (x: string)
    requires |level| > 1
    ensures x in NodeInputs(sha, level) && Root(Sha(sha), level) == sha(x)
    decreases |level|
  {
    var next := NextLevel(Sha(sha), level);
    if |next| == 1 {
      PairHashed(sha, level, 0);
      x := level[0] + Partner(level, 0);
    } else {
      x := RootIsHashed(sha, next);
    }
  }

  lemma ZeroRoot(sha: string -> string, data: seq<string>)
    requires data != [] && Root(Sha(sha), Leaves(Sha(sha), data)) == ZERO_HASH
    ensures HashesToZero(sha, data)
  {
    var leaves := Leaves(Sha(sha), data);
    if |data| == 1 {
      assert data[0] in TreeInputs(sha, data) && sha(data[0]) == ZERO_HASH;
    } else {
      var x := RootIsHashed(sha, leaves);
      assert x in TreeInputs(sha, data);
    }
  }

  /** Blocks with one transaction root have lists that fill the same tree, or the hash is broken. */
  lemma TxRootBinds(h: Hashing, x: seq<Tx>, y: seq<Tx>)
    requires Width64(h.sha) && TxRoot(h, x) == TxRoot(h, y)
    ensures Filled(JsonTexts(x)) == Filled(JsonTexts(y)) || Broken(h.sha, JsonTexts(x), JsonTexts(y))
  {
    if x == [] && y == [] {
    } else if x == [] {
      ZeroRoot(h.sha, JsonTexts(y));
    } else if y == [] {
      ZeroRoot(h.sha, JsonTexts(x));
    } else {
      RootBindsFilled(h.sha, JsonTexts(x), JsonTexts(y));
    }
  }

  /** So do the blocks of two such chains; lists of one length are then the same texts. */
  lemma TipDeterminesFilledTrees(h: Hashing, a: seq<Block>, b: seq<Block>, n: nat, k: nat)
    requires Width64(h.sha) && ValidChain(h, a) && ValidChain(h, b) && k <= n < |a| && n < |b|
    requires a[n].header.hash == b[n].header.hash
    ensures var x, y := JsonTexts(a[k].transactions), JsonTexts(b[k].transactions);
            (Filled(x) == Filled(y) && (|x| == |y| ==> x == y)) || Broken(h.sha, x, y) ||
            exists i :: 0 <= i <= n && HeadersCollide(h, a[i].header, b[i].header)
  {
    var x, y := JsonTexts(a[k].transactions), JsonTexts(b[k].transactions);
    TipDeterminesHeaders(h, a, b, n);
    if a[k].header == b[k].header {
      assert Sound(h, a[k]) && Sound(h, b[k]);
      TxRootBinds(h, a[k].transactions, b[k].transactions);
      if |x| == |y| && Filled(x) == Filled(y) {
        FilledInjective(x, y);
      }
    }
  }

  // ---------- one header over two transaction lists ----------

  /** A sound block stays sound with any valid transactions that fill the same tree. */
  lemma SameFilledStaysSound(h: Hashing, b: Block, txs: seq<Tx>)
    requires Sound(h, b) && b.transactions != [] && txs != [] && forall tx :: tx in txs ==> tx.valid
    requires Filled(JsonTexts(txs)) == Filled(JsonTexts(b.transactions))
    ensures Sound(h, b.(transactions := txs))
  {
    SameFilledSameRoot(Sha(h.sha), JsonTexts(txs), JsonTexts(b.transactions));
  }

  /** An odd list of at least three with its last transaction repeated. */
  function WithLastRepeated(b: Block): Block
    requires b.transactions != []
  {
    b.(transactions := b.transactions + [b.transactions[|b.transactions| - 1]])
  }

  /** Whatever the hash: a block with such a list stays sound under the same header, and a
      chain stays valid with the same hashes. */
  lemma RepeatedTransactionStaysSound(h: Hashing, chain: seq<Block>, n: nat)
    requires ValidChain(h, chain) && n < |chain|
    requires |chain[n].transactions| % 2 == 1 && |chain[n].transactions| >= 3
    ensures ValidChain(h, chain[n := WithLastRepeated(chain[n])])
  {
    var b, txs := chain[n], chain[n].transactions;
    var leaves := Leaves(Sha(h.sha), JsonTexts(txs));
    var last := txs[|txs| - 1];
    assert Sound(h, b) && last in txs;
    RepeatedLastKeepsRoot(Sha(h.sha), leaves);
    assert Leaves(Sha(h.sha), JsonTexts(txs + [last])) == leaves + [leaves[|leaves| - 1]];
    assert Sound(h, WithLastRepeated(b));
  }
}
