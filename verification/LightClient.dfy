/**
 The light client (src/core/light_client.js) and its agreement with the full node.

 `FullChainFeedsExactly`: a chain that the full node accepts passes the light client
 header by header just when its headers name a validator and carry 64-character state
 and receipt roots, and its genesis has the index 0 (or -1), none of which the full node
 asks for.  `RunSyncedExactly`: which headers keep the client in sync, as the client stores
 a header over another without a look at the one above.  `TipDeterminesHeaders`: what two
 synced clients know about each other once they agree on one hash.
 `ProofsAgreeExactly`: on which proofs its Merkle check is the tree's own.
 */
module LightClient {
  import opened Digests
  import opened Runs
  import opened Wrappers

  import opened Chain
  import opened Merkle

  datatype State = State(headers: map<int, Header>, height: int)

  datatype HeaderError =
    | InvalidIndex | InvalidPreviousHash | PreviousNotFound | PreviousMismatch | InvalidTxRoot
    | InvalidStateRoot | InvalidReceiptRoot | InvalidValidator | InvalidTimestamp | HashMismatch

  // ---------- one header ----------

  /** What the fields must satisfy by themselves. */
  predicate WellShaped(f: Fields) {
    f.index >= 0 && |f.previousHash| == 64 && |f.txRoot| == 64 && |f.stateRoot| == 64 && |f.receiptRoot| == 64 &&
    f.validator.Some?
  }

  predicate Linked(headers: map<int, Header>, f: Fields) {
    f.index > 0 ==>
      f.index - 1 in headers && headers[f.index - 1].hash == f.previousHash &&
      headers[f.index - 1].fields.timestamp < f.timestamp
  }

  predicate Acceptable(h: Hashing, s: State, header: Header) {
    WellShaped(header.fields) && Linked(s.headers, header.fields) && header.hash == h.Hash(header.fields)
  }

  function Process(h: Hashing, s: State, header: Header): State {
    if !Acceptable(h, s, header) then s
    else State(s.headers[header.fields.index := header],
               if header.fields.index > s.height then header.fields.index else s.height)
  }

  predicate Synced(s: State) {
    forall i :: 1 <= i <= s.height ==> LinkedAt(s, i)
  }

  predicate LinkedAt(s: State, i: int) {
    i in s.headers && i - 1 in s.headers &&
    s.headers[i].fields.previousHash == s.headers[i - 1].hash &&
    s.headers[i - 1].fields.timestamp < s.headers[i].fields.timestamp
  }

  // ---------- every run ----------

  function Start(genesis: Option<Header>): State {
    State(if genesis.Some? then map[0 := genesis.value] else map[], 0)
  }

  function Run(h: Hashing, genesis: Option<Header>, headers: seq<Header>): State {
    if headers == [] then Start(genesis)
    else Process(h, Run(h, genesis, headers[..|headers| - 1]), headers[|headers| - 1])
  }

  /** Heights are stored without a gap from 0 to the current one, each under its own
      number, and everything above genesis carries the hash of its fields. */
  ghost predicate Contiguous(h: Hashing, s: State) {
    s.height >= 0 &&
    ((s.headers == map[] && s.height == 0) || forall k :: k in s.headers <==> 0 <= k <= s.height) &&
    forall k :: k in s.headers && k > 0 ==>
      s.headers[k].fields.index == k && s.headers[k].hash == h.Hash(s.headers[k].fields)
  }

  lemma {:induction false} RunIsContiguous(h: Hashing, genesis: Option<Header>, headers: seq<Header>)
    ensures Contiguous(h, Run(h, genesis, headers))
  {
    if headers != [] {
      RunIsContiguous(h, genesis, headers[..|headers| - 1]);
    }
  }

  // ---------- which headers keep the client in sync ----------

  /** A header below the tip is stored over the present one without a look at the header
      above; it fits when that one still refers to it. */
  predicate FitsBelow(s: State, header: Header) {
    var k := header.fields.index;
    k < s.height ==>
      k + 1 in s.headers && s.headers[k + 1].fields.previousHash == header.hash &&
      header.fields.timestamp < s.headers[k + 1].fields.timestamp
  }

  predicate KeepsSync(h: Hashing, s: State, header: Header) {
    Acceptable(h, s, header) ==> FitsBelow(s, header)
  }

  /** Only an accepted header that does not fit takes a client out of sync. */
  lemma ProcessSyncedExactly(h: Hashing, s: State, header: Header)
    requires Contiguous(h, s) && Synced(s)
    ensures Synced(Process(h, s, header)) <==> KeepsSync(h, s, header)
  {
    var after, k := Process(h, s, header), header.fields.index;
    if Acceptable(h, s, header) {
      if FitsBelow(s, header) {
        forall i | 1 <= i <= after.height
          ensures LinkedAt(after, i)
        {
          assert i <= s.height ==> LinkedAt(s, i);
        }
      } else {
        assert LinkedAt(s, k + 1);
        assert !LinkedAt(after, k + 1);
      }
    }
  }

  ghost predicate SyncedThroughout(h: Hashing, genesis: Option<Header>, headers: seq<Header>) {
    forall n :: 0 <= n <= |headers| ==> Synced(Run(h, genesis, headers[..n]))
  }

  ghost predicate AllKeepSync(h: Hashing, genesis: Option<Header>, headers: seq<Header>) {
    forall n :: 0 <= n < |headers| ==> KeepsSync(h, Run(h, genesis, headers[..n]), headers[n])
  }

  lemma RunNext(h: Hashing, genesis: Option<Header>, headers: seq<Header>, n: nat)
    requires n < |headers|
    ensures Run(h, genesis, headers[..n + 1]) == Process(h, Run(h, genesis, headers[..n]), headers[n])
  {
    assert headers[..n + 1][..n] == headers[..n];
  }

  /** Whatever headers are offered, `verifySync` succeeds after each of them if and only if
      every accepted one below the tip fits under its successor. */
  lemma RunSyncedExactly(h: Hashing, genesis: Option<Header>, headers: seq<Header>)
    ensures SyncedThroughout(h, genesis, headers) <==> AllKeepSync(h, genesis, headers)
  {
    var state := (prefix: seq<Header>) => Run(h, genesis, prefix);
    var promise := (s: State) => Synced(s);
    var guard := (s: State, header: Header) => KeepsSync(h, s, header);
    forall n | 0 <= n < |headers|
      ensures Decides(state, promise, guard, headers, n)
    {
      RunNext(h, genesis, headers, n);
      RunIsContiguous(h, genesis, headers[..n]);
      if Synced(Run(h, genesis, headers[..n])) {
        ProcessSyncedExactly(h, Run(h, genesis, headers[..n]), headers[n]);
      }
    }
    GuardDecidesRun(state, promise, guard, headers);
  }

  // ---------- a run that loses sync ----------

  function Sealed(h: Hashing, index: int, timestamp: real, previousHash: string): Header {
    var f := Fields(index, timestamp, ZERO_HASH, ZERO_HASH, ZERO_HASH, previousHash, 0, Some("v"), 1);
    Header(f, h.Hash(f))
  }

  /** Headers 1 and 2 at times 1 and 2, and then another header 1, at time 5. */
  function Rewriting(h: Hashing, genesis: Header): seq<Header> {
    var first := Sealed(h, 1, 1.0, genesis.hash);
    [first, Sealed(h, 2, 2.0, first.hash), Sealed(h, 1, 5.0, genesis.hash)]
  }

  /** All three are accepted, and the third one leaves header 2 without its predecessor. */
  lemma SyncCanBeLost(h: Hashing, genesis: Header)
    requires Width64(h.sha) && |genesis.hash| == 64 && genesis.fields.timestamp == 0.0
    ensures var headers := Rewriting(h, genesis);
            AllAccepted(h, Some(genesis), headers) && Synced(Run(h, Some(genesis), headers[..2])) &&
            !Synced(Run(h, Some(genesis), headers))
  {
    var headers, start := Rewriting(h, genesis), Start(Some(genesis));
    var s1 := Process(h, start, headers[0]);
    var s2 := Process(h, s1, headers[1]);
    var s3 := Process(h, s2, headers[2]);
    ThreeHeaders(h, genesis, headers);
    assert |headers[0].hash| == 64;
    assert Acceptable(h, start, headers[0]) && Acceptable(h, s1, headers[1]) && Acceptable(h, s2, headers[2]);
    assert !LinkedAt(s3, 2);
  }

  lemma ThreeHeaders(h: Hashing, genesis: Header, headers: seq<Header>)
    requires |headers| == 3
    ensures var start := Start(Some(genesis));
            var s1 := Process(h, start, headers[0]);
            var s2 := Process(h, s1, headers[1]);
            Run(h, Some(genesis), headers[..2]) == s2 && Run(h, Some(genesis), headers) == Process(h, s2, headers[2]) &&
            (AllAccepted(h, Some(genesis), headers)
             <==> Acceptable(h, start, headers[0]) && Acceptable(h, s1, headers[1]) && Acceptable(h, s2, headers[2]))
  {
    var one, two := headers[..1], headers[..2];
    assert one[..0] == [] && two[..1] == one && headers == two + [headers[2]];
    assert AllAccepted(h, Some(genesis), one) <==> Acceptable(h, Start(Some(genesis)), headers[0]);
    RunNext(h, Some(genesis), headers, 1);
  }

  // ---------- the hash at one height fixes the headers below ----------

  ghost predicate CollisionAt(h: Hashing, a: State, b: State, k: int) {
    k in a.headers && k in b.headers && a.headers[k].fields != b.headers[k].fields &&
    h.Hash(a.headers[k].fields) == h.Hash(b.headers[k].fields)
  }

  /** Two synced clients with the same hash at a height hold the same headers at every
      height from 1 up to it, or two of their headers collide under the hash. */
  lemma {:induction false} TipDeterminesHeaders(h: Hashing, a: State, b: State, height: nat)
    requires Contiguous(h, a) && Contiguous(h, b) && Synced(a) && Synced(b)
    requires 1 <= height <= a.height && height <= b.height && a.headers[height].hash == b.headers[height].hash
    ensures (forall k :: 1 <= k <= height ==> a.headers[k] == b.headers[k]) ||
            exists k :: 1 <= k <= height && CollisionAt(h, a, b, k)
  {
    assert LinkedAt(a, height) && LinkedAt(b, height);
    if a.headers[height].fields != b.headers[height].fields {
      assert CollisionAt(h, a, b, height);
    } else if height > 1 {
      TipDeterminesHeaders(h, a, b, height - 1);
    }
  }

  // ---------- a full chain through the light client ----------

  predicate LightReady(b: Block) {
    |b.header.fields.stateRoot| == 64 && |b.header.fields.receiptRoot| == 64 && b.header.fields.validator.Some?
  }

  function Headers(chain: seq<Block>): seq<Header> {
    seq(|chain|, i requires 0 <= i < |chain| => chain[i].header)
  }

  /** No header of the sequence is refused. */
  predicate AllAccepted(h: Hashing, genesis: Option<Header>, headers: seq<Header>) {
    headers == [] ||
    var init := headers[..|headers| - 1];
    AllAccepted(h, genesis, init) && Acceptable(h, Run(h, genesis, init), headers[|headers| - 1])
  }

  lemma {:induction false} RootIsWide(sha: string -> string, level: seq<string>)
    requires Width64(sha) && AllWide(level) && level != []
    ensures |Root(Sha(sha), level)| == 64
    decreases |level|
  {
    if |level| > 1 {
      NextLevelWide(sha, level);
      RootIsWide(sha, NextLevel(Sha(sha), level));
    }
  }

  lemma TxRootIsWide(h: Hashing, txs: seq<Tx>)
    requires Width64(h.sha)
    ensures |TxRoot(h, txs)| == 64
  {
    if txs != [] {
      RootIsWide(h.sha, Leaves(Sha(h.sha), JsonTexts(txs)));
    }
  }

  /** The client after the first n headers of a chain. */
  ghost predicate Holds(s: State, chain: seq<Block>, n: nat)
    requires 0 < n <= |chain|
  {
    s.height == n - 1 && (forall k :: k in s.headers <==> 0 <= k < n) &&
    forall k :: 0 <= k < n ==> s.headers[k] == chain[k].header
  }

  lemma NextAcceptedExactly(h: Hashing, chain: seq<Block>, s: State, n: nat)
    requires Width64(h.sha) && ValidChain(h, chain) && chain[0].header.fields.index == 0
    requires 0 < n < |chain| && Holds(s, chain, n)
    ensures Acceptable(h, s, chain[n].header) <==> LightReady(chain[n])
    ensures LightReady(chain[n]) ==> Holds(Process(h, s, chain[n].header), chain, n + 1)
  {
    IndicesFollowPositions(h, chain, n);
    TxRootIsWide(h, chain[n].transactions);
    var previous := chain[n - 1].header;
    assert Sound(h, chain[n]) && Follows(chain[n].header, previous);
    assert |h.Hash(previous.fields)| == 64;
  }

  lemma FeedOne(h: Hashing, chain: seq<Block>, n: nat)
    requires 1 < n <= |chain|
    ensures var genesis, before, last := Some(chain[0].header), Headers(chain)[1..n - 1], chain[n - 1].header;
            Run(h, genesis, Headers(chain)[1..n]) == Process(h, Run(h, genesis, before), last) &&
            (AllAccepted(h, genesis, Headers(chain)[1..n])
             <==> AllAccepted(h, genesis, before) && Acceptable(h, Run(h, genesis, before), last))
  {
    var fed := Headers(chain)[1..n];
    assert fed[..|fed| - 1] == Headers(chain)[1..n - 1];
  }

  ghost predicate ReadyUpTo(chain: seq<Block>, n: nat)
    requires n <= |chain|
  {
    forall i :: 1 <= i < n ==> LightReady(chain[i])
  }

  /** The headers up to the n-th are accepted exactly when ready, and the blocks then held. */
  ghost predicate Fed(h: Hashing, chain: seq<Block>, n: nat)
    requires 0 < n <= |chain|
  {
    var genesis, fed := Some(chain[0].header), Headers(chain)[1..n];
    (AllAccepted(h, genesis, fed) <==> ReadyUpTo(chain, n)) &&
    (ReadyUpTo(chain, n) ==> Holds(Run(h, genesis, fed), chain, n))
  }

  lemma ReadyOneMore(chain: seq<Block>, n: nat)
    requires 1 < n <= |chain|
    ensures ReadyUpTo(chain, n) <==> ReadyUpTo(chain, n - 1) && LightReady(chain[n - 1])
  {
  }

  lemma FedOneMore(h: Hashing, chain: seq<Block>, n: nat)
    requires Width64(h.sha) && ValidChain(h, chain) && chain[0].header.fields.index == 0 && 1 < n <= |chain|
    requires Fed(h, chain, n - 1)
    ensures Fed(h, chain, n)
  {
    FeedOne(h, chain, n);
    ReadyOneMore(chain, n);
    if ReadyUpTo(chain, n - 1) {
      NextAcceptedExactly(h, chain, Run(h, Some(chain[0].header), Headers(chain)[1..n - 1]), n - 1);
    }
  }

  lemma {:induction false} FeedChain(h: Hashing, chain: seq<Block>, n: nat)
    requires Width64(h.sha) && ValidChain(h, chain) && chain[0].header.fields.index == 0 && 0 < n <= |chain|
    ensures Fed(h, chain, n)
  {
    if n == 1 {
      assert Headers(chain)[1..1] == [];
    } else {
      FeedChain(h, chain, n - 1);
      FedOneMore(h, chain, n);
    }
  }

  lemma HeldChainIsSynced(h: Hashing, chain: seq<Block>, s: State)
    requires ValidChain(h, chain) && Holds(s, chain, |chain|)
    ensures Synced(s)
  {
    forall i | 1 <= i <= s.height
      ensures LinkedAt(s, i)
    {
      assert Follows(chain[i].header, chain[i - 1].header);
    }
  }

  // ---------- every genesis index ----------

  predicate AllLightReady(chain: seq<Block>) {
    forall i :: 1 <= i < |chain| ==> LightReady(chain[i])
  }

  /** What it takes besides validity.  The client keeps its genesis under 0: the next header
      finds it there if its index is 1, and replaces it if its index is 0. */
  predicate LightAcceptable(chain: seq<Block>)
    requires chain != []
  {
    |chain| == 1 || (chain[0].header.fields.index in {0, -1} && AllLightReady(chain))
  }

  lemma {:induction false} AcceptedPrefix(h: Hashing, genesis: Option<Header>, headers: seq<Header>, n: nat)
    requires n <= |headers| && AllAccepted(h, genesis, headers)
    ensures AllAccepted(h, genesis, headers[..n])
    decreases |headers|
  {
    if n < |headers| {
      var init := headers[..|headers| - 1];
      assert init[..n] == headers[..n];
      AcceptedPrefix(h, genesis, init, n);
    } else {
      assert headers[..n] == headers;
    }
  }

  /** With any other genesis index the second header has no predecessor, or a negative index. */
  lemma OtherGenesisRefused(h: Hashing, chain: seq<Block>)
    requires ValidChain(h, chain) && |chain| > 1 && chain[0].header.fields.index !in {0, -1}
    ensures !AllAccepted(h, Some(chain[0].header), Headers(chain)[1..])
  {
    var genesis, fed := Some(chain[0].header), Headers(chain)[1..];
    assert fed[..1] == [chain[1].header] && fed[..1][..0] == [];
    assert Follows(chain[1].header, chain[0].header);
    assert !Acceptable(h, Start(genesis), chain[1].header);
    if AllAccepted(h, genesis, fed) {
      AcceptedPrefix(h, genesis, fed, 1);
    }
  }

  /** A first header that takes the place of genesis: the rest of the run starts from it. */
  lemma {:induction false} RestartedRun(h: Hashing, genesis: Option<Header>, first: Header, rest: seq<Header>)
    requires Acceptable(h, Start(genesis), first) && Process(h, Start(genesis), first) == Start(Some(first))
    ensures Run(h, genesis, [first] + rest) == Run(h, Some(first), rest)
    ensures AllAccepted(h, genesis, [first] + rest) <==> AllAccepted(h, Some(first), rest)
    decreases |rest|
  {
    if rest == [] {
      assert [first] + rest == [first] && [first][..0] == [];
    } else {
      var init := rest[..|rest| - 1];
      assert ([first] + rest)[..|rest|] == [first] + init;
      RestartedRun(h, genesis, first, init);
    }
  }

  lemma FeedFromZero(h: Hashing, chain: seq<Block>)
    requires Width64(h.sha) && ValidChain(h, chain) && chain[0].header.fields.index == 0
    ensures var genesis, fed := Some(chain[0].header), Headers(chain)[1..];
            (AllAccepted(h, genesis, fed) <==> AllLightReady(chain)) &&
            (AllAccepted(h, genesis, fed) ==> Holds(Run(h, genesis, fed), chain, |chain|))
  {
    FeedChain(h, chain, |chain|);
    assert Headers(chain)[1..|chain|] == Headers(chain)[1..];
  }

  /** One index lower, the second block becomes the client's genesis. */
  lemma FeedFromBelowZero(h: Hashing, chain: seq<Block>)
    requires Width64(h.sha) && ValidChain(h, chain) && chain[0].header.fields.index == -1 && |chain| > 1
    ensures var genesis, fed := Some(chain[0].header), Headers(chain)[1..];
            (AllAccepted(h, genesis, fed) <==> AllLightReady(chain)) &&
            (AllAccepted(h, genesis, fed) ==> Holds(Run(h, genesis, fed), chain[1..], |chain| - 1))
  {
    var genesis, rest, first := Some(chain[0].header), chain[1..], chain[1].header;
    assert Headers(chain)[1..] == [first] + Headers(rest)[1..];
    assert Follows(first, chain[0].header) && Sound(h, chain[1]);
    TxRootIsWide(h, chain[1].transactions);
    assert |chain[0].header.hash| == 64;
    assert Acceptable(h, Start(genesis), first) <==> LightReady(chain[1]);
    TailIsValid(h, chain);
    if LightReady(chain[1]) {
      RestartedRun(h, genesis, first, Headers(rest)[1..]);
      FeedFromZero(h, rest);
      assert AllLightReady(chain) <==> AllLightReady(rest);
    } else {
      assert ([first] + Headers(rest)[1..])[..1] == [first] && [first][..0] == [];
      if AllAccepted(h, genesis, [first] + Headers(rest)[1..]) {
        AcceptedPrefix(h, genesis, [first] + Headers(rest)[1..], 1);
      }
    }
  }

  lemma TailIsValid(h: Hashing, chain: seq<Block>)
    requires ValidChain(h, chain) && |chain| > 1
    ensures ValidChain(h, chain[1..])
    ensures AllLightReady(chain) ==> AllLightReady(chain[1..])
    ensures LightReady(chain[1]) && AllLightReady(chain[1..]) ==> AllLightReady(chain)
  {
    forall i | 1 <= i < |chain[1..]|
      ensures Sound(h, chain[1..][i]) && Follows(chain[1..][i].header, chain[1..][i - 1].header)
    {
      assert chain[1..][i] == chain[i + 1] && chain[1..][i - 1] == chain[i];
    }
    forall i | 1 <= i < |chain| && LightReady(chain[1]) && AllLightReady(chain[1..])
      ensures LightReady(chain[i])
    {
      assert i > 1 ==> chain[i] == chain[1..][i - 1];
    }
  }

  /** A client started at a valid chain's genesis accepts the rest of it, header after
      header, exactly when the chain starts at 0 (or at -1, and then loses its first block)
      and every further header names a validator and has 64-character roots; it then holds
      the chain and `verifySync` succeeds. */
  lemma FullChainFeedsExactly(h: Hashing, chain: seq<Block>)
    requires Width64(h.sha) && ValidChain(h, chain)
    ensures var genesis, fed := Some(chain[0].header), Headers(chain)[1..];
            (AllAccepted(h, genesis, fed) <==> LightAcceptable(chain)) &&
            (AllAccepted(h, genesis, fed) ==>
               var s := Run(h, genesis, fed);
               Synced(s) && if |chain| == 1 || chain[0].header.fields.index == 0 then Holds(s, chain, |chain|)
                            else Holds(s, chain[1..], |chain| - 1))
  {
    var genesis, fed := Some(chain[0].header), Headers(chain)[1..];
    if |chain| == 1 {
      assert fed == [];
    } else if chain[0].header.fields.index == 0 {
      FeedFromZero(h, chain);
      if AllAccepted(h, genesis, fed) {
        HeldChainIsSynced(h, chain, Run(h, genesis, fed));
      }
    } else if chain[0].header.fields.index == -1 {
      FeedFromBelowZero(h, chain);
      TailIsValid(h, chain);
      if AllAccepted(h, genesis, fed) {
        HeldChainIsSynced(h, chain[1..], Run(h, genesis, fed));
      }
    } else {
      OtherGenesisRefused(h, chain);
    }
  }

  /** Two empty blocks that name no validator, as `Block` leaves it by default. */
  function Unsigned(h: Hashing): seq<Block> {
    var f := Fields(0, 0.0, ZERO_HASH, ZERO_HASH, ZERO_HASH, ZERO_HASH, 0, None, 1);
    var g := f.(index := 1, timestamp := 1.0, previousHash := h.Hash(f));
    [Block(Header(f, h.Hash(f)), []), Block(Header(g, h.Hash(g)), [])]
  }

  /** The full node takes them, the light client refuses the second. */
  lemma UnsignedRefused(h: Hashing)
    requires Width64(h.sha)
    ensures ValidChain(h, Unsigned(h)) &&
            !AllAccepted(h, Some(Unsigned(h)[0].header), Headers(Unsigned(h))[1..])
  {
    var chain := Unsigned(h);
    assert Sound(h, chain[0]) && Sound(h, chain[1]) && Follows(chain[1].header, chain[0].header);
    FullChainFeedsExactly(h, chain);
    assert !LightReady(chain[1]);
  }

  // ---------- Merkle proofs ----------

  /** A step as the light client expects it. */
  datatype LightStep = LightStep(hash: string, position: string)

  predicate Placed(step: LightStep) {
    step.position == "left" || step.position == "right"
  }

  /** The hash that a proof leads to; `None` when a step has no valid position. */
  function LightFold(sha: string -> string, hash: string, proof: seq<LightStep>): Option<string>
    decreases |proof|
  {
    if proof == [] then Some(hash)
    else if proof[0].position == "left" then LightFold(sha, sha(proof[0].hash + hash), proof[1..])
    else if proof[0].position == "right" then LightFold(sha, sha(hash + proof[0].hash), proof[1..])
    else None
  }

  /** The same step for the tree's `verify`, to which an empty hash is no hash. */
  function Translate(step: LightStep): ProofStep<string> {
    var side := if step.hash == "" then None else Some(step.hash);
    if step.position == "left" then ProofStep(side, None) else ProofStep(None, side)
  }

  function TranslateAll(proof: seq<LightStep>): seq<ProofStep<string>> {
    if proof == [] then [] else [Translate(proof[0])] + TranslateAll(proof[1..])
  }

  ghost predicate AllPlaced(proof: seq<LightStep>) {
    forall i :: 0 <= i < |proof| ==> Placed(proof[i])
  }

  ghost predicate NoneEmpty(proof: seq<LightStep>) {
    forall i :: 0 <= i < |proof| ==> proof[i].hash != ""
  }

  /** A step with no valid position is a rejection; otherwise, without empty hashes, the
      two checks compute the same root. */
  lemma {:induction false} TransactionProofAgrees(sha: string -> string, hash: string, proof: seq<LightStep>)
    ensures !AllPlaced(proof) ==> LightFold(sha, hash, proof) == None
    ensures AllPlaced(proof) && NoneEmpty(proof) ==>
              LightFold(sha, hash, proof) == Some(Fold(Sha(sha), hash, TranslateAll(proof)))
    decreases |proof|
  {
    if proof != [] && Placed(proof[0]) {
      var step, rest := proof[0], proof[1..];
      var next := if step.position == "left" then sha(step.hash + hash) else sha(hash + step.hash);
      TransactionProofAgrees(sha, next, rest);
      assert forall i :: 1 <= i < |proof| ==> proof[i] == rest[i - 1];
      assert AllPlaced(proof) <==> AllPlaced(rest);
      assert NoneEmpty(proof) ==> NoneEmpty(rest);
      assert TranslateAll(proof)[1..] == TranslateAll(rest);
    }
  }

  /** A digest that only grows, to tell the two folds apart. */
  const GROWING: string -> string := (x: string) => "a" + x

  function Growth(proof: seq<LightStep>): nat {
    if proof == [] then 0 else |proof[0].hash| + 1 + Growth(proof[1..])
  }

  function Skips(proof: seq<LightStep>): nat {
    if proof == [] then 0 else (if proof[0].hash == "" then 1 else 0) + Skips(proof[1..])
  }

  lemma {:induction false} FoldsGrow(x: string, y: string, proof: seq<LightStep>)
    requires AllPlaced(proof)
    ensures LightFold(GROWING, x, proof).Some? && |LightFold(GROWING, x, proof).value| == |x| + Growth(proof)
    ensures |Fold(Sha(GROWING), y, TranslateAll(proof))| + Skips(proof) == |y| + Growth(proof)
    decreases |proof|
  {
    if proof != [] {
      var step, rest := proof[0], proof[1..];
      assert Placed(step) && forall i :: 0 <= i < |rest| ==> rest[i] == proof[i + 1];
      var x' := if step.position == "left" then GROWING(step.hash + x) else GROWING(x + step.hash);
      FoldsGrow(x', Climb(Sha(GROWING), y, Translate(step)), rest);
      assert TranslateAll(proof)[1..] == TranslateAll(rest);
    }
  }

  lemma {:induction false} SkipsSome(proof: seq<LightStep>)
    ensures Skips(proof) == 0 <==> NoneEmpty(proof)
  {
    if proof != [] {
      SkipsSome(proof[1..]);
      assert forall i :: 1 <= i < |proof| ==> proof[i] == proof[1..][i - 1];
    }
  }

  ghost predicate AgreesAlways(proof: seq<LightStep>) {
    forall sha, hash :: LightFold(sha, hash, proof) == Some(Fold(Sha(sha), hash, TranslateAll(proof)))
  }

  /** Under every digest and from every transaction the two checks give one answer, if and
      only if every step has a valid position and none has an empty hash. */
  lemma ProofsAgreeExactly(proof: seq<LightStep>)
    ensures AgreesAlways(proof) <==> AllPlaced(proof) && NoneEmpty(proof)
  {
    forall sha, hash | AllPlaced(proof) && NoneEmpty(proof)
      ensures LightFold(sha, hash, proof) == Some(Fold(Sha(sha), hash, TranslateAll(proof)))
    {
      TransactionProofAgrees(sha, hash, proof);
    }
    if AgreesAlways(proof) {
      TransactionProofAgrees(GROWING, "", proof);
      assert LightFold(GROWING, "", proof) == Some(Fold(Sha(GROWING), "", TranslateAll(proof)));
      FoldsGrow("", "", proof);
      SkipsSome(proof);
    }
  }

  /** An empty hash is hashed by the client and skipped by the tree: there they agree only
      on a fixed point of the digest. */
  lemma EmptyStepAgreesExactly(sha: string -> string, hash: string, step: LightStep)
    requires Placed(step)
    ensures LightFold(sha, hash, [step]) == Some(Fold(Sha(sha), hash, [Translate(step)]))
       <==> step.hash != "" || sha(hash) == hash
  {
    assert [step][1..] == [] && [Translate(step)][1..] == [];
    assert "" + hash == hash && hash + "" == hash;
  }

  // ---------- the class ----------

  class Client {
    const hashing: Hashing
    var blockHeaders: map<int, Header>
    var currentBlockHeight: int

    ghost function View(): State
      reads this
    {
      State(blockHeaders, currentBlockHeight)
    }

    constructor (hashing: Hashing, genesis: Option<Header>)
      ensures this.hashing == hashing && View() == Start(genesis)
    {
      this.hashing := hashing;
      blockHeaders := if genesis.Some? then map[0 := genesis.value] else map[];
      currentBlockHeight := 0;
    }

    method VerifyBlockHeader(header: Header) returns (errors: seq<HeaderError>)
      ensures errors == [] <==> Acceptable(hashing, View(), header)
      ensures var f := header.fields;
              errors == [] <==>
                f.index >= 0 && f.validator.Some? && header.hash == hashing.sha(hashing.encode(f)) &&
                |f.previousHash| == 64 && |f.txRoot| == 64 && |f.stateRoot| == 64 && |f.receiptRoot| == 64 &&
                (f.index == 0 ||
                 (f.index - 1 in blockHeaders && blockHeaders[f.index - 1].hash == f.previousHash &&
                  f.timestamp > blockHeaders[f.index - 1].fields.timestamp))
    {
      var f := header.fields;
      errors := [];
      if f.index < 0 {
        errors := errors + [InvalidIndex];
      }
      if |f.previousHash| != 64 {
        errors := errors + [InvalidPreviousHash];
      } else if f.index > 0 {
        if f.index - 1 !in blockHeaders {
          errors := errors + [PreviousNotFound];
        } else if blockHeaders[f.index - 1].hash != f.previousHash {
          errors := errors + [PreviousMismatch];
        }
      }
      if |f.txRoot| != 64 {
        errors := errors + [InvalidTxRoot];
      }
      if |f.stateRoot| != 64 {
        errors := errors + [InvalidStateRoot];
      }
      if |f.receiptRoot| != 64 {
        errors := errors + [InvalidReceiptRoot];
      }
      if f.validator.None? {
        errors := errors + [InvalidValidator];
      }
      if f.index > 0 && f.index - 1 in blockHeaders && f.timestamp <= blockHeaders[f.index - 1].fields.timestamp {
        errors := errors + [InvalidTimestamp];
      }
      if hashing.Hash(f) != header.hash {
        errors := errors + [HashMismatch];
      }
    }

    method ProcessBlockHeader(header: Header) returns (errors: seq<HeaderError>)
      modifies this
      ensures View() == Process(hashing, old(View()), header)
      ensures errors == [] <==> Acceptable(hashing, old(View()), header)
    {
      errors := VerifyBlockHeader(header);
      if errors != [] {
        return;
      }
      blockHeaders := blockHeaders[header.fields.index := header];
      if header.fields.index > currentBlockHeight {
        currentBlockHeight := header.fields.index;
      }
    }

    method VerifySync() returns (valid: bool)
      ensures valid <==> Synced(View())
    {
      var failures: seq<int> := [];
      var i := 1;
      while i <= currentBlockHeight
        invariant i >= 1
        invariant failures == [] <==> forall j :: 1 <= j < i && j <= currentBlockHeight ==> LinkedAt(View(), j)
      {
        ghost var before := failures;
        if i !in blockHeaders || i - 1 !in blockHeaders {
          failures := failures + [i];
        } else {
          var current, previous := blockHeaders[i], blockHeaders[i - 1];
          if current.fields.previousHash != previous.hash {
            failures := failures + [i];
          }
          if current.fields.timestamp <= previous.fields.timestamp {
            failures := failures + [i];
          }
        }
        assert LinkedAt(View(), i) <==> failures == before;
        assert !LinkedAt(View(), i) ==> failures != [];
        i := i + 1;
      }
      valid := failures == [];
    }

    method VerifyTransactionProof(txHash: string, proof: seq<LightStep>, txRoot: string) returns (valid: bool)
      ensures valid <==> LightFold(hashing.sha, txHash, proof) == Some(txRoot)
    {
      var currentHash := txHash;
      for i := 0 to |proof|
        invariant LightFold(hashing.sha, currentHash, proof[i..]) == LightFold(hashing.sha, txHash, proof)
      {
        if proof[i].position == "left" {
          currentHash := hashing.sha(proof[i].hash + currentHash);
        } else if proof[i].position == "right" {
          currentHash := hashing.sha(currentHash + proof[i].hash);
        } else {
          return false;
        }
      }
      return currentHash == txRoot;
    }
  }
}
