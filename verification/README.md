# ChainForgeLedger: verified models

Each module models one component of the ledger as its source has it: a class with the
source's fields and methods whose `ensures` tie every step to a function of the old state,
and lemmas about those functions over every input and every run.
`dafny verify dfyconfig.toml` checks all of them.

| module | component | main results |
|---|---|---|
| `Plugins` | dependency resolver and loader | returns normally exactly on resolvable graphs; exact reachable set in dependency order; which runs keep loaded plugins after their dependencies |
| `DeterministicRandom`, `StringHash`, `Arithmetic` | LCG random generator | the state arithmetic is exact in doubles; full period 2^32 |
| `Cache`, `CacheCalls`, `JsMap` | LRU and TTL cache over an insertion-ordered map | inclusion between capacities; coherence with a plain map; nothing older than the ttl is ever returned; eviction order |
| `Merkle`, `MerkleRoots` | Merkle tree | exactly which own proofs are accepted; exactly which lists share a root; roots and proofs bind their data, or a collision is exhibited |
| `Finality`, `FinalityPromises`, `FinalityVotes` | checkpoints, votes, finality | exactly which votes justify and finalize; the finalized number is monotone; exactly when the justified number or the finalized block changes back; quorums of two managers overlap |
| `RateLimiter` | token buckets | the most that a window of time can grant, and that it is attained |
| `Liquidity`, `LiquidityCalls` | constant-product pool | swaps never lower the product; share backing with its exact condition, and what deposits cost over a run |
| `Chain`, `ChainTips`, `LightClient`, `Fork`, `ForkChoice` | full chain, header client, fork handler | validity in every run; both nodes agree, exactly; which headers keep a client in sync; the tip determines the headers, and the transactions as far as the Merkle root does; a fork's chain is taken exactly when it is longer, harder or later |
| `StateMachine` | nested transactions, history, snapshots | rollback restores the matching begin; history is a window of versions |
| `Lending`, `LendingCalls`, `LendingPromises` | lending ledger | the books balance in every run; collateral reaches any ratio that the requirements reach; the exact guards under which debts stay covered, balances and reserves non-negative |
| `Events`, `EventCalls`, `EventRuns` | event queue with re-entrant publishing | one publication delivers everything it sets off, in order; over any run a subscriber sees exactly the events of its type since it subscribed |
| `Sharding`, `Shuffle` | cross-shard routing, validator shuffle | every transaction in one place, the right one; the shuffle reaches each order once |
| `StakeSelection` | two stake-weighted selectors | they agree unless the value is a prefix sum |

`Wrappers`, `Sequences`, `Sets`, `Arithmetic`, `Digests`, `JsMap` and `Runs` hold what several
components share.

Clocks, random numbers, plugin hooks and callbacks are inputs. SHA-256 is a function
parameter: results that need it to be collision free either name a collision among the
strings that were really hashed, or assume injectivity on the blocks at hand. Money, stakes
and times are real numbers. Only the random generator's state is proved free of rounding;
the scaling that follows it in `nextInt` is exact up to 2^21 values, and taken as exact
beyond.

## What turned out not to hold

Each of these has its exact condition as a lemma, for all inputs; most have a concrete input
or run besides.

- A Merkle proof made by `getProof` for a datum of the tree is rejected when its position is
  the unpaired last one of some level: `buildTree` hashes that node with itself, the proof
  omits the step (`OwnProofAcceptedExactly`, `AllPositionsExactly`; the third of three in
  `ThirdOfThreeRejected`).
- The root does not bind the number of items (`RepeatedLastKeepsRoot`). Two lists share it if
  and only if completing every odd level with its last node gives them the same full tree,
  item by item (`RootsAgreeExactly`, for the free hash).
- So the tip of a full chain does not fix its transactions: an odd list of three or more can
  be given its last one again without a change of any hash (`RepeatedTransactionStaysSound`),
  because validation never looks for repeats. It fixes the headers, and which full tree each
  list fills, unless the hash is broken (`ChainTips.TipDeterminesHeaders`,
  `TipDeterminesFilledTrees`).
- The justified checkpoint may move back (`JustifiedCanMoveBack`). It never does in a run if
  and only if no vote completes the quorum of a checkpoint below it (`JustifiedStaysExactly`).
- Under Casper FFG, the default, another block can be finalized under the number that is
  final already (`FinalizedCanBeReplaced`): creating a checkpoint again forgets that its number
  is final. A run keeps the block if and only if no vote finds such a rival ready
  (`FinalizedStaysExactly`), which cannot happen as long as no checkpoint is created under the
  finalized number, nor under the other gadgets (`FinalizedBlockStays`).
- `unloadPlugin` does not look at dependents: afterwards the loaded plugins are closed under
  dependencies exactly when none of the others needs the unloaded one
  (`UnloadKeepsOrderExactly`, `UnloadCanBreakOrder`; over whole runs `RunOrderExactly`).
- A user's collateral can end below the debt in a run of normally returning calls
  (`SolvencyCanFail`): without debt `withdraw_collateral` does not look at the remaining
  total. Debts stay covered throughout a run if and only if every withdrawal past the balance
  check stays within the collateral beyond the debt (`RunCoveredExactly`); liquidations do
  not matter for that. The markets' requirements, as any other multiple of the debt that they
  reach, are kept throughout if and only if withdrawals and liquidations both leave as much
  (`RunRatioExactly`). Liquidations can take the first collateral asset below zero, and do unless
  each stays within it (`RunBalancesExactly`). A withdrawal that throws has already
  subtracted (`WithdrawalExactly`).
- `remove_liquidity` looks at the deposit and not at the reserves: a market can end below
  zero (`ReservesCanFail`), and stays above throughout a run if and only if each removal
  stays within the reserves (`RunReservesExactly`).
- A light client stores an accepted header over another without a look at the one above, and
  a header with index 0 over its genesis: `verifySync` can turn invalid (`SyncCanBeLost`). It
  stays valid throughout a run if and only if each accepted header below the tip fits under
  its successor (`RunSyncedExactly`).
- An event published under the type `*` reaches every wildcard subscriber twice
  (`WildcardSeesExactly`, `WildcardSeesTwice`).
- A deposit within the 0.5% tolerance lowers what a share is worth exactly when it is short of
  token1 (`AddKeepsBackingExactly`, `ShortDepositDilutes`).
- A light client asks for a validator name and 64-character roots, and for a genesis block
  with index 0 (or -1, which it then forgets); the full node does not
  (`FullChainFeedsExactly`, `UnsignedRefused`). A proof step with an empty hash counts for the
  client and not for the tree (`ProofsAgreeExactly`, `EmptyStepAgreesExactly`).
- `addBlock` can throw on a valid chain after it has added the block, because difficulty
  adjustment looks up a block by index (`RetargetThrowsExactly`, `RetargetCanThrow`).
- `process_cross_shard_transactions` compares a block number with a timestamp in seconds, so
  that only block numbers beyond the present Unix time move anything. The first shuffle
  leaves the remainder of the division without a shard (`DealLeavesOut`).
- The cumulative selector picks a first validator without stake for the value 0, and an
  earlier validator than the subtracting one on every prefix sum (`StakelessPick`,
  `SelectorsAgree`).

## Model

| member | source | states |
|---|---|---|
| `Plugins.ResolveSucceedsExactly` | src/runtime/plugins.js:201-228 | for every finite graph the resolver terminates, and returns normally if and only if every reachable id is registered and none lies on a cycle |
| `Plugins.ResolvedOrder` | src/runtime/plugins.js:201-228 | on success the list holds exactly the reachable ids, each once and after all its dependencies, the requested one last |
| `Plugins.FailureWitness` | src/runtime/plugins.js:201-228 | a throw comes with a reachable unregistered id, or with a walk that returns to itself |
| `Plugins.LoadAddsReachable` | src/runtime/plugins.js:247-295 | a successful load adds exactly what the plugin reaches |
| `Plugins.LoadMember` | src/runtime/plugins.js:259-267 | the recursive load of a dependency whose own dependencies are loaded loads just that one |
| `Plugins.LoadStopsExactly` | src/runtime/plugins.js:247-295 | an unregistered plugin is not found, unresolvable dependencies load nothing, and otherwise loading stops at the first plugin in the order that is neither loaded nor loadable, with what comes before it loaded |
| `Plugins.LoadKeepsOrder` | src/runtime/plugins.js:247-295 | a load, failed or not, leaves every loaded plugin after its dependencies |
| `Plugins.UnloadKeepsOrderExactly` | src/runtime/plugins.js:463-484 | unloading keeps that exactly when no other loaded plugin depends on the unloaded one |
| `Plugins.UnloadCanBreakOrder` | src/runtime/plugins.js:463-484 | two plugins, one of which the other needs |
| `Plugins.RunOrderExactly` | src/runtime/plugins.js:124-484 | in any run of registrations, loads and unloads the loaded plugins are in order after every call if and only if no unload takes away what another loaded plugin needs |
| `Plugins.RunKeepsDependencyOrder` | src/runtime/plugins.js:124-295 | a run of registrations and loads, whatever failed, leaves loaded plugins after everything they depend on |
| `Plugins.WellFormedExactly` | src/runtime/plugins.js:162-180 | the accepted information has no empty field, an id of letters, digits, dots, underscores and hyphens, and three numbers joined with dots as version |
| `Plugins.PluginSystem.RegisterPlugin` | src/runtime/plugins.js:124-156 | malformed information throws; a second registration is refused and changes nothing |
| `Plugins.ValidatePluginInfo` | src/runtime/plugins.js:162-180 | throws exactly on a missing field, a character that no id has, or a version that is not three numbers with dots between them; missing fields first |
| `Plugins.PluginSystem.ResolveDependencies` | src/runtime/plugins.js:201-228 | the depth-first search over the shared list does what the specification's resolver does, and terminates |
| `Plugins.PluginSystem.LoadPlugin` | src/runtime/plugins.js:247-295 | the self-calling loader amounts to one pass over the resolved order |
| `Plugins.PluginSystem.StartPlugin` | src/runtime/plugins.js:408-430 | activates a loaded plugin unless its own start throws; starting twice is harmless |
| `Plugins.PluginSystem.StopPlugin` | src/runtime/plugins.js:436-457 | the reverse; an inactive plugin is left alone |
| `Plugins.PluginSystem.UnloadPlugin` | src/runtime/plugins.js:463-484 | stops, destroys, removes; a plugin whose destroy throws stays loaded but inactive |
| `StringHash.WrappedStep` | src/runtime/vm_context.js:129-140 | wrapping to 32 bits inside each step loses nothing against the unbounded polynomial |
| `StringHash.PolynomialExactly` | src/runtime/vm_context.js:129-140 | the first of n + 1 code units has the weight 31 to the n |
| `StringHash.Hash` | src/runtime/vm_context.js:129-140 | the loop computes the absolute value of the wrapped base-31 polynomial of the text |
| `DeterministicRandom.StepIsExact` | src/runtime/vm_context.js:163-181 | the intermediate product and sum of a state step stay below 2^53, so the step is exact in doubles |
| `DeterministicRandom.SumDivisibility` | src/runtime/vm_context.js:163-181 | the geometric sum behind n draws has exactly as many factors two as n |
| `DeterministicRandom.DrawClosedForm` | src/runtime/vm_context.js:163-181 | the state after n draws in closed form |
| `DeterministicRandom.ReturnsExactlyAtMultiplesOfModulus` | src/runtime/vm_context.js:163-181 | full period: n draws are back at the state if and only if 2^32 divides n |
| `DeterministicRandom.DistinctWithinPeriod` | src/runtime/vm_context.js:163-181 | no state comes twice within a period |
| `DeterministicRandom.EveryStateOnce` | src/runtime/vm_context.js:163-181 | every state comes within a period |
| `DeterministicRandom.EveryValueDrawn` | src/runtime/vm_context.js:163-172 | the next 2^32 calls of `nextInt` return every value of a range of at most that size |
| `DeterministicRandom.ScalingIsExactUpTo` | src/runtime/vm_context.js:163-172 | the product in `nextInt` stays within the exact integers for every state if and only if the range has at most 2^21 values |
| `DeterministicRandom.ScaleExactly` | src/runtime/vm_context.js:163-172 | the value drawn is the fraction times the size of the range, rounded down, above the lower bound |
| `DeterministicRandom.Generator.constructor` | src/runtime/vm_context.js:119-122 | seed and state are the hash of the text |
| `DeterministicRandom.Generator.Reset` | src/runtime/vm_context.js:153-155 | back to the seed |
| `DeterministicRandom.Generator.NextInt` | src/runtime/vm_context.js:163-172 | a value between the bounds, swapped if reversed, from the advanced state |
| `DeterministicRandom.Generator.NextFloat` | src/runtime/vm_context.js:178-181 | the advanced state as a fraction in [0, 1) |
| `Cache.Inclusion` | src/core/caching.js:40-102 | on the same operations the smaller cache holds an order-preserving part of the larger one with equal values and time stamps, and lacks at most the difference of the capacities |
| `Cache.HitInclusion` | src/core/caching.js:40-65 | a hit in the smaller cache is the same hit in the larger |
| `Cache.CountersCompare` | src/core/caching.js:40-65 | the larger cache counts no fewer hits, of the same number of reads |
| `Cache.Coherent` | src/core/caching.js:40-102 | whatever is cached is what was last written under its key |
| `Cache.NothingLost` | src/core/caching.js:67-87 | with room for every key written, a last write of at most the ttl's age is never lost |
| `Cache.ExactWhenLargeEnough` | src/core/caching.js:40-102 | such a cache answers a read with the last write of the key if and only if that is at most the ttl old |
| `CacheCalls.NeverStale` | src/core/caching.js:40-65 | at any size, whatever a read returns is the last write of its key and at most the ttl old |
| `CacheCalls.AnswersExactly` | src/core/caching.js:45-64 | a read finds an item if and only if it is there and at most the ttl old |
| `CacheCalls.ReadExactly` | src/core/caching.js:45-64 | a found entry counts a hit and moves to the end; otherwise a miss is counted and an older entry is gone; other keys are not affected |
| `CacheCalls.WriteExactly` | src/core/caching.js:72-86 | the written entry is the last; a new key in a full cache, and nothing else, evicts the first entry and counts that |
| `CacheCalls.PurgeExactly` | src/core/caching.js:229-249 | a purge leaves exactly the entries at most the ttl old, in their order, and the counters |
| `CacheCalls.ShrinkExactly` | src/core/caching.js:195-199 | a smaller size keeps that many entries from the end and counts those that go |
| `CacheCalls.ClearAndRemoveExactly` | src/core/caching.js:89-122 | clearing forgets entries and counters; removing takes one key and counts nothing |
| `CacheCalls.DefaultsExactly` | src/core/caching.js:67-75 | a missing or zero setting stands for 1000 entries and 3600 seconds |
| `CacheCalls.UpdatedExactly` | src/core/caching.js:172-194 | new settings replace those given and leave the others |
| `Cache.OrderedByTouch` | src/core/caching.js:40-87 | the insertion order is the order of last reads and writes |
| `Cache.EvictsLeastRecentlyTouched` | src/core/caching.js:67-87 | an evicting write drops just one key, the one touched longest ago |
| `Cache.DeletingExpired` | src/core/caching.js:229-249 | collecting the expired keys and deleting them one by one leaves the fresh entries in order |
| `Cache.ReadLane` | src/core/caching.js:45-64 | hit, miss and expired read, with the re-insertion and the counters |
| `Cache.WriteLane` | src/core/caching.js:72-86 | replaces or evicts, inserts last, never exceeds the size |
| `Cache.DropOldest` | src/core/caching.js:195-199 | shrinking keeps the most recent entries |
| `Cache.CollectExpired` | src/core/caching.js:235-241 | exactly the expired keys, in order |
| `Cache.DropExpired` | src/core/caching.js:229-249 | the two loops together filter out what has expired, and count it |
| `Cache.BlockchainCache.constructor` | src/core/caching.js:18-38 | one empty cache for each type, whatever configurations are given; without any, the default ones |
| `Cache.BlockchainCache.Get` | src/core/caching.js:40-65 | an unknown type is an error; otherwise only that type's cache changes |
| `Cache.BlockchainCache.Set` | src/core/caching.js:67-87 | the same for writes, which also need the type's configuration |
| `Cache.BlockchainCache.Delete` | src/core/caching.js:89-102 | reports whether the key was there |
| `Cache.BlockchainCache.ClearCache` | src/core/caching.js:104-122 | clears one cache with its counters, or all without a type, the empty string included |
| `Cache.BlockchainCache.SetCacheConfig` | src/core/caching.js:172-201 | bad sizes and ttls are refused without effect; a smaller size drops the oldest entries |
| `Cache.BlockchainCache.PurgeLane` | src/core/caching.js:229-249 | removes exactly the expired entries of one type |
| `Cache.BlockchainCache.PurgeExpiredItems` | src/core/caching.js:211-227 | the same for one type, or for all of them in turn up to one without a configuration; returns how many entries went |
| `Cache.PurgeFirstAt` | src/core/caching.js:211-227 | purging the first types in turn purges each of them once and no other |
| `Merkle.OwnProofAcceptedWhenPaired` | src/core/merkle.js:91-145 | for any hash, the tree's own proof of a datum is accepted if its position is paired on every level |
| `Merkle.OwnProofAcceptedExactly` | src/core/merkle.js:25-49 | under the free hash, if and only if |
| `Merkle.ThirdOfThreeRejected` | src/core/merkle.js:25-49 | the tree of three items rejects its own proof of the third |
| `Merkle.AllPositionsExactly` | src/core/merkle.js:25-49 | every position is paired on every level if and only if the number of leaves is a power of two |
| `Merkle.PairedProofFolds` | src/core/merkle.js:91-145 | such a proof folds to the root |
| `Merkle.FoldFallsShort` | src/core/merkle.js:91-145 | a proof with an omitted step ends strictly below the root under any hash with a size |
| `Merkle.RootBindsLeaves` | src/core/merkle.js:25-49 | equal roots over equally many leaves mean equal leaves, or a collision among the nodes hashed |
| `Merkle.RootBindsData` | src/core/merkle.js:25-49 | the same for the data lists |
| `Merkle.ProofBindsLeaf` | src/core/merkle.js:91-108 | an accepted proof that follows position i shows the digest at i, or a collision |
| `Merkle.RepeatedLastKeepsRoot` | src/core/merkle.js:36-41 | repeating the last of an odd number of leaves keeps the root |
| `Merkle.RootExactly` | src/core/merkle.js:25-49 | leaves are the items' digests, a node is the digest of its children's text with the left one first, an unpaired last node goes in twice, and one node alone is the root |
| `Merkle.FoldExactly` | src/core/merkle.js:91-108 | a proof is read from the bottom: a left sibling goes before the hash, a right one after it |
| `MerkleRoots.FilledKeepsRoot` | src/core/merkle.js:25-49 | under any hash a list has the root of the full tree that completing odd levels makes of it |
| `MerkleRoots.RootsAgreeExactly` | src/core/merkle.js:25-49 | under the free hash two lists of any lengths share a root if and only if their full trees have the same height and the same item at every place |
| `MerkleRoots.SameFilledSameRoot` | src/core/merkle.js:25-49 | one half of that under every hash |
| `MerkleRoots.RootBindsFilled` | src/core/merkle.js:25-49 | the other half for 64-character digests: the same full tree, or a collision, or an item that is two digests of the other tree put together |
| `MerkleRoots.FilledInjective` | src/core/merkle.js:25-49 | lists of one length with the same full tree are equal |
| `Merkle.MerkleTree.constructor` | src/core/merkle.js:12-20 | builds the tree of the given data |
| `Merkle.MerkleTree.BuildTree` | src/core/merkle.js:25-49 | the nested loops fill the levels up to one root; no data, no root |
| `Merkle.MerkleTree.PairUp` | src/core/merkle.js:36-41 | the inner loop pairs neighbours and an unpaired last node with itself |
| `Merkle.MerkleTree.Add` | src/core/merkle.js:71-74 | appends and rebuilds |
| `Merkle.MerkleTree.AddAll` | src/core/merkle.js:80-83 | appends all and rebuilds |
| `Merkle.MerkleTree.Clear` | src/core/merkle.js:192-196 | forgets everything |
| `Merkle.MerkleTree.Verify` | src/core/merkle.js:91-108 | accepts if and only if the proof leads from the datum to the root |
| `Merkle.MerkleTree.GetProof` | src/core/merkle.js:115-145 | the sibling path of the first equal leaf, without the unpaired levels; nothing for an absent datum |
| `Finality.FinalityIsMonotone` | src/consensus/finality.js:100-261 | in every run the finalized block number never falls |
| `FinalityVotes.JustifiesExactly` | src/consensus/finality.js:133-198 | a vote justifies the checkpoint of its number, with the votes for it, if and only if the number is on an epoch boundary, has a checkpoint, and more than the justification threshold times the validators have then voted for it; all other justifications stay |
| `FinalityVotes.PbftFinalizesExactly` | src/consensus/finality.js:221-235 | under PBFT a vote finalizes the justified checkpoint if and only if that is above the final one and more than the finality threshold times the validators have voted for it; nothing else becomes final |
| `FinalityVotes.CasperFinalizesExactly` | src/consensus/finality.js:240-261 | under Casper FFG it finalizes the checkpoint one epoch below the justified one if and only if the justified number is above the final one, that checkpoint is justified and not final, and both have their votes |
| `FinalityVotes.OtherFinalizesNothing` | src/consensus/finality.js:203-216 | under any other gadget nothing becomes final |
| `FinalityVotes.ReportedExactly` | src/consensus/finality.js:446-465 | what is reported of a number: finalized up to the final one, justified up to the justified one beyond it, unjustified above both |
| `FinalityVotes.RemovedExactly` | src/consensus/finality.js:84-86 | removing an id takes every occurrence of it and no other, in order |
| `FinalityVotes.ValidatorsExactly` | src/consensus/finality.js:76-86 | a new validator comes last, one that goes leaves the others in order, and nothing else changes |
| `FinalityVotes.CreatedExactly` | src/consensus/finality.js:100-118 | a new checkpoint carries the block's number and hash, its epoch and the validators, without votes, not justified and not final; both pointers and all earlier checkpoint objects stay |
| `FinalityVotes.ForkHandledExactly` | src/consensus/finality.js:496-511 | a resolved fork makes a checkpoint of its last block if and only if that stands on an epoch boundary above 0 without one |
| `Finality.FinalStaysFinal` | src/consensus/finality.js:446-465 | a number once reported finalized always is |
| `Finality.FinalizedIsJustified` | src/consensus/finality.js:173-261 | every checkpoint marked final, except genesis, carries a justification and stands on an epoch boundary |
| `Finality.FinalizationsOverlap` | src/consensus/finality.js:221-235 | two managers with the same validators that finalize one height share more than a third of all validators as voters |
| `Finality.FinalizationHappens` | src/consensus/finality.js:221-235 | a run under the default thresholds that finalizes a height, with a fixed validator |
| `Finality.JustificationsIntersect` | src/consensus/finality.js:173-198 | any two default-threshold justifications share a voter |
| `Finality.PbftQuorumsOverlap` | src/consensus/finality.js:595-598 | two quorums of the required size overlap in more than a third |
| `Finality.StepInv` | src/consensus/finality.js:100-261 | what every single command keeps, the finalized number included |
| `Finality.JustifiedCanMoveBack` | src/consensus/finality.js:133-261 | a run that finalizes block 2 and then moves the justified checkpoint back to block 1, with block 2 still final |
| `FinalityPromises.StepMovesBackExactly` | src/consensus/finality.js:133-198 | one command lowers the justified number if and only if it is a vote that completes the quorum of a checkpoint below |
| `FinalityPromises.JustifiedStaysExactly` | src/consensus/finality.js:133-261 | over any run the justified number never falls if and only if there is no such vote |
| `FinalityPromises.StepReplacesExactly` | src/consensus/finality.js:152-261 | one command replaces the finalized object under the same number if and only if it is a vote under Casper FFG that finds a rival with that number ready |
| `FinalityPromises.FinalizedStaysExactly` | src/consensus/finality.js:100-261 | over any run a finalized number keeps its object and block if and only if there is no such vote |
| `FinalityPromises.FinalizedBlockStays` | src/consensus/finality.js:100-261 | which is so under the other gadgets, and whenever no checkpoint is created under the number final at that moment |
| `FinalityPromises.FinalizedCanBeReplaced` | src/consensus/finality.js:100-261 | a default-threshold run that finalizes number 1 with one block and then with another |
| `Finality.RunCounted` | src/consensus/finality.js:133-198 | with fixed validators every recorded justification and quorum consists of votes cast in the run |
| `Finality.FinalityManager.constructor` | src/consensus/finality.js:21-70 | an initialized manager: genesis is justified and finalized |
| `Finality.FinalityManager.AddValidatorId` | src/consensus/finality.js:76-78 | adds one validator and changes nothing else |
| `Finality.FinalityManager.RemoveValidatorId` | src/consensus/finality.js:84-86 | removes one |
| `Finality.KeepOthers` | src/consensus/finality.js:84-86 | every occurrence goes, the others keep their order |
| `Finality.FinalityManager.CreateCheckpointAt` | src/consensus/finality.js:100-118 | a new checkpoint object with no votes; the pointers keep the old object of that number |
| `Finality.FinalityManager.Record` | src/consensus/finality.js:133-146 | one vote per validator and number, then the votes are processed |
| `Finality.FinalityManager.ProcessVotesFor` | src/consensus/finality.js:152-167 | justification on epoch boundaries, then an attempt at finality when the justified checkpoint is ahead |
| `Finality.FinalityManager.AttemptCheckpointJustification` | src/consensus/finality.js:173-198 | with enough votes, marks the stored checkpoint justified by them and points to it |
| `Finality.FinalityManager.AttemptFinality` | src/consensus/finality.js:203-216 | the gadget decides |
| `Finality.FinalityManager.AttemptPBFTFinality` | src/consensus/finality.js:221-235 | finalizes the justified checkpoint with a quorum of votes above the finalized one |
| `Finality.FinalityManager.AttemptCasperFFGFinality` | src/consensus/finality.js:240-261 | finalizes the previous boundary's checkpoint when it is justified too |
| `Finality.FinalityManager.HandleForkTo` | src/consensus/finality.js:496-511 | the chosen chain's last block gets a checkpoint only on an epoch boundary without one |
| `Finality.FinalityManager.VerifyFinalityOf` | src/consensus/finality.js:446-465 | the status of a number |
| `RateLimiter.WindowBound` | src/networking/rate_limiter.js:40-182 | within any window of m milliseconds without a reset, a user not whitelisted is granted at most the maximal balance plus rate times m / 1000, whatever others do |
| `RateLimiter.WindowBoundReached` | src/networking/rate_limiter.js:116-182 | some run is granted exactly that |
| `RateLimiter.RefillLeaves` | src/networking/rate_limiter.js:40-54 | after m milliseconds a refill leaves each bucket at the smaller of the maximum and its content plus rate times m / 1000 |
| `RateLimiter.CheckedExactly` | src/networking/rate_limiter.js:116-136 | a full bucket for a new user; fewer tokens than the fixed cost refuse and block |
| `RateLimiter.AnsweredExactly` | src/networking/rate_limiter.js:116-182 | a request is allowed if and only if the tokens cover the fixed cost and its own; then its own is charged, otherwise the user is blocked |
| `RateLimiter.TurnedAwayExactly` | src/networking/rate_limiter.js:61-131 | the lists decide first, and a block holds strictly before its end; nothing changes then |
| `RateLimiter.WhitelistedExactly` | src/networking/rate_limiter.js:116-182 | a whitelisted user is charged without a refill and never for the fixed cost |
| `RateLimiter.GrantsArePaid` | src/networking/rate_limiter.js:40-182 | grants and remaining level together never exceed the level before and the refill |
| `RateLimiter.StepPays` | src/networking/rate_limiter.js:116-182 | one call: a grant is paid from the level, nothing else raises it |
| `RateLimiter.BlockedGetsNothing` | src/networking/rate_limiter.js:79-109 | until its block ends a user is granted nothing |
| `RateLimiter.RefusalBlocks` | src/networking/rate_limiter.js:116-182 | a refusal for lack of tokens starts such a block |
| `RateLimiter.Limiter.Initialize` | src/networking/rate_limiter.js:30-35 | forgets buckets and blocks |
| `RateLimiter.Limiter.RefillTokens` | src/networking/rate_limiter.js:40-54 | every bucket gains the elapsed refill, up to its maximum |
| `RateLimiter.TopUp` | src/networking/rate_limiter.js:45-51 | the loop adds the refill to every bucket and caps it, in any order of users |
| `RateLimiter.Limiter.CheckBlocked` | src/networking/rate_limiter.js:79-88 | answers, and forgets a block that has ended |
| `RateLimiter.Limiter.BlockUser` | src/networking/rate_limiter.js:95-101 | blocks one user for the given time |
| `RateLimiter.Limiter.UnblockUser` | src/networking/rate_limiter.js:107-109 | lifts the block |
| `RateLimiter.Limiter.CheckRateLimit` | src/networking/rate_limiter.js:116-143 | the reasons in the source's order, with their effects |
| `RateLimiter.Limiter.TryConsumeTokens` | src/networking/rate_limiter.js:151-182 | charges exactly on success; blocks on lack of tokens |
| `Liquidity.SwapRunKeepsProduct` | src/runtime/liquidity.js:97-131 | in any run of swaps with an allowed fee, both reserves stay positive and their product never falls |
| `Liquidity.NoFreeReserves` | src/runtime/liquidity.js:97-131 | no run of swaps lowers one reserve without raising the other |
| `Liquidity.RoundTripNeverProfits` | src/runtime/liquidity.js:111-131 | swapping there and back, from either token, returns no more than was put in |
| `Liquidity.SplitNeverPaysMore` | src/runtime/liquidity.js:111-120 | in either direction two swaps never pay more than one of the sum, and the same without a fee |
| `Liquidity.AddKeepsBackingExactly` | src/runtime/liquidity.js:33-65 | a deposit keeps what a share is worth if and only if it is not short of token1 |
| `Liquidity.AddWithinToleranceDilutes` | src/runtime/liquidity.js:48-62 | within the tolerance, backing falls at most by the factor 0.995 |
| `Liquidity.ShortDepositDilutes` | src/runtime/liquidity.js:48-62 | a deposit within the tolerance after which a share is worth less |
| `Liquidity.RunDilutes` | src/runtime/liquidity.js:33-131 | over any operations with k deposits among them, the product stays at 0.995 to the k of every floor it had, times the square of the supply; of a floor above 1 if the pool is never emptied |
| `Liquidity.RunStaysBacked` | src/runtime/liquidity.js:33-131 | swaps, removals and such deposits keep the square of the supply within the product, in every run |
| `Liquidity.AddThenRemove` | src/runtime/liquidity.js:33-89 | an exact deposit and the removal of the minted shares restore the pool |
| `LiquidityCalls.SwapExactly` | src/runtime/liquidity.js:97-131 | a swap is made for a positive amount; all of it comes in, and the other reserve times the reserve with the amount less the fee is the old product |
| `LiquidityCalls.FirstDepositExactly` | src/runtime/liquidity.js:33-46 | the first deposit sets each reserve to its own token's amount and mints the root of the product |
| `LiquidityCalls.DepositAcceptedExactly` | src/runtime/liquidity.js:33-56 | a later deposit is accepted if and only if both amounts are positive and token1 is off the exact ratio by at most half a percent of it |
| `LiquidityCalls.DepositExactly` | src/runtime/liquidity.js:58-65 | it adds both amounts and mints in proportion to token0 |
| `LiquidityCalls.RemovalExactly` | src/runtime/liquidity.js:72-89 | above 0 up to all shares can be given back, for that part of each reserve |
| `LiquidityCalls.FeeExactly` | src/runtime/liquidity.js:204-209 | the fee is set if and only if it is from 0 to 1% |
| `Liquidity.LiquidityPool.constructor` | src/runtime/liquidity.js:15-25 | the root of the product as supply; the pool is backed exactly with non-negative reserves |
| `Liquidity.LiquidityPool.AddLiquidity` | src/runtime/liquidity.js:33-65 | the refusals, the first deposit and the later ones |
| `Liquidity.LiquidityPool.RemoveLiquidity` | src/runtime/liquidity.js:72-89 | pays what leaves the reserves, for a permitted number of shares |
| `Liquidity.LiquidityPool.Swap` | src/runtime/liquidity.js:97-109 | dispatches on the token; bad input changes nothing |
| `Liquidity.LiquidityPool.SwapToken0` | src/runtime/liquidity.js:111-120 | pays what leaves the other reserve |
| `Liquidity.LiquidityPool.SwapToken1` | src/runtime/liquidity.js:122-131 | the other direction |
| `Liquidity.LiquidityPool.SetFeeRate` | src/runtime/liquidity.js:204-209 | only a fee from 0 to 1% is taken |
| `Chain.Validate` | src/core/block.js:203-251 | no error if and only if the block is sound and follows the previous one |
| `Chain.IsValidChain` | src/core/blockchain.js:194-220 | accepts if and only if genesis is sound and every other block is and follows its predecessor |
| `Chain.ExtendsValid` | src/core/blockchain.js:136-220 | appending a block keeps a chain valid exactly when that block alone is valid on top: the one-block check refines the whole one |
| `Chain.StepExactly` | src/core/blockchain.js:136-248 | a valid chain takes a block if and only if it is valid with it, and another chain if and only if that is valid and strictly longer |
| `Chain.TxRootExactly` | src/core/block.js:203-251 | the root that a block must carry is the Merkle root of its transactions' texts, all zeros without any |
| `Chain.InvalidExactly` | src/core/block.js:203-251 | one complaint for each invalid transaction, by id and in order |
| `Chain.RunStaysValid` | src/core/blockchain.js:136-248 | a valid chain stays valid and never shrinks, whatever blocks and chains are offered |
| `Chain.RetargetThrowsExactly` | src/core/blockchain.js:174-188 | on a valid chain adjusting the difficulty throws exactly at multiples of ten above a genesis index of more than ten |
| `Chain.RetargetExactly` | src/core/blockchain.js:174-188 | at every tenth index, ten blocks in under half the expected time raise the difficulty by one, in over twice that lower it by one, to one at the least |
| `Chain.FromElevenValid` | src/core/blockchain.js:194-220 | blocks from index 11 on make a valid chain, however many |
| `Chain.RetargetCanThrow` | src/core/blockchain.js:174-188 | after the tenth of them it throws |
| `Chain.UnconfirmedExactly` | src/core/blockchain.js:160-163 | exactly the pending transactions whose ids are not in the block stay pending |
| `Chain.UnconfirmedInOrder` | src/core/blockchain.js:160-163 | in their order |
| `Chain.RemoveConfirmed` | src/core/blockchain.js:160-163 | the filter, with its order |
| `Chain.Blockchain.constructor` | src/core/blockchain.js:14-22 | the given chain and settings |
| `Chain.Blockchain.AddBlock` | src/core/blockchain.js:136-169 | appended exactly when valid on top, the pool filtered, the difficulty adjusted |
| `Chain.Blockchain.AdjustDifficulty` | src/core/blockchain.js:174-188 | every tenth block one up or down by the time the last ten took, lowered to one at the least |
| `Chain.Blockchain.ReplaceChain` | src/core/blockchain.js:235-248 | replaced exactly by a strictly longer valid chain |
| `ChainTips.TipDeterminesHeaders` | src/core/blockchain.js:194-220 | two valid chains with one hash at a position have the same headers from genesis to there, or two headers collide |
| `ChainTips.TxRootBinds` | src/core/block.js:203-251 | lists with one transaction root fill the same Merkle tree, or the hash is broken on strings named |
| `ChainTips.TipDeterminesFilledTrees` | src/core/blockchain.js:194-220 | so do the lists of such chains at every position; lists of one length are then equal |
| `ChainTips.SameFilledStaysSound` | src/core/block.js:203-251 | a sound block stays sound with any valid list that fills the same tree |
| `ChainTips.RepeatedTransactionStaysSound` | src/core/block.js:203-251 | whatever the hash, a valid chain stays valid with the same headers when an odd list of at least three gets its last transaction again |
| `LightClient.RunIsContiguous` | src/core/light_client.js:203-220 | whatever headers are offered, the stored heights are contiguous from 0, each header under its own number and, above genesis, with its own hash |
| `LightClient.ProcessSyncedExactly` | src/core/light_client.js:203-220 | one header leaves a synced client in sync if and only if it is refused, or fits under the stored header above it |
| `LightClient.RunSyncedExactly` | src/core/light_client.js:203-290 | `verifySync` succeeds after every header of a run if and only if each accepted one below the tip fits under its successor |
| `LightClient.SyncCanBeLost` | src/core/light_client.js:203-220 | three accepted headers, the last a second header 1, after which header 2 is no longer linked |
| `LightClient.TipDeterminesHeaders` | src/core/light_client.js:262-290 | two synced clients with one hash at a height hold the same headers from 1 up to it, or two headers collide |
| `LightClient.FullChainFeedsExactly` | src/core/light_client.js:46-109 | a valid chain is accepted header by header if and only if it starts at 0 (or -1) and the rest names string validators and 64-character roots; it is then held (without its first block at -1) and in sync |
| `LightClient.UnsignedRefused` | src/core/light_client.js:46-109 | two valid blocks without a validator, the second of which the client refuses |
| `LightClient.TransactionProofAgrees` | src/core/light_client.js:139-162 | a step with no valid position is a rejection; otherwise, without empty hashes, the client computes the Merkle tree's fold |
| `LightClient.ProofsAgreeExactly` | src/core/light_client.js:139-162 | client and tree give one answer under every digest if and only if every step has a valid position and none an empty hash |
| `LightClient.EmptyStepAgreesExactly` | src/core/light_client.js:139-162 | one step gives the same in both checks if and only if its hash is not empty or the digest has a fixed point there |
| `LightClient.Client.VerifyBlockHeader` | src/core/light_client.js:46-109 | no error if and only if the header is acceptable on top |
| `LightClient.Client.ProcessBlockHeader` | src/core/light_client.js:203-220 | stores the header and raises the height exactly then |
| `LightClient.Client.VerifySync` | src/core/light_client.js:262-290 | valid if and only if every stored header is linked to the one below |
| `LightClient.Client.VerifyTransactionProof` | src/core/light_client.js:139-162 | accepts if and only if the proof folds to the root; a malformed step is a rejection |
| `Fork.SharedOnlyInPrefix` | src/core/fork.js:26-61 | two linked chains share a hash only at equal positions of the detected prefix, never after it |
| `Fork.MapIsInverse` | src/core/fork.js:143-148 | the rebuilt map gives every block of the chain back |
| `Fork.RunKeepsGenesis` | src/core/fork.js:63-141 | over any run the genesis hash stays and only linked chains replace linked chains |
| `Fork.RunGains` | src/core/fork.js:63-120 | under one strategy its measure never falls and grows strictly with every replacement |
| `ForkChoice.RunGrows` | src/core/fork.js:63-120 | between any two moments of a run under one strategy the chain is the same, or strictly longer, or harder in the sum of difficulties, or ends strictly later |
| `ForkChoice.TakenExactly` | src/core/fork.js:63-141 | the peer's chain is taken if and only if a fork is detected, the chain is linked and valid, and it is longer, harder in the sum of difficulties, or ends later, by strategy |
| `ForkChoice.DetectedExactly` | src/core/fork.js:26-61 | a fork is reported exactly when one of the branches after the last shared block reaches the threshold, with that block and both lengths |
| `ForkChoice.DifficultyAddsUp` | src/core/fork.js:92-105 | the total compared is the sum of the difficulties over the positions |
| `Fork.CommonAncestor` | src/core/fork.js:31-40 | the scan finds the longest common prefix of hashes |
| `Fork.IsBetter` | src/core/fork.js:80-120 | strictly longer, heavier or later, by strategy |
| `Fork.ForkHandler.DetectFork` | src/core/fork.js:26-61 | records a fork exactly when the ancestor is far enough below one of the tips |
| `Fork.ForkHandler.ResolveFork` | src/core/fork.js:63-120 | records the detected fork; replaces chain and map together, or neither |
| `Fork.ForkHandler.IsChainValid` | src/core/fork.js:122-141 | accepts if and only if the chain is linked and every block valid |
| `Fork.ForkHandler.UpdateBlockHashMap` | src/core/fork.js:143-148 | the map of the present chain |
| `StateMachine.RollbackRestores` | src/runtime/state_machine.js:113-168 | after any balanced sequence rollback restores the state and the outer transactions of its matching begin |
| `StateMachine.CommitKeeps` | src/runtime/state_machine.js:113-156 | commit keeps the inner state as one new version, in the backend too |
| `StateMachine.VersionNeverDecreases` | src/runtime/state_machine.js:113-217 | versions never fall without restoring a snapshot |
| `StateMachine.HistoryIsWindow` | src/runtime/state_machine.js:61-71 | the history is a bounded window of consecutive versions up to the present one, as long as the bound allows |
| `StateMachine.StateByVersion` | src/runtime/state_machine.js:224-227 | a version in the window gives the state right after its commit, any other nothing |
| `StateMachine.SnapshotRoundTrip` | src/runtime/state_machine.js:272-330 | restoring gives back the state and version of the snapshot |
| `StateMachine.PruneExactly` | src/runtime/state_machine.js:377-382 | pruning to n leaves the last n entries, or all if there are no more |
| `StateMachine.StateMachine.Initialize` | src/runtime/state_machine.js:44-55 | empties the backend and records the present state, version 0 on a new machine |
| `StateMachine.StateMachine.AddStateHistory` | src/runtime/state_machine.js:61-71 | pushes and drops the oldest beyond the bound |
| `StateMachine.StateMachine.BeginTransaction` | src/runtime/state_machine.js:113-122 | pushes a copy of the state |
| `StateMachine.StateMachine.CommitTransaction` | src/runtime/state_machine.js:128-156 | pops, counts a version, records it; refused without a transaction |
| `StateMachine.StateMachine.RollbackTransaction` | src/runtime/state_machine.js:161-168 | pops and restores; refused without a transaction |
| `StateMachine.StateMachine.ApplyTransition` | src/runtime/state_machine.js:177-217 | all or nothing: the transition's result as one version, or no trace |
| `StateMachine.StateMachine.GetStateByVersion` | src/runtime/state_machine.js:224-227 | the first entry of that version |
| `StateMachine.StateMachine.CreateSnapshot` | src/runtime/state_machine.js:272-295 | stores state and version under the name |
| `StateMachine.StateMachine.RestoreSnapshot` | src/runtime/state_machine.js:301-330 | restores them; an unknown name is refused |
| `StateMachine.StateMachine.PruneHistory` | src/runtime/state_machine.js:377-382 | keeps the last entries |
| `Lending.RunKeepsLedger` | src/runtime/lending.js:46-163 | in every run, per market: deposits sum to the supply, borrows to the borrowed total, and reserves, borrows and liquidated amounts add up to the supply |
| `Lending.RunIsProper` | src/runtime/lending.js:89-235 | every borrow is in a market and beside some collateral entry |
| `LendingCalls.CreationExactly` | src/runtime/lending.js:16-36 | the new market's requirement and rate, and no totals; a second one for an asset is refused |
| `LendingCalls.DepositExactly` | src/runtime/lending.js:46-67 | a deposit into a market always goes through; deposit, supply and reserves grow by the amount |
| `LendingCalls.RemovalExactly` | src/runtime/lending.js:69-87 | a removal goes through if and only if the deposit holds the amount, whatever the reserves |
| `LendingCalls.LoanExactly` | src/runtime/lending.js:89-130 | a loan is given if and only if both markets exist, the reserves hold the amount and the collateral is at least the amount times the market's requirement |
| `LendingCalls.LoanRegisters` | src/runtime/lending.js:89-130 | a loan refused for its collateral has registered a stranger |
| `LendingCalls.RepaymentExactly` | src/runtime/lending.js:132-150 | a repayment goes through if and only if the debt is at least the amount; it comes back into the reserves |
| `LendingCalls.CollateralWithdrawalExactly` | src/runtime/lending.js:152-163 | within the balance the amount is gone; the call returns if and only if there is no debt or the quotient of what is left and the debt is at least 1 |
| `LendingCalls.LiquidationReturnsExactly` | src/runtime/lending.js:215-235 | a liquidation returns if and only if the user has a debt in the asset of at least the amount and the quotient of collateral and all debts is at most 1 |
| `LendingCalls.LiquidationExactly` | src/runtime/lending.js:215-235 | it takes the amount off the debt, the market's loans and the first collateral asset, and leaves the reserves |
| `LendingPromises.RunCoveredExactly` | src/runtime/lending.js:89-235 | with non-negative amounts and requirements of at least 1, every user's collateral covers the debt after every call if and only if every withdrawal past the balance check stays within the surplus |
| `LendingPromises.RunRatioExactly` | src/runtime/lending.js:89-235 | for every q of at least 0 that the requirements reach, collateral stays at least q times the debt throughout a run if and only if each withdrawal and liquidation leaves as much |
| `LendingPromises.RunKeepsRatio` | src/runtime/lending.js:42-150 | so deposits, removals, borrows and repayments alone always keep q times the debt within the collateral |
| `LendingPromises.StepRatioExactly` | src/runtime/lending.js:89-235 | the same equivalence for one call |
| `LendingPromises.StepCoveredExactly` | src/runtime/lending.js:89-235 | the same for one call; a liquidation takes the same off debt and collateral |
| `LendingPromises.RunBalancesExactly` | src/runtime/lending.js:89-235 | under the same assumptions, no collateral balance is ever negative if and only if every liquidation stays within the first collateral asset |
| `LendingPromises.RunReservesExactly` | src/runtime/lending.js:46-150 | with non-negative amounts, no market's reserves are ever negative if and only if every removal stays within them |
| `LendingPromises.StepReservesExactly` | src/runtime/lending.js:46-150 | the same for one call |
| `LendingPromises.ReservesCanFail` | src/runtime/lending.js:69-130 | a run that returns throughout and leaves a market 10 below zero |
| `LendingPromises.RunKeepsSolvency` | src/runtime/lending.js:89-235 | in a run without half-done withdrawals every debt stays covered as long as liquidations stay within the first collateral asset |
| `LendingPromises.LiquidationKeepsBalancesExactly` | src/runtime/lending.js:215-235 | a liquidation leaves no negative collateral if and only if the first asset held the amount |
| `LendingPromises.WithdrawalExactly` | src/runtime/lending.js:152-163 | a withdrawal past the balance check returns if and only if there is no debt or the surplus suffices |
| `LendingPromises.SolvencyCanFail` | src/runtime/lending.js:152-235 | that run returns normally throughout and ends with collateral below debt |
| `Lending.HealthFactorOf` | src/runtime/lending.js:169-188 | collateral over debt, infinite without debt; above 1 exactly with more collateral than debt, at least 1 exactly with enough |
| `Lending.LendingProtocol.CreateMarketFor` | src/runtime/lending.js:16-36 | one market per asset |
| `Lending.LendingProtocol.EnsurePosition` | src/runtime/lending.js:56-58 | an empty position for a new user |
| `Lending.LendingProtocol.Deposit` | src/runtime/lending.js:46-67 | position and market move together |
| `Lending.LendingProtocol.Remove` | src/runtime/lending.js:69-87 | within the deposit, whatever the reserves; deposit, supply and reserves fall together |
| `Lending.LendingProtocol.BorrowAgainst` | src/runtime/lending.js:89-130 | takes collateral and lends only if the requirement holds |
| `Lending.LendingProtocol.RepayLoan` | src/runtime/lending.js:132-150 | within the debt |
| `Lending.LendingProtocol.Withdraw` | src/runtime/lending.js:152-163 | subtracts first and checks afterwards |
| `Lending.LendingProtocol.LiquidateLoan` | src/runtime/lending.js:215-235 | pays debt from the first collateral asset, without refilling the reserves |
| `Lending.LendingProtocol.GetUserPosition` | src/runtime/lending.js:165-167 | the empty position for a stranger |
| `Events.TypeSubscriberSees` | src/runtime/events.js:247-287 | a type subscriber sees exactly the events of its type, each once, in publication order |
| `Events.WildcardSees` | src/runtime/events.js:247-287 | a wildcard subscriber sees every event, those published under `*` twice |
| `Events.WildcardSeesExactly` | src/runtime/events.js:217-287 | so it sees each event exactly once if and only if none was published under `*` |
| `Events.WildcardSeesTwice` | src/runtime/events.js:247-287 | one wildcard subscriber, one event under `*`, two deliveries |
| `Events.PlayedInOrder` | src/runtime/events.js:217-301 | what callbacks publish is accepted in the order of their invocation, up to each callback's first refused event |
| `Events.DrainPlays` | src/runtime/events.js:247-287 | draining the queue handles it and then what the callbacks of all its deliveries publish |
| `Events.DrainedInOrder` | src/runtime/events.js:217-301 | one outermost publication handles that event, and then what all callbacks it leads to publish, in the order of their invocation |
| `EventRuns.SubscriberSeesExactly` | src/runtime/events.js:176-287 | in any run of subscriptions, unsubscriptions and outermost publications, a subscriber has seen exactly the events of its type accepted since it subscribed, in order, until it unsubscribes |
| `EventRuns.NothingAfterwards` | src/runtime/events.js:201-210 | and nothing after that |
| `EventCalls.NextDelivered` | src/runtime/events.js:254-279 | one more event adds one delivery for each subscriber to its type and then one for each wildcard subscriber, in their order |
| `EventCalls.PublishedExactly` | src/runtime/events.js:217-242 | a publication of an unregistered type or against the schema changes nothing; any other is the next accepted event, and it and all it leads to have been delivered |
| `EventCalls.UnsubscribedExactly` | src/runtime/events.js:201-210 | unsubscribing takes that id out, keeps the order of the others, and drops an empty list; an unknown id changes nothing |
| `Events.EventSystem.constructor` | src/runtime/events.js:20-57 | an empty system; without a bound the history keeps 10000 |
| `Events.EventSystem.Subscribe` | src/runtime/events.js:176-194 | a fresh id at the end of the type's list; an unregistered type is refused |
| `Events.EventSystem.Unsubscribe` | src/runtime/events.js:201-210 | removes the id, and the type's list with its last subscriber |
| `Events.EventSystem.Publish` | src/runtime/events.js:217-242 | within a callback only queued; outside, exactly the events that draining handles have been accepted and delivered, in order, and the queue is empty; accepted is dispatched and then queued, and the history the last of it, at every step |
| `Events.EventSystem.Enqueue` | src/runtime/events.js:234-240 | history and queue grow together, the history trimmed |
| `Events.EventSystem.ProcessQueue` | src/runtime/events.js:247-287 | drains the queue with everything the callbacks add to it; does nothing when already draining |
| `Events.EventSystem.ProcessNext` | src/runtime/events.js:254-283 | takes the oldest event and dispatches it once |
| `Events.EventSystem.Dispatch` | src/runtime/events.js:259-279 | the type's subscribers, then the wildcard ones |
| `Events.EventSystem.NotifyAll` | src/runtime/events.js:261-267 | each subscriber of a list once, in order |
| `Events.EventSystem.InvokeCallback` | src/runtime/events.js:295-301 | one delivery; a callback that throws stops only itself |
| `Events.EventSystem.PublishAll` | src/runtime/events.js:217-242 | what a callback publishes is queued up to its first refused event |
| `Sharding.RunConserves` | src/runtime/sharding.js:219-272 | over any run a routed id is never lost, and is in no more places than it was routed times |
| `Sharding.FreshIsInOnePlace` | src/runtime/sharding.js:219-272 | a fresh id routed once is in exactly one shard pool or pending |
| `Sharding.RunPlaces` | src/runtime/sharding.js:219-272 | pooled transactions lie in their receiver's shard, pending ones name their two different shards |
| `Sharding.ExactlyTheDue` | src/runtime/sharding.js:256-272 | exactly the transactions between shards that are not done and whose time stamp is below the block number move, exactly the others stay |
| `Sharding.MovedOrKept` | src/runtime/sharding.js:256-272 | nothing is lost or doubled between moving and staying |
| `Sharding.OrderExactly` | src/runtime/sharding.js:256-272 | what stays keeps its order, what moves goes in the reverse |
| `Sharding.RoutedExactly` | src/runtime/sharding.js:219-249 | a routed transaction is stamped; within one shard it joins that pool unless its id is there, between two it waits at the end with both numbers |
| `Sharding.DeliverExactly` | src/runtime/sharding.js:256-272 | a moved transaction comes to the end of its destination's pool unless its id is there; no other pool changes |
| `Sharding.ReassignedExactly` | src/runtime/sharding.js:300-320 | as many calls as shards only count; the next deals the i-th part of the shuffled roster to the i-th shard and starts at 0 again |
| `Sharding.ShufflesLose` | src/runtime/sharding.js:300-320 | over any number of reassignments no validator is duplicated and at most length mod n of them are lost |
| `Sharding.EvenRosterKeepsAll` | src/runtime/sharding.js:300-320 | a number that divides evenly loses nobody, ever |
| `Sharding.Shard.AddTransaction` | src/runtime/sharding.js:85-90 | appended unless the pool has the id |
| `Sharding.ShardingManager.constructor` | src/runtime/sharding.js:151-170 | the given number of empty shards, nothing pending |
| `Sharding.ShardingManager.DetermineShard` | src/runtime/sharding.js:194-197 | the hash of the id modulo the number of shards |
| `Sharding.ShardingManager.RouteTransaction` | src/runtime/sharding.js:219-249 | into the pool if both shards agree, otherwise pending |
| `Sharding.ShardingManager.ProcessCrossShardTransactions` | src/runtime/sharding.js:256-272 | the backward splicing loop moves exactly the due ones, latest first |
| `Sharding.ShardingManager.ShuffleValidators` | src/runtime/sharding.js:300-320 | counts, or gathers, shuffles and deals |
| `Sharding.ShardingManager.AssignSlices` | src/runtime/sharding.js:310-316 | the i-th shard gets the i-th slice |
| `Shuffle.ShuffleArray` | src/runtime/sharding.js:327-334 | the in-place swaps, tied to the recursive shuffle |
| `Shuffle.ShuffledPermutes` | src/runtime/sharding.js:327-334 | a permutation for any random choices |
| `Shuffle.ShuffledExactly` | src/runtime/sharding.js:327-334 | the drawn element goes last, the last one takes its place, and the rest is shuffled alike |
| `Shuffle.EveryOrderOnce` | src/runtime/sharding.js:327-334 | on distinct elements each ordering comes from exactly one sequence of choices |
| `Shuffle.DrawsReach` | src/runtime/sharding.js:327-334 | every permutation is reached |
| `Shuffle.DrawsAreUnique` | src/runtime/sharding.js:327-334 | different choices give different orderings |
| `Shuffle.SlicesCover` | src/runtime/sharding.js:310-316 | the slices are consecutive and disjoint and cover the front |
| `Shuffle.DealLeavesOut` | src/runtime/sharding.js:309-316 | every validator is dealt once, except length mod n of them |
| `StakeSelection.SubtractingShare` | src/consensus/pos.js:185-205 | a validator is picked if and only if the value lies in its own stretch, as long as its stake |
| `StakeSelection.CumulativeShare` | src/consensus/interface.js:346-363 | the same with the stretch closed at the other end |
| `StakeSelection.SelectorsAgree` | src/consensus/interface.js:346-363 | both pick the same validator if and only if the value is no nonempty prefix sum |
| `StakeSelection.StakelessPick` | src/consensus/interface.js:346-363 | only the cumulative selector can pick a validator without stake, for the value 0 |
| `StakeSelection.InRange` | src/consensus/pos.js:196-204 | neither fallback is taken with non-negative stakes and a positive total |
| `StakeSelection.ActiveExactly` | src/consensus/pos.js:169-171 | exactly the active validators, in order |
| `StakeSelection.SelectValidator` | src/consensus/pos.js:185-205 | the loop finds the first active validator that the value falls below; none without active stake |
| `StakeSelection.SelectValidatorByStake` | src/consensus/interface.js:346-363 | the loop finds the first validator whose sum reaches the value; none for an empty list |

## Left out

- Rounding of JavaScript numbers, except in the state of the random generator; NaN, infinities and non-numeric inputs.
- SHA-256 itself, and `JSON.stringify`: an item or header is the text or fields that it encodes.
- Interleavings of asynchronous calls: `loadPlugin`, `recordVote`, `commitTransaction` and the like run to their end.
- Each operation reads the clock once; the source may read it more than once.
- Plugins: contexts, categories, enabling, and loading entry points (a plugin's `initialize`, `start`, `stop` and `destroy` are inputs that return or throw).
- Cache: `warmup_cache`, `get_active_items`, statistics; sizes and ttls are integers that are not negative.
- Merkle: `find`, `toJSON`, `fromJSON`; a caller's own reference to the data array.
- Finality: the other fields of a block and a checkpoint's difficulty, fork-choice functions, `slashValidator`, timestamps, the LMD gadget beyond that it finalizes nothing, an uninitialised manager, the message phases of `PBFTFinalitySystem` and `CasperFFG`; checkpoint objects are entries of a store with the manager pointing into it; thresholds are the exact fractions.
- FinalizationsOverlap: assumes votes from validators and a fixed set of them, because `recordVote` does not check who votes.
- RateLimiter: request history and statistics. WindowBound leaves out whitelisted users, who are charged without a refill.
- Liquidity: `update_reserves`, `calculate_slippage`, prices and the `DEX` wrapper; the square root is passed in with its defining equation, so that a negative product of reserves has none.
- Chain: `createGenesisBlock`, the block's setters, sizes and rewards, adding to the pool; a transaction's own validity is an input.
- LightClient: `verifyStateProof`, which is the same fold; headers with missing or non-integer fields.
- Fork: statistics and clean-up; blocks have the fields that the handler reads, which are not all fields of `Block`; an unknown strategy.
- StateMachine: callbacks, values deeper than flat maps, the state hash, the file and database backends, `gcSnapshots`, `clear`, a backend that fails after the transaction was popped.
- Lending: statistics and `get_liquidation_price`; the price of every asset is 1 as in the source.
- Events: subscribing or unsubscribing during delivery, registering further types, ids and timestamps, asynchronous callbacks beyond their first step; the schema check is one predicate; a run that never ends has no script.
- Sharding: blocks and the removal of their transactions from pools, snapshots, cross-shard ids, calls on a manager with no shards.
- StakeSelection: validator status changes, `select_validators`, rewards.
- Storage, networking, smart contracts, wallets, signatures and the command line: I/O, stubs or calls into the platform's cryptography.
