/**
 What checkpoint finality (src/consensus/finality.js) does not hold on to.

 The finalized number never falls, but two other things a reader may expect hold in a run
 exactly as long as no command meets a guard: the justified number never falls
 (`JustifiedStaysExactly`), and the block finalized under a number stays that block
 (`FinalizedStaysExactly`).  `JustifiedCanMoveBack` and `FinalizedCanBeReplaced` are runs
 in which they do not, and `FinalizedBlockStays` says when the second cannot happen.
 */
module FinalityPromises {
  import opened Arithmetic
  import opened Finality
  import opened Wrappers

  /** The state after the first n commands. */
  ghost function After(c: Config, validators: seq<string>, commands: seq<Command>, n: nat): (s: State)
    requires n <= |commands|
    ensures WellFormed(s)
  {
    Run(c, validators, commands[..n])
  }

  lemma AfterNext(c: Config, validators: seq<string>, commands: seq<Command>, n: nat)
    requires n < |commands|
    ensures After(c, validators, commands, n + 1) == Step(c, After(c, validators, commands, n), commands[n])
    ensures Inv(c, After(c, validators, commands, n))
  {
    RunNext(c, validators, commands, n);
    RunInv(c, validators, commands[..n]);
  }

  // ---------- the justified checkpoint ----------

  function JustifiedNumber(s: State): int
    requires s.justified < |s.store|
  {
    s.store[s.justified].blockNumber
  }

  /** A vote completes the quorum of a checkpoint below the justified one, now or again. */
  predicate MovesBack(c: Config, s: State, command: Command)
    requires s.justified < |s.store|
  {
    command.RecordVote? &&
    var n := command.vote.blockNumber;
    ShouldCheckpoint(c, n) && n in s.checkpoints && n < JustifiedNumber(s) &&
    |WithVote(s, command.vote).blockVotes[n]| >= RequiredVotes(|s.validators|, c.justificationThreshold)
  }

  lemma FinalizingKeepsJustified(c: Config, s: State)
    requires WellFormed(s)
    ensures WellFormed(TryFinalize(c, s)) && JustifiedNumber(TryFinalize(c, s)) == JustifiedNumber(s)
  {
  }

  lemma StepMovesBackExactly(c: Config, s: State, command: Command)
    requires Inv(c, s)
    ensures WellFormed(Step(c, s, command))
    ensures JustifiedNumber(Step(c, s, command)) < JustifiedNumber(s) <==> MovesBack(c, s, command)
  {
    StepInv(c, s, command);
    if command.RecordVote? {
      var voted, n := WithVote(s, command.vote), command.vote.blockNumber;
      var j := if ShouldCheckpoint(c, n) then Justify(c, voted, n) else voted;
      assert WellFormed(j);
      FinalizingKeepsJustified(c, j);
      assert JustifiedNumber(Step(c, s, command)) == JustifiedNumber(j);
    }
  }

  ghost predicate JustifiedNeverFalls(c: Config, validators: seq<string>, commands: seq<Command>)
  {
    forall m, n :: 0 <= m <= n <= |commands| ==>
      JustifiedNumber(After(c, validators, commands, m)) <= JustifiedNumber(After(c, validators, commands, n))
  }

  ghost predicate NoneMovesBack(c: Config, validators: seq<string>, commands: seq<Command>)
  {
    forall n :: 0 <= n < |commands| ==> !MovesBack(c, After(c, validators, commands, n), commands[n])
  }

  lemma NextJustifiedExactly(c: Config, validators: seq<string>, commands: seq<Command>, n: nat)
    requires n < |commands|
    ensures JustifiedNumber(After(c, validators, commands, n + 1)) < JustifiedNumber(After(c, validators, commands, n))
       <==> MovesBack(c, After(c, validators, commands, n), commands[n])
  {
    AfterNext(c, validators, commands, n);
    StepMovesBackExactly(c, After(c, validators, commands, n), commands[n]);
  }

  lemma {:induction false} JustifiedGrows(c: Config, validators: seq<string>, commands: seq<Command>, m: nat, n: nat)
    requires NoneMovesBack(c, validators, commands) && m <= n <= |commands|
    ensures JustifiedNumber(After(c, validators, commands, m)) <= JustifiedNumber(After(c, validators, commands, n))
  {
    if m < n {
      JustifiedGrows(c, validators, commands, m, n - 1);
      NextJustifiedExactly(c, validators, commands, n - 1);
    }
  }

  /** Over any run the justified number never falls if and only if no command moves it back. */
  lemma JustifiedStaysExactly(c: Config, validators: seq<string>, commands: seq<Command>)
    ensures JustifiedNeverFalls(c, validators, commands) <==> NoneMovesBack(c, validators, commands)
  {
    if JustifiedNeverFalls(c, validators, commands) {
      forall n | 0 <= n < |commands|
        ensures !MovesBack(c, After(c, validators, commands, n), commands[n])
      {
        NextJustifiedExactly(c, validators, commands, n);
      }
    }
    if NoneMovesBack(c, validators, commands) {
      forall m, n | 0 <= m <= n <= |commands|
        ensures JustifiedNumber(After(c, validators, commands, m)) <= JustifiedNumber(After(c, validators, commands, n))
      {
        JustifiedGrows(c, validators, commands, m, n);
      }
    }
  }

  // ---------- the finalized block ----------

  /** Votes counted, before the attempt at finality. */
  function Counting(c: Config, s: State, vote: Vote): (j: State)
    requires WellFormed(s)
    ensures WellFormed(j)
  {
    var voted := WithVote(s, vote);
    if ShouldCheckpoint(c, vote.blockNumber) then Justify(c, voted, vote.blockNumber) else voted
  }

  /** Under Casper FFG, one interval below the justified checkpoint, a checkpoint that is
      not final itself bears the finalized number, with all it takes to be finalized. */
  predicate RivalReady(c: Config, j: State)
    requires WellFormed(j)
  {
    var f := FinalizedNumber(j);
    c.gadget.CasperFFG? && JustifiedNumber(j) == f + c.interval && f in j.checkpoints &&
    var rival := j.store[j.checkpoints[f]];
    rival.justification.Some? && !rival.finalized && HasQuorum(c, j, f) && HasQuorum(c, j, f + c.interval)
  }

  predicate Replaces(c: Config, s: State, command: Command)
    requires WellFormed(s)
  {
    command.RecordVote? && RivalReady(c, Counting(c, s, command.vote))
  }

  /** The finalized number, and the checkpoint object with its block. */
  ghost predicate SameFinalized(s: State, t: State)
    requires WellFormed(s) && WellFormed(t)
  {
    s.finalized == t.finalized && s.store[s.finalized].blockHash == t.store[t.finalized].blockHash
  }

  lemma BoundaryBefore(c: Config, j: State)
    requires Inv(c, j)
    ensures (j.store[j.justified].epoch - 1) * c.interval == JustifiedNumber(j) - c.interval
  {
    var current := j.store[j.justified];
    assert CheckpointInv(c, j.justified, current);
    assert current.blockNumber == c.interval * current.epoch;
    assert (current.epoch - 1) * c.interval == c.interval * current.epoch - c.interval;
  }

  lemma CountingInv(c: Config, s: State, vote: Vote)
    requires Inv(c, s)
    ensures Inv(c, Counting(c, s, vote)) && SameFinalized(s, Counting(c, s, vote))
    ensures FinalizedNumber(Counting(c, s, vote)) == FinalizedNumber(s)
    ensures Counting(c, s, vote).checkpoints == s.checkpoints
  {
  }

  /** An attempt at finality that ends with the number unchanged but not the object. */
  lemma FinalizingReplacesExactly(c: Config, j: State)
    requires Inv(c, j) && JustifiedNumber(j) > FinalizedNumber(j)
    ensures WellFormed(TryFinalize(c, j))
    ensures FinalizedNumber(TryFinalize(c, j)) == FinalizedNumber(j) && !SameFinalized(j, TryFinalize(c, j))
       <==> RivalReady(c, j)
  {
    BoundaryBefore(c, j);
    assert j.store[j.finalized].finalized;
    if c.gadget.CasperFFG? && RivalReady(c, j) {
      assert TryFinalize(c, j) == Finalize(j, j.checkpoints[FinalizedNumber(j)]);
    }
  }

  /** With the number unchanged, a step replaces the finalized object just in that case. */
  lemma StepReplacesExactly(c: Config, s: State, command: Command)
    requires Inv(c, s)
    ensures WellFormed(Step(c, s, command)) && FinalizedNumber(s) <= FinalizedNumber(Step(c, s, command))
    ensures FinalizedNumber(Step(c, s, command)) == FinalizedNumber(s) && !SameFinalized(s, Step(c, s, command))
       <==> Replaces(c, s, command)
  {
    StepInv(c, s, command);
    if command.RecordVote? {
      var j := Counting(c, s, command.vote);
      CountingInv(c, s, command.vote);
      StepIsCountingFirst(c, s, command);
      if JustifiedNumber(j) > FinalizedNumber(j) {
        FinalizingReplacesExactly(c, j);
      }
    }
  }

  lemma StepIsCountingFirst(c: Config, s: State, command: Command)
    requires WellFormed(s) && command.RecordVote?
    ensures var j := Counting(c, s, command.vote);
            Step(c, s, command) == if JustifiedNumber(j) > FinalizedNumber(j) then TryFinalize(c, j) else j
  {
  }

  ghost predicate NumberFixesBlock(c: Config, validators: seq<string>, commands: seq<Command>)
  {
    forall m, n :: 0 <= m <= n <= |commands| ==>
      var s, t := After(c, validators, commands, m), After(c, validators, commands, n);
      FinalizedNumber(s) == FinalizedNumber(t) ==> SameFinalized(s, t)
  }

  ghost predicate NoneReplaces(c: Config, validators: seq<string>, commands: seq<Command>)
  {
    forall n :: 0 <= n < |commands| ==> !Replaces(c, After(c, validators, commands, n), commands[n])
  }

  lemma NextFinalizedExactly(c: Config, validators: seq<string>, commands: seq<Command>, n: nat)
    requires n < |commands|
    ensures var s, t := After(c, validators, commands, n), After(c, validators, commands, n + 1);
            FinalizedNumber(s) <= FinalizedNumber(t) &&
            (FinalizedNumber(t) == FinalizedNumber(s) && !SameFinalized(s, t) <==> Replaces(c, s, commands[n]))
  {
    AfterNext(c, validators, commands, n);
    StepReplacesExactly(c, After(c, validators, commands, n), commands[n]);
  }

  lemma {:induction false} FinalizedFixed(c: Config, validators: seq<string>, commands: seq<Command>, m: nat, n: nat)
    requires NoneReplaces(c, validators, commands) && m <= n <= |commands|
    ensures var s, t := After(c, validators, commands, m), After(c, validators, commands, n);
            FinalizedNumber(s) <= FinalizedNumber(t) &&
            (FinalizedNumber(s) == FinalizedNumber(t) ==> SameFinalized(s, t))
  {
    if m < n {
      FinalizedFixed(c, validators, commands, m, n - 1);
      NextFinalizedExactly(c, validators, commands, n - 1);
    }
  }

  /** Over any run, the block finalized under a number stays the same object as long as
      the number does, if and only if no command replaces it. */
  lemma FinalizedStaysExactly(c: Config, validators: seq<string>, commands: seq<Command>)
    ensures NumberFixesBlock(c, validators, commands) <==> NoneReplaces(c, validators, commands)
  {
    if NumberFixesBlock(c, validators, commands) {
      forall n | 0 <= n < |commands|
        ensures !Replaces(c, After(c, validators, commands, n), commands[n])
      {
        NextFinalizedExactly(c, validators, commands, n);
      }
    }
    if NoneReplaces(c, validators, commands) {
      forall m, n | 0 <= m <= n <= |commands|
        ensures var s, t := After(c, validators, commands, m), After(c, validators, commands, n);
                FinalizedNumber(s) == FinalizedNumber(t) ==> SameFinalized(s, t)
      {
        FinalizedFixed(c, validators, commands, m, n);
      }
    }
  }

  // ---------- when that cannot happen ----------

  /** The number map still leads to the finalized object. */
  ghost predicate Held(s: State)
    requires WellFormed(s)
  {
    var f := FinalizedNumber(s);
    f in s.checkpoints && s.checkpoints[f] == s.finalized
  }

  /** No checkpoint is created again under the number that is final at that moment. */
  predicate Respects(s: State, command: Command)
    requires WellFormed(s)
  {
    command.CreateCheckpoint? ==> command.block.index != FinalizedNumber(s)
  }

  lemma HeldStep(c: Config, s: State, command: Command)
    requires Inv(c, s) && Held(s) && Respects(s, command) && c.gadget.CasperFFG?
    ensures WellFormed(Step(c, s, command)) && Held(Step(c, s, command)) && !Replaces(c, s, command)
  {
    StepInv(c, s, command);
    if command.RecordVote? {
      var j := Counting(c, s, command.vote);
      CountingInv(c, s, command.vote);
      assert j.checkpoints == s.checkpoints;
      if JustifiedNumber(j) > FinalizedNumber(j) && TryFinalize(c, j) != j {
        var number := (j.store[j.justified].epoch - 1) * c.interval;
        assert TryFinalize(c, j) == Finalize(j, j.checkpoints[number]);
      }
    }
  }

  ghost predicate AllRespect(c: Config, validators: seq<string>, commands: seq<Command>)
  {
    forall n :: 0 <= n < |commands| ==> Respects(After(c, validators, commands, n), commands[n])
  }

  lemma {:induction false} HeldUpTo(c: Config, validators: seq<string>, commands: seq<Command>, n: nat)
    requires c.gadget.CasperFFG? && AllRespect(c, validators, commands) && n <= |commands|
    ensures Held(After(c, validators, commands, n))
  {
    if n == 0 {
      assert commands[..0] == [];
    } else {
      HeldUpTo(c, validators, commands, n - 1);
      assert Respects(After(c, validators, commands, n - 1), commands[n - 1]);
      AfterNext(c, validators, commands, n - 1);
      HeldStep(c, After(c, validators, commands, n - 1), commands[n - 1]);
    }
  }

  /** Under the other gadgets, and under Casper FFG as long as no checkpoint is created
      under the finalized number, the finalized block stays or gives way to a higher one. */
  lemma FinalizedBlockStays(c: Config, validators: seq<string>, commands: seq<Command>)
    requires (c.gadget.CasperFFG? ==> AllRespect(c, validators, commands))
    ensures NumberFixesBlock(c, validators, commands)
  {
    forall n | 0 <= n < |commands|
      ensures !Replaces(c, After(c, validators, commands, n), commands[n])
    {
      if c.gadget.CasperFFG? {
        HeldUpTo(c, validators, commands, n);
        assert Respects(After(c, validators, commands, n), commands[n]);
        AfterNext(c, validators, commands, n);
        HeldStep(c, After(c, validators, commands, n), commands[n]);
      }
    }
    FinalizedStaysExactly(c, validators, commands);
  }

  // ---------- a run that replaces a finalized block ----------

  const FFG: Config := Settings(1, 0.67, 0.5, CasperFFG)

  /** Blocks a and b are voted for, which finalizes a; then c takes the number of a. */
  const REPLACING: seq<Command> := [
    CreateCheckpoint(Block(1, "a")), CreateCheckpoint(Block(2, "b")), RecordVote(FIRST), RecordVote(SECOND),
    CreateCheckpoint(Block(1, "c")), RecordVote(FIRST), RecordVote(SECOND)]

  const ONE_VOTE: Votes := map["v" := FIRST]
  const OTHER_VOTE: Votes := map["v" := SECOND]
  const A: Checkpoint := Checkpoint(1, "a", 1, ["v"], Some(ONE_VOTE), true)
  const B: Checkpoint := Checkpoint(2, "b", 2, ["v"], Some(OTHER_VOTE), false)
  const NEW_BLOCK: Checkpoint := Checkpoint(1, "c", 1, ["v"], None, false)

  /** Block a justified by its vote. */
  const VOTED: State := State(
    ["v"], [GENESIS, A.(finalized := false), Checkpoint(2, "b", 2, ["v"], None, false)], map[0 := 0, 1 := 1, 2 := 2],
    map[1 := ONE_VOTE, 2 := map[]], 1, 0)

  /** Block a final, block b justified. */
  const FIRST_FINAL: State := State(
    ["v"], [GENESIS, A, B], map[0 := 0, 1 := 1, 2 := 2], map[1 := ONE_VOTE, 2 := OTHER_VOTE], 2, 1)

  /** Block c in place of a. */
  const REWRITTEN: State := State(
    ["v"], [GENESIS, A, B, NEW_BLOCK], map[0 := 0, 1 := 3, 2 := 2], map[1 := map[], 2 := OTHER_VOTE], 2, 1)

  const REJUSTIFIED: State := State(
    ["v"], [GENESIS, A, B, NEW_BLOCK.(justification := Some(ONE_VOTE))], map[0 := 0, 1 := 3, 2 := 2],
    map[1 := ONE_VOTE, 2 := OTHER_VOTE], 3, 1)

  const SECOND_FINAL: State := State(
    ["v"], [GENESIS, A, B, NEW_BLOCK.(justification := Some(ONE_VOTE), finalized := true)],
    map[0 := 0, 1 := 3, 2 := 2], map[1 := ONE_VOTE, 2 := OTHER_VOTE], 2, 3)

  /** The only validator's vote justifies the checkpoint of its number. */
  lemma VoteJustifies(s: State, vote: Vote)
    requires WellFormed(s) && s.validators == ["v"] && vote.validatorId == "v" && vote.blockNumber > 0
    requires vote.blockNumber in s.checkpoints && vote.blockNumber in s.blockVotes
    requires s.blockVotes[vote.blockNumber].Keys <= {"v"}
    ensures var n := vote.blockNumber;
            var i := s.checkpoints[n];
            Counting(FFG, s, vote) ==
              s.(store := s.store[i := s.store[i].(justification := Some(map["v" := vote]))], justified := i,
                 blockVotes := s.blockVotes[n := map["v" := vote]])
  {
    assert RequiredVotes(1, 0.5) == 1;
    assert WithVote(s, vote).blockVotes[vote.blockNumber] == map["v" := vote] && |map["v" := vote]| == 1;
  }

  /** One vote in each of two blocks is a quorum in both. */
  lemma BothHaveQuorum(s: State)
    requires s.validators == ["v"] && s.blockVotes == map[1 := ONE_VOTE, 2 := OTHER_VOTE]
    ensures HasQuorum(FFG, s, 1) && HasQuorum(FFG, s, 2)
  {
    assert RequiredVotes(1, 0.67) == 1 && |ONE_VOTE| == 1 && |OTHER_VOTE| == 1;
  }

  lemma FirstVote()
    ensures WellFormed(Before()) && Step(FFG, Before(), RecordVote(FIRST)) == VOTED
  {
    VoteJustifies(Before(), FIRST);
    assert Counting(FFG, Before(), FIRST) == VOTED;
    StepIsCountingFirst(FFG, Before(), RecordVote(FIRST));
  }

  lemma SecondVote()
    ensures WellFormed(VOTED) && Step(FFG, VOTED, RecordVote(SECOND)) == FIRST_FINAL
  {
    VoteJustifies(VOTED, SECOND);
    var j := FIRST_FINAL.(store := [GENESIS, A.(finalized := false), B], finalized := 0);
    assert Counting(FFG, VOTED, SECOND) == j;
    StepIsCountingFirst(FFG, VOTED, RecordVote(SECOND));
    BothHaveQuorum(j);
    assert TryFinalize(FFG, j) == Finalize(j, 1);
  }

  lemma Rewriting()
    ensures WellFormed(FIRST_FINAL) && Step(FFG, FIRST_FINAL, CreateCheckpoint(Block(1, "c"))) == REWRITTEN
  {
  }

  lemma ThirdVote()
    ensures WellFormed(REWRITTEN) && Step(FFG, REWRITTEN, RecordVote(FIRST)) == REJUSTIFIED
  {
    VoteJustifies(REWRITTEN, FIRST);
    assert Counting(FFG, REWRITTEN, FIRST) == REJUSTIFIED;
    StepIsCountingFirst(FFG, REWRITTEN, RecordVote(FIRST));
  }

  lemma FourthVote()
    ensures WellFormed(REJUSTIFIED) && Step(FFG, REJUSTIFIED, RecordVote(SECOND)) == SECOND_FINAL
  {
    VoteJustifies(REJUSTIFIED, SECOND);
    var j := REJUSTIFIED.(justified := 2);
    assert Counting(FFG, REJUSTIFIED, SECOND) == j;
    StepIsCountingFirst(FFG, REJUSTIFIED, RecordVote(SECOND));
    BothHaveQuorum(j);
    assert TryFinalize(FFG, j) == Finalize(j, 3);
  }

  lemma BothCreated()
    ensures Run(FFG, ["v"], REPLACING[..2]) == Before()
  {
    RunNext(FFG, ["v"], REPLACING, 0);
    RunNext(FFG, ["v"], REPLACING, 1);
    assert REPLACING[..0] == [];
  }

  lemma FirstHalf()
    ensures Run(FFG, ["v"], REPLACING[..4]) == FIRST_FINAL
  {
    BothCreated();
    FirstVote();
    RunNext(FFG, ["v"], REPLACING, 2);
    SecondVote();
    RunNext(FFG, ["v"], REPLACING, 3);
  }

  lemma SecondHalf()
    requires Run(FFG, ["v"], REPLACING[..4]) == FIRST_FINAL
    ensures Run(FFG, ["v"], REPLACING[..7]) == SECOND_FINAL
  {
    Rewriting();
    RunNext(FFG, ["v"], REPLACING, 4);
    ThirdVote();
    RunNext(FFG, ["v"], REPLACING, 5);
    FourthVote();
    RunNext(FFG, ["v"], REPLACING, 6);
  }

  /** Under Casper FFG and the default thresholds: number 1 is final with block a, and two
      votes later with block c. */
  lemma FinalizedCanBeReplaced()
    ensures var s, t := Run(FFG, ["v"], REPLACING[..4]), Run(FFG, ["v"], REPLACING);
            FinalizedNumber(s) == FinalizedNumber(t) == 1 &&
            s.store[s.finalized].blockHash == "a" && t.store[t.finalized].blockHash == "c"
  {
    FirstHalf();
    SecondHalf();
    assert REPLACING[..7] == REPLACING;
  }
}
