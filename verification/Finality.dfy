/**
 Checkpoint finality (src/consensus/finality.js).

 Checkpoints are objects that the number map, `justifiedCheckpoint` and
 `finalizedCheckpoint` share, and creating a checkpoint again under the same number
 leaves the old object to the pointers.  `State` keeps the objects in a store and
 references as positions in it, so that sharing is exact.

 The main results: the finalized number never falls in any run (`FinalityIsMonotone`),
 every finalized checkpoint carries a justification (`FinalizedIsJustified`), and two
 managers that finalize the same height share more than a third of the validators
 (`FinalizationsOverlap`).
 */
module Finality {
  import opened Arithmetic
  import opened Digests
  import opened Sets
  import opened Wrappers

  datatype Gadget = PBFT | CasperFFG | Other

  datatype Settings =
    Settings(interval: nat, finalityThreshold: real, justificationThreshold: real, gadget: Gadget)

  /** A checkpoint every `interval` blocks, and shares of the validators as thresholds. */
  type Config = s: Settings | s.interval > 0 && 0.0 <= s.finalityThreshold && 0.0 <= s.justificationThreshold
    witness Settings(1, 0.0, 0.0, PBFT)

  datatype Vote = Vote(blockNumber: int, validatorId: string, signature: string)

  type Votes = map<string, Vote>

  datatype Block = Block(index: int, hash: string)

  datatype Checkpoint = Checkpoint(
    blockNumber: int, blockHash: string, epoch: int, validatorSet: seq<string>,
    justification: Option<Votes>, finalized: bool)

  datatype State = State(
    validators: seq<string>,
    store: seq<Checkpoint>,
    checkpoints: map<int, nat>,
    blockVotes: map<int, Votes>,
    justified: nat,
    finalized: nat)

  datatype Command =
    | AddValidator(id: string)
    | RemoveValidator(id: string)
    | CreateCheckpoint(block: Block)
    | RecordVote(vote: Vote)
    | HandleFork(latest: Option<Block>)

  // ---------- the steps ----------

  const GENESIS: Checkpoint := Checkpoint(0, ZERO_HASH, 0, [], None, true)

  function Initial(validators: seq<string>): State {
    State(validators, [GENESIS], map[0 := 0], map[], 0, 0)
  }

  /** More than the given share of the current validators. */
  function RequiredVotes(n: nat, threshold: real): nat
    requires threshold >= 0.0
  {
    (n as real * threshold).Floor + 1
  }

  predicate ShouldCheckpoint(c: Config, number: int)
  {
    number > 0 && number % c.interval == 0
  }

  function Without(validators: seq<string>, id: string): seq<string> {
    if validators == [] then []
    else (if validators[0] == id then [] else [validators[0]]) + Without(validators[1..], id)
  }

  function WithCheckpoint(c: Config, s: State, block: Block): State
  {
    var cp := Checkpoint(block.index, block.hash, block.index / c.interval, s.validators, None, false);
    s.(store := s.store + [cp],
       checkpoints := s.checkpoints[block.index := |s.store|],
       blockVotes := s.blockVotes[block.index := map[]])
  }

  ghost predicate WellFormed(s: State) {
    s.justified < |s.store| && s.finalized < |s.store| &&
    forall k :: k in s.checkpoints ==> s.checkpoints[k] < |s.store|
  }

  function WithVote(s: State, vote: Vote): State {
    var votes := if vote.blockNumber in s.blockVotes then s.blockVotes[vote.blockNumber] else map[];
    s.(blockVotes := s.blockVotes[vote.blockNumber := votes[vote.validatorId := vote]])
  }

  function Justify(c: Config, s: State, number: int): State
    requires WellFormed(s)
  {
    if number in s.blockVotes && number in s.checkpoints &&
       |s.blockVotes[number]| >= RequiredVotes(|s.validators|, c.justificationThreshold) then
      var i := s.checkpoints[number];
      s.(store := s.store[i := s.store[i].(justification := Some(s.blockVotes[number]))], justified := i)
    else s
  }

  function Finalize(s: State, i: nat): State
    requires i < |s.store|
  {
    s.(store := s.store[i := s.store[i].(finalized := true)], finalized := i)
  }

  predicate HasQuorum(c: Config, s: State, number: int)
  {
    number in s.blockVotes && |s.blockVotes[number]| >= RequiredVotes(|s.validators|, c.finalityThreshold)
  }

  /** Only PBFT and Casper FFG ever finalize: the third gadget waits for a latest block
      that the source never supplies. */
  function TryFinalize(c: Config, s: State): State
    requires WellFormed(s)
  {
    var current := s.store[s.justified];
    match c.gadget
    case PBFT =>
      if HasQuorum(c, s, current.blockNumber) then Finalize(s, s.justified) else s
    case CasperFFG =>
      var number := (current.epoch - 1) * c.interval;
      if number !in s.checkpoints then s
      else
        var i := s.checkpoints[number];
        var previous := s.store[i];
        if previous.justification.Some? && !previous.finalized &&
           HasQuorum(c, s, previous.blockNumber) && HasQuorum(c, s, current.blockNumber)
        then Finalize(s, i) else s
    case Other => s
  }

  function ProcessVotes(c: Config, s: State, number: int): State
    requires WellFormed(s)
  {
    var j := if ShouldCheckpoint(c, number) then Justify(c, s, number) else s;
    if number !in s.blockVotes then s
    else if j.store[j.justified].blockNumber > j.store[j.finalized].blockNumber then TryFinalize(c, j) else j
  }

  function Step(c: Config, s: State, command: Command): State
    requires WellFormed(s)
  {
    match command
    case AddValidator(id) => s.(validators := s.validators + [id])
    case RemoveValidator(id) => s.(validators := Without(s.validators, id))
    case CreateCheckpoint(block) => WithCheckpoint(c, s, block)
    case RecordVote(vote) => ProcessVotes(c, WithVote(s, vote), vote.blockNumber)
    case HandleFork(latest) =>
      if latest.Some? && ShouldCheckpoint(c, latest.value.index) && latest.value.index !in s.checkpoints
      then WithCheckpoint(c, s, latest.value) else s
  }

  // ---------- the invariant ----------

  ghost predicate Inv(c: Config, s: State) {
    WellFormed(s) &&
    (forall k :: k in s.checkpoints ==> s.store[s.checkpoints[k]].blockNumber == k) &&
    (forall i :: 0 <= i < |s.store| ==> CheckpointInv(c, i, s.store[i])) &&
    s.store[s.finalized].finalized && OnBoundary(c, s.store[s.finalized]) &&
    OnBoundary(c, s.store[s.justified]) && (s.justified > 0 ==> s.store[s.justified].justification.Some?)
  }

  ghost predicate OnBoundary(c: Config, cp: Checkpoint)
  {
    cp.blockNumber >= 0 && cp.blockNumber % c.interval == 0
  }

  ghost predicate CheckpointInv(c: Config, i: int, cp: Checkpoint)
  {
    cp.epoch == cp.blockNumber / c.interval &&
    (cp.justification.Some? ==> cp.blockNumber > 0 && OnBoundary(c, cp)) &&
    (cp.finalized && i > 0 ==> cp.justification.Some?) &&
    (i == 0 ==> cp.blockNumber == 0)
  }

  function FinalizedNumber(s: State): int
    requires s.finalized < |s.store|
  {
    s.store[s.finalized].blockNumber
  }

  /** Below a boundary, the previous boundary is not below any earlier one. */
  lemma PreviousBoundary(interval: nat, current: int, earlier: int)
    requires interval > 0 && current % interval == 0 && earlier % interval == 0 && earlier < current
    ensures earlier <= (current / interval - 1) * interval < current
    ensures ((current / interval - 1) * interval) % interval == 0
  {
    var q, p := current / interval, earlier / interval;
    assert current == q * interval && earlier == p * interval;
    var gap := q - 1 - p;
    AtLeastOne(interval, gap);
    assert (q - 1) * interval == p * interval + interval * gap;
    assert (q - 1) * interval == q * interval - interval;
    SameRemainder((q - 1) * interval, 0, q - 1, interval);
  }

  lemma TryFinalizeInv(c: Config, s: State)
    requires Inv(c, s) && s.store[s.justified].blockNumber > FinalizedNumber(s)
    ensures Inv(c, TryFinalize(c, s)) && FinalizedNumber(s) <= FinalizedNumber(TryFinalize(c, s))
  {
    var f, current := TryFinalize(c, s), s.store[s.justified];
    if f != s {
      assert CheckpointInv(c, s.justified, current);
      PreviousBoundary(c.interval, current.blockNumber, FinalizedNumber(s));
      var i := f.finalized;
      assert CheckpointInv(c, i, s.store[i]);
      assert c.gadget.CasperFFG? ==> s.store[i].blockNumber == (current.epoch - 1) * c.interval;
      forall k | 0 <= k < |s.store|
        ensures CheckpointInv(c, k, f.store[k])
      {
        assert CheckpointInv(c, k, s.store[k]);
      }
    }
  }

  lemma ProcessInv(c: Config, s: State, number: int)
    requires Inv(c, s)
    ensures Inv(c, ProcessVotes(c, s, number)) && FinalizedNumber(s) <= FinalizedNumber(ProcessVotes(c, s, number))
  {
    var j := s;
    if ShouldCheckpoint(c, number) {
      j := Justify(c, s, number);
    }
    if j.store[j.justified].blockNumber > FinalizedNumber(j) {
      TryFinalizeInv(c, j);
    }
  }

  lemma StepInv(c: Config, s: State, command: Command)
    requires Inv(c, s)
    ensures Inv(c, Step(c, s, command)) && FinalizedNumber(s) <= FinalizedNumber(Step(c, s, command))
  {
    if command.RecordVote? {
      ProcessInv(c, WithVote(s, command.vote), command.vote.blockNumber);
    }
  }

  // ---------- whole runs ----------

  lemma StepWellFormed(c: Config, s: State, command: Command)
    requires WellFormed(s)
    ensures WellFormed(Step(c, s, command))
  {
    if command.RecordVote? {
      var voted := WithVote(s, command.vote);
      var justified := Justify(c, voted, command.vote.blockNumber);
      assert WellFormed(justified) && WellFormed(TryFinalize(c, justified)) && WellFormed(TryFinalize(c, voted));
    }
  }

  ghost function Run(c: Config, validators: seq<string>, commands: seq<Command>): (s: State)
    ensures WellFormed(s)
  {
    if commands == [] then Initial(validators)
    else
      var before := Run(c, validators, commands[..|commands| - 1]);
      StepWellFormed(c, before, commands[|commands| - 1]);
      Step(c, before, commands[|commands| - 1])
  }

  /** The invariant holds in every run. */
  lemma {:induction false} RunInv(c: Config, validators: seq<string>, commands: seq<Command>)
    ensures Inv(c, Run(c, validators, commands))
  {
    if commands == [] {
    } else {
      var init := commands[..|commands| - 1];
      RunInv(c, validators, init);
      StepInv(c, Run(c, validators, init), commands[|commands| - 1]);
    }
  }

  /** In every run the finalized number only grows. */
  lemma {:induction false} FinalityIsMonotone(c: Config, validators: seq<string>, earlier: seq<Command>,
                                              later: seq<Command>)
    ensures FinalizedNumber(Run(c, validators, earlier)) <= FinalizedNumber(Run(c, validators, earlier + later))
    decreases |later|
  {
    if later == [] {
      assert earlier + later == earlier;
    } else {
      var init, last := later[..|later| - 1], later[|later| - 1];
      FinalityIsMonotone(c, validators, earlier, init);
      assert (earlier + later)[..|earlier + later| - 1] == earlier + init;
      RunInv(c, validators, earlier + init);
      StepInv(c, Run(c, validators, earlier + init), last);
    }
  }

  // ---------- a run that finalizes, and then justifies an earlier block ----------

  const SINGLE: Config := Settings(1, 0.67, 0.5, PBFT)
  const SECOND: Vote := Vote(2, "v", "")
  const FIRST: Vote := Vote(1, "v", "")

  const MOVING_BACK: seq<Command> := [
    CreateCheckpoint(Block(1, "a")), CreateCheckpoint(Block(2, "b")), RecordVote(SECOND), RecordVote(FIRST)]

  function Before(): State {
    State(["v"], [GENESIS, Checkpoint(1, "a", 1, ["v"], None, false), Checkpoint(2, "b", 2, ["v"], None, false)],
          map[0 := 0, 1 := 1, 2 := 2], map[1 := map[], 2 := map[]], 0, 0)
  }

  function Decided(): State {
    Before().(store := Before().store[2 := Checkpoint(2, "b", 2, ["v"], Some(map["v" := SECOND]), true)],
              blockVotes := map[1 := map[], 2 := map["v" := SECOND]], justified := 2, finalized := 2)
  }

  lemma RunNext(c: Config, validators: seq<string>, commands: seq<Command>, k: nat)
    requires k < |commands|
    ensures Run(c, validators, commands[..k + 1]) == Step(c, Run(c, validators, commands[..k]), commands[k])
  {
    assert commands[..k + 1][..k] == commands[..k];
  }

  lemma Opening()
    ensures Run(SINGLE, ["v"], MOVING_BACK[..2]) == Before()
  {
    RunNext(SINGLE, ["v"], MOVING_BACK, 0);
    RunNext(SINGLE, ["v"], MOVING_BACK, 1);
    assert MOVING_BACK[..0] == [];
  }

  lemma Deciding()
    ensures WellFormed(Before()) && Step(SINGLE, Before(), RecordVote(SECOND)) == Decided()
  {
    assert RequiredVotes(1, 0.5) == 1 && RequiredVotes(1, 0.67) == 1;
    var voted := WithVote(Before(), SECOND);
    assert voted.blockVotes == map[1 := map[], 2 := map["v" := SECOND]] && |voted.blockVotes[2]| == 1;
  }

  lemma MovingBack()
    ensures WellFormed(Decided())
    ensures var s := Step(SINGLE, Decided(), RecordVote(FIRST));
            s.justified == 1 && s.store[1].blockNumber == 1 && s.finalized == 2 && s.store[2].blockNumber == 2
  {
    assert RequiredVotes(1, 0.5) == 1;
    var voted := WithVote(Decided(), FIRST);
    assert |voted.blockVotes[1]| == 1 && voted.blockVotes[1] == map["v" := FIRST];
  }

  lemma RunDecides()
    ensures Run(SINGLE, ["v"], MOVING_BACK[..3]) == Decided()
  {
    Opening();
    Deciding();
    RunNext(SINGLE, ["v"], MOVING_BACK, 2);
  }

  /** The third command justifies and finalizes block 2; the fourth moves the justified
      checkpoint back to block 1, and the finalized number stays. */
  lemma JustifiedCanMoveBack()
    ensures var s := Run(SINGLE, ["v"], MOVING_BACK[..3]);
            s.store[s.justified].blockNumber == 2 && FinalizedNumber(s) == 2
    ensures var s := Run(SINGLE, ["v"], MOVING_BACK[..4]);
            s.store[s.justified].blockNumber == 1 && FinalizedNumber(s) == 2
  {
    RunDecides();
    MovingBack();
    RunNext(SINGLE, ["v"], MOVING_BACK, 3);
  }

  datatype Status = Finalized | Justified | Unjustified

  function VerifyFinality(s: State, number: int): Status
    requires s.justified < |s.store| && s.finalized < |s.store|
  {
    if number <= s.store[s.finalized].blockNumber then Finalized
    else if number <= s.store[s.justified].blockNumber then Justified
    else Unjustified
  }

  /** Once reported final, always reported final. */
  lemma FinalStaysFinal(c: Config, validators: seq<string>, earlier: seq<Command>, later: seq<Command>, number: int)
    requires VerifyFinality(Run(c, validators, earlier), number) == Finalized
    ensures VerifyFinality(Run(c, validators, earlier + later), number) == Finalized
  {
    FinalityIsMonotone(c, validators, earlier, later);
  }

  /** Every checkpoint object ever marked final, except genesis, carries a justification
      and stands on an epoch boundary. */
  lemma FinalizedIsJustified(c: Config, validators: seq<string>, commands: seq<Command>, i: nat)
    requires i < |Run(c, validators, commands).store|
    requires Run(c, validators, commands).store[i].finalized
    ensures var cp := Run(c, validators, commands).store[i];
            i == 0 || (cp.justification.Some? && ShouldCheckpoint(c, cp.blockNumber))
  {
    RunInv(c, validators, commands);
    assert CheckpointInv(c, i, Run(c, validators, commands).store[i]);
  }

  // ---------- quorums ----------

  /** Everyone who voted for a number during the run. */
  function Voters(commands: seq<Command>, number: int): set<string> {
    set cmd | cmd in commands && cmd.RecordVote? && cmd.vote.blockNumber == number :: cmd.vote.validatorId
  }

  ghost predicate ValidatorsFixed(commands: seq<Command>) {
    forall cmd :: cmd in commands ==> !cmd.AddValidator? && !cmd.RemoveValidator?
  }

  /** What the recorded votes and the final marks of a state amount to. */
  ghost predicate Counted(c: Config, validators: seq<string>, commands: seq<Command>, s: State)
  {
    s.validators == validators &&
    (forall k :: k in s.blockVotes ==> s.blockVotes[k].Keys <= Voters(commands, k)) &&
    (forall i :: 0 < i < |s.store| ==> CheckpointCounted(c, validators, commands, s.store[i]))
  }

  ghost predicate CheckpointCounted(c: Config, validators: seq<string>, commands: seq<Command>, cp: Checkpoint)
  {
    (cp.finalized ==> |Voters(commands, cp.blockNumber)| >= RequiredVotes(|validators|, c.finalityThreshold)) &&
    (cp.justification.Some? ==>
       |cp.justification.value| >= RequiredVotes(|validators|, c.justificationThreshold) &&
       cp.justification.value.Keys <= Voters(commands, cp.blockNumber))
  }

  lemma VotersGrow(commands: seq<Command>, last: Command, number: int)
    ensures Voters(commands, number) <= Voters(commands + [last], number)
    ensures |Voters(commands, number)| <= |Voters(commands + [last], number)|
  {
    assert forall cmd :: cmd in commands ==> cmd in commands + [last];
    SubsetSize(Voters(commands, number), Voters(commands + [last], number));
  }

  lemma CountedGrows(c: Config, validators: seq<string>, commands: seq<Command>, last: Command, s: State)
    requires Counted(c, validators, commands, s)
    ensures Counted(c, validators, commands + [last], s)
  {
    forall k | k in s.blockVotes
      ensures s.blockVotes[k].Keys <= Voters(commands + [last], k)
    {
      VotersGrow(commands, last, k);
    }
    forall i | 0 < i < |s.store|
      ensures CheckpointCounted(c, validators, commands + [last], s.store[i])
    {
      VotersGrow(commands, last, s.store[i].blockNumber);
    }
  }

  lemma TryFinalizeCounted(c: Config, validators: seq<string>, commands: seq<Command>, s: State)
    requires Inv(c, s) && Counted(c, validators, commands, s)
    ensures Counted(c, validators, commands, TryFinalize(c, s))
  {
    var f := TryFinalize(c, s);
    if f != s {
      var number := s.store[f.finalized].blockNumber;
      assert |s.blockVotes[number]| == |s.blockVotes[number].Keys|;
      SubsetSize(s.blockVotes[number].Keys, Voters(commands, number));
      forall k | 0 < k < |f.store|
        ensures CheckpointCounted(c, validators, commands, f.store[k])
      {
        assert CheckpointCounted(c, validators, commands, s.store[k]);
      }
    }
  }

  lemma ProcessCounted(c: Config, validators: seq<string>, commands: seq<Command>, s: State, number: int)
    requires Inv(c, s) && Counted(c, validators, commands, s)
    ensures Counted(c, validators, commands, ProcessVotes(c, s, number))
  {
    var j := s;
    if ShouldCheckpoint(c, number) {
      j := Justify(c, s, number);
    }
    TryFinalizeCounted(c, validators, commands, j);
  }

  lemma StepCounted(c: Config, validators: seq<string>, commands: seq<Command>, s: State, last: Command)
    requires Inv(c, s) && Counted(c, validators, commands, s) && last in commands
    requires !last.AddValidator? && !last.RemoveValidator?
    ensures Counted(c, validators, commands, Step(c, s, last))
  {
    if last.RecordVote? {
      ProcessCounted(c, validators, commands, WithVote(s, last.vote), last.vote.blockNumber);
    }
  }

  lemma {:induction false} RunCounted(c: Config, validators: seq<string>, commands: seq<Command>)
    requires ValidatorsFixed(commands)
    ensures Counted(c, validators, commands, Run(c, validators, commands))
  {
    if commands != [] {
      var init, last := commands[..|commands| - 1], commands[|commands| - 1];
      assert commands == init + [last] && last in commands;
      RunCounted(c, validators, init);
      RunInv(c, validators, init);
      CountedGrows(c, validators, init, last, Run(c, validators, init));
      StepCounted(c, validators, commands, Run(c, validators, init), last);
    }
  }

  /** The run marked some checkpoint with this number, other than genesis, final. */
  ghost predicate Finalizes(c: Config, validators: seq<string>, commands: seq<Command>, number: int)
  {
    var s := Run(c, validators, commands);
    exists i :: 0 < i < |s.store| && s.store[i].finalized && s.store[i].blockNumber == number
  }

  ghost predicate VotesFrom(commands: seq<Command>, validators: seq<string>) {
    forall cmd :: cmd in commands && cmd.RecordVote? ==> cmd.vote.validatorId in validators
  }

  function Members(validators: seq<string>): set<string> {
    set v | v in validators
  }

  lemma {:induction false} MembersBound(validators: seq<string>)
    ensures |Members(validators)| <= |validators|
  {
    if validators != [] {
      MembersBound(validators[1..]);
      assert Members(validators) == {validators[0]} + Members(validators[1..]);
    }
  }

  /** Two quorums among n leave an overlap of twice the quorum minus n. */
  lemma QuorumsOverlap<T>(a: set<T>, b: set<T>, all: set<T>, n: nat, quorum: int)
    requires a <= all && b <= all && |all| <= n && |a| >= quorum && |b| >= quorum
    ensures |a * b| >= 2 * quorum - n
  {
    assert a + b == a + (b - a) && a * b == b - (b - a);
    SubsetSize(a + b, all);
    assert |a + b| == |a| + |b - a|;
    assert b == (b - a) + (a * b);
    assert |b| == |b - a| + |a * b|;
  }

  const DEFAULT_FINALITY: real := 0.67
  const DEFAULT_JUSTIFICATION: real := 0.5

  /** Two managers with the same validators and the default threshold cannot both
      finalize a height without more than a third of the validators voting in both. */
  lemma FinalizationsOverlap(c: Config, d: Config, validators: seq<string>, a: seq<Command>, b: seq<Command>,
                             number: int)
    requires c.finalityThreshold == d.finalityThreshold == DEFAULT_FINALITY
    requires ValidatorsFixed(a) && ValidatorsFixed(b) && VotesFrom(a, validators) && VotesFrom(b, validators)
    requires Finalizes(c, validators, a, number) && Finalizes(d, validators, b, number)
    ensures 3 * |Voters(a, number) * Voters(b, number)| > |validators|
  {
    var n, quorum := |validators|, RequiredVotes(|validators|, DEFAULT_FINALITY);
    RunCounted(c, validators, a);
    RunCounted(d, validators, b);
    MembersBound(validators);
    QuorumsOverlap(Voters(a, number), Voters(b, number), Members(validators), n, quorum);
    assert quorum as real > n as real * DEFAULT_FINALITY;
  }

  /** Such managers exist: one validator finalizes height 2. */
  lemma FinalizationHappens()
    ensures SINGLE.finalityThreshold == DEFAULT_FINALITY &&
            SINGLE.justificationThreshold == DEFAULT_JUSTIFICATION
    ensures ValidatorsFixed(MOVING_BACK[..3]) && VotesFrom(MOVING_BACK[..3], ["v"])
    ensures Finalizes(SINGLE, ["v"], MOVING_BACK[..3], 2)
  {
    RunDecides();
    StoreDecided();
  }

  lemma StoreDecided()
    ensures |Decided().store| == 3 && Decided().store[2].finalized && Decided().store[2].blockNumber == 2
  {}

  /** Any two default justifications of two such managers share a voter. */
  lemma JustificationsIntersect(c: Config, d: Config, validators: seq<string>, a: seq<Command>, b: seq<Command>,
                                i: nat, j: nat)
    requires c.justificationThreshold == d.justificationThreshold == DEFAULT_JUSTIFICATION
    requires ValidatorsFixed(a) && ValidatorsFixed(b) && VotesFrom(a, validators) && VotesFrom(b, validators)
    requires 0 < i < |Run(c, validators, a).store| && 0 < j < |Run(d, validators, b).store|
    requires Run(c, validators, a).store[i].justification.Some? && Run(d, validators, b).store[j].justification.Some?
    ensures exists v :: v in Run(c, validators, a).store[i].justification.value &&
                        v in Run(d, validators, b).store[j].justification.value
  {
    var n, quorum := |validators|, RequiredVotes(|validators|, DEFAULT_JUSTIFICATION);
    RunCounted(c, validators, a);
    RunCounted(d, validators, b);
    MembersBound(validators);
    var p, q := Run(c, validators, a).store[i], Run(d, validators, b).store[j];
    assert CheckpointCounted(c, validators, a, p) && CheckpointCounted(d, validators, b, q);
    var x, y := p.justification.value, q.justification.value;
    assert |x| == |x.Keys| && |y| == |y.Keys|;
    QuorumsOverlap(x.Keys, y.Keys, Members(validators), n, quorum);
    assert quorum as real > n as real * DEFAULT_JUSTIFICATION;
    var v :| v in x.Keys * y.Keys;
  }

  /** `PBFTFinalitySystem.requiredQuorum`. */
  function RequiredQuorum(total: nat): nat {
    2 * total / 3 + 1
  }

  lemma PbftQuorumsOverlap<T>(a: set<T>, b: set<T>, all: set<T>)
    requires a <= all && b <= all && |a| >= RequiredQuorum(|all|) && |b| >= RequiredQuorum(|all|)
    ensures 3 * |a * b| > |all|
  {
    QuorumsOverlap(a, b, all, |all|, RequiredQuorum(|all|));
  }

  /** The filter of `removeValidator`. */
  method KeepOthers(validators: seq<string>, id: string) returns (kept: seq<string>)
    ensures kept == Without(validators, id)
  {
    kept := [];
    for i := 0 to |validators|
      invariant kept + Without(validators[i..], id) == Without(validators, id)
    {
      if validators[i] != id {
        kept := kept + [validators[i]];
      }
    }
  }

  // ---------- the class ----------

  class FinalityManager {
    const config: Config
    var validators: seq<string>
    var store: seq<Checkpoint>
    var checkpoints: map<int, nat>
    var blockVotes: map<int, Votes>
    var justifiedCheckpoint: nat
    var finalizedCheckpoint: nat

    ghost function View(): State
      reads this
    {
      State(validators, store, checkpoints, blockVotes, justifiedCheckpoint, finalizedCheckpoint)
    }

    ghost predicate Valid()
      reads this
    {
      Inv(config, View())
    }

    /** A manager that has been initialised. */
    constructor (config: Config, validators: seq<string>)
      ensures Valid() && this.config == config && View() == Initial(validators)
    {
      this.config := config;
      this.validators := validators;
      store := [GENESIS];
      checkpoints := map[0 := 0];
      blockVotes := map[];
      justifiedCheckpoint, finalizedCheckpoint := 0, 0;
      new;
    }

    method AddValidatorId(id: string)
      requires Valid()
      modifies this`validators
      ensures Valid() && View() == Step(config, old(View()), AddValidator(id))
    {
      validators := validators + [id];
    }

    method RemoveValidatorId(id: string)
      requires Valid()
      modifies this`validators
      ensures Valid() && View() == Step(config, old(View()), RemoveValidator(id))
    {
      validators := KeepOthers(validators, id);
    }

    method CreateCheckpointAt(block: Block)
      requires Valid()
      modifies this
      ensures Valid() && View() == Step(config, old(View()), CreateCheckpoint(block))
    {
      StepInv(config, View(), CreateCheckpoint(block));
      var epoch := block.index / config.interval;
      var cp := Checkpoint(block.index, block.hash, epoch, validators, None, false);
      store := store + [cp];
      checkpoints := checkpoints[block.index := |store| - 1];
      blockVotes := blockVotes[block.index := map[]];
    }

    method Record(vote: Vote)
      requires Valid()
      modifies this
      ensures Valid() && View() == Step(config, old(View()), RecordVote(vote))
    {
      if vote.blockNumber !in blockVotes {
        blockVotes := blockVotes[vote.blockNumber := map[]];
      }
      blockVotes := blockVotes[vote.blockNumber := blockVotes[vote.blockNumber][vote.validatorId := vote]];
      assert View() == WithVote(old(View()), vote);
      ProcessInv(config, View(), vote.blockNumber);
      ProcessVotesFor(vote.blockNumber);
    }

    method ProcessVotesFor(number: int)
      requires Valid()
      modifies this
      ensures View() == ProcessVotes(config, old(View()), number)
    {
      if number !in blockVotes {
        return;
      }
      if number > 0 && number % config.interval == 0 {
        AttemptCheckpointJustification(number);
      }
      if store[justifiedCheckpoint].blockNumber > store[finalizedCheckpoint].blockNumber {
        AttemptFinality();
      }
    }

    method AttemptCheckpointJustification(number: int)
      requires Valid()
      modifies this
      ensures View() == Justify(config, old(View()), number)
    {
      if number !in blockVotes {
        return;
      }
      var votes := blockVotes[number];
      var requiredVotes := RequiredVotes(|validators|, config.justificationThreshold);
      if |votes| >= requiredVotes && number in checkpoints {
        var i := checkpoints[number];
        store := store[i := store[i].(justification := Some(votes))];
        justifiedCheckpoint := i;
      }
    }

    method AttemptFinality()
      requires Valid()
      modifies this
      ensures View() == TryFinalize(config, old(View()))
    {
      match config.gadget {
        case PBFT => AttemptPBFTFinality();
        case CasperFFG => AttemptCasperFFGFinality();
        case Other =>
      }
    }

    method AttemptPBFTFinality()
      requires Valid() && config.gadget == PBFT
      modifies this
      ensures View() == TryFinalize(config, old(View()))
    {
      var currentHeight := store[justifiedCheckpoint].blockNumber;
      if currentHeight in blockVotes &&
         |blockVotes[currentHeight]| >= RequiredVotes(|validators|, config.finalityThreshold) {
        store := store[justifiedCheckpoint := store[justifiedCheckpoint].(finalized := true)];
        finalizedCheckpoint := justifiedCheckpoint;
      }
    }

    method AttemptCasperFFGFinality()
      requires Valid() && config.gadget == CasperFFG
      modifies this
      ensures View() == TryFinalize(config, old(View()))
    {
      var current := store[justifiedCheckpoint];
      var previousNumber := (current.epoch - 1) * config.interval;
      if previousNumber !in checkpoints {
        return;
      }
      var i := checkpoints[previousNumber];
      var previous := store[i];
      if previous.justification.Some? && !previous.finalized {
        if previous.blockNumber in blockVotes && current.blockNumber in blockVotes {
          var required := RequiredVotes(|validators|, config.finalityThreshold);
          if |blockVotes[previous.blockNumber]| >= required && |blockVotes[current.blockNumber]| >= required {
            store := store[i := previous.(finalized := true)];
            finalizedCheckpoint := i;
          }
        }
      }
    }

    /** `latest` is the last block of the chain that the fork choice selected, if any. */
    method HandleForkTo(latest: Option<Block>)
      requires Valid()
      modifies this
      ensures Valid() && View() == Step(config, old(View()), HandleFork(latest))
    {
      if latest.Some? {
        var block := latest.value;
        if block.index > 0 && block.index % config.interval == 0 && block.index !in checkpoints {
          CreateCheckpointAt(block);
        }
      }
    }

    method VerifyFinalityOf(number: int) returns (status: Status)
      requires Valid()
      ensures status == VerifyFinality(View(), number)
    {
      var isFinalized := number <= store[finalizedCheckpoint].blockNumber;
      var isJustified := number <= store[justifiedCheckpoint].blockNumber;
      status := Unjustified;
      if isFinalized {
        status := Finalized;
      } else if isJustified {
        status := Justified;
      }
    }
  }
}
