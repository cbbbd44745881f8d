/**
 What one vote decides (src/consensus/finality.js), in numbers of votes and shares of the
 validators: which checkpoint is justified, and which is finalized under each gadget.
 */
module FinalityVotes {
  import opened Wrappers

  import opened Finality
  import opened FinalityPromises

  /** Enough votes are those that exceed the share. */
  lemma EnoughExactly(votes: nat, n: nat, share: real)
    requires share >= 0.0
    ensures votes >= RequiredVotes(n, share) <==> votes as real > n as real * share
  {
    var product := n as real * share;
    assert product.Floor as real <= product < (product.Floor + 1) as real;
  }

  /** The votes for a number once this one is counted, at most one from each validator. */
  function VotesWith(s: State, vote: Vote): Votes {
    (if vote.blockNumber in s.blockVotes then s.blockVotes[vote.blockNumber] else map[])
      [vote.validatorId := vote]
  }

  // ---------- justification ----------

  /** The vote is for a number on a boundary with a checkpoint, and more than the share of
      the validators have then voted for it. */
  ghost predicate Completes(c: Config, s: State, vote: Vote) {
    vote.blockNumber > 0 && vote.blockNumber % c.interval == 0 && vote.blockNumber in s.checkpoints &&
    |VotesWith(s, vote)| as real > |s.validators| as real * c.justificationThreshold
  }

  lemma VotesCounted(c: Config, s: State, vote: Vote)
    requires WellFormed(s)
    ensures var j := Counting(c, s, vote);
            j.blockVotes == s.blockVotes[vote.blockNumber := VotesWith(s, vote)] && j.validators == s.validators &&
            j.checkpoints == s.checkpoints && j.finalized == s.finalized
  {
  }

  /** Justifying changes nothing else of a checkpoint. */
  ghost predicate SameBut(s: State, t: State) {
    |t.store| == |s.store| &&
    forall k :: 0 <= k < |s.store| ==>
      t.store[k].blockNumber == s.store[k].blockNumber && t.store[k].epoch == s.store[k].epoch &&
      t.store[k].finalized == s.store[k].finalized
  }

  lemma CountingJustifies(c: Config, s: State, vote: Vote)
    requires WellFormed(s)
    ensures var j := Counting(c, s, vote);
            SameBut(s, j) &&
            if Completes(c, s, vote) then
              var i := s.checkpoints[vote.blockNumber];
              j.justified == i && j.store[i].justification == Some(VotesWith(s, vote)) &&
              forall k :: 0 <= k < |s.store| && k != i ==> j.store[k].justification == s.store[k].justification
            else
              j.justified == s.justified &&
              forall k :: 0 <= k < |s.store| ==> j.store[k].justification == s.store[k].justification
  {
    EnoughExactly(|VotesWith(s, vote)|, |s.validators|, c.justificationThreshold);
  }

  /** The attempt at finality leaves everything but the final marks alone. */
  ghost predicate SameJustified(j: State, t: State) {
    |t.store| == |j.store| && t.justified == j.justified && t.blockVotes == j.blockVotes &&
    t.validators == j.validators && t.checkpoints == j.checkpoints &&
    forall k :: 0 <= k < |j.store| ==>
      t.store[k].justification == j.store[k].justification && t.store[k].blockNumber == j.store[k].blockNumber &&
      t.store[k].epoch == j.store[k].epoch
  }

  lemma FinalizingKeeps(c: Config, j: State)
    requires WellFormed(j)
    ensures SameJustified(j, TryFinalize(c, j))
  {
  }

  lemma StepKeepsJustified(c: Config, s: State, vote: Vote)
    requires WellFormed(s)
    ensures SameJustified(Counting(c, s, vote), Step(c, s, RecordVote(vote)))
  {
    StepIsCountingFirst(c, s, RecordVote(vote));
    FinalizingKeeps(c, Counting(c, s, vote));
  }

  /** A vote justifies the checkpoint of its number, with all the votes for it, if and only
      if it completes a quorum there; otherwise every justification stays. */
  lemma JustifiesExactly(c: Config, s: State, vote: Vote)
    requires WellFormed(s)
    ensures var after := Step(c, s, RecordVote(vote));
            |after.store| == |s.store| &&
            if Completes(c, s, vote) then
              var i := s.checkpoints[vote.blockNumber];
              after.justified == i && after.store[i].justification == Some(VotesWith(s, vote)) &&
              forall k :: 0 <= k < |s.store| && k != i ==> after.store[k].justification == s.store[k].justification
            else
              after.justified == s.justified &&
              forall k :: 0 <= k < |s.store| ==> after.store[k].justification == s.store[k].justification
  {
    CountingJustifies(c, s, vote);
    StepKeepsJustified(c, s, vote);
  }

  // ---------- finality ----------

  /** More than the share of the validators have voted for the number. */
  ghost predicate Decided(c: Config, s: State, number: int) {
    number in s.blockVotes && |s.blockVotes[number]| as real > |s.validators| as real * c.finalityThreshold
  }

  lemma QuorumExactly(c: Config, s: State, number: int)
    ensures HasQuorum(c, s, number) <==> Decided(c, s, number)
  {
    if number in s.blockVotes {
      EnoughExactly(|s.blockVotes[number]|, |s.validators|, c.finalityThreshold);
    }
  }

  /** This one becomes final, and nothing else. */
  ghost predicate OnlyFinal(s: State, after: State, i: nat) {
    i < |s.store| == |after.store| && after.finalized == i && after.store[i].finalized &&
    forall k :: 0 <= k < |s.store| && k != i ==> after.store[k].finalized == s.store[k].finalized
  }

  ghost predicate NoneFinal(s: State, after: State) {
    |s.store| == |after.store| && after.finalized == s.finalized &&
    forall k :: 0 <= k < |s.store| ==> after.store[k].finalized == s.store[k].finalized
  }

  lemma SameDecisions(c: Config, j: State, t: State, number: int)
    requires SameJustified(j, t)
    ensures Decided(c, j, number) <==> Decided(c, t, number)
  {
  }

  /** The attempt of PBFT. */
  lemma PbftTries(c: Config, j: State)
    requires WellFormed(j) && c.gadget.PBFT?
    ensures if Decided(c, j, j.store[j.justified].blockNumber) then OnlyFinal(j, TryFinalize(c, j), j.justified)
            else NoneFinal(j, TryFinalize(c, j))
  {
    QuorumExactly(c, j, j.store[j.justified].blockNumber);
  }

  /** Under PBFT a vote finalizes the justified checkpoint if and only if that is above the
      final one and more than the share of the validators have voted for it. */
  lemma PbftFinalizesExactly(c: Config, s: State, vote: Vote)
    requires WellFormed(s) && c.gadget.PBFT?
    ensures var after := Step(c, s, RecordVote(vote));
            after.justified < |after.store| == |s.store| &&
            var number := after.store[after.justified].blockNumber;
            if number > s.store[s.finalized].blockNumber && Decided(c, after, number)
            then OnlyFinal(s, after, after.justified) else NoneFinal(s, after)
  {
    var j := Counting(c, s, vote);
    VotesCounted(c, s, vote);
    CountingJustifies(c, s, vote);
    StepKeepsJustified(c, s, vote);
    StepIsCountingFirst(c, s, RecordVote(vote));
    PbftTries(c, j);
    SameDecisions(c, j, Step(c, s, RecordVote(vote)), j.store[j.justified].blockNumber);
  }

  /** The number one interval below the justified checkpoint's epoch. */
  function PreviousNumber(c: Config, t: State): int
    requires WellFormed(t)
  {
    (t.store[t.justified].epoch - 1) * c.interval
  }

  /** What Casper FFG asks for: the checkpoint of that number is justified itself and was
      not final yet, and both numbers have their votes. */
  ghost predicate LinkDecided(c: Config, s: State, t: State)
    requires WellFormed(t) && |s.store| == |t.store|
  {
    PreviousNumber(c, t) in t.checkpoints &&
    var i := t.checkpoints[PreviousNumber(c, t)];
    t.store[i].justification.Some? && !s.store[i].finalized &&
    Decided(c, t, t.store[i].blockNumber) && Decided(c, t, t.store[t.justified].blockNumber)
  }

  lemma CasperTries(c: Config, j: State)
    requires WellFormed(j) && c.gadget.CasperFFG?
    ensures if LinkDecided(c, j, j) then OnlyFinal(j, TryFinalize(c, j), j.checkpoints[PreviousNumber(c, j)])
            else NoneFinal(j, TryFinalize(c, j))
  {
    var number := PreviousNumber(c, j);
    QuorumExactly(c, j, j.store[j.justified].blockNumber);
    if number in j.checkpoints {
      QuorumExactly(c, j, j.store[j.checkpoints[number]].blockNumber);
    }
  }

  lemma SameLinks(c: Config, s: State, j: State, t: State)
    requires WellFormed(j) && WellFormed(t) && SameJustified(j, t) && SameBut(s, j)
    ensures PreviousNumber(c, j) == PreviousNumber(c, t)
    ensures LinkDecided(c, s, t) <==> LinkDecided(c, j, j)
  {
    SameDecisions(c, j, t, j.store[j.justified].blockNumber);
    if PreviousNumber(c, j) in j.checkpoints {
      SameDecisions(c, j, t, j.store[j.checkpoints[PreviousNumber(c, j)]].blockNumber);
    }
  }

  /** Under Casper FFG a vote finalizes that checkpoint, and only that one, if and only if
      the justified number is above the final one and the link is decided. */
  lemma CasperFinalizesExactly(c: Config, s: State, vote: Vote)
    requires WellFormed(s) && c.gadget.CasperFFG?
    ensures var after := Step(c, s, RecordVote(vote));
            WellFormed(after) && |after.store| == |s.store| &&
            if after.store[after.justified].blockNumber > s.store[s.finalized].blockNumber && LinkDecided(c, s, after)
            then OnlyFinal(s, after, after.checkpoints[PreviousNumber(c, after)]) else NoneFinal(s, after)
  {
    var j, after := Counting(c, s, vote), Step(c, s, RecordVote(vote));
    VotesCounted(c, s, vote);
    CountingJustifies(c, s, vote);
    StepKeepsJustified(c, s, vote);
    StepWellFormed(c, s, RecordVote(vote));
    StepIsCountingFirst(c, s, RecordVote(vote));
    CasperTries(c, j);
    SameLinks(c, s, j, after);
  }

  /** Any other gadget finalizes nothing. */
  lemma OtherFinalizesNothing(c: Config, s: State, vote: Vote)
    requires WellFormed(s) && c.gadget.Other?
    ensures NoneFinal(s, Step(c, s, RecordVote(vote)))
  {
    VotesCounted(c, s, vote);
    CountingJustifies(c, s, vote);
    StepIsCountingFirst(c, s, RecordVote(vote));
  }

  // ---------- reports and validators ----------

  /** What is reported of a number: final up to the finalized one, justified up to the
      justified one beyond that, and neither above both. */
  lemma ReportedExactly(s: State, number: int)
    requires WellFormed(s)
    ensures var f, j := s.store[s.finalized].blockNumber, s.store[s.justified].blockNumber;
            (VerifyFinality(s, number) == Status.Finalized <==> number <= f) &&
            (VerifyFinality(s, number) == Status.Justified <==> f < number <= j) &&
            (VerifyFinality(s, number) == Status.Unjustified <==> number > f && number > j)
  {
  }

  /** Removing a validator removes every occurrence and no one else, and keeps the order. */
  lemma {:induction false} RemovedExactly(a: seq<string>, b: seq<string>, id: string)
    ensures Without(a + b, id) == Without(a, id) + Without(b, id)
    ensures Without([id], id) == []
    ensures forall other :: other != id ==> Without([other], id) == [other]
  {
    if a == [] {
      assert a + b == b;
    } else {
      assert (a + b)[1..] == a[1..] + b;
      RemovedExactly(a[1..], b, id);
    }
  }

  lemma {:induction false} NoneRemoved(ids: seq<string>, id: string)
    requires id !in ids
    ensures Without(ids, id) == ids
  {
    if ids != [] {
      NoneRemoved(ids[1..], id);
    }
  }

  lemma OneRemoved(before: seq<string>, id: string, after: seq<string>)
    requires id !in before && id !in after
    ensures Without(before + [id] + after, id) == before + after
  {
    RemovedExactly(before + [id], after, id);
    RemovedExactly(before, [id], id);
    NoneRemoved(before, id);
    NoneRemoved(after, id);
    assert Without(before, id) + Without([id], id) == before;
  }

  /** A new validator comes last and one that goes leaves the others in order; nothing else changes. */
  lemma ValidatorsExactly(c: Config, s: State, before: seq<string>, id: string, after: seq<string>)
    requires WellFormed(s)
    ensures Step(c, s, AddValidator(id)) == s.(validators := s.validators + [id])
    ensures s.validators == before + [id] + after && id !in before && id !in after ==>
              Step(c, s, RemoveValidator(id)) == s.(validators := before + after)
  {
    if s.validators == before + [id] + after && id !in before && id !in after {
      OneRemoved(before, id, after);
    }
  }

  // ---------- checkpoints ----------

  /** A new checkpoint carries the block's number and hash and its epoch, has no votes and is
      neither justified nor final.  The pointers and the other checkpoints stay. */
  lemma CreatedExactly(c: Config, s: State, block: Block)
    requires WellFormed(s)
    ensures var after := Step(c, s, CreateCheckpoint(block));
            |after.store| == |s.store| + 1 && after.store[..|s.store|] == s.store &&
            after.store[|s.store|].blockNumber == block.index && after.store[|s.store|].blockHash == block.hash &&
            after.store[|s.store|].epoch == block.index / c.interval &&
            after.store[|s.store|].validatorSet == s.validators &&
            after.store[|s.store|].justification.None? && !after.store[|s.store|].finalized &&
            after.checkpoints == s.checkpoints[block.index := |s.store|] &&
            after.blockVotes == s.blockVotes[block.index := map[]] && after.validators == s.validators &&
            after.justified == s.justified && after.finalized == s.finalized
  {
  }

  /** A resolved fork makes a checkpoint of its last block if and only if that stands on a
      boundary above 0 without one. */
  lemma ForkHandledExactly(c: Config, s: State, latest: Option<Block>)
    requires WellFormed(s)
    ensures Step(c, s, HandleFork(latest)) ==
            if latest.Some? && latest.value.index > 0 && latest.value.index % c.interval == 0 &&
               latest.value.index !in s.checkpoints
            then Step(c, s, CreateCheckpoint(latest.value)) else s
  {
  }
}
