/**
 The two stake-weighted selectors: `selectValidator` (src/consensus/pos.js) subtracts stakes
 from a random value until it falls below one, `select_validator_by_stake`
 (src/consensus/interface.js) adds them up until the sum reaches it.

 `random` is what `Math.random()` returned.  `SubtractingShare` and `CumulativeShare` give
 each validator its stretch of random values, as long as its stake; `SelectorsAgree` says
 on exactly which values the two differ.
 */
module StakeSelection {
  import opened Wrappers

  datatype Validator = Validator(address: string, stake: real, active: bool)

  /** The stakes of the first k validators together. */
  function Prefix(vs: seq<Validator>, k: nat): real
    requires k <= |vs|
  {
    if k == 0 then 0.0 else Prefix(vs, k - 1) + vs[k - 1].stake
  }

  function TotalStake(vs: seq<Validator>): real {
    Prefix(vs, |vs|)
  }

  function Active(vs: seq<Validator>): seq<Validator> {
    if vs == [] then []
    else Active(vs[..|vs| - 1]) + if vs[|vs| - 1].active then [vs[|vs| - 1]] else []
  }

  /** Exactly the active validators, in their order: one more is appended if it is active. */
  lemma ActiveExactly(vs: seq<Validator>, v: Validator)
    ensures Active([]) == []
    ensures Active(vs + [v]) == if v.active then Active(vs) + [v] else Active(vs)
  {
    assert (vs + [v])[..|vs|] == vs;
  }

  ghost predicate NoDebt(vs: seq<Validator>) {
    forall i :: 0 <= i < |vs| ==> vs[i].stake >= 0.0
  }

  /** The value is not below any of the first n sums. */
  ghost predicate NoneAbove(vs: seq<Validator>, r: real, n: nat)
    requires n <= |vs|
  {
    forall k :: 0 < k <= n ==> Prefix(vs, k) <= r
  }

  /** None of the first n sums reaches the value. */
  ghost predicate NoneReaches(vs: seq<Validator>, r: real, n: nat)
    requires n <= |vs|
  {
    forall k :: 0 < k <= n ==> Prefix(vs, k) < r
  }

  /** The first validator whose stake the remaining value is below. */
  ghost predicate FirstAbove(vs: seq<Validator>, r: real, i: nat) {
    i < |vs| && r < Prefix(vs, i + 1) && NoneAbove(vs, r, i)
  }

  /** The first validator with which the sum reaches the value. */
  ghost predicate FirstReaching(vs: seq<Validator>, r: real, i: nat) {
    i < |vs| && Prefix(vs, i + 1) >= r && NoneReaches(vs, r, i)
  }

  // ---------- the selectors ----------

  method ActiveValidators(vs: seq<Validator>) returns (active: seq<Validator>)
    ensures active == Active(vs)
  {
    active := [];
    for i := 0 to |vs|
      invariant active == Active(vs[..i])
    {
      assert vs[..i + 1][..i] == vs[..i];
      if vs[i].active {
        active := active + [vs[i]];
      }
    }
    assert vs[..|vs|] == vs;
  }

  method SumStakes(vs: seq<Validator>) returns (sum: real)
    ensures sum == TotalStake(vs)
  {
    sum := 0.0;
    for i := 0 to |vs|
      invariant sum == Prefix(vs, i)
    {
      sum := sum + vs[i].stake;
    }
  }

  /** The fallback, the first validator, is for values that no prefix exceeds. */
  method SelectValidator(validators: seq<Validator>, random: real) returns (chosen: Option<Validator>, ghost index: nat)
    requires 0.0 <= random < 1.0
    ensures chosen.None? <==> Active(validators) == [] || TotalStake(Active(validators)) == 0.0
    ensures
      var vs := Active(validators);
      var r := random * TotalStake(vs);
      chosen.Some? ==>
        index < |vs| && chosen.value == vs[index] &&
        (FirstAbove(vs, r, index) || (index == 0 && NoneAbove(vs, r, |vs|)))
  {
    index := 0;
    var active := ActiveValidators(validators);
    if |active| == 0 {
      return None, 0;
    }
    var total := SumStakes(active);
    if total == 0.0 {
      return None, 0;
    }
    var remaining := random * total;
    ghost var r := remaining;
    assert r == random * TotalStake(Active(validators));
    for i := 0 to |active|
      invariant remaining == r - Prefix(active, i) && NoneAbove(active, r, i)
    {
      if remaining < active[i].stake {
        return Some(active[i]), i;
      }
      remaining := remaining - active[i].stake;
    }
    chosen, index := Some(active[0]), 0;
    assert NoneAbove(active, r, |active|);
  }

  /** The fallback, the last validator, is for values that no prefix reaches. */
  method SelectValidatorByStake(vs: seq<Validator>, random: real) returns (chosen: Option<Validator>, ghost index: nat)
    requires 0.0 <= random < 1.0
    ensures chosen.None? <==> vs == []
    ensures
      var r := random * TotalStake(vs);
      chosen.Some? ==>
        index < |vs| && chosen.value == vs[index] &&
        (FirstReaching(vs, r, index) || (index == |vs| - 1 && NoneReaches(vs, r, |vs|)))
  {
    index := 0;
    if |vs| == 0 {
      return None, 0;
    }
    var total := SumStakes(vs);
    var value := random * total;
    var cumulative := 0.0;
    for i := 0 to |vs|
      invariant cumulative == Prefix(vs, i)
      invariant NoneReaches(vs, value, i)
    {
      cumulative := cumulative + vs[i].stake;
      if cumulative >= value {
        return Some(vs[i]), i;
      }
    }
    return Some(vs[|vs| - 1]), |vs| - 1;
  }

  // ---------- whom a random value selects ----------

  lemma {:induction false} PrefixGrows(vs: seq<Validator>, i: nat, j: nat)
    requires NoDebt(vs) && i <= j <= |vs|
    ensures Prefix(vs, i) <= Prefix(vs, j)
  {
    if i < j {
      PrefixGrows(vs, i, j - 1);
    }
  }

  /** With values from 0 up to the total, neither fallback is taken. */
  lemma InRange(vs: seq<Validator>, random: real)
    requires NoDebt(vs) && 0.0 <= random < 1.0 && TotalStake(vs) != 0.0
    ensures 0.0 <= random * TotalStake(vs) < TotalStake(vs) && vs != []
    ensures !NoneAbove(vs, random * TotalStake(vs), |vs|) && !NoneReaches(vs, random * TotalStake(vs), |vs|)
  {
    PrefixGrows(vs, 0, |vs|);
    Scaled(random, TotalStake(vs));
  }

  lemma Scaled(u: real, t: real)
    requires 0.0 <= u < 1.0 && t > 0.0
    ensures 0.0 <= u * t < t
  {
    assert (1.0 - u) * t > 0.0;
  }

  /** A validator owns the values from its prefix up to, not including, the next: a stretch
      as long as its stake, and so none at all without one. */
  lemma SubtractingShare(vs: seq<Validator>, r: real, i: nat)
    requires NoDebt(vs) && r >= 0.0 && i < |vs|
    ensures FirstAbove(vs, r, i) <==> Prefix(vs, i) <= r < Prefix(vs, i) + vs[i].stake
  {
    if Prefix(vs, i) <= r {
      forall k | 0 < k <= i ensures Prefix(vs, k) <= r {
        PrefixGrows(vs, k, i);
      }
    }
  }

  /** Here it owns the values after its prefix up to and including the next; the value 0 is
      the first validator's, whatever its stake. */
  lemma CumulativeShare(vs: seq<Validator>, r: real, i: nat)
    requires NoDebt(vs) && r >= 0.0 && i < |vs|
    ensures FirstReaching(vs, r, i) <==> if r == 0.0 then i == 0 else Prefix(vs, i) < r <= Prefix(vs, i) + vs[i].stake
  {
    PrefixGrows(vs, 0, 1);
    if Prefix(vs, i) < r {
      forall k | 0 < k <= i ensures Prefix(vs, k) < r {
        PrefixGrows(vs, k, i);
      }
    } else if i > 0 {
      assert Prefix(vs, 1) >= 0.0;
    }
  }

  ghost predicate IsPrefixSum(vs: seq<Validator>, r: real) {
    exists k :: 0 < k <= |vs| && Prefix(vs, k) == r
  }

  /** The two selectors pick the same validator unless the value is a prefix sum. */
  lemma SelectorsAgree(vs: seq<Validator>, r: real, subtracting: nat, cumulative: nat)
    requires NoDebt(vs) && FirstAbove(vs, r, subtracting) && FirstReaching(vs, r, cumulative)
    ensures subtracting == cumulative <==> !IsPrefixSum(vs, r)
    ensures cumulative <= subtracting
  {
    if IsPrefixSum(vs, r) {
      var k :| 0 < k <= |vs| && Prefix(vs, k) == r;
      assert cumulative < k;
      if subtracting < k {
        PrefixGrows(vs, subtracting + 1, k);
        assert false;
      }
    } else {
      assert Prefix(vs, cumulative + 1) != r;
    }
  }

  /** The subtracting selector never picks a validator without stake; the cumulative one does
      so only for the value 0. */
  lemma StakelessPick(vs: seq<Validator>, r: real, subtracting: nat, cumulative: nat)
    requires NoDebt(vs) && r >= 0.0 && FirstAbove(vs, r, subtracting) && FirstReaching(vs, r, cumulative)
    ensures vs[subtracting].stake > 0.0
    ensures vs[cumulative].stake == 0.0 <==> r == 0.0 && vs[0].stake == 0.0
  {
    SubtractingShare(vs, r, subtracting);
    CumulativeShare(vs, r, cumulative);
  }
}
