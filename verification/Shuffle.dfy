/**
 `_shuffle_array` and the dealing of validators to shards (src/runtime/sharding.js).

 The random choices are an input.  `EveryOrderOnce` is what makes the shuffle fair: each
 ordering comes from exactly one sequence of choices.
 */
module Shuffle {
  import opened Sequences

  /** Choice i is `Math.floor(Math.random() * (i + 1))`; none is made for position 0. */
  ghost predicate Draws(draws: seq<nat>, n: nat) {
    |draws| == n && forall i :: 0 <= i < n ==> draws[i] <= i
  }

  function Swap<T>(s: seq<T>, i: nat, j: nat): (r: seq<T>)
    requires i < |s| && j < |s|
    ensures |r| == |s|
  {
    s[i := s[j]][j := s[i]]
  }

  lemma SwapPermutes<T>(s: seq<T>, i: nat, j: nat)
    requires i < |s| && j < |s|
    ensures multiset(Swap(s, i, j)) == multiset(s)
  {}

  /** The last position is settled first, by a swap with the drawn one. */
  ghost function Shuffled<T>(s: seq<T>, draws: seq<nat>): (r: seq<T>)
    requires Draws(draws, |s|)
    ensures |r| == |s|
    decreases |s|
  {
    if s == [] then []
    else
      var last := |s| - 1;
      var t := Swap(s, last, draws[last]);
      Shuffled(t[..last], draws[..last]) + [t[last]]
  }

  /** The drawn element comes last, the last one takes its place, and the rest is shuffled alike. */
  lemma ShuffledExactly<T>(s: seq<T>, draws: seq<nat>)
    requires Draws(draws, |s|)
    ensures s == [] ==> Shuffled(s, draws) == []
    ensures s != [] ==>
              var last, k := |s| - 1, draws[|s| - 1];
              var rest := if k == last then s[..last] else s[..last][k := s[last]];
              Shuffled(s, draws) == Shuffled(rest, draws[..last]) + [s[k]]
  {
    if s != [] {
      var last, k := |s| - 1, draws[|s| - 1];
      assert Swap(s, last, k)[..last] == if k == last then s[..last] else s[..last][k := s[last]];
    }
  }

  /** `now` with the first `i + 1` positions still to be settled. */
  ghost predicate Unsettled<T>(goal: seq<T>, now: seq<T>, i: nat, draws: seq<nat>)
    requires Draws(draws, |now|)
  {
    i < |now| && goal == Shuffled(now[..i + 1], draws[..i + 1]) + now[i + 1..]
  }

  method ShuffleArray<T>(source: seq<T>, draws: seq<nat>) returns (shuffled: array<T>)
    requires Draws(draws, |source|)
    ensures fresh(shuffled) && shuffled[..] == Shuffled(source, draws)
  {
    shuffled := new T[|source|](i requires 0 <= i < |source| => source[i]);
    ghost var now := source;
    assert shuffled[..] == now;
    var i := |source| - 1;
    if i < 0 {
      return;
    }
    assert source[..i + 1] == source && draws[..i + 1] == draws;
    while i > 0
      invariant 0 <= i < |now| && |now| == |source| && shuffled[..] == now
      invariant Unsettled(Shuffled(source, draws), now, i, draws)
    {
      var j := draws[i];
      SettleOne(Shuffled(source, draws), now, i, draws);
      now := Swap(now, i, j);
      shuffled[i], shuffled[j] := shuffled[j], shuffled[i];
      i := i - 1;
    }
    OneElement(now[..1], draws[..1]);
    assert now == now[..1] + now[1..];
  }

  /** One turn of the loop. */
  lemma SettleOne<T>(goal: seq<T>, now: seq<T>, i: nat, draws: seq<nat>)
    requires 0 < i < |now| && Draws(draws, |now|) && Unsettled(goal, now, i, draws)
    ensures Unsettled(goal, Swap(now, i, draws[i]), i - 1, draws)
  {
    var front, after := now[..i + 1], Swap(now, i, draws[i]);
    assert Swap(front, i, draws[i]) == after[..i + 1];
    assert after[..i + 1][..i] == after[..i] && draws[..i + 1][..i] == draws[..i];
    assert after[i..] == [after[i]] + now[i + 1..];
  }

  lemma OneElement<T>(s: seq<T>, draws: seq<nat>)
    requires |s| == 1 && Draws(draws, 1)
    ensures Shuffled(s, draws) == s
  {
    assert Swap(s, 0, draws[0])[..0] == [];
  }

  // ---------- a permutation, and every permutation once ----------

  lemma {:induction false} ShuffledPermutes<T>(s: seq<T>, draws: seq<nat>)
    requires Draws(draws, |s|)
    ensures multiset(Shuffled(s, draws)) == multiset(s)
    decreases |s|
  {
    if s != [] {
      var last := |s| - 1;
      var t := Swap(s, last, draws[last]);
      ShuffledPermutes(t[..last], draws[..last]);
      SwapAndAdd(s, draws[last], Shuffled(t[..last], draws[..last]));
    }
  }

  lemma SwapAndAdd<T>(s: seq<T>, j: nat, front: seq<T>)
    requires j < |s| && multiset(front) == multiset(Swap(s, |s| - 1, j)[..|s| - 1])
    ensures multiset(front + [Swap(s, |s| - 1, j)[|s| - 1]]) == multiset(s)
  {
    var t := Swap(s, |s| - 1, j);
    SwapPermutes(s, |s| - 1, j);
    assert t == t[..|s| - 1] + [t[|s| - 1]];
  }

  lemma SplitPermutes<T>(s: seq<T>, k: nat)
    requires k <= |s|
    ensures multiset(s) == multiset(s[..k]) + multiset(s[k..])
  {
    assert s == s[..k] + s[k..];
  }

  ghost predicate Distinct<T>(s: seq<T>) {
    forall i, j :: 0 <= i < |s| && 0 <= j < |s| && s[i] == s[j] ==> i == j
  }

  /** Dropping the last element of two permutations with equal last elements. */
  lemma FrontsPermute<T>(s: seq<T>, t: seq<T>)
    requires multiset(s) == multiset(t) && s != [] && t != [] && s[|s| - 1] == t[|t| - 1]
    ensures multiset(s[..|s| - 1]) == multiset(t[..|t| - 1]) && |s| == |t|
  {
    assert s == s[..|s| - 1] + [s[|s| - 1]];
    assert t == t[..|t| - 1] + [t[|t| - 1]];
    assert multiset(s[..|s| - 1]) == multiset(s) - multiset{s[|s| - 1]};
    assert multiset(t[..|t| - 1]) == multiset(t) - multiset{t[|t| - 1]};
    assert |multiset(s)| == |s| && |multiset(t)| == |t|;
  }

  lemma LastIsThere<T>(s: seq<T>, t: seq<T>)
    requires multiset(s) == multiset(t) && s != []
    ensures t != [] && |t| == |s| && t[|t| - 1] in s
  {
    assert |multiset(s)| == |s| && |multiset(t)| == |t|;
    assert t[|t| - 1] in multiset(t);
    assert t[|t| - 1] in multiset(s);
  }

  /** What is left to permute once the last position is settled. */
  ghost function Remaining<T>(s: seq<T>, t: seq<T>): (front: seq<T>)
    requires multiset(s) == multiset(t) && s != []
    ensures t != [] && |t| == |s| && |front| == |s| - 1 && multiset(front) == multiset(t[..|s| - 1])
  {
    LastIsThere(s, t);
    var j := IndexOf(s, t[|s| - 1]);
    SettledLast(s, t, j);
    Swap(s, |s| - 1, j)[..|s| - 1]
  }

  lemma SettledLast<T>(s: seq<T>, t: seq<T>, j: nat)
    requires multiset(s) == multiset(t) && j < |s| == |t| && s[j] == t[|s| - 1]
    ensures multiset(Swap(s, |s| - 1, j)[..|s| - 1]) == multiset(t[..|s| - 1])
  {
    var u := Swap(s, |s| - 1, j);
    SwapPermutes(s, |s| - 1, j);
    assert |u| == |t| && u[|u| - 1] == t[|t| - 1];
    FrontsPermute(u, t);
  }

  /** The choices that lead from s to t. */
  ghost function DrawsFor<T>(s: seq<T>, t: seq<T>): (draws: seq<nat>)
    requires multiset(s) == multiset(t)
    ensures Draws(draws, |s|)
    decreases |s|
  {
    if s == [] then []
    else
      LastIsThere(s, t);
      var front := Remaining(s, t);
      DrawsFor(front, t[..|s| - 1]) + [IndexOf(s, t[|s| - 1])]
  }

  lemma {:induction false} DrawsReach<T>(s: seq<T>, t: seq<T>)
    requires multiset(s) == multiset(t)
    ensures Shuffled(s, DrawsFor(s, t)) == t
    decreases |s|
  {
    if s == [] {
      LengthsAgree(s, t);
    } else {
      LastIsThere(s, t);
      var last := |s| - 1;
      DrawsReach(Remaining(s, t), t[..last]);
      ReachStep(s, t, DrawsFor(Remaining(s, t), t[..last]));
    }
  }

  lemma ReachStep<T>(s: seq<T>, t: seq<T>, draws: seq<nat>)
    requires multiset(s) == multiset(t) && s != [] && t[|t| - 1] in s
    requires Draws(draws, |s| - 1) && |t| == |s| && Shuffled(Remaining(s, t), draws) == t[..|s| - 1]
    ensures Draws(draws + [IndexOf(s, t[|s| - 1])], |s|) && Shuffled(s, draws + [IndexOf(s, t[|s| - 1])]) == t
  {
    assert t == t[..|s| - 1] + [t[|s| - 1]];
  }

  lemma LengthsAgree<T>(s: seq<T>, t: seq<T>)
    requires multiset(s) == multiset(t)
    ensures |s| == |t|
  {
    assert |multiset(s)| == |s| && |multiset(t)| == |t|;
  }

  /** The last choice settles the last position, the others the front. */
  lemma ShuffledEnds<T>(s: seq<T>, draws: seq<nat>)
    requires Draws(draws, |s|) && s != []
    ensures var last, t := |s| - 1, Shuffled(s, draws);
            |t| == |s| && t[last] == s[draws[last]] &&
            t[..last] == Shuffled(Swap(s, last, draws[last])[..last], draws[..last])
  {
  }

  lemma FrontDistinct<T>(s: seq<T>, j: nat)
    requires Distinct(s) && j < |s|
    ensures Distinct(Swap(s, |s| - 1, j)[..|s| - 1])
  {
  }

  /** With distinct elements, different choices give different orderings. */
  lemma {:induction false} DrawsAreUnique<T>(s: seq<T>, draws: seq<nat>, other: seq<nat>)
    requires Distinct(s) && Draws(draws, |s|) && Draws(other, |s|) && Shuffled(s, draws) == Shuffled(s, other)
    ensures draws == other
    decreases |s|
  {
    if s != [] {
      var last := |s| - 1;
      ShuffledEnds(s, draws);
      ShuffledEnds(s, other);
      var j := draws[last];
      assert j == other[last];
      FrontDistinct(s, j);
      DrawsAreUnique(Swap(s, last, j)[..last], draws[..last], other[..last]);
      assert draws == draws[..last] + [j] && other == other[..last] + [j];
    }
  }

  /** Every ordering is reached, and by one sequence of choices only. */
  lemma EveryOrderOnce<T>(s: seq<T>, t: seq<T>, draws: seq<nat>)
    requires Distinct(s) && multiset(s) == multiset(t) && Draws(draws, |s|)
    ensures Shuffled(s, draws) == t <==> draws == DrawsFor(s, t)
  {
    DrawsReach(s, t);
    if Shuffled(s, draws) == t {
      DrawsAreUnique(s, draws, DrawsFor(s, t));
    }
  }

  // ---------- dealing ----------

  function Flatten<T>(parts: seq<seq<T>>): seq<T> {
    if parts == [] then [] else Flatten(parts[..|parts| - 1]) + parts[|parts| - 1]
  }

  /** The shards' slices, each of the same size. */
  function Slices<T>(s: seq<T>, size: nat, n: nat): (r: seq<seq<T>>)
    requires n * size <= |s|
    ensures |r| == n
  {
    if n == 0 then []
    else
      Slices(s, size, n - 1) + [s[(n - 1) * size..n * size]]
  }

  lemma {:induction false} SliceAt<T>(s: seq<T>, size: nat, n: nat, i: nat)
    requires n * size <= |s| && i < n
    ensures 0 <= i * size <= (i + 1) * size <= |s| && Slices(s, size, n)[i] == s[i * size..(i + 1) * size]
  {
    if i < n - 1 {
      SliceAt(s, size, n - 1, i);
    }
  }

  /** The slices are disjoint stretches that together cover the first n * size elements. */
  lemma {:induction false} SlicesCover<T>(s: seq<T>, size: nat, n: nat)
    requires n * size <= |s|
    ensures Flatten(Slices(s, size, n)) == s[..n * size]
  {
    if n > 0 {
      SlicesCover(s, size, n - 1);
      var slices := Slices(s, size, n);
      assert slices[..n - 1] == Slices(s, size, n - 1);
      assert s[..(n - 1) * size] + s[(n - 1) * size..n * size] == s[..n * size];
    }
  }

  lemma Quotient(length: nat, n: nat)
    requires n > 0
    ensures length / n >= 0 && n * (length / n) == length - length % n <= length
  {
    assert length == n * (length / n) + length % n;
  }

  /** The shares of the n shards: each gets the same number. */
  function Deal<T>(s: seq<T>, n: nat): (r: seq<seq<T>>)
    requires n > 0
    ensures |r| == n
  {
    Quotient(|s|, n);
    Slices(s, |s| / n, n)
  }

  lemma DealCovers<T>(s: seq<T>, n: nat)
    requires n > 0
    ensures |s| - |s| % n >= 0 && Flatten(Deal(s, n)) == s[..|s| - |s| % n]
  {
    Quotient(|s|, n);
    SlicesCover(s, |s| / n, n);
  }

  /** A shuffle and deal hands out every validator once, but leaves length mod n of them out. */
  lemma DealLeavesOut<T>(validators: seq<T>, draws: seq<nat>, n: nat) returns (left: seq<T>)
    requires n > 0 && Draws(draws, |validators|)
    ensures multiset(Flatten(Deal(Shuffled(validators, draws), n))) + multiset(left) == multiset(validators)
    ensures |left| == |validators| % n
  {
    var s := Shuffled(validators, draws);
    ShuffledPermutes(validators, draws);
    DealCovers(s, n);
    var cut := |s| - |s| % n;
    left := s[cut..];
    SplitPermutes(s, cut);
  }
}
