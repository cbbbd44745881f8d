/**
 Merkle trees (src/core/merkle.js).

 The hash is a parameter.  `buildTree` pairs an unpaired last node with itself, while
 `getProof` leaves that step out; `OwnProofAcceptedExactly` says for which positions the
 tree accepts the proof it hands out, and `AllPositionsExactly` that this is every
 position just when the number of items is a power of two.  `RootBindsData` and
 `ProofBindsLeaf` are the binding properties, with a collision extracted from the strings
 that were actually hashed.

 An item is the string the source hashes for it: itself, or its JSON text.
 */
module Merkle {
  import opened Digests
  import opened Sequences
  import opened Wrappers

  datatype Hasher<!H> = Hasher(leaf: string -> H, node: (H, H) -> H)

  /** A proof step; a missing (or empty, hence falsy) side is `None`. */
  datatype ProofStep<H> = ProofStep(left: Option<H>, right: Option<H>)

  // ---------- levels and root ----------

  function Leaves<H>(h: Hasher<H>, data: seq<string>): seq<H> {
    seq(|data|, i requires 0 <= i < |data| => h.leaf(data[i]))
  }

  /** The right partner of the node at an even index: its neighbour, or itself. */
  function Partner<H>(level: seq<H>, i: nat): H
    requires i < |level|
  {
    if i + 1 < |level| then level[i + 1] else level[i]
  }

  function NextLevel<H>(h: Hasher<H>, level: seq<H>): (next: seq<H>)
    ensures |next| == (|level| + 1) / 2
  {
    seq((|level| + 1) / 2, i requires 0 <= i < (|level| + 1) / 2 => h.node(level[2 * i], Partner(level, 2 * i)))
  }

  function Levels<H>(h: Hasher<H>, level: seq<H>): seq<seq<H>>
    decreases |level|
  {
    if |level| <= 1 then [level] else [level] + Levels(h, NextLevel(h, level))
  }

  function Root<H>(h: Hasher<H>, level: seq<H>): H
    requires level != []
    decreases |level|
  {
    if |level| == 1 then level[0] else Root(h, NextLevel(h, level))
  }

  // ---------- proofs ----------

  /** The siblings on the way up from index i, without the levels where there is none. */
  function ProofFrom<H>(h: Hasher<H>, level: seq<H>, i: nat): seq<ProofStep<H>>
    requires i < |level|
    decreases |level|
  {
    if |level| == 1 then []
    else
      var rest := ProofFrom(h, NextLevel(h, level), i / 2);
      if i % 2 == 1 then [ProofStep(Some(level[i - 1]), None)] + rest
      else if i + 1 < |level| then [ProofStep(None, Some(level[i + 1]))] + rest
      else rest
  }

  function Climb<H>(h: Hasher<H>, hash: H, step: ProofStep<H>): H {
    if step.left.Some? then h.node(step.left.value, hash)
    else if step.right.Some? then h.node(hash, step.right.value)
    else hash
  }

  function Fold<H>(h: Hasher<H>, hash: H, proof: seq<ProofStep<H>>): H
    decreases |proof|
  {
    if proof == [] then hash else Fold(h, Climb(h, hash, proof[0]), proof[1..])
  }

  // ---------- which positions a tree can prove ----------

  /** On no level is index i the unpaired last one of n. */
  predicate Paired(n: nat, i: nat) {
    n <= 1 || ((i % 2 == 1 || i + 1 < n) && Paired((n + 1) / 2, i / 2))
  }

  /** Whatever the hash, a paired position's proof leads to the root. */
  lemma {:induction false} PairedProofFolds<H>(h: Hasher<H>, level: seq<H>, i: nat)
    requires i < |level| && Paired(|level|, i)
    ensures Fold(h, level[i], ProofFrom(h, level, i)) == Root(h, level)
    decreases |level|
  {
    if |level| > 1 {
      var next := NextLevel(h, level);
      assert next[i / 2] == h.node(level[2 * (i / 2)], Partner(level, 2 * (i / 2)));
      PairedProofFolds(h, next, i / 2);
    }
  }

  /** The hash's values can be measured so that a node outweighs its two parts. */
  ghost predicate Measures<H(!new)>(h: Hasher<H>, size: H -> nat) {
    forall l, r :: size(h.node(l, r)) == size(l) + size(r) + 1
  }

  /** The hash after the proof's step on the lowest level, if it has one there. */
  function Climbed<H>(h: Hasher<H>, level: seq<H>, i: nat, hash: H): H
    requires i < |level|
  {
    if i % 2 == 1 then h.node(level[i - 1], hash)
    else if i + 1 < |level| then h.node(hash, level[i + 1])
    else hash
  }

  lemma FoldClimbs<H>(h: Hasher<H>, level: seq<H>, i: nat, hash: H)
    requires i < |level| && |level| > 1
    ensures Fold(h, hash, ProofFrom(h, level, i)) ==
            Fold(h, Climbed(h, level, i, hash), ProofFrom(h, NextLevel(h, level), i / 2))
  {
  }

  lemma ClimbFallsShort<H(!new)>(h: Hasher<H>, size: H -> nat, level: seq<H>, i: nat, hash: H)
    requires Measures(h, size) && i < |level| && size(hash) <= size(level[i])
    ensures var climbed, node := size(Climbed(h, level, i, hash)), size(NextLevel(h, level)[i / 2]);
            climbed <= node && (size(hash) < size(level[i]) || (i % 2 == 0 && i + 1 == |level|) ==> climbed < node)
  {
    assert NextLevel(h, level)[i / 2] == h.node(level[2 * (i / 2)], Partner(level, 2 * (i / 2)));
  }

  /** A lighter start, or a skipped step, ends below the root for good. */
  lemma {:induction false} FoldFallsShort<H(!new)>(h: Hasher<H>, size: H -> nat, level: seq<H>, i: nat, hash: H)
    requires Measures(h, size) && i < |level| && size(hash) <= size(level[i])
    ensures var folded, root := size(Fold(h, hash, ProofFrom(h, level, i))), size(Root(h, level));
            folded <= root && (size(hash) < size(level[i]) || !Paired(|level|, i) ==> folded < root)
    decreases |level|
  {
    if |level| > 1 {
      ClimbFallsShort(h, size, level, i, hash);
      FoldClimbs(h, level, i, hash);
      FoldFallsShort(h, size, NextLevel(h, level), i / 2, Climbed(h, level, i, hash));
    }
  }

  /** The free hash: nothing but its inputs. */
  datatype Term = Leaf(text: string) | Node(left: Term, right: Term)

  function Size(t: Term): nat {
    match t
    case Leaf(_) => 1
    case Node(l, r) => Size(l) + Size(r) + 1
  }

  const FREE: Hasher<Term> := Hasher((text: string) => Leaf(text), (l: Term, r: Term) => Node(l, r))

  /** `verify` on the proof that `getProof` returned for a member of the list. */
  predicate OwnProofAccepted<H(==)>(h: Hasher<H>, data: seq<string>, item: string)
    requires item in data
  {
    var leaves := Leaves(h, data);
    assert leaves[IndexOf(data, item)] == h.leaf(item);
    Fold(h, h.leaf(item), ProofFrom(h, leaves, IndexOf(leaves, h.leaf(item)))) == Root(h, leaves)
  }

  /** Any hash: the proof of a paired position is accepted. */
  lemma OwnProofAcceptedWhenPaired<H>(h: Hasher<H>, data: seq<string>, item: string)
    requires item in data && Paired(|data|, IndexOf(Leaves(h, data), h.leaf(item)))
    ensures OwnProofAccepted(h, data, item)
  {
    var leaves := Leaves(h, data);
    assert leaves[IndexOf(data, item)] == h.leaf(item);
    PairedProofFolds(h, leaves, IndexOf(leaves, h.leaf(item)));
  }

  /** The free hash: it is accepted exactly then. */
  lemma OwnProofAcceptedExactly(data: seq<string>, item: string)
    requires item in data
    ensures OwnProofAccepted(FREE, data, item) <==> Paired(|data|, IndexOf(data, item))
  {
    var leaves := Leaves(FREE, data);
    var i := IndexOf(data, item);
    assert leaves[i] == Leaf(item);
    SameIndex(data, item);
    if Paired(|data|, i) {
      PairedProofFolds(FREE, leaves, i);
    } else {
      FoldFallsShort(FREE, Size, leaves, i, Leaf(item));
    }
  }

  /** The third of three is unpaired on the lowest level. */
  lemma ThirdOfThreeRejected(a: string, b: string, c: string)
    requires a != c && b != c
    ensures !OwnProofAccepted(FREE, [a, b, c], c)
  {
    var data := [a, b, c];
    assert data[1..] == [b, c] && [b, c][1..] == [c];
    assert IndexOf(data, c) == 2 && !Paired(3, 2);
    OwnProofAcceptedExactly(data, c);
  }

  lemma {:induction false} SameIndex(data: seq<string>, item: string)
    ensures IndexOf(Leaves(FREE, data), Leaf(item)) == IndexOf(data, item)
  {
    if data != [] {
      assert Leaves(FREE, data)[1..] == Leaves(FREE, data[1..]);
      SameIndex(data[1..], item);
    }
  }

  predicate PowerOfTwo(n: nat) {
    n == 1 || (n > 1 && n % 2 == 0 && PowerOfTwo(n / 2))
  }

  lemma {:induction false} PowerOfTwoPairsAll(n: nat, i: nat)
    requires PowerOfTwo(n) && i < n
    ensures Paired(n, i)
  {
    if n > 1 {
      PowerOfTwoPairsAll(n / 2, i / 2);
    }
  }

  /** The last position is the test case: it is paired only in a full tree. */
  lemma {:induction false} LastPairedOnlyInFullTree(n: nat)
    requires n > 0 && Paired(n, n - 1)
    ensures PowerOfTwo(n)
  {
    if n > 1 {
      LastPairedOnlyInFullTree((n + 1) / 2);
    }
  }

  ghost predicate AllPaired(n: nat) {
    forall i: nat :: i < n ==> Paired(n, i)
  }

  /** Every position can be proved just when the number of leaves is a power of two. */
  lemma AllPositionsExactly(n: nat)
    requires n > 0
    ensures AllPaired(n) <==> PowerOfTwo(n)
  {
    if PowerOfTwo(n) {
      forall i: nat | i < n
        ensures Paired(n, i)
      {
        PowerOfTwoPairsAll(n, i);
      }
    } else if AllPaired(n) {
      LastPairedOnlyInFullTree(n);
    }
  }

  // ---------- binding ----------

  /** A node hashes the concatenation of its children. */
  function Sha(sha: string -> string): Hasher<string> {
    Hasher(sha, (l: string, r: string) => sha(l + r))
  }

  /** Each node is the digest of its two children's text, the left one first; an unpaired last
      node goes in twice. */
  ghost predicate HashedPairs(sha: string -> string, level: seq<string>, next: seq<string>) {
    |next| == (|level| + 1) / 2 &&
    forall i :: 0 <= i < |next| ==>
      next[i] == sha(level[2 * i] + if 2 * i + 1 < |level| then level[2 * i + 1] else level[2 * i])
  }

  /** The items' digests are the leaves, and one node alone is the root. */
  lemma RootExactly(sha: string -> string, data: seq<string>, level: seq<string>, next: seq<string>)
    ensures forall i :: 0 <= i < |data| ==> Leaves(Sha(sha), data)[i] == sha(data[i])
    ensures |level| == 1 ==> Root(Sha(sha), level) == level[0]
    ensures |level| > 1 && HashedPairs(sha, level, next) ==> Root(Sha(sha), level) == Root(Sha(sha), next)
  {
    if |level| > 1 && HashedPairs(sha, level, next) {
      var hashed := NextLevel(Sha(sha), level);
      forall i | 0 <= i < |next|
        ensures hashed[i] == next[i]
      {
        assert hashed[i] == Sha(sha).node(level[2 * i], Partner(level, 2 * i));
      }
      assert hashed == next;
    }
  }

  /** A proof is read from the bottom: a left sibling goes before the hash, a right one after it. */
  lemma FoldExactly(sha: string -> string, hash: string, sibling: string, rest: seq<ProofStep<string>>)
    ensures Fold(Sha(sha), hash, []) == hash
    ensures Fold(Sha(sha), hash, [ProofStep(Some(sibling), None)] + rest) == Fold(Sha(sha), sha(sibling + hash), rest)
    ensures Fold(Sha(sha), hash, [ProofStep(None, Some(sibling))] + rest) == Fold(Sha(sha), sha(hash + sibling), rest)
    ensures Fold(Sha(sha), hash, [ProofStep(None, None)] + rest) == Fold(Sha(sha), hash, rest)
  {
    forall step: ProofStep<string>
      ensures Fold(Sha(sha), hash, [step] + rest) == Fold(Sha(sha), Climb(Sha(sha), hash, step), rest)
    {
      assert ([step] + rest)[1..] == rest;
    }
  }

  /** The strings hashed above a level. */
  function NodeInputs(sha: string -> string, level: seq<string>): set<string>
    decreases |level|
  {
    if |level| <= 1 then {}
    else (set i | 0 <= i < (|level| + 1) / 2 :: level[2 * i] + Partner(level, 2 * i))
         + NodeInputs(sha, NextLevel(Sha(sha), level))
  }

  /** Every string hashed to build the tree. */
  function TreeInputs(sha: string -> string, data: seq<string>): set<string> {
    (set x | x in data) + NodeInputs(sha, Leaves(Sha(sha), data))
  }

  ghost predicate Collision(sha: string -> string, xs: set<string>, ys: set<string>) {
    exists x, y :: x in xs && y in ys && x != y && sha(x) == sha(y)
  }

  ghost predicate AllWide(level: seq<string>) {
    forall i :: 0 <= i < |level| ==> |level[i]| == 64
  }

  lemma NextLevelWide(sha: string -> string, level: seq<string>)
    requires Width64(sha)
    ensures AllWide(NextLevel(Sha(sha), level))
  {
    var next := NextLevel(Sha(sha), level);
    forall i | 0 <= i < |next|
      ensures |next[i]| == 64
    {
      assert next[i] == sha(level[2 * i] + Partner(level, 2 * i));
    }
  }

  lemma {:induction false} RootBindsLeaves(sha: string -> string, a: seq<string>, b: seq<string>)
    requires Width64(sha) && AllWide(a) && AllWide(b)
    requires |a| == |b| > 0 && Root(Sha(sha), a) == Root(Sha(sha), b)
    ensures a == b || Collision(sha, NodeInputs(sha, a), NodeInputs(sha, b))
    decreases |a|
  {
    if |a| > 1 {
      var a', b' := NextLevel(Sha(sha), a), NextLevel(Sha(sha), b);
      NextLevelWide(sha, a);
      NextLevelWide(sha, b);
      RootBindsLeaves(sha, a', b');
      if a == b {
      } else if a' == b' {
        var k :| 0 <= k < |a| && a[k] != b[k];
        var x, y := LevelBinds(sha, a, b, k);
      } else {
        var x, y :| x in NodeInputs(sha, a') && y in NodeInputs(sha, b') && x != y && sha(x) == sha(y);
        assert x in NodeInputs(sha, a) && y in NodeInputs(sha, b);
      }
    }
  }

  lemma LevelBinds(sha: string -> string, a: seq<string>, b: seq<string>, k: nat) returns (x: string, y: string)
    requires AllWide(a) && AllWide(b) && |a| == |b| > 1 && k < |a| && a[k] != b[k]
    requires NextLevel(Sha(sha), a) == NextLevel(Sha(sha), b)
    ensures x in NodeInputs(sha, a) && y in NodeInputs(sha, b) && x != y && sha(x) == sha(y)
  {
    var i := 2 * (k / 2);
    x, y := a[i] + Partner(a, i), b[i] + Partner(b, i);
    PairHashed(sha, a, k / 2);
    PairHashed(sha, b, k / 2);
    HalvesEqual(a[i], Partner(a, i), b[i], Partner(b, i));
  }

  lemma PairHashed(sha: string -> string, level: seq<string>, i: nat)
    requires |level| > 1 && 2 * i < |level|
    ensures var x := level[2 * i] + Partner(level, 2 * i);
            x in NodeInputs(sha, level) && NextLevel(Sha(sha), level)[i] == sha(x)
  {
  }

  lemma HalvesEqual(a: string, b: string, c: string, d: string)
    requires |a| == |c|
    ensures a + b == c + d ==> a == c && b == d
  {
    if a + b == c + d {
      assert a == (a + b)[..|a|] && b == (a + b)[|a|..];
      assert c == (c + d)[..|c|] && d == (c + d)[|c|..];
    }
  }

  /** Two lists of the same length with the same root are equal, or building the two
      trees hashed two different strings to the same digest. */
  lemma RootBindsData(sha: string -> string, a: seq<string>, b: seq<string>)
    requires Width64(sha) && |a| == |b| > 0
    requires Root(Sha(sha), Leaves(Sha(sha), a)) == Root(Sha(sha), Leaves(Sha(sha), b))
    ensures a == b || Collision(sha, TreeInputs(sha, a), TreeInputs(sha, b))
  {
    var la, lb := Leaves(Sha(sha), a), Leaves(Sha(sha), b);
    RootBindsLeaves(sha, la, lb);
    if la == lb {
      if k :| 0 <= k < |a| && a[k] != b[k] {
        assert sha(a[k]) == la[k] == lb[k] == sha(b[k]);
        assert a[k] in TreeInputs(sha, a) && b[k] in TreeInputs(sha, b);
      }
    } else {
      var x, y :| x in NodeInputs(sha, la) && y in NodeInputs(sha, lb) && x != y && sha(x) == sha(y);
      assert x in TreeInputs(sha, a) && y in TreeInputs(sha, b);
    }
  }

  /** The length is not bound: repeating the last item of an odd list keeps the root. */
  lemma RepeatedLastKeepsRoot<H>(h: Hasher<H>, level: seq<H>)
    requires |level| % 2 == 1 && |level| >= 3
    ensures Root(h, level + [level[|level| - 1]]) == Root(h, level)
  {
    var longer := level + [level[|level| - 1]];
    assert (|longer| + 1) / 2 == (|level| + 1) / 2;
    forall i | 0 <= i < (|level| + 1) / 2
      ensures longer[2 * i] == level[2 * i] && Partner(longer, 2 * i) == Partner(level, 2 * i)
    {
    }
    assert NextLevel(h, longer) == NextLevel(h, level);
  }

  /** The proof has one step per level of n nodes, on the side where position i's sibling is. */
  predicate FollowsPosition(n: nat, i: nat, proof: seq<ProofStep<string>>)
    decreases n
  {
    if n <= 1 then proof == []
    else
      proof != [] &&
      (if i % 2 == 1 then proof[0].left.Some? else proof[0].left.None? && proof[0].right.Some?) &&
      FollowsPosition((n + 1) / 2, i / 2, proof[1..])
  }

  function StepInput(hash: string, step: ProofStep<string>): string {
    if step.left.Some? then step.left.value + hash
    else if step.right.Some? then hash + step.right.value
    else hash
  }

  /** The strings hashed while checking a proof. */
  function ProofInputs(sha: string -> string, hash: string, proof: seq<ProofStep<string>>): set<string>
    decreases |proof|
  {
    if proof == [] then {}
    else {StepInput(hash, proof[0])} + ProofInputs(sha, Climb(Sha(sha), hash, proof[0]), proof[1..])
  }

  /** An accepted proof along position i shows the digest stored at i, or yields a
      collision between a string of the proof and one of the tree. */
  lemma {:induction false} ProofBindsLeaf(sha: string -> string, level: seq<string>, i: nat, hash: string,
                                             proof: seq<ProofStep<string>>)
    requires Width64(sha) && AllWide(level) && i < |level| && |hash| == 64
    requires FollowsPosition(|level|, i, proof)
    requires Fold(Sha(sha), hash, proof) == Root(Sha(sha), level)
    ensures hash == level[i] || Collision(sha, ProofInputs(sha, hash, proof), NodeInputs(sha, level))
    decreases |level|
  {
    if |level| > 1 {
      var next, climbed := NextLevel(Sha(sha), level), Climb(Sha(sha), hash, proof[0]);
      NextLevelWide(sha, level);
      ProofBindsLeaf(sha, next, i / 2, climbed, proof[1..]);
      if climbed == next[i / 2] {
        var k := 2 * (i / 2);
        var x, y := StepInput(hash, proof[0]), level[k] + Partner(level, k);
        PairHashed(sha, level, i / 2);
        assert x in ProofInputs(sha, hash, proof) && sha(x) == climbed;
        StepBinds(level, i, hash, proof[0]);
      } else {
        var x, y :| x in ProofInputs(sha, climbed, proof[1..]) && y in NodeInputs(sha, next) &&
                    x != y && sha(x) == sha(y);
        assert y in NodeInputs(sha, level) && x in ProofInputs(sha, hash, proof);
      }
    }
  }

  lemma StepBinds(level: seq<string>, i: nat, hash: string, step: ProofStep<string>)
    requires AllWide(level) && i < |level| && |level| > 1 && |hash| == 64
    requires if i % 2 == 1 then step.left.Some? else step.left.None? && step.right.Some?
    ensures StepInput(hash, step) == level[2 * (i / 2)] + Partner(level, 2 * (i / 2)) ==> hash == level[i]
  {
    var k := 2 * (i / 2);
    if StepInput(hash, step) == level[k] + Partner(level, k) {
      if i % 2 == 1 {
        assert |step.left.value + hash| == |level[k] + Partner(level, k)|;
        HalvesEqual(step.left.value, hash, level[k], Partner(level, k));
      } else {
        HalvesEqual(hash, step.right.value, level[k], Partner(level, k));
      }
    }
  }

  // ---------- the class ----------

  class MerkleTree<H(==)> {
    const hasher: Hasher<H>
    var data: seq<string>
    var tree: seq<seq<H>>
    var root: Option<H>

    ghost predicate Valid()
      reads this
    {
      if data == [] then root == None
      else tree == Levels(hasher, Leaves(hasher, data)) && root == Some(Root(hasher, Leaves(hasher, data)))
    }

    constructor (hasher: Hasher<H>, data: seq<string>)
      ensures Valid() && this.hasher == hasher && this.data == data
    {
      this.hasher := hasher;
      this.data := data;
      this.tree := [];
      this.root := None;
      new;
      if |data| > 0 {
        BuildTree();
      }
    }

    method BuildTree()
      modifies this`tree, this`root
      ensures Valid() && tree == Levels(hasher, Leaves(hasher, data))
    {
      var leaves := Leaves(hasher, data);
      tree := [leaves];
      ghost var done: seq<seq<H>>, current := [], leaves;
      while |tree[|tree| - 1]| > 1
        invariant tree == done + [current] && done + Levels(hasher, current) == Levels(hasher, leaves)
        invariant data != [] ==> current != [] && Root(hasher, current) == Root(hasher, leaves)
        decreases |tree[|tree| - 1]|
      {
        var nextLevel := PairUp(tree[|tree| - 1]);
        ghost var above := Levels(hasher, nextLevel);
        assert Levels(hasher, current) == [current] + above;
        assert done + ([current] + above) == (done + [current]) + above;
        done, current := done + [current], nextLevel;
        tree := tree + [nextLevel];
      }
      root := if tree[|tree| - 1] == [] then None else Some(tree[|tree| - 1][0]);
    }

    /** The inner loop of `buildTree`. */
    method PairUp(currentLevel: seq<H>) returns (nextLevel: seq<H>)
      ensures nextLevel == NextLevel(hasher, currentLevel)
    {
      nextLevel := [];
      var i := 0;
      while i < |currentLevel|
        invariant i % 2 == 0 && i <= |currentLevel| + 1
        invariant nextLevel == NextLevel(hasher, currentLevel)[..i / 2]
      {
        var left := currentLevel[i];
        var right := if i + 1 < |currentLevel| then currentLevel[i + 1] else left;
        ghost var k := i / 2;
        assert i == 2 * k && right == Partner(currentLevel, 2 * k);
        assert NextLevel(hasher, currentLevel)[k] == hasher.node(left, right);
        nextLevel := nextLevel + [hasher.node(left, right)];
        i := i + 2;
      }
    }

    method Add(item: string)
      requires Valid()
      modifies this
      ensures Valid() && data == old(data) + [item]
    {
      data := data + [item];
      BuildTree();
    }

    method AddAll(items: seq<string>)
      requires Valid()
      modifies this
      ensures Valid() && data == old(data) + items
    {
      data := data + items;
      BuildTree();
    }

    method Clear()
      modifies this
      ensures Valid() && data == []
    {
      data, tree, root := [], [], None;
    }

    method Verify(item: string, proof: seq<ProofStep<H>>) returns (valid: bool)
      ensures valid <==> root == Some(Fold(hasher, hasher.leaf(item), proof))
    {
      if root.None? {
        return false;
      }
      var currentHash := hasher.leaf(item);
      for k := 0 to |proof|
        invariant Fold(hasher, currentHash, proof[k..]) == Fold(hasher, hasher.leaf(item), proof)
      {
        var step := proof[k];
        if step.left.Some? {
          currentHash := hasher.node(step.left.value, currentHash);
        } else if step.right.Some? {
          currentHash := hasher.node(currentHash, step.right.value);
        }
      }
      return currentHash == root.value;
    }

    method GetProof(item: string) returns (proof: Option<seq<ProofStep<H>>>)
      requires Valid()
      ensures var leaves := Leaves(hasher, data);
              var i := IndexOf(leaves, hasher.leaf(item));
              proof == if i < |leaves| then Some(ProofFrom(hasher, leaves, i)) else None
    {
      var dataIndex := FindIndex(hasher.leaf(item));
      if dataIndex == |data| {
        return None;
      }
      var steps := ProofAt(dataIndex);
      return Some(steps);
    }

    /** `findIndex` over the hashes of the data; the length stands for -1. */
    method FindIndex(hash: H) returns (index: nat)
      ensures index == IndexOf(Leaves(hasher, data), hash) <= |data|
    {
      index := 0;
      ghost var leaves := Leaves(hasher, data);
      while index < |data| && hasher.leaf(data[index]) != hash
        invariant index <= |data| && IndexOf(leaves, hash) == index + IndexOf(leaves[index..], hash)
      {
        index := index + 1;
      }
    }

    /** The loop of `getProof` over the levels. */
    method ProofAt(dataIndex: nat) returns (steps: seq<ProofStep<H>>)
      requires Valid() && dataIndex < |data|
      ensures steps == ProofFrom(hasher, Leaves(hasher, data), dataIndex)
    {
      steps := [];
      ghost var proof := ProofFrom(hasher, Leaves(hasher, data), dataIndex);
      var index: nat := dataIndex;
      LevelsChain(hasher, Leaves(hasher, data));
      for level := 0 to |tree| - 1
        invariant index < |tree[level]|
        invariant steps + ProofFrom(hasher, tree[level], index) == proof
      {
        var step := StepAt(tree[level], index);
        steps := steps + step;
        index := index / 2;
      }
      assert ProofFrom(hasher, tree[|tree| - 1], index) == [];
    }

    /** The step of one level: none without a sibling. */
    method StepAt(currentLevel: seq<H>, index: nat) returns (steps: seq<ProofStep<H>>)
      requires index < |currentLevel| && |currentLevel| > 1
      ensures ProofFrom(hasher, currentLevel, index)
           == steps + ProofFrom(hasher, NextLevel(hasher, currentLevel), index / 2)
    {
      steps := [];
      var siblingIndex := if index % 2 == 0 then index + 1 else index - 1;
      if siblingIndex < |currentLevel| {
        var sibling := Some(currentLevel[siblingIndex]);
        steps := [if index % 2 == 0 then ProofStep(None, sibling) else ProofStep(sibling, None)];
      }
    }
  }

  lemma {:induction false} LevelsChain<H>(h: Hasher<H>, level: seq<H>)
    requires level != []
    ensures var levels := Levels(h, level);
            |levels| > 0 && levels[0] == level && |levels[|levels| - 1]| == 1 &&
            forall k :: 0 <= k < |levels| - 1 ==> |levels[k]| > 1 && levels[k + 1] == NextLevel(h, levels[k])
    decreases |level|
  {
    if |level| > 1 {
      LevelsChain(h, NextLevel(h, level));
    }
  }
}
