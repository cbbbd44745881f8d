/**
 Which lists share a Merkle root (src/core/merkle.js).

 `buildTree` completes every odd level with its last node.  `Filled` is the list of leaves
 that this amounts to, on a full tree; it decides the root (`RootsAgreeExactly`), and so two
 lists of different lengths can share one.  For a digest that is not the free hash
 `RootBindsFilled` exhibits what else it takes.
 */
module MerkleRoots {
  import opened Arithmetic
  import opened Digests

  import opened Merkle

  // ---------- the full tree ----------

  /** The number of levels above n leaves. */
  function Height(n: nat): nat {
    if n <= 1 then 0 else 1 + Height((n + 1) / 2)
  }

  /** The position whose leaf stands at place k of the full tree over n leaves. */
  function Source(n: nat, k: nat): (i: nat)
    requires n > 0 && k < Pow2(Height(n))
    ensures i < n
  {
    if n == 1 then 0
    else
      var j := Source((n + 1) / 2, k / 2);
      if k % 2 == 1 && 2 * j + 1 < n then 2 * j + 1 else 2 * j
  }

  /** The leaves of the full tree. */
  function Filled<T>(s: seq<T>): (f: seq<T>)
    ensures |f| == if s == [] then 0 else Pow2(Height(|s|))
  {
    if s == [] then []
    else seq(Pow2(Height(|s|)), k requires 0 <= k < Pow2(Height(|s|)) => s[Source(|s|, k)])
  }

  lemma SourcesPaired(n: nat, k: nat)
    requires n > 1 && k < Pow2(Height((n + 1) / 2))
    ensures var j := Source((n + 1) / 2, k);
            2 * k + 1 < Pow2(Height(n)) && 2 * j < n && Source(n, 2 * k) == 2 * j &&
            Source(n, 2 * k + 1) == if 2 * j + 1 < n then 2 * j + 1 else 2 * j
  {
    assert (2 * k + 1) / 2 == k && (2 * k + 1) % 2 == 1 && (2 * k) / 2 == k && (2 * k) % 2 == 0;
  }

  lemma FilledAt<T>(s: seq<T>, k: nat, i: nat)
    requires s != [] && k < Pow2(Height(|s|)) && i == Source(|s|, k)
    ensures k < |Filled(s)| && Filled(s)[k] == s[i]
  {
  }

  /** A pair of the full tree is a pair of the list. */
  lemma PairFilled<T>(level: seq<T>, m: nat, k: nat, j: nat)
    requires |level| > 1 && m == (|level| + 1) / 2 && k < Pow2(Height(m)) && j == Source(m, k)
    ensures var full := Filled(level);
            2 * k < |full| && 2 * j < |level| &&
            full[2 * k] == level[2 * j] && Partner(full, 2 * k) == Partner(level, 2 * j)
  {
    SourcesPaired(|level|, k);
    var full, right := Filled(level), if 2 * j + 1 < |level| then 2 * j + 1 else 2 * j;
    FilledAt(level, 2 * k, 2 * j);
    FilledAt(level, 2 * k + 1, right);
    PairOf(level, full, j, k, right);
  }

  lemma PairOf<T>(level: seq<T>, full: seq<T>, j: nat, k: nat, right: nat)
    requires 2 * j < |level| && 2 * k + 1 < |full| && right == if 2 * j + 1 < |level| then 2 * j + 1 else 2 * j
    requires full[2 * k + 1] == level[right]
    ensures Partner(full, 2 * k) == Partner(level, 2 * j)
  {
  }

  lemma FilledNext<H>(h: Hasher<H>, level: seq<H>)
    requires |level| > 1
    ensures NextLevel(h, Filled(level)) == Filled(NextLevel(h, level))
  {
    var next, full := NextLevel(h, level), Filled(level);
    var m := (|level| + 1) / 2;
    var p := Pow2(Height(m));
    assert |full| == 2 * p && (2 * p + 1) / 2 == p;
    forall k | 0 <= k < p
      ensures NextLevel(h, full)[k] == Filled(next)[k]
    {
      PairFilled(level, m, k, Source(m, k));
    }
  }

  lemma FilledOne<T>(s: seq<T>)
    requires |s| == 1
    ensures Filled(s) == s
  {
    assert Pow2(Height(1)) == 1;
  }

  lemma PowGrows(k: nat)
    requires k > 0
    ensures Pow2(k) > 1
  {
  }

  /** Whatever the hash, a list has the root of its full tree. */
  lemma {:induction false} FilledKeepsRoot<H>(h: Hasher<H>, level: seq<H>)
    requires level != []
    ensures Root(h, Filled(level)) == Root(h, level)
    decreases |level|
  {
    if |level| == 1 {
      FilledOne(level);
    } else {
      FilledNext(h, level);
      PowGrows(Height(|level|));
      FilledKeepsRoot(h, NextLevel(h, level));
    }
  }

  lemma LeavesFilled<H>(h: Hasher<H>, data: seq<string>)
    ensures Leaves(h, Filled(data)) == Filled(Leaves(h, data))
  {
  }

  /** Every item is somewhere on the full tree, an unrepeated list in order. */
  lemma {:induction false} SourceReaches(n: nat, i: nat) returns (k: nat)
    requires i < n
    ensures k < Pow2(Height(n)) && Source(n, k) == i
  {
    if n == 1 {
      k := 0;
    } else {
      var j := SourceReaches((n + 1) / 2, i / 2);
      k := 2 * j + i % 2;
      assert k / 2 == j && k % 2 == i % 2;
    }
  }

  /** So lists of one length with the same full tree are equal. */
  lemma FilledInjective<T>(a: seq<T>, b: seq<T>)
    requires |a| == |b| && Filled(a) == Filled(b)
    ensures a == b
  {
    forall i | 0 <= i < |a|
      ensures a[i] == b[i]
    {
      var k := SourceReaches(|a|, i);
      assert Filled(a)[k] == a[i] && Filled(b)[k] == b[i];
    }
  }

  // ---------- the free hash ----------

  function Depth(t: Term): nat {
    match t
    case Leaf(_) => 0
    case Node(l, _) => 1 + Depth(l)
  }

  /** The height can be read off the root. */
  lemma {:induction false} RootDepth(level: seq<Term>, d: nat)
    requires level != [] && forall i :: 0 <= i < |level| ==> Depth(level[i]) == d
    ensures Depth(Root(FREE, level)) == d + Height(|level|)
    decreases |level|
  {
    if |level| > 1 {
      RootDepth(NextLevel(FREE, level), d + 1);
    }
  }

  lemma {:induction false} FreeRootBinds(a: seq<Term>, b: seq<Term>)
    requires |a| == |b| > 0 && Root(FREE, a) == Root(FREE, b)
    ensures a == b
    decreases |a|
  {
    if |a| > 1 {
      var a', b' := NextLevel(FREE, a), NextLevel(FREE, b);
      FreeRootBinds(a', b');
      forall i | 0 <= i < |a|
        ensures a[i] == b[i]
      {
        assert a'[i / 2] == Node(a[2 * (i / 2)], Partner(a, 2 * (i / 2)));
        assert b'[i / 2] == Node(b[2 * (i / 2)], Partner(b, 2 * (i / 2)));
      }
    }
  }

  lemma {:induction false} HeightOfFull(k: nat)
    ensures Height(Pow2(k)) == k
  {
    if k > 0 {
      HeightOfFull(k - 1);
      assert (2 * Pow2(k - 1) + 1) / 2 == Pow2(k - 1);
    }
  }

  /** At the same height, the same item at every place. */
  ghost predicate SamePlaces(a: seq<string>, b: seq<string>)
    requires a != [] && b != []
  {
    Height(|a|) == Height(|b|) &&
    forall k :: 0 <= k < Pow2(Height(|a|)) ==> a[Source(|a|, k)] == b[Source(|b|, k)]
  }

  lemma FilledPlaceByPlace(a: seq<string>, b: seq<string>)
    requires a != [] && b != []
    ensures Filled(a) == Filled(b) <==> SamePlaces(a, b)
  {
    if Filled(a) == Filled(b) {
      HeightOfFull(Height(|a|));
      HeightOfFull(Height(|b|));
      forall k | 0 <= k < Pow2(Height(|a|))
        ensures a[Source(|a|, k)] == b[Source(|b|, k)]
      {
        assert Filled(a)[k] == Filled(b)[k];
      }
    }
  }

  lemma FreeLeavesBind(a: seq<string>, b: seq<string>)
    requires Leaves(FREE, a) == Leaves(FREE, b)
    ensures a == b
  {
    assert |a| == |Leaves(FREE, a)| == |b|;
    forall k | 0 <= k < |a|
      ensures a[k] == b[k]
    {
      assert Leaves(FREE, a)[k] == Leaf(a[k]) && Leaves(FREE, b)[k] == Leaf(b[k]);
    }
  }

  lemma SharedRootBinds(a: seq<string>, b: seq<string>)
    requires a != [] && b != [] && Root(FREE, Leaves(FREE, a)) == Root(FREE, Leaves(FREE, b))
    ensures Filled(a) == Filled(b)
  {
    var la, lb := Leaves(FREE, a), Leaves(FREE, b);
    RootDepth(la, 0);
    RootDepth(lb, 0);
    FilledKeepsRoot(FREE, la);
    FilledKeepsRoot(FREE, lb);
    FreeRootBinds(Filled(la), Filled(lb));
    LeavesFilled(FREE, a);
    LeavesFilled(FREE, b);
    FreeLeavesBind(Filled(a), Filled(b));
  }

  /** Another list with the same full tree has the same root under every hash. */
  lemma SameFilledSameRoot<H>(h: Hasher<H>, a: seq<string>, b: seq<string>)
    requires a != [] && b != [] && Filled(a) == Filled(b)
    ensures Root(h, Leaves(h, a)) == Root(h, Leaves(h, b))
  {
    FilledKeepsRoot(h, Leaves(h, a));
    FilledKeepsRoot(h, Leaves(h, b));
    LeavesFilled(h, a);
    LeavesFilled(h, b);
  }

  /** Under the free hash two lists have one root just when their full trees have the same
      item at every place. */
  lemma RootsAgreeExactly(a: seq<string>, b: seq<string>)
    requires a != [] && b != []
    ensures Root(FREE, Leaves(FREE, a)) == Root(FREE, Leaves(FREE, b)) <==> SamePlaces(a, b)
  {
    FilledPlaceByPlace(a, b);
    if Root(FREE, Leaves(FREE, a)) == Root(FREE, Leaves(FREE, b)) {
      SharedRootBinds(a, b);
    }
    if Filled(a) == Filled(b) {
      SameFilledSameRoot(FREE, a, b);
    }
  }

  // ---------- a digest of 64 characters ----------

  /** The strings hashed for the next level. */
  function Pairs(level: seq<string>): set<string> {
    set i | 0 <= i < (|level| + 1) / 2 :: level[2 * i] + Partner(level, 2 * i)
  }

  lemma PairsFilled(level: seq<string>)
    requires |level| > 1
    ensures Pairs(Filled(level)) == Pairs(level)
  {
    var full, m := Filled(level), (|level| + 1) / 2;
    assert |full| == 2 * Pow2(Height(m));
    forall x | x in Pairs(full)
      ensures x in Pairs(level)
    {
      var k :| 0 <= k < (|full| + 1) / 2 && x == full[2 * k] + Partner(full, 2 * k);
      PairFilled(level, m, k, Source(m, k));
      assert x == level[2 * Source(m, k)] + Partner(level, 2 * Source(m, k));
    }
    forall x | x in Pairs(level)
      ensures x in Pairs(full)
    {
      var j :| 0 <= j < m && x == level[2 * j] + Partner(level, 2 * j);
      var k := SourceReaches(m, j);
      PairFilled(level, m, k, j);
    }
  }

  /** The full tree hashes no other strings. */
  lemma {:induction false} FilledNodeInputs(sha: string -> string, level: seq<string>)
    ensures NodeInputs(sha, Filled(level)) == NodeInputs(sha, level)
    decreases |level|
  {
    if |level| == 1 {
      FilledOne(level);
    } else if |level| > 1 {
      FilledNext(Sha(sha), level);
      FilledNodeInputs(sha, NextLevel(Sha(sha), level));
      PowGrows(Height(|level|));
      PairsFilled(level);
      assert NodeInputs(sha, level) == Pairs(level) + NodeInputs(sha, NextLevel(Sha(sha), level));
    }
  }

  lemma FilledTreeInputs(sha: string -> string, data: seq<string>)
    ensures TreeInputs(sha, Filled(data)) == TreeInputs(sha, data)
  {
    LeavesFilled(Sha(sha), data);
    FilledNodeInputs(sha, Leaves(Sha(sha), data));
    forall i | 0 <= i < |data|
      ensures data[i] in Filled(data)
    {
      var k := SourceReaches(|data|, i);
      assert Filled(data)[k] == data[i];
    }
  }

  /** An item of one list is a string hashed for a node above the other. */
  ghost predicate Confused(sha: string -> string, a: seq<string>, b: seq<string>) {
    exists x :: x in a && x in NodeInputs(sha, Leaves(Sha(sha), b))
  }

  /** The level of b that stands as high under the root as a level of height `height`. */
  lemma {:induction false} LevelAtHeight(sha: string -> string, b: seq<string>, height: nat)
    returns (level: seq<string>)
    requires Width64(sha) && b != [] && height < Height(|b|) && |b| == Pow2(Height(|b|))
    ensures |level| == Pow2(height) && AllWide(level) && Root(Sha(sha), level) == Root(Sha(sha), b)
    ensures NodeInputs(sha, level) <= NodeInputs(sha, b)
    ensures exists x :: x in NodeInputs(sha, b) && level[0] == sha(x)
    decreases |b|
  {
    var next := NextLevel(Sha(sha), b);
    assert |next| == Pow2(Height(|next|));
    if height + 1 == Height(|b|) {
      level := next;
      NextLevelWide(sha, b);
      PairHashed(sha, b, 0);
    } else {
      level := LevelAtHeight(sha, next, height);
      var x :| x in NodeInputs(sha, next) && level[0] == sha(x);
      assert x in NodeInputs(sha, b);
    }
  }

  /** With the lower tree first: a leaf of it is as high as a node of the other. */
  lemma HeightsDiffer(sha: string -> string, a: seq<string>, b: seq<string>)
    requires Width64(sha) && a != [] && b != [] && Height(|a|) < Height(|b|)
    requires Root(Sha(sha), Leaves(Sha(sha), a)) == Root(Sha(sha), Leaves(Sha(sha), b))
    ensures Collision(sha, TreeInputs(sha, a), TreeInputs(sha, b)) || Confused(sha, a, b)
  {
    var la, lb := Leaves(Sha(sha), a), Leaves(Sha(sha), b);
    var fa, fb := Filled(la), Filled(lb);
    FilledKeepsRoot(Sha(sha), la);
    FilledKeepsRoot(Sha(sha), lb);
    FilledNodeInputs(sha, la);
    FilledNodeInputs(sha, lb);
    HeightOfFull(Height(|b|));
    var level := LevelAtHeight(sha, fb, Height(|a|));
    RootBindsLeaves(sha, fa, level);
    if fa == level {
      var x :| x in NodeInputs(sha, fb) && level[0] == sha(x);
      var y := a[Source(|a|, 0)];
      assert fa[0] == la[Source(|a|, 0)] == sha(y);
      assert y in TreeInputs(sha, a) && x in TreeInputs(sha, b);
    } else {
      var x, y :| x in NodeInputs(sha, fa) && y in NodeInputs(sha, level) && x != y && sha(x) == sha(y);
      assert x in TreeInputs(sha, a) && y in TreeInputs(sha, b);
    }
  }

  /** Lists of any lengths with one root have the same full tree, or building the two trees
      hashed different strings to one digest, or an item of one list is the concatenation
      of two digests of the other's tree. */
  lemma RootBindsFilled(sha: string -> string, a: seq<string>, b: seq<string>)
    requires Width64(sha) && a != [] && b != []
    requires Root(Sha(sha), Leaves(Sha(sha), a)) == Root(Sha(sha), Leaves(Sha(sha), b))
    ensures Filled(a) == Filled(b) || Collision(sha, TreeInputs(sha, a), TreeInputs(sha, b)) ||
            Confused(sha, a, b) || Confused(sha, b, a)
  {
    if Height(|a|) == Height(|b|) {
      LeavesFilled(Sha(sha), a);
      LeavesFilled(Sha(sha), b);
      FilledKeepsRoot(Sha(sha), Leaves(Sha(sha), a));
      FilledKeepsRoot(Sha(sha), Leaves(Sha(sha), b));
      FilledTreeInputs(sha, a);
      FilledTreeInputs(sha, b);
      RootBindsData(sha, Filled(a), Filled(b));
    } else if Height(|a|) < Height(|b|) {
      HeightsDiffer(sha, a, b);
    } else {
      HeightsDiffer(sha, b, a);
      if Collision(sha, TreeInputs(sha, b), TreeInputs(sha, a)) {
        var x, y :| x in TreeInputs(sha, b) && y in TreeInputs(sha, a) && x != y && sha(x) == sha(y);
        assert y in TreeInputs(sha, a) && x in TreeInputs(sha, b) && y != x && sha(y) == sha(x);
      }
    }
  }
}
