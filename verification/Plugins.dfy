/**
 The plugin system's dependency resolver and loader (src/runtime/plugins.js).

 `Resolve` is the depth-first search that pushes into one shared array; the main
 results say exactly when it returns normally and what the array then holds
 (`ResolveSucceedsExactly`, `ResolvedOrder`, `FailureWitness`).  The loader calls itself
 for every missing dependency; `PluginSystem.LoadPlugin` shows that this amounts to one
 pass over the resolved order, and `RunOrderExactly` which runs keep every loaded plugin
 after everything it depends on.
 */
module Plugins {
  import opened Runs
  import opened Sets
  import opened Wrappers

  type Id = string

  /** The registry: the dependency list of every registered id. */
  type Registry = map<Id, seq<Id>>

  datatype Failure =
    | MissingField(name: string)
    | InvalidId(id: Id)
    | InvalidVersion(version: string)
    | NotFound(id: Id)
    | Circular(cycle: seq<Id>)
    | EntryFailed(id: Id)
    | NotLoaded(id: Id)
    | HookFailed(id: Id)

  /** The shared array as a call leaves it, and the error it threw, if any. */
  datatype Outcome = Outcome(ids: seq<Id>, failure: Option<Failure>)

  // ---------- the depth-first search ----------

  function Elements(s: seq<Id>): set<Id> {
    set x | x in s
  }

  function Resolve(g: Registry, id: Id, resolved: seq<Id>, path: seq<Id>): Outcome
    decreases |g.Keys - Elements(path)|, 0, 0
  {
    if id !in g then
      Outcome(resolved, Some(NotFound(id)))
    else if id in path then
      Outcome(resolved, Some(Circular(path + [id])))
    else if id in resolved then
      Outcome(resolved, None)
    else
      PathShrinks(g, id, path);
      var deps := ResolveEach(g, g[id], resolved, path + [id]);
      if deps.failure.Some? then deps else Outcome(deps.ids + [id], None)
  }

  function ResolveEach(g: Registry, deps: seq<Id>, resolved: seq<Id>, path: seq<Id>): Outcome
    decreases |g.Keys - Elements(path)|, 1, |deps|
  {
    if deps == [] then
      Outcome(resolved, None)
    else
      var first := Resolve(g, deps[0], resolved, path);
      if first.failure.Some? then first else ResolveEach(g, deps[1..], first.ids, path)
  }

  lemma PathShrinks(g: Registry, id: Id, path: seq<Id>)
    requires id in g && id !in path
    ensures |g.Keys - Elements(path + [id])| < |g.Keys - Elements(path)|
  {
    var before, after := g.Keys - Elements(path), g.Keys - Elements(path + [id]);
    assert id in before;
    assert after <= before - {id};
    SubsetSize(after, before - {id});
  }

  // ---------- what the search is about ----------

  ghost predicate IsWalk(g: Registry, walk: seq<Id>) {
    |walk| > 0 &&
    forall i :: 0 <= i < |walk| - 1 ==> walk[i] in g && walk[i + 1] in g[walk[i]]
  }

  ghost predicate Joins(g: Registry, walk: seq<Id>, from: Id, to: Id) {
    IsWalk(g, walk) && walk[0] == from && walk[|walk| - 1] == to
  }

  ghost predicate Reaches(g: Registry, from: Id, to: Id) {
    exists walk :: Joins(g, walk, from, to)
  }

  ghost predicate OnCycle(g: Registry, id: Id) {
    exists walk :: Joins(g, walk, id, id) && |walk| > 1
  }

  /** Every id is registered, listed once, and listed after all of its dependencies. */
  ghost predicate DependencyOrder(g: Registry, ids: seq<Id>) {
    ids == [] ||
    var init, last := ids[..|ids| - 1], ids[|ids| - 1];
    DependencyOrder(g, init) && last in g && last !in init && forall d :: d in g[last] ==> d in init
  }

  lemma ReachesSelf(g: Registry, id: Id)
    ensures Reaches(g, id, id)
  {
    assert Joins(g, [id], id, id);
  }

  lemma ReachesThrough(g: Registry, id: Id, dep: Id, to: Id)
    requires id in g && dep in g[id] && Reaches(g, dep, to)
    ensures Reaches(g, id, to)
  {
    var walk :| Joins(g, walk, dep, to);
    assert Joins(g, [id] + walk, id, to);
  }

  lemma {:induction false} OrderHasDistinctIds(g: Registry, ids: seq<Id>)
    requires DependencyOrder(g, ids)
    ensures |Elements(ids)| == |ids|
  {
    if ids != [] {
      var init, last := ids[..|ids| - 1], ids[|ids| - 1];
      OrderHasDistinctIds(g, init);
      assert Elements(ids) == Elements(init) + {last};
    }
  }

  lemma {:induction false} OrderClosed(g: Registry, ids: seq<Id>, id: Id)
    requires DependencyOrder(g, ids) && id in ids
    ensures id in g && forall d :: d in g[id] ==> d in ids
  {
    var init := ids[..|ids| - 1];
    if id in init {
      OrderClosed(g, init, id);
    }
  }

  /** A walk that starts inside a dependency-ordered list stays inside it. */
  lemma {:induction false} WalkStaysInside(g: Registry, ids: seq<Id>, walk: seq<Id>)
    requires DependencyOrder(g, ids) && IsWalk(g, walk) && walk[0] in ids
    ensures walk[|walk| - 1] in ids
    decreases |walk|
  {
    if |walk| > 1 {
      OrderClosed(g, ids, walk[0]);
      assert walk[0 + 1] in g[walk[0]];
      WalkStaysInside(g, ids, walk[1..]);
    }
  }

  /** ... and moves strictly towards its front, so it cannot close a cycle. */
  lemma {:induction false} NoCycleInside(g: Registry, ids: seq<Id>, walk: seq<Id>)
    requires DependencyOrder(g, ids) && IsWalk(g, walk) && |walk| > 1 && walk[0] in ids
    ensures walk[|walk| - 1] != walk[0]
    decreases |ids|
  {
    var init, last := ids[..|ids| - 1], ids[|ids| - 1];
    if walk[0] == last {
      assert walk[0 + 1] in g[walk[0]];
      WalkStaysInside(g, init, walk[1..]);
    } else {
      NoCycleInside(g, init, walk);
    }
  }

  // ---------- what every call of the search keeps ----------

  ghost predicate CycleWitness(g: Registry, cycle: seq<Id>, start: nat, id: Id) {
    start < |cycle| && cycle[start] == id && IsWalk(g, cycle[start..]) &&
    cycle[|cycle| - 1] in cycle[..|cycle| - 1]
  }

  /** What a call adds to the array it was given, and what the error it throws is about;
      `owner` is the plugin that the call was made for. */
  ghost predicate Sound(g: Registry, owner: Id, resolved: seq<Id>, path: seq<Id>, o: Outcome) {
    resolved <= o.ids &&
    (forall x :: x in o.ids[|resolved|..] ==> x !in path && Reaches(g, owner, x)) &&
    (DependencyOrder(g, resolved) ==> DependencyOrder(g, o.ids)) &&
    (o.failure.Some? ==>
       match o.failure.value
       case NotFound(x) => x !in g && Reaches(g, owner, x)
       case Circular(cycle) => true
       case _ => false)
  }

  lemma {:induction false} ResolveSound(g: Registry, id: Id, resolved: seq<Id>, path: seq<Id>)
    ensures var o := Resolve(g, id, resolved, path);
            Sound(g, id, resolved, path, o) && (o.failure.None? ==> id in o.ids)
    decreases |g.Keys - Elements(path)|, 0, 0
  {
    ReachesSelf(g, id);
    if id in g && id !in path && id !in resolved {
      PathShrinks(g, id, path);
      var deps := ResolveEach(g, g[id], resolved, path + [id]);
      ResolveEachSound(g, id, g[id], resolved, path + [id]);
      if deps.failure.None? {
        var added := deps.ids[|resolved|..];
        assert deps.ids == resolved + added;
        assert id !in added;
        assert (deps.ids + [id])[|resolved|..] == added + [id];
      }
    }
  }

  lemma {:induction false} ResolveEachSound(g: Registry, owner: Id, deps: seq<Id>, resolved: seq<Id>, path: seq<Id>)
    requires owner in g && forall d :: d in deps ==> d in g[owner]
    ensures var o := ResolveEach(g, deps, resolved, path);
            Sound(g, owner, resolved, path, o) && (o.failure.None? ==> forall d :: d in deps ==> d in o.ids)
    decreases |g.Keys - Elements(path)|, 1, |deps|
  {
    if deps != [] {
      var first := Resolve(g, deps[0], resolved, path);
      ResolveSound(g, deps[0], resolved, path);
      forall x | Reaches(g, deps[0], x)
        ensures Reaches(g, owner, x)
      {
        ReachesThrough(g, owner, deps[0], x);
      }
      if first.failure.None? {
        ResolveEachSound(g, owner, deps[1..], first.ids, path);
        var o := ResolveEach(g, deps[1..], first.ids, path);
        assert o.ids[|resolved|..] == first.ids[|resolved|..] + o.ids[|first.ids|..];
      }
    }
  }

  /** A reported cycle really is one: the path followed so far, then a walk from the id. */
  lemma {:induction false} ResolveCycle(g: Registry, id: Id, resolved: seq<Id>, path: seq<Id>)
    ensures var o := Resolve(g, id, resolved, path);
            o.failure.Some? && o.failure.value.Circular? ==> CycleWitness(g, o.failure.value.cycle, |path|, id)
    decreases |g.Keys - Elements(path)|, 0, 0
  {
    if id in g && id in path {
      assert (path + [id])[|path|..] == [id];
      assert (path + [id])[..|path|] == path;
    } else if id in g && id !in resolved {
      PathShrinks(g, id, path);
      ResolveEachCycle(g, id, g[id], resolved, path);
    }
  }

  lemma {:induction false} ResolveEachCycle(g: Registry, owner: Id, deps: seq<Id>, resolved: seq<Id>, path: seq<Id>)
    requires owner in g && forall d :: d in deps ==> d in g[owner]
    ensures var o := ResolveEach(g, deps, resolved, path + [owner]);
            o.failure.Some? && o.failure.value.Circular? ==> CycleWitness(g, o.failure.value.cycle, |path|, owner)
    decreases |g.Keys - Elements(path + [owner])|, 1, |deps|
  {
    if deps != [] {
      var first := Resolve(g, deps[0], resolved, path + [owner]);
      ResolveCycle(g, deps[0], resolved, path + [owner]);
      ResolveKeepsPath(g, deps[0], resolved, path + [owner]);
      if first.failure.None? {
        ResolveEachCycle(g, owner, deps[1..], first.ids, path);
      }
    }
  }

  lemma {:induction false} ResolveKeepsPath(g: Registry, id: Id, resolved: seq<Id>, path: seq<Id>)
    ensures var o := Resolve(g, id, resolved, path);
            o.failure.Some? && o.failure.value.Circular? ==> path <= o.failure.value.cycle
    decreases |g.Keys - Elements(path)|, 0, 0
  {
    if id in g && id !in path && id !in resolved {
      PathShrinks(g, id, path);
      ResolveEachKeepsPath(g, g[id], resolved, path + [id]);
    }
  }

  lemma {:induction false} ResolveEachKeepsPath(g: Registry, deps: seq<Id>, resolved: seq<Id>, path: seq<Id>)
    ensures var o := ResolveEach(g, deps, resolved, path);
            o.failure.Some? && o.failure.value.Circular? ==> path <= o.failure.value.cycle
    decreases |g.Keys - Elements(path)|, 1, |deps|
  {
    if deps != [] {
      ResolveKeepsPath(g, deps[0], resolved, path);
      ResolveEachKeepsPath(g, deps[1..], Resolve(g, deps[0], resolved, path).ids, path);
    }
  }

  // ---------- the call a client makes ----------

  function ResolveFor(g: Registry, id: Id): Outcome {
    Resolve(g, id, [], [])
  }

  /** Everything reachable is registered and lies on no cycle. */
  ghost predicate Resolvable(g: Registry, id: Id) {
    forall x :: Reaches(g, id, x) ==> x in g && !OnCycle(g, x)
  }

  /** On success: exactly the reachable ids, each once and after its dependencies, the
      requested one last. */
  lemma ResolvedOrder(g: Registry, id: Id)
    requires ResolveFor(g, id).failure.None?
    ensures var ids := ResolveFor(g, id).ids;
            DependencyOrder(g, ids) && (forall x :: x in ids <==> Reaches(g, id, x)) &&
            |ids| > 0 && ids[|ids| - 1] == id
  {
    ResolveSound(g, id, [], []);
    var ids := ResolveFor(g, id).ids;
    forall x | Reaches(g, id, x)
      ensures x in ids
    {
      var walk :| Joins(g, walk, id, x);
      WalkStaysInside(g, ids, walk);
    }
    assert ids[0..] == ids;
  }

  /** On failure: an unregistered id that the plugin reaches, or a walk from the plugin
      that comes back to an id already on it. */
  lemma FailureWitness(g: Registry, id: Id)
    requires ResolveFor(g, id).failure.Some?
    ensures match ResolveFor(g, id).failure.value
            case NotFound(x) => x !in g && Reaches(g, id, x)
            case Circular(cycle) => IsWalk(g, cycle) && cycle[0] == id && cycle[|cycle| - 1] in cycle[..|cycle| - 1]
            case _ => false
  {
    ResolveSound(g, id, [], []);
    ResolveCycle(g, id, [], []);
    if ResolveFor(g, id).failure.value.Circular? {
      var cycle := ResolveFor(g, id).failure.value.cycle;
      assert cycle[0..] == cycle;
    }
  }

  /** The resolver returns normally exactly on the resolvable plugins. */
  lemma ResolveSucceedsExactly(g: Registry, id: Id)
    ensures ResolveFor(g, id).failure.None? <==> Resolvable(g, id)
  {
    if ResolveFor(g, id).failure.None? {
      ResolvedOrder(g, id);
      SuccessIsResolvable(g, id, ResolveFor(g, id).ids);
    } else {
      FailureWitness(g, id);
      if ResolveFor(g, id).failure.value.Circular? {
        RepeatIsCycle(g, ResolveFor(g, id).failure.value.cycle);
      }
    }
  }

  lemma SuccessIsResolvable(g: Registry, id: Id, ids: seq<Id>)
    requires DependencyOrder(g, ids) && forall x :: Reaches(g, id, x) ==> x in ids
    ensures Resolvable(g, id)
  {
    forall x | Reaches(g, id, x)
      ensures x in g && !OnCycle(g, x)
    {
      OrderClosed(g, ids, x);
      forall walk | Joins(g, walk, x, x)
        ensures |walk| <= 1
      {
        if |walk| > 1 {
          NoCycleInside(g, ids, walk);
        }
      }
    }
  }

  lemma RepeatIsCycle(g: Registry, walk: seq<Id>)
    requires IsWalk(g, walk) && walk[|walk| - 1] in walk[..|walk| - 1]
    ensures Reaches(g, walk[0], walk[|walk| - 1]) && OnCycle(g, walk[|walk| - 1])
  {
    assert Joins(g, walk, walk[0], walk[|walk| - 1]);
    var i :| 0 <= i < |walk| - 1 && walk[i] == walk[|walk| - 1];
    var back := walk[i..];
    assert Joins(g, back, walk[i], walk[i]);
  }

  /** Resolving a member of a resolved order succeeds and stays within its predecessors. */
  lemma ResolveMember(g: Registry, ids: seq<Id>, k: nat)
    requires DependencyOrder(g, ids) && k < |ids|
    ensures ResolveFor(g, ids[k]).failure.None?
    ensures var own := ResolveFor(g, ids[k]).ids;
            (forall x :: x in own ==> x in ids[..k + 1]) && 0 < |own| <= k + 1
    ensures var own := ResolveFor(g, ids[k]).ids; own[|own| - 1] == ids[k] && ids[k] !in own[..|own| - 1]
  {
    var id, prefix := ids[k], ids[..k + 1];
    OrderPrefix(g, ids, k + 1);
    forall x | Reaches(g, id, x)
      ensures x in prefix
    {
      var walk :| Joins(g, walk, id, x);
      WalkStaysInside(g, prefix, walk);
    }
    SuccessIsResolvable(g, id, prefix);
    ResolveSucceedsExactly(g, id);
    ResolvedOrder(g, id);
    var own := ResolveFor(g, id).ids;
    OrderHasDistinctIds(g, own);
    OrderHasDistinctIds(g, prefix);
    SubsetSize(Elements(own), Elements(prefix));
  }

  lemma {:induction false} OrderPrefix(g: Registry, ids: seq<Id>, n: nat)
    requires DependencyOrder(g, ids) && n <= |ids|
    ensures DependencyOrder(g, ids[..n])
    decreases |ids|
  {
    if n < |ids| {
      var init := ids[..|ids| - 1];
      OrderPrefix(g, init, n);
      assert init[..n] == ids[..n];
    } else {
      assert ids[..n] == ids;
    }
  }

  // ---------- loading ----------

  /** One pass: initialise what is missing, in the given order, stopping at an entry point
      that fails to load. */
  function LoadEach(order: seq<Id>, loaded: seq<Id>, loadable: set<Id>): Outcome {
    if order == [] then
      Outcome(loaded, None)
    else if order[0] in loaded then
      LoadEach(order[1..], loaded, loadable)
    else if order[0] in loadable then
      LoadEach(order[1..], loaded + [order[0]], loadable)
    else
      Outcome(loaded, Some(EntryFailed(order[0])))
  }

  function Load(g: Registry, id: Id, loaded: seq<Id>, loadable: set<Id>): Outcome {
    if id !in g then
      Outcome(loaded, Some(NotFound(id)))
    else if id in loaded then
      Outcome(loaded, None)
    else
      var r := ResolveFor(g, id);
      if r.failure.Some? then Outcome(loaded, r.failure) else LoadEach(r.ids, loaded, loadable)
  }

  lemma {:induction false} LoadEachSplit(a: seq<Id>, b: seq<Id>, loaded: seq<Id>, loadable: set<Id>)
    ensures var first := LoadEach(a, loaded, loadable);
            LoadEach(a + b, loaded, loadable)
            == if first.failure.Some? then first else LoadEach(b, first.ids, loadable)
    decreases |a|
  {
    if a == [] {
      assert a + b == b;
    } else {
      assert (a + b)[1..] == a[1..] + b;
      var next := if a[0] in loaded then loaded else loaded + [a[0]];
      LoadEachSplit(a[1..], b, next, loadable);
    }
  }

  lemma LoadEachStep(order: seq<Id>, k: nat, start: seq<Id>, now: seq<Id>, loadable: set<Id>)
    requires k < |order| && LoadEach(order[..k], start, loadable) == Outcome(now, None)
    ensures var one := LoadEach([order[k]], now, loadable);
            LoadEach(order[..k + 1], start, loadable) == one &&
            (one.failure.Some? ==> LoadEach(order, start, loadable) == one)
  {
    assert order[..k + 1] == order[..k] + [order[k]];
    assert order == order[..k + 1] + order[k + 1..];
    LoadEachSplit(order[..k], [order[k]], start, loadable);
    LoadEachSplit(order[..k + 1], order[k + 1..], start, loadable);
  }

  lemma {:induction false} LoadEachLoads(order: seq<Id>, loaded: seq<Id>, loadable: set<Id>)
    ensures var o := LoadEach(order, loaded, loadable);
            loaded <= o.ids && (o.failure.None? ==> forall x :: x in order ==> x in o.ids) &&
            forall x :: x in o.ids ==> x in loaded || x in order
    ensures (forall x :: x in order ==> x in loaded) ==> LoadEach(order, loaded, loadable) == Outcome(loaded, None)
    decreases |order|
  {
    if order != [] {
      var next := if order[0] in loaded then loaded else loaded + [order[0]];
      assert order[0] in next && order == [order[0]] + order[1..];
      LoadEachLoads(order[1..], next, loadable);
    }
  }

  /** A successful load of a new plugin adds exactly what it reaches. */
  lemma LoadAddsReachable(g: Registry, id: Id, loaded: seq<Id>, loadable: set<Id>)
    requires id !in loaded && Load(g, id, loaded, loadable).failure.None?
    ensures forall x :: x in Load(g, id, loaded, loadable).ids <==> x in loaded || Reaches(g, id, x)
  {
    ResolvedOrder(g, id);
    LoadEachLoads(ResolveFor(g, id).ids, loaded, loadable);
  }

  lemma {:induction false} LoadEachFails(order: seq<Id>, loaded: seq<Id>, loadable: set<Id>, k: nat)
    requires k <= |order| && forall j :: 0 <= j < k ==> order[j] in loaded || order[j] in loadable
    requires k < |order| ==> order[k] !in loaded && order[k] !in loadable
    ensures var o := LoadEach(order, loaded, loadable);
            o.failure == (if k < |order| then Some(EntryFailed(order[k])) else None) &&
            forall x :: x in o.ids <==> x in loaded || x in order[..k]
    decreases |order|
  {
    if k > 0 {
      var next := if order[0] in loaded then loaded else loaded + [order[0]];
      assert order[..k] == [order[0]] + order[1..k] && order[1..k] == order[1..][..k - 1];
      LoadEachFails(order[1..], next, loadable, k - 1);
    }
  }

  /** An unregistered plugin is not found, and a dependency that does not resolve loads nothing.
      Otherwise loading stops at the first plugin in the order, here the k-th, that is neither
      loaded nor loadable, and what comes before it is loaded. */
  lemma LoadStopsExactly(g: Registry, id: Id, loaded: seq<Id>, loadable: set<Id>, k: nat)
    requires id !in loaded
    ensures var resolved, o := ResolveFor(g, id), Load(g, id, loaded, loadable);
            if id !in g then o == Outcome(loaded, Some(NotFound(id)))
            else if resolved.failure.Some? then o == Outcome(loaded, resolved.failure)
            else
              var order := resolved.ids;
              k <= |order| && (forall j :: 0 <= j < k ==> order[j] in loaded || order[j] in loadable) &&
              (k < |order| ==> order[k] !in loaded && order[k] !in loadable) ==>
                o.failure == (if k < |order| then Some(EntryFailed(order[k])) else None) &&
                forall x :: x in o.ids <==> x in loaded || x in order[..k]
  {
    var order := ResolveFor(g, id).ids;
    if k <= |order| && (forall j :: 0 <= j < k ==> order[j] in loaded || order[j] in loadable) &&
       (k < |order| ==> order[k] !in loaded && order[k] !in loadable) {
      LoadEachFails(order, loaded, loadable, k);
    }
  }

  /** With all its dependencies loaded, loading a plugin adds just that plugin. */
  lemma LoadMember(g: Registry, ids: seq<Id>, k: nat, loaded: seq<Id>, loadable: set<Id>)
    requires DependencyOrder(g, ids) && k < |ids|
    requires ids[k] !in loaded && forall x :: x in ids[..k] ==> x in loaded
    ensures Load(g, ids[k], loaded, loadable) == LoadEach([ids[k]], loaded, loadable)
  {
    ResolveMember(g, ids, k);
    OrderPrefix(g, ids, k + 1);
    OrderClosed(g, ids[..k + 1], ids[k]);
    var own := ResolveFor(g, ids[k]).ids;
    var init := own[..|own| - 1];
    assert own == init + [ids[k]];
    assert ids[..k + 1] == ids[..k] + [ids[k]];
    forall x | x in init
      ensures x in loaded
    {
      assert x in own;
    }
    LoadEachSplit(init, [ids[k]], loaded, loadable);
    LoadEachLoads(init, loaded, loadable);
  }

  /** Loading in a dependency order on top of a dependency order. */
  lemma {:induction false} LoadEachKeepsOrder(g: Registry, done: seq<Id>, order: seq<Id>, loaded: seq<Id>,
                                              loadable: set<Id>)
    requires DependencyOrder(g, done + order) && DependencyOrder(g, loaded)
    requires forall x :: x in done ==> x in loaded
    ensures DependencyOrder(g, LoadEach(order, loaded, loadable).ids)
    decreases |order|
  {
    if order != [] {
      var id := order[0];
      assert done + order == (done + [id]) + order[1..];
      assert (done + order)[..|done| + 1] == done + [id];
      OrderPrefix(g, done + order, |done| + 1);
      assert (done + [id])[..|done|] == done;
      if id in loaded {
        LoadEachKeepsOrder(g, done + [id], order[1..], loaded, loadable);
      } else if id in loadable {
        LoadEachKeepsOrder(g, done + [id], order[1..], loaded + [id], loadable);
      }
    }
  }

  lemma LoadKeepsOrder(g: Registry, id: Id, loaded: seq<Id>, loadable: set<Id>)
    requires DependencyOrder(g, loaded)
    ensures DependencyOrder(g, Load(g, id, loaded, loadable).ids)
  {
    if ResolveFor(g, id).failure.None? {
      ResolvedOrder(g, id);
      var ids := ResolveFor(g, id).ids;
      assert [] + ids == ids;
      LoadEachKeepsOrder(g, [], ids, loaded, loadable);
    }
  }

  // ---------- the format of a registration ----------

  /** What a registration names; a missing field is the empty string. */
  datatype PluginInfo = PluginInfo(id: Id, name: string, version: string, description: string, dependencies: seq<Id>)

  predicate IsDigit(c: char) {
    '0' <= c <= '9'
  }

  /** The characters of an id: letters, digits, dots, underscores and hyphens. */
  predicate IsIdChar(c: char) {
    'a' <= c <= 'z' || 'A' <= c <= 'Z' || IsDigit(c) || c in "._-"
  }

  /** A nonempty stretch of digits. */
  predicate Number(v: string, start: nat, end: nat) {
    start < end <= |v| && forall i :: start <= i < end ==> IsDigit(v[i])
  }

  /** Three numbers, with the dots between them at i and j. */
  predicate VersionSplit(v: string, i: nat, j: nat) {
    i < j < |v| && v[i] == v[j] == '.' && Number(v, 0, i) && Number(v, i + 1, j) && Number(v, j + 1, |v|)
  }

  predicate IsVersion(v: string) {
    exists i: nat, j: nat :: i < |v| && j < |v| && VersionSplit(v, i, j)
  }

  predicate WellFormed(info: PluginInfo) {
    info.id != "" && info.name != "" && info.description != "" &&
    (forall i :: 0 <= i < |info.id| ==> IsIdChar(info.id[i])) && IsVersion(info.version)
  }

  ghost predicate Digits(s: string) {
    s != "" && forall i :: 0 <= i < |s| ==> '0' <= s[i] <= '9'
  }

  /** Three numbers joined with dots. */
  ghost predicate Joined(v: string, major: string, minor: string, patch: string) {
    Digits(major) && Digits(minor) && Digits(patch) && v == major + "." + minor + "." + patch
  }

  lemma NumberDigits(v: string, start: nat, end: nat)
    requires Number(v, start, end)
    ensures Digits(v[start..end])
  {
  }

  lemma SplitJoins(v: string, i: nat, j: nat)
    requires VersionSplit(v, i, j)
    ensures Joined(v, v[..i], v[i + 1..j], v[j + 1..])
  {
    assert v == v[..i] + [v[i]] + v[i + 1..j] + [v[j]] + v[j + 1..];
    NumberDigits(v, 0, i);
    NumberDigits(v, i + 1, j);
    NumberDigits(v, j + 1, |v|);
  }

  lemma JoinSplits(v: string, major: string, minor: string, patch: string)
    requires Joined(v, major, minor, patch)
    ensures VersionSplit(v, |major|, |major| + 1 + |minor|)
  {
    var i, j := |major|, |major| + 1 + |minor|;
    assert forall k :: 0 <= k < i ==> v[k] == major[k];
    assert forall k :: i + 1 <= k < j ==> v[k] == minor[k - i - 1];
    assert forall k :: j + 1 <= k < |v| ==> v[k] == patch[k - j - 1];
  }

  /** No field is missing, the id consists of letters, digits, dots, underscores and hyphens,
      and the version of three numbers joined with dots. */
  lemma WellFormedExactly(info: PluginInfo)
    ensures WellFormed(info) <==>
              info.id != "" && info.name != "" && info.description != "" &&
              (forall i :: 0 <= i < |info.id| ==>
                 'a' <= info.id[i] <= 'z' || 'A' <= info.id[i] <= 'Z' || '0' <= info.id[i] <= '9' ||
                 info.id[i] == '.' || info.id[i] == '_' || info.id[i] == '-') &&
              exists major, minor, patch :: Joined(info.version, major, minor, patch)
  {
    if i: nat, j: nat :| i < |info.version| && j < |info.version| && VersionSplit(info.version, i, j) {
      SplitJoins(info.version, i, j);
    }
    if major, minor, patch :| Joined(info.version, major, minor, patch) {
      JoinSplits(info.version, major, minor, patch);
    }
  }

  /** `validatePluginInfo`: the first complaint, if any. */
  method ValidatePluginInfo(info: PluginInfo) returns (failure: Option<Failure>)
    ensures failure.None? <==> WellFormed(info)
    ensures failure.Some? && failure.value.MissingField? <==>
              info.id == "" || info.name == "" || info.version == "" || info.description == ""
    ensures info.id == "" ==> failure == Some(MissingField("id"))
  {
    var fields := [("id", info.id), ("name", info.name), ("version", info.version), ("description", info.description)];
    for i := 0 to |fields|
      invariant forall j :: 0 <= j < i ==> fields[j].1 != ""
    {
      if fields[i].1 == "" {
        return Some(MissingField(fields[i].0));
      }
    }
    assert fields[0].1 != "" && fields[1].1 != "" && fields[2].1 != "" && fields[3].1 != "";
    if exists i :: 0 <= i < |info.id| && !IsIdChar(info.id[i]) {
      return Some(InvalidId(info.id));
    }
    if !IsVersion(info.version) {
      return Some(InvalidVersion(info.version));
    }
    return None;
  }

  // ---------- the plugin system ----------

  /** The array that one resolution shares between its recursive calls. */
  class ResolvedList {
    var ids: seq<Id>

    constructor ()
      ensures ids == []
    {
      ids := [];
    }
  }

  /**
   `plugins` lists the keys of the `plugins` map in insertion order, `flagged` the ids
   whose record says `active`, and `active` the keys of `activePlugins`.  `loadable` is
   the environment: the ids whose entry point loads and initialises without throwing.
   */
  class PluginSystem {
    var registry: Registry
    var plugins: seq<Id>
    var flagged: set<Id>
    var active: set<Id>
    const loadable: set<Id>

    ghost predicate Valid()
      reads this
    {
      active == flagged && flagged <= Elements(plugins)
    }

    constructor (loadable: set<Id>)
      ensures Valid() && registry == map[] && plugins == [] && active == {}
      ensures this.loadable == loadable
    {
      registry, plugins, flagged, active := map[], [], {}, {};
      this.loadable := loadable;
    }

    /** Malformed information throws.  A second registration of an id is refused; it does
        not change the first. */
    method RegisterPlugin(info: PluginInfo) returns (added: bool, failure: Option<Failure>)
      requires Valid()
      modifies this`registry
      ensures Valid()
      ensures failure.None? <==> WellFormed(info)
      ensures added <==> WellFormed(info) && info.id !in old(registry)
      ensures registry == if added then old(registry)[info.id := info.dependencies] else old(registry)
    {
      failure := ValidatePluginInfo(info);
      if failure.Some? {
        return false, failure;
      }
      if info.id in registry {
        return false, None;
      }
      registry := registry[info.id := info.dependencies];
      return true, None;
    }

    method ResolveDependencies(id: Id, resolved: ResolvedList, path: seq<Id>) returns (failure: Option<Failure>)
      modifies resolved
      ensures Outcome(resolved.ids, failure) == Resolve(registry, id, old(resolved.ids), path)
      decreases |registry.Keys - Elements(path)|
    {
      if id !in registry {
        return Some(NotFound(id));
      }
      if id in path {
        return Some(Circular(path + [id]));
      }
      if id in resolved.ids {
        return None;
      }
      PathShrinks(registry, id, path);
      var dependencies := registry[id];
      for i := 0 to |dependencies|
        invariant Resolve(registry, id, old(resolved.ids), path)
               == var rest := ResolveEach(registry, dependencies[i..], resolved.ids, path + [id]);
                  if rest.failure.Some? then rest else Outcome(rest.ids + [id], None)
      {
        assert dependencies[i..][1..] == dependencies[i + 1..];
        failure := ResolveDependencies(dependencies[i], resolved, path + [id]);
        if failure.Some? {
          return;
        }
      }
      resolved.ids := resolved.ids + [id];
      return None;
    }

    /** The loader calls itself for each missing dependency, and each of those calls
        resolves again; the effect is one pass over the resolved order. */
    method LoadPlugin(id: Id) returns (failure: Option<Failure>)
      requires Valid()
      modifies this`plugins
      ensures Valid()
      ensures Outcome(plugins, failure) == Load(registry, id, old(plugins), loadable)
      decreases |ResolveFor(registry, id).ids|
    {
      if id !in registry {
        return Some(NotFound(id));
      }
      if id in plugins {
        return None;
      }
      var list := new ResolvedList();
      failure := ResolveDependencies(id, list, []);
      if failure.Some? {
        return;
      }
      var order := list.ids;
      ResolvedOrder(registry, id);
      var last := |order| - 1;
      ghost var start := plugins;
      for k := 0 to |order|
        invariant Valid() && start <= plugins
        invariant LoadEach(order[..if k <= last then k else last], start, loadable) == Outcome(plugins, None)
        invariant id !in plugins
      {
        var dep := order[k];
        if k < last {
          LoadEachStep(order, k, start, plugins, loadable);
          LoadEachLoads(order[..k], start, loadable);
        }
        if dep != id && dep !in plugins {
          ResolveMember(registry, order, k);
          LoadMember(registry, order, k, plugins, loadable);
          failure := LoadPlugin(dep);
          if failure.Some? {
            return;
          }
        }
      }
      LoadEachStep(order, last, start, plugins, loadable);
      assert order[..last + 1] == order;
      if id !in loadable {
        return Some(EntryFailed(id));
      }
      plugins := plugins + [id];
      return None;
    }

    /** `started` says whether the plugin's own `start` returned normally. */
    method StartPlugin(id: Id, started: bool) returns (failure: Option<Failure>)
      requires Valid()
      modifies this`flagged, this`active
      ensures Valid()
      ensures failure == if id !in plugins then Some(NotLoaded(id))
                         else if id in old(active) || started then None else Some(HookFailed(id))
      ensures active == if failure.None? then old(active) + {id} else old(active)
    {
      if id !in plugins {
        return Some(NotLoaded(id));
      }
      if id in flagged {
        return None;
      }
      if !started {
        return Some(HookFailed(id));
      }
      flagged := flagged + {id};
      active := active + {id};
      return None;
    }

    method StopPlugin(id: Id, stopped: bool) returns (failure: Option<Failure>)
      requires Valid()
      modifies this`flagged, this`active
      ensures Valid()
      ensures failure == if id !in plugins then Some(NotFound(id))
                         else if id !in old(active) || stopped then None else Some(HookFailed(id))
      ensures active == if failure.None? then old(active) - {id} else old(active)
    {
      if id !in plugins {
        return Some(NotFound(id));
      }
      if id !in flagged {
        return None;
      }
      if !stopped {
        return Some(HookFailed(id));
      }
      flagged := flagged - {id};
      active := active - {id};
      return None;
    }

    /** A plugin whose `destroy` throws stays loaded, but has been stopped. */
    method UnloadPlugin(id: Id, stopped: bool, destroyed: bool) returns (failure: Option<Failure>)
      requires Valid()
      modifies this`plugins, this`flagged, this`active
      ensures Valid()
      ensures failure == if id !in old(plugins) then Some(NotLoaded(id))
                         else if (id in old(active) && !stopped) || !destroyed then Some(HookFailed(id)) else None
      ensures plugins == if failure.None? then Unload(old(plugins), id) else old(plugins)
      ensures active == if id in old(plugins) && stopped then old(active) - {id} else old(active)
    {
      if id !in plugins {
        return Some(NotLoaded(id));
      }
      if id in flagged {
        failure := StopPlugin(id, stopped);
        if failure.Some? {
          return;
        }
      }
      if !destroyed {
        return Some(HookFailed(id));
      }
      UnloadRemoves(plugins, id);
      plugins := Unload(plugins, id);
      return None;
    }
  }

  // ---------- whole runs ----------

  /** The loaded ids without one of them; the others keep their order. */
  function Unload(plugins: seq<Id>, id: Id): seq<Id> {
    if plugins == [] then []
    else
      var init, last := plugins[..|plugins| - 1], plugins[|plugins| - 1];
      if last == id then Unload(init, id) else Unload(init, id) + [last]
  }

  lemma {:induction false} UnloadRemoves(plugins: seq<Id>, id: Id)
    ensures Elements(Unload(plugins, id)) == Elements(plugins) - {id}
  {
    if plugins != [] {
      var init, last := plugins[..|plugins| - 1], plugins[|plugins| - 1];
      UnloadRemoves(init, id);
      assert Elements(plugins) == Elements(init) + {last};
      assert Elements(Unload(init, id) + [last]) == Elements(Unload(init, id)) + {last};
    }
  }

  /** Unloading keeps the loaded plugins closed under dependencies exactly when none of
      the others needs the unloaded one; the source does not check that. */
  lemma {:induction false} UnloadKeepsOrderExactly(g: Registry, plugins: seq<Id>, id: Id)
    requires DependencyOrder(g, plugins)
    ensures DependencyOrder(g, Unload(plugins, id))
       <==> forall p :: p in plugins && p != id && p in g ==> id !in g[p]
  {
    if plugins != [] {
      var init, last := plugins[..|plugins| - 1], plugins[|plugins| - 1];
      UnloadKeepsOrderExactly(g, init, id);
      UnloadRemoves(init, id);
      forall x
        ensures x in Unload(init, id) <==> x in init && x != id
      {
        assert x in Elements(Unload(init, id)) <==> x in Elements(init) - {id};
      }
      assert (Unload(init, id) + [last])[..|Unload(init, id)|] == Unload(init, id);
      assert forall p :: p in plugins <==> p in init || p == last;
    }
  }

  /** Plugin a needs b: without b, the loaded list is not closed any more. */
  lemma UnloadCanBreakOrder()
    ensures var g: Registry := map["b" := [], "a" := ["b"]];
            DependencyOrder(g, ["b", "a"]) && !DependencyOrder(g, Unload(["b", "a"], "b"))
  {
    var g: Registry := map["b" := [], "a" := ["b"]];
    assert ["b", "a"][..1] == ["b"] && ["b"][..0] == [];
    UnloadKeepsOrderExactly(g, ["b", "a"], "b");
    assert "a" in g && "b" in g["a"];
  }

  datatype Command =
    | Register(id: Id, dependencies: seq<Id>)
    | LoadCmd(id: Id, loadable: set<Id>)
    | UnloadCmd(id: Id)

  datatype State = State(registry: Registry, plugins: seq<Id>)

  /** The effect of a well-formed registration, of a load, whether or not it throws, and of
      an unload that does not throw. */
  function Step(s: State, c: Command): State {
    match c
    case Register(id, deps) => if id in s.registry then s else s.(registry := s.registry[id := deps])
    case LoadCmd(id, loadable) => s.(plugins := Load(s.registry, id, s.plugins, loadable).ids)
    case UnloadCmd(id) => s.(plugins := Unload(s.plugins, id))
  }

  function Run(commands: seq<Command>): State {
    if commands == [] then State(map[], [])
    else Step(Run(commands[..|commands| - 1]), commands[|commands| - 1])
  }

  /** Every loaded plugin comes after everything it depends on. */
  ghost predicate InOrder(s: State) {
    DependencyOrder(s.registry, s.plugins)
  }

  /** What is unloaded is no dependency of another loaded plugin. */
  predicate NotNeeded(s: State, c: Command) {
    c.UnloadCmd? ==> forall p :: p in s.plugins && p != c.id && p in s.registry ==> c.id !in s.registry[p]
  }

  lemma StepOrderExactly(s: State, c: Command)
    requires InOrder(s)
    ensures InOrder(Step(s, c)) <==> NotNeeded(s, c)
  {
    match c
    case Register(id, deps) =>
      if id !in s.registry {
        OrderSurvivesRegistration(s.registry, s.plugins, id, deps);
      }
    case LoadCmd(id, loadable) =>
      LoadKeepsOrder(s.registry, id, s.plugins, loadable);
    case UnloadCmd(id) =>
      UnloadKeepsOrderExactly(s.registry, s.plugins, id);
  }

  /** In any run the loaded plugins are in order after every command, whatever failed on the
      way, if and only if no unload takes away what another one needs. */
  lemma RunOrderExactly(commands: seq<Command>)
    ensures Throughout(Run, InOrder, commands) <==> AtEveryStep(Run, NotNeeded, commands)
  {
    forall n | 0 <= n < |commands|
      ensures Decides(Run, InOrder, NotNeeded, commands, n)
    {
      assert commands[..n + 1][..n] == commands[..n];
      if InOrder(Run(commands[..n])) {
        StepOrderExactly(Run(commands[..n]), commands[n]);
      }
    }
    GuardDecidesRun(Run, InOrder, NotNeeded, commands);
  }

  /** In particular registrations and loads never break the order. */
  lemma RunKeepsDependencyOrder(commands: seq<Command>)
    requires forall c :: c in commands ==> !c.UnloadCmd?
    ensures DependencyOrder(Run(commands).registry, Run(commands).plugins)
  {
    RunOrderExactly(commands);
    assert commands[..|commands|] == commands;
    assert InOrder(Run(commands[..|commands|]));
  }

  lemma {:induction false} OrderSurvivesRegistration(g: Registry, ids: seq<Id>, id: Id, deps: seq<Id>)
    requires DependencyOrder(g, ids) && id !in g
    ensures DependencyOrder(g[id := deps], ids)
  {
    if ids != [] {
      OrderSurvivesRegistration(g, ids[..|ids| - 1], id, deps);
    }
  }
}
