/**
 The transactional state machine with versions (src/runtime/state_machine.js), over flat
 states and the in-memory backend.

 `RollbackRestores`: whatever is nested inside a transaction, rolling it back restores
 the state at its beginning.  `HistoryIsWindow` and `StateByVersion`: what the bounded
 history holds.  `SnapshotRoundTrip`: restoring gives back what was saved.
 */
module StateMachine {
  import opened Wrappers

  type Values = map<string, string>

  datatype Entry = Entry(version: nat, state: Values)

  datatype Machine = Machine(
    state: Values, version: nat, history: seq<Entry>, stack: seq<Values>,
    snapshots: map<string, Entry>, backend: Option<Values>)

  datatype Op =
    | Begin
    | Commit
    | Rollback
    | Write(key: string, value: string)
    | Erase(key: string)
    | Prune(maxVersions: nat)
    | Save(name: string)
    | Restore(name: string)
    | DropSnapshot(name: string)

  // ---------- the steps ----------

  /** One more entry; the oldest one goes when the bound is exceeded. */
  function Recorded(m: Machine, limit: nat): Machine {
    var longer := m.history + [Entry(m.version, m.state)];
    m.(history := if |longer| > limit then longer[1..] else longer)
  }

  /** Committing or rolling back without a transaction, and restoring an unknown
      snapshot, throws and changes nothing. */
  function Step(m: Machine, op: Op, limit: nat): Machine {
    match op
    case Begin => m.(stack := m.stack + [m.state])
    case Commit =>
      if m.stack == [] then m
      else Recorded(m.(stack := m.stack[..|m.stack| - 1], version := m.version + 1), limit).(backend := Some(m.state))
    case Rollback =>
      if m.stack == [] then m else m.(state := m.stack[|m.stack| - 1], stack := m.stack[..|m.stack| - 1])
    case Write(key, value) => m.(state := m.state[key := value])
    case Erase(key) => m.(state := m.state - {key})
    case Prune(n) => m.(history := if |m.history| > n then m.history[|m.history| - n..] else m.history)
    case Save(name) => m.(snapshots := m.snapshots[name := Entry(m.version, m.state)])
    case Restore(name) =>
      if name !in m.snapshots then m
      else
        var saved := m.snapshots[name];
        Recorded(m.(state := saved.state, version := saved.version), limit).(backend := Some(saved.state))
    case DropSnapshot(name) => m.(snapshots := m.snapshots - {name})
  }

  function Run(m: Machine, ops: seq<Op>, limit: nat): Machine {
    if ops == [] then m else Step(Run(m, ops[..|ops| - 1], limit), ops[|ops| - 1], limit)
  }

  lemma {:induction false} RunAppends(m: Machine, a: seq<Op>, b: seq<Op>, limit: nat)
    ensures Run(m, a + b, limit) == Run(Run(m, a, limit), b, limit)
    decreases |b|
  {
    if b == [] {
      assert a + b == a;
    } else {
      assert (a + b)[..|a + b| - 1] == a + b[..|b| - 1];
      RunAppends(m, a, b[..|b| - 1], limit);
    }
  }

  // ---------- nested transactions ----------

  /** How many transactions the operations leave open; `None` once they close one that
      they did not open. */
  function Nesting(ops: seq<Op>): Option<nat> {
    if ops == [] then Some(0)
    else
      var before := Nesting(ops[..|ops| - 1]);
      match ops[|ops| - 1]
      case Begin => if before.Some? then Some(before.value + 1) else None
      case Commit => if before.Some? && before.value > 0 then Some(before.value - 1) else None
      case Rollback => if before.Some? && before.value > 0 then Some(before.value - 1) else None
      case _ => before
  }

  /** Only begin, commit and rollback touch the stack, at its end. */
  lemma StackStep(m: Machine, op: Op, limit: nat)
    ensures Step(m, op, limit).stack
         == if op.Begin? then m.stack + [m.state]
            else if (op.Commit? || op.Rollback?) && m.stack != [] then m.stack[..|m.stack| - 1]
            else m.stack
  {
  }

  lemma {:induction false} OuterStackKept(m: Machine, ops: seq<Op>, limit: nat)
    requires Nesting(ops).Some?
    ensures m.stack <= Run(m, ops, limit).stack
    ensures |Run(m, ops, limit).stack| == |m.stack| + Nesting(ops).value
  {
    if ops != [] {
      OuterStackKept(m, ops[..|ops| - 1], limit);
      StackStep(Run(m, ops[..|ops| - 1], limit), ops[|ops| - 1], limit);
    }
  }

  /** Versions count commits: they never decrease, short of restoring a snapshot. */
  lemma {:induction false} VersionNeverDecreases(m: Machine, ops: seq<Op>, limit: nat)
    requires WithoutRestore(ops)
    ensures m.version <= Run(m, ops, limit).version
  {
    if ops != [] {
      assert ops[|ops| - 1] in ops;
      VersionNeverDecreases(m, ops[..|ops| - 1], limit);
    }
  }

  /** For every balanced sequence in between: rolling back restores the state and the
      outer transactions of the matching begin. */
  lemma RollbackRestores(m: Machine, ops: seq<Op>, limit: nat)
    requires Nesting(ops) == Some(0)
    ensures var after := Run(m, [Begin] + ops + [Rollback], limit);
            after.state == m.state && after.stack == m.stack
  {
    var begun := Step(m, Begin, limit);
    assert Run(m, [Begin], limit) == begun by { assert Run(m, [Begin][..0], limit) == m; }
    RunAppends(m, [Begin], ops, limit);
    OuterStackKept(begun, ops, limit);
    assert ([Begin] + ops + [Rollback])[..|ops| + 1] == [Begin] + ops;
    assert Run(begun, ops, limit).stack == begun.stack;
  }

  /** Committing instead keeps the inner state, as one new version on top. */
  lemma CommitKeeps(m: Machine, ops: seq<Op>, limit: nat)
    requires Nesting(ops) == Some(0)
    ensures var inner := Run(Step(m, Begin, limit), ops, limit);
            var after := Run(m, [Begin] + ops + [Commit], limit);
            after.state == inner.state && after.stack == m.stack && after.version == inner.version + 1 &&
            after.backend == Some(inner.state)
  {
    var begun := Step(m, Begin, limit);
    assert Run(m, [Begin], limit) == begun by { assert Run(m, [Begin][..0], limit) == m; }
    RunAppends(m, [Begin], ops, limit);
    OuterStackKept(begun, ops, limit);
    assert ([Begin] + ops + [Commit])[..|ops| + 1] == [Begin] + ops;
    assert Run(begun, ops, limit).stack == begun.stack;
  }

  // ---------- history ----------

  /** A machine as `initialize` leaves it. */
  function Initial(state: Values): Machine {
    Machine(state, 0, [Entry(0, state)], [], map[], None)
  }

  /** The state right after each version's commit; version 0 is the initial state. */
  function Log(start: Values, ops: seq<Op>, limit: nat): seq<Values> {
    if ops == [] then [start]
    else
      var init := ops[..|ops| - 1];
      var before := Run(Initial(start), init, limit);
      var log := Log(start, init, limit);
      if ops[|ops| - 1].Commit? && before.stack != [] then log + [before.state] else log
  }

  /** The history is the end of the log. */
  ghost predicate IsWindow(m: Machine, log: seq<Values>) {
    |log| == m.version + 1 && |m.history| <= |log| &&
    forall i :: 0 <= i < |m.history| ==>
      m.history[i] == Entry(|log| - |m.history| + i, log[|log| - |m.history| + i])
  }

  lemma CommitWindow(m: Machine, log: seq<Values>, limit: nat)
    requires limit > 0 && IsWindow(m, log) && |m.history| <= limit && m.stack != []
    ensures var after := Step(m, Commit, limit);
            IsWindow(after, log + [m.state]) &&
            |after.history| == if |m.history| < limit then |m.history| + 1 else limit
  {
  }

  lemma PruneWindow(m: Machine, log: seq<Values>, n: nat, limit: nat)
    requires IsWindow(m, log)
    ensures IsWindow(Step(m, Prune(n), limit), log) && |Step(m, Prune(n), limit).history| <= |m.history|
  {
  }

  /** Pruning to n leaves the last n entries, or all when there are no more. */
  lemma PruneExactly(m: Machine, n: nat, limit: nat)
    ensures var after := Step(m, Prune(n), limit);
            after == m.(history := after.history) &&
            |after.history| == (if |m.history| <= n then |m.history| else n) &&
            after.history == m.history[|m.history| - |after.history|..]
  {
  }

  /** A write or removal touches one key, and dropping a snapshot one name; nothing else changes. */
  lemma WrittenExactly(m: Machine, key: string, value: string, limit: nat)
    ensures Step(m, Write(key, value), limit) == m.(state := m.state + map[key := value])
    ensures Step(m, Erase(key), limit) == m.(state := map k | k in m.state && k != key :: m.state[k])
    ensures Step(m, DropSnapshot(key), limit) == m.(snapshots := map k | k in m.snapshots && k != key :: m.snapshots[k])
  {
    assert m.state[key := value] == m.state + map[key := value];
    assert m.state - {key} == map k | k in m.state && k != key :: m.state[k];
    assert m.snapshots - {key} == map k | k in m.snapshots && k != key :: m.snapshots[k];
  }

  /** One step and the log entry it makes, if any. */
  lemma StepWindow(m: Machine, log: seq<Values>, op: Op, limit: nat)
    requires limit > 0 && IsWindow(m, log) && |m.history| <= limit && !op.Restore?
    ensures var after := Step(m, op, limit);
            var commits := op.Commit? && m.stack != [];
            IsWindow(after, if commits then log + [m.state] else log) &&
            after.version == (if commits then m.version + 1 else m.version) &&
            |after.history| <= limit &&
            (!op.Prune? ==> |after.history| == if commits && |m.history| < limit then |m.history| + 1 else |m.history|)
  {
    if op.Commit? && m.stack != [] {
      CommitWindow(m, log, limit);
    } else if op.Prune? {
      PruneWindow(m, log, op.maxVersions, limit);
    }
  }

  ghost predicate WithoutRestore(ops: seq<Op>) {
    forall op :: op in ops ==> !op.Restore?
  }

  ghost predicate WithoutPrune(ops: seq<Op>) {
    forall op :: op in ops ==> !op.Prune?
  }

  /** Without restoring: consecutive versions up to the present one, each with the state
      right after its commit, never more than the bound, and as many as the bound and the
      versions allow if nothing was pruned. */
  lemma {:induction false} HistoryIsWindow(start: Values, ops: seq<Op>, limit: nat)
    requires limit > 0 && WithoutRestore(ops)
    ensures var m := Run(Initial(start), ops, limit);
            IsWindow(m, Log(start, ops, limit)) && |m.history| <= limit &&
            (WithoutPrune(ops) ==> |m.history| == if m.version + 1 < limit then m.version + 1 else limit)
  {
    if ops != [] {
      var init, last := ops[..|ops| - 1], ops[|ops| - 1];
      assert last in ops;
      HistoryIsWindow(start, init, limit);
      StepWindow(Run(Initial(start), init, limit), Log(start, init, limit), last, limit);
    }
  }

  function Find(history: seq<Entry>, version: int): Option<Values> {
    if history == [] then None
    else if history[0].version == version then Some(history[0].state)
    else Find(history[1..], version)
  }

  lemma {:induction false} FindInWindow(history: seq<Entry>, first: nat, version: int)
    requires forall i :: 0 <= i < |history| ==> history[i].version == first + i
    ensures Find(history, version)
         == if first <= version < first + |history| then Some(history[version - first].state) else None
  {
    if history != [] {
      FindInWindow(history[1..], first + 1, version);
    }
  }

  lemma WindowFind(m: Machine, log: seq<Values>, version: int)
    requires IsWindow(m, log)
    ensures Find(m.history, version) == FromLog(m, log, version)
  {
    FindInWindow(m.history, |log| - |m.history|, version);
  }

  /** The state of a version that is still in the window. */
  function FromLog(m: Machine, log: seq<Values>, version: int): Option<Values> {
    if m.version - |m.history| < version <= m.version && 0 <= version < |log| then Some(log[version]) else None
  }

  /** A version in the window gives the state right after its commit, any other nothing. */
  lemma StateByVersion(start: Values, ops: seq<Op>, limit: nat, version: int)
    requires limit > 0 && WithoutRestore(ops)
    ensures var m := Run(Initial(start), ops, limit);
            Find(m.history, version) == FromLog(m, Log(start, ops, limit), version)
  {
    HistoryIsWindow(start, ops, limit);
    WindowFind(Run(Initial(start), ops, limit), Log(start, ops, limit), version);
  }

  // ---------- snapshots ----------

  ghost predicate Replaces(op: Op, name: string) {
    (op.Save? && op.name == name) || (op.DropSnapshot? && op.name == name)
  }

  ghost predicate LeavesSnapshot(ops: seq<Op>, name: string) {
    forall op :: op in ops ==> !Replaces(op, name)
  }

  lemma {:induction false} SnapshotKept(m: Machine, ops: seq<Op>, name: string, limit: nat)
    requires name in m.snapshots
    requires LeavesSnapshot(ops, name)
    ensures name in Run(m, ops, limit).snapshots && Run(m, ops, limit).snapshots[name] == m.snapshots[name]
  {
    if ops != [] {
      assert ops[|ops| - 1] in ops;
      SnapshotKept(m, ops[..|ops| - 1], name, limit);
    }
  }

  /** Restoring a snapshot gives back the state and the version it was taken at. */
  lemma SnapshotRoundTrip(m: Machine, ops: seq<Op>, name: string, limit: nat)
    requires LeavesSnapshot(ops, name)
    ensures var after := Run(m, [Save(name)] + ops + [Restore(name)], limit);
            after.state == m.state && after.version == m.version && after.backend == Some(m.state) &&
            (limit > 0 ==> after.history != [] && after.history[|after.history| - 1] == Entry(m.version, m.state))
  {
    var saved := Step(m, Save(name), limit);
    assert Run(m, [Save(name)], limit) == saved by { assert Run(m, [Save(name)][..0], limit) == m; }
    RunAppends(m, [Save(name)], ops, limit);
    SnapshotKept(saved, ops, name, limit);
    assert ([Save(name)] + ops + [Restore(name)])[..|ops| + 1] == [Save(name)] + ops;
  }

  // ---------- the classes ----------

  class InMemoryStateBackend {
    var state: Option<Values>

    constructor ()
      ensures state == None
    {
      state := None;
    }

    method Initialize()
      modifies this
      ensures state == None
    {
      state := None;
    }

    method SetState(newState: Values)
      modifies this
      ensures state == Some(newState)
    {
      state := Some(newState);
    }
  }

  /** What a transition function does with the state it is given: the state it leaves, and
      whether it returned or threw. */
  datatype Outcome = Returned(state: Values) | Threw(state: Values)

  class StateMachine {
    var state: Values
    var stateVersion: nat
    var stateHistory: seq<Entry>
    var snapshots: map<string, Entry>
    var transactionStack: seq<Values>
    const maxHistoryLength: nat
    const backend: InMemoryStateBackend

    ghost function View(): Machine
      reads this, backend
    {
      Machine(state, stateVersion, stateHistory, transactionStack, snapshots, backend.state)
    }

    /** A zero bound falls back to the default. */
    constructor (initialState: Values, maxHistoryLength: nat)
      ensures View() == Machine(initialState, 0, [], [], map[], None) && fresh(backend)
      ensures this.maxHistoryLength == if maxHistoryLength == 0 then 1000 else maxHistoryLength
    {
      state, stateVersion, stateHistory, snapshots, transactionStack := initialState, 0, [], map[], [];
      this.maxHistoryLength := if maxHistoryLength == 0 then 1000 else maxHistoryLength;
      backend := new InMemoryStateBackend();
    }

    /** Initialising the backend empties it: there is no state to take from it, and the
        present one is recorded (again). */
    method Initialize()
      modifies this, backend
      ensures View() == Recorded(old(View()), maxHistoryLength).(backend := None)
      ensures old(View()) == Machine(old(state), 0, [], [], map[], None) && maxHistoryLength > 0 ==>
                View() == Initial(old(state))
    {
      backend.Initialize();
      AddStateHistory();
    }

    method AddStateHistory()
      modifies this`stateHistory
      ensures View() == Recorded(old(View()), maxHistoryLength)
    {
      stateHistory := stateHistory + [Entry(stateVersion, state)];
      if |stateHistory| > maxHistoryLength {
        stateHistory := stateHistory[1..];
      }
    }

    method BeginTransaction()
      modifies this`transactionStack
      ensures View() == Step(old(View()), Begin, maxHistoryLength)
    {
      transactionStack := transactionStack + [state];
    }

    method CommitTransaction() returns (committed: bool)
      modifies this, backend
      ensures View() == Step(old(View()), Commit, maxHistoryLength)
      ensures committed <==> old(transactionStack) != []
    {
      if |transactionStack| == 0 {
        return false;
      }
      transactionStack := transactionStack[..|transactionStack| - 1];
      stateVersion := stateVersion + 1;
      AddStateHistory();
      backend.SetState(state);
      return true;
    }

    method RollbackTransaction() returns (rolledBack: bool)
      modifies this
      ensures View() == Step(old(View()), Rollback, maxHistoryLength)
      ensures rolledBack <==> old(transactionStack) != []
    {
      if |transactionStack| == 0 {
        return false;
      }
      state := transactionStack[|transactionStack| - 1];
      transactionStack := transactionStack[..|transactionStack| - 1];
      return true;
    }

    /** All or nothing: the transition's result as one new version, or no trace of it. */
    method ApplyTransition(transition: Values -> Outcome) returns (success: bool)
      modifies this, backend
      ensures success <==> transition(old(state)).Returned?
      ensures transactionStack == old(transactionStack) && snapshots == old(snapshots)
      ensures success ==>
        state == transition(old(state)).state && stateVersion == old(stateVersion) + 1 &&
        stateHistory == Recorded(old(View()).(state := state, version := stateVersion), maxHistoryLength).history &&
        backend.state == Some(state)
      ensures !success ==> View() == old(View())
    {
      BeginTransaction();
      var outcome := transition(state);
      state := outcome.state;
      if outcome.Returned? {
        success := CommitTransaction();
      } else {
        var _ := RollbackTransaction();
        success := false;
      }
    }

    method GetStateByVersion(version: int) returns (found: Option<Values>)
      ensures found == Find(stateHistory, version)
    {
      for i := 0 to |stateHistory|
        invariant Find(stateHistory, version) == Find(stateHistory[i..], version)
      {
        if stateHistory[i].version == version {
          return Some(stateHistory[i].state);
        }
      }
      return None;
    }

    method CreateSnapshot(name: string)
      modifies this`snapshots
      ensures View() == Step(old(View()), Save(name), maxHistoryLength)
    {
      snapshots := snapshots[name := Entry(stateVersion, state)];
    }

    method RestoreSnapshot(name: string) returns (restored: bool)
      modifies this, backend
      ensures View() == Step(old(View()), Restore(name), maxHistoryLength)
      ensures restored <==> name in old(snapshots)
    {
      if name !in snapshots {
        return false;
      }
      var snapshot := snapshots[name];
      state := snapshot.state;
      stateVersion := snapshot.version;
      AddStateHistory();
      backend.SetState(state);
      return true;
    }

    method PruneHistory(maxVersions: nat)
      modifies this`stateHistory
      ensures View() == Step(old(View()), Prune(maxVersions), maxHistoryLength)
    {
      if |stateHistory| > maxVersions {
        var versionsToRemove := |stateHistory| - maxVersions;
        stateHistory := stateHistory[versionsToRemove..];
      }
    }
  }
}
