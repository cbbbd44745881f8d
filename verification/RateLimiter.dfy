/**
 The token-bucket rate limiter (src/networking/rate_limiter.js).

 All users share one refill time, a user's bucket appears full at the first check, and a
 whitelisted user skips the refill.  `WindowBound` is the classic guarantee for everyone
 else: in any window without a reset, at most a full bucket plus the refill of the
 window is granted; `WindowBoundReached` shows that no smaller bound holds.

 Times are milliseconds; the clock reading of an operation is part of the operation.
 */
module RateLimiter {

  datatype Limits = Limits(
    tokensPerSecond: real, maxBalance: real, costPerRequest: real, blockDuration: real,
    whitelist: set<string>, blacklist: set<string>) {

    ghost predicate Valid() {
      tokensPerSecond >= 0.0 && maxBalance >= 0.0
    }

    function Refill(from: real, to: real): real {
      (to - from) / 1000.0 * tokensPerSecond
    }
  }

  datatype State = State(tokens: map<string, real>, blockedUntil: map<string, real>, lastRefill: real)

  datatype Reason =
    | Blacklisted | Whitelisted | Blocked | LimitExceeded | WithinLimit | NotEnoughTokens | RequestAllowed {
    predicate Allowed() {
      Whitelisted? || WithinLimit? || RequestAllowed?
    }
  }

  datatype Op =
    | Check(user: string)
    | Consume(user: string, cost: real)
    | Block(user: string, seconds: real)
    | Unblock(user: string)
    | Reset

  datatype Timed = At(now: real, op: Op)

  function Min(x: real, y: real): real {
    if x <= y then x else y
  }

  // ---------- the steps ----------

  function ToppedUp(tokens: map<string, real>, tokensToAdd: real, maxBalance: real): map<string, real> {
    map u | u in tokens :: Min(tokens[u] + tokensToAdd, maxBalance)
  }

  function Refilled(l: Limits, s: State, now: real): State {
    s.(tokens := ToppedUp(s.tokens, l.Refill(s.lastRefill, now), l.maxBalance), lastRefill := now)
  }

  function WithBlock(s: State, user: string, now: real, seconds: real): State {
    s.(blockedUntil := s.blockedUntil[user := now + seconds * 1000.0])
  }

  function WithBucket(l: Limits, s: State, user: string): State {
    if user in s.tokens then s else s.(tokens := s.tokens[user := l.maxBalance])
  }

  predicate IsBlocked(s: State, user: string, now: real) {
    user in s.blockedUntil && s.blockedUntil[user] > now
  }

  function CheckLimit(l: Limits, s: State, user: string, now: real): (State, Reason) {
    if user in l.blacklist then (s, Blacklisted)
    else if user in l.whitelist then (s, Whitelisted)
    else if IsBlocked(s, user, now) then (s, Blocked)
    else
      var r := WithBucket(l, Refilled(l, s.(blockedUntil := s.blockedUntil - {user}), now), user);
      if r.tokens[user] < l.costPerRequest then (WithBlock(r, user, now, l.blockDuration), LimitExceeded)
      else (r, WithinLimit)
  }

  function TryConsume(l: Limits, s: State, user: string, cost: real, now: real): (State, Reason) {
    var (checked, reason) := CheckLimit(l, s, user, now);
    if !reason.Allowed() then (checked, reason)
    else
      var r := WithBucket(l, checked, user);
      if r.tokens[user] < cost then (WithBlock(r, user, now, l.blockDuration), NotEnoughTokens)
      else (r.(tokens := r.tokens[user := r.tokens[user] - cost]), RequestAllowed)
  }

  function Step(l: Limits, s: State, t: Timed): State {
    match t.op
    case Check(user) => CheckLimit(l, s, user, t.now).0
    case Consume(user, cost) => TryConsume(l, s, user, cost, t.now).0
    case Block(user, seconds) => WithBlock(s, user, t.now, seconds)
    case Unblock(user) => s.(blockedUntil := s.blockedUntil - {user})
    case Reset => State(map[], map[], t.now)
  }

  /** What the operation granted to the user. */
  function Granted(l: Limits, s: State, t: Timed, user: string): real {
    if t.op.Consume? && t.op.user == user && TryConsume(l, s, user, t.op.cost, t.now).1.RequestAllowed?
    then t.op.cost else 0.0
  }

  function Run(l: Limits, s: State, ops: seq<Timed>): State
    decreases |ops|
  {
    if ops == [] then s else Run(l, Step(l, s, ops[0]), ops[1..])
  }

  function TotalGranted(l: Limits, s: State, ops: seq<Timed>, user: string): real
    decreases |ops|
  {
    if ops == [] then 0.0
    else Granted(l, s, ops[0], user) + TotalGranted(l, Step(l, s, ops[0]), ops[1..], user)
  }

  // ---------- the bound ----------

  /** The clock does not run backwards over the operations. */
  ghost predicate Ascending(from: real, ops: seq<Timed>, to: real)
    decreases |ops|
  {
    if ops == [] then from <= to
    else from <= ops[0].now && Ascending(ops[0].now, ops[1..], to)
  }

  /** Balances are never negative, and the last refill lies in the past. */
  ghost predicate Sane(s: State, now: real) {
    s.lastRefill <= now && forall u :: u in s.tokens ==> s.tokens[u] >= 0.0
  }

  /** What the user could spend at the given time, were the bucket refilled. */
  function Level(l: Limits, s: State, user: string, now: real): real {
    if user in s.tokens then Min(s.tokens[user] + l.Refill(s.lastRefill, now), l.maxBalance) else l.maxBalance
  }

  /** Times are milliseconds, the rate is per second. */
  lemma RefillPerSecond(l: Limits, from: real, to: real)
    ensures l.Refill(from, to) == l.tokensPerSecond * (to - from) / 1000.0
  {
  }

  /** A refill leaves each bucket at the smaller of the maximum and its content with what
      the time since the last one is worth, and no other buckets. */
  lemma RefillLeaves(l: Limits, s: State, now: real, user: string)
    ensures var after, more := Refilled(l, s, now), l.tokensPerSecond * (now - s.lastRefill) / 1000.0;
            after.tokens.Keys == s.tokens.Keys && after.lastRefill == now && after.blockedUntil == s.blockedUntil &&
            (user in s.tokens ==>
               after.tokens[user] <= l.maxBalance && after.tokens[user] <= s.tokens[user] + more &&
               (after.tokens[user] == l.maxBalance || after.tokens[user] == s.tokens[user] + more))
  {
    RefillPerSecond(l, s.lastRefill, now);
  }

  lemma RefillNonNegative(l: Limits, from: real, to: real)
    requires l.Valid() && from <= to
    ensures l.Refill(from, to) >= 0.0
  {
  }

  lemma RefilledSane(l: Limits, s: State, now: real)
    requires l.Valid() && Sane(s, now)
    ensures Sane(Refilled(l, s, now), now)
  {
    RefillNonNegative(l, s.lastRefill, now);
  }

  lemma StepSane(l: Limits, s: State, t: Timed)
    requires l.Valid() && Sane(s, t.now)
    ensures Sane(Step(l, s, t), t.now)
  {
    if t.op.Check? || t.op.Consume? {
      RefilledSane(l, s.(blockedUntil := s.blockedUntil - {t.op.user}), t.now);
    }
  }

  /** A grant is paid from the level; nothing else raises it. */
  lemma StepPays(l: Limits, s: State, t: Timed, user: string)
    requires l.Valid() && Sane(s, t.now) && user !in l.whitelist && !t.op.Reset?
    ensures Granted(l, s, t, user) + Level(l, Step(l, s, t), user, t.now) <= Level(l, s, user, t.now)
  {
    RefillNonNegative(l, s.lastRefill, t.now);
    assert l.Refill(t.now, t.now) == 0.0;
  }

  lemma LevelGrows(l: Limits, s: State, user: string, from: real, to: real)
    requires l.Valid() && from <= to
    ensures Level(l, s, user, to) <= Level(l, s, user, from) + l.Refill(from, to)
  {
    RefillNonNegative(l, from, to);
    assert l.Refill(s.lastRefill, to) == l.Refill(s.lastRefill, from) + l.Refill(from, to);
  }

  lemma {:induction false} GrantsArePaid(l: Limits, s: State, from: real, ops: seq<Timed>, to: real, user: string)
    requires l.Valid() && Sane(s, from) && Ascending(from, ops, to) && user !in l.whitelist
    requires forall t :: t in ops ==> !t.op.Reset?
    ensures TotalGranted(l, s, ops, user) + Level(l, Run(l, s, ops), user, to)
         <= Level(l, s, user, from) + l.Refill(from, to)
    ensures Sane(Run(l, s, ops), to)
    decreases |ops|
  {
    if ops == [] {
      LevelGrows(l, s, user, from, to);
    } else {
      var now := ops[0].now;
      StepSane(l, s, ops[0]);
      StepPays(l, s, ops[0], user);
      LevelGrows(l, s, user, from, now);
      GrantsArePaid(l, Step(l, s, ops[0]), now, ops[1..], to, user);
      assert l.Refill(from, to) == l.Refill(from, now) + l.Refill(now, to);
    }
  }

  lemma {:induction false} RunSane(l: Limits, s: State, from: real, ops: seq<Timed>, to: real)
    requires l.Valid() && Sane(s, from) && Ascending(from, ops, to)
    ensures Sane(Run(l, s, ops), to)
    decreases |ops|
  {
    if ops != [] {
      StepSane(l, s, ops[0]);
      RunSane(l, Step(l, s, ops[0]), ops[0].now, ops[1..], to);
    }
  }

  /** After any history, the cost granted to a user who is not whitelisted within
      [from, to] is at most a full bucket and what the window refills. */
  lemma WindowBound(l: Limits, start: real, history: seq<Timed>, from: real, window: seq<Timed>, to: real, user: string)
    requires l.Valid() && user !in l.whitelist
    requires Ascending(start, history, from) && Ascending(from, window, to)
    requires forall t :: t in window ==> !t.op.Reset?
    ensures TotalGranted(l, Run(l, State(map[], map[], start), history), window, user)
         <= l.maxBalance + l.tokensPerSecond * (to - from) / 1000.0
  {
    var s := Run(l, State(map[], map[], start), history);
    RunSane(l, State(map[], map[], start), start, history, from);
    GrantsArePaid(l, s, from, window, to, user);
    var end := Run(l, s, window);
    LevelRange(l, end, user, to);
    LevelRange(l, s, user, from);
    RefillPerSecond(l, from, to);
  }

  lemma LevelRange(l: Limits, s: State, user: string, now: real)
    requires l.Valid() && Sane(s, now)
    ensures 0.0 <= Level(l, s, user, now) <= l.maxBalance
  {
    RefillNonNegative(l, s.lastRefill, now);
  }

  lemma {:induction false} WindowAscends(from: real, ops: seq<Timed>, to: real)
    requires Ascending(from, ops, to)
    ensures from <= to
    decreases |ops|
  {
    if ops != [] {
      WindowAscends(ops[0].now, ops[1..], to);
    }
  }

  /** Draining a fresh bucket and then the refill attains the bound. */
  lemma WindowBoundReached(l: Limits, from: real, to: real, user: string)
    requires l.Valid() && from <= to && user !in l.whitelist && user !in l.blacklist
    requires l.costPerRequest <= l.tokensPerSecond * (to - from) / 1000.0 <= l.maxBalance
    ensures exists window: seq<Timed> ::
      Ascending(from, window, to) && (forall t :: t in window ==> !t.op.Reset?) &&
      TotalGranted(l, State(map[], map[], from), window, user)
      == l.maxBalance + l.tokensPerSecond * (to - from) / 1000.0
  {
    RefillPerSecond(l, from, to);
    var first, second := At(from, Consume(user, l.maxBalance)), At(to, Consume(user, l.Refill(from, to)));
    var window := [first, second];
    var s0 := State(map[], map[], from);
    var s1 := Step(l, s0, first);
    assert s1.tokens == map[user := 0.0] && s1.blockedUntil == map[];
    assert Refilled(l, s1, to).tokens[user] == l.Refill(from, to);
    assert window[1..] == [second];
    assert TotalGranted(l, s1, [second], user) == Granted(l, s1, second, user) + 0.0;
    assert Ascending(from, window, to) by {
      assert Ascending(from, [second], to);
    }
  }

  // ---------- one request ----------

  /** What a user who is on no list and not blocked has: a full bucket at first, and
      otherwise the refilled one. */
  ghost predicate Available(l: Limits, s: State, user: string, now: real, tokens: real) {
    if user !in s.tokens then tokens == l.maxBalance
    else
      var more := s.tokens[user] + l.tokensPerSecond * (now - s.lastRefill) / 1000.0;
      tokens <= l.maxBalance && tokens <= more && (tokens == l.maxBalance || tokens == more)
  }

  lemma CheckedExactly(l: Limits, s: State, user: string, now: real, tokens: real)
    requires user !in l.blacklist && user !in l.whitelist && Available(l, s, user, now, tokens)
    requires user !in s.blockedUntil || s.blockedUntil[user] <= now
    ensures var (after, reason) := CheckLimit(l, s, user, now);
            reason == (if tokens < l.costPerRequest then LimitExceeded else WithinLimit) &&
            user in after.tokens && after.tokens[user] == tokens && after.lastRefill == now &&
            if reason.WithinLimit? then user !in after.blockedUntil
            else user in after.blockedUntil && after.blockedUntil[user] == now + l.blockDuration * 1000.0
  {
    RefillLeaves(l, s.(blockedUntil := s.blockedUntil - {user}), now, user);
  }

  /** A request of such a user is allowed if and only if the tokens cover both the fixed cost
      and its own; it is charged then, and otherwise the user is blocked. */
  lemma AnsweredExactly(l: Limits, s: State, user: string, cost: real, now: real, tokens: real)
    requires user !in l.blacklist && user !in l.whitelist && Available(l, s, user, now, tokens)
    requires user !in s.blockedUntil || s.blockedUntil[user] <= now
    ensures var (after, reason) := TryConsume(l, s, user, cost, now);
            reason == (if tokens < l.costPerRequest then LimitExceeded
                       else if tokens < cost then NotEnoughTokens else RequestAllowed) &&
            user in after.tokens && after.lastRefill == now &&
            after.tokens[user] == (if reason.RequestAllowed? then tokens - cost else tokens) &&
            if reason.RequestAllowed? then user !in after.blockedUntil
            else user in after.blockedUntil && after.blockedUntil[user] == now + l.blockDuration * 1000.0
  {
    CheckedExactly(l, s, user, now, tokens);
  }

  /** The lists come first, and a block holds strictly before its end; nothing changes then. */
  lemma TurnedAwayExactly(l: Limits, s: State, user: string, cost: real, now: real)
    ensures var (after, reason) := TryConsume(l, s, user, cost, now);
            (reason.Blacklisted? <==> user in l.blacklist) &&
            (reason.Blocked? <==> user !in l.blacklist && user !in l.whitelist &&
                                  user in s.blockedUntil && s.blockedUntil[user] > now) &&
            (reason.Blacklisted? || reason.Blocked? ==> after == s)
  {
  }

  /** A whitelisted user is charged without a refill, and never for the fixed cost. */
  lemma WhitelistedExactly(l: Limits, s: State, user: string, cost: real, now: real)
    requires user in l.whitelist && user !in l.blacklist
    ensures var (after, reason) := TryConsume(l, s, user, cost, now);
            var tokens := if user in s.tokens then s.tokens[user] else l.maxBalance;
            reason == (if tokens < cost then NotEnoughTokens else RequestAllowed) &&
            after.lastRefill == s.lastRefill &&
            after.tokens == s.tokens[user := if reason.RequestAllowed? then tokens - cost else tokens]
  {
  }

  // ---------- blocking ----------

  ghost predicate BlockedThrough(s: State, user: string, until: real) {
    user in s.blockedUntil && s.blockedUntil[user] >= until
  }

  /** Until its block ends, a user is granted nothing and stays blocked, unless someone
      lifts, replaces or resets the block. */
  lemma {:induction false} BlockedGetsNothing(l: Limits, s: State, from: real, ops: seq<Timed>, to: real,
                                              user: string, until: real)
    requires BlockedThrough(s, user, until) && user !in l.whitelist
    requires Ascending(from, ops, to) && to < until
    requires forall t :: t in ops ==>
      !t.op.Reset? && !(t.op.Unblock? && t.op.user == user) && !(t.op.Block? && t.op.user == user)
    ensures TotalGranted(l, s, ops, user) == 0.0 && BlockedThrough(Run(l, s, ops), user, until)
    decreases |ops|
  {
    if ops != [] {
      WindowAscends(ops[0].now, ops[1..], to);
      assert ops[0] in ops;
      assert IsBlocked(s, user, ops[0].now);
      BlockedGetsNothing(l, Step(l, s, ops[0]), ops[0].now, ops[1..], to, user, until);
    }
  }

  /** A request refused for lack of tokens starts such a block. */
  lemma RefusalBlocks(l: Limits, s: State, user: string, cost: real, now: real)
    requires var reason := TryConsume(l, s, user, cost, now).1; reason.LimitExceeded? || reason.NotEnoughTokens?
    ensures BlockedThrough(TryConsume(l, s, user, cost, now).0, user, now + l.blockDuration * 1000.0)
  {
  }

  // ---------- the class ----------

  /** The loop of `refill_tokens`, over the users in any order. */
  method TopUp(tokens: map<string, real>, tokensToAdd: real, maxBalance: real) returns (r: map<string, real>)
    ensures r == ToppedUp(tokens, tokensToAdd, maxBalance)
  {
    r := tokens;
    var users := tokens.Keys;
    while users != {}
      invariant users <= tokens.Keys == r.Keys
      invariant forall u :: u in tokens ==>
        r[u] == if u in users then tokens[u] else Min(tokens[u] + tokensToAdd, maxBalance)
      decreases |users|
    {
      var user :| user in users;
      users := users - {user};
      r := r[user := Min(r[user] + tokensToAdd, maxBalance)];
    }
  }

  class Limiter {
    const limits: Limits
    var userTokens: map<string, real>
    var userBlockedUntil: map<string, real>
    var lastRefillTime: real

    ghost function View(): State
      reads this
    {
      State(userTokens, userBlockedUntil, lastRefillTime)
    }

    constructor (limits: Limits, now: real)
      ensures this.limits == limits && View() == State(map[], map[], now)
    {
      this.limits := limits;
      userTokens, userBlockedUntil, lastRefillTime := map[], map[], now;
    }

    method Initialize(now: real)
      modifies this
      ensures View() == Step(limits, old(View()), At(now, Reset)) == State(map[], map[], now)
    {
      userTokens, userBlockedUntil, lastRefillTime := map[], map[], now;
    }

    method RefillTokens(now: real)
      modifies this
      ensures View() == Refilled(limits, old(View()), now)
    {
      var tokensToAdd := limits.Refill(lastRefillTime, now);
      userTokens := TopUp(userTokens, tokensToAdd, limits.maxBalance);
      lastRefillTime := now;
    }

    /** Forgets a block that has ended. */
    method CheckBlocked(user: string, now: real) returns (blocked: bool)
      modifies this`userBlockedUntil
      ensures blocked == IsBlocked(old(View()), user, now)
      ensures blocked <==> user in old(userBlockedUntil) && old(userBlockedUntil)[user] > now
      ensures userBlockedUntil == if blocked then old(userBlockedUntil) else old(userBlockedUntil) - {user}
    {
      if user in userBlockedUntil {
        if userBlockedUntil[user] > now {
          return true;
        }
        userBlockedUntil := userBlockedUntil - {user};
      }
      return false;
    }

    method BlockUser(user: string, seconds: real, now: real)
      modifies this`userBlockedUntil
      ensures View() == Step(limits, old(View()), At(now, Block(user, seconds)))
      ensures userBlockedUntil == old(userBlockedUntil)[user := now + seconds * 1000.0]
    {
      userBlockedUntil := userBlockedUntil[user := now + seconds * 1000.0];
    }

    method UnblockUser(user: string, now: real)
      modifies this`userBlockedUntil
      ensures View() == Step(limits, old(View()), At(now, Unblock(user)))
      ensures userBlockedUntil == old(userBlockedUntil) - {user}
    {
      userBlockedUntil := userBlockedUntil - {user};
    }

    method CheckRateLimit(user: string, now: real) returns (reason: Reason)
      modifies this
      ensures (View(), reason) == CheckLimit(limits, old(View()), user, now)
    {
      if user in limits.blacklist {
        return Blacklisted;
      }
      if user in limits.whitelist {
        return Whitelisted;
      }
      var blocked := CheckBlocked(user, now);
      if blocked {
        return Blocked;
      }
      RefillTokens(now);
      if user !in userTokens {
        userTokens := userTokens[user := limits.maxBalance];
      }
      if userTokens[user] < limits.costPerRequest {
        BlockUser(user, limits.blockDuration, now);
        return LimitExceeded;
      }
      return WithinLimit;
    }

    method TryConsumeTokens(user: string, cost: real, now: real) returns (reason: Reason)
      modifies this
      ensures (View(), reason) == TryConsume(limits, old(View()), user, cost, now)
    {
      reason := CheckRateLimit(user, now);
      if !reason.Allowed() {
        return;
      }
      if user !in userTokens {
        userTokens := userTokens[user := limits.maxBalance];
      }
      var available := userTokens[user];
      if available < cost {
        BlockUser(user, limits.blockDuration, now);
        return NotEnoughTokens;
      }
      userTokens := userTokens[user := available - cost];
      return RequestAllowed;
    }
  }
}
