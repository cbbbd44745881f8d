/**
 What a subscriber sees over a whole run of subscriptions, unsubscriptions and outermost
 publications (src/runtime/events.js): from its subscription on, exactly the accepted events
 of its type, in order (`SubscriberSeesExactly`), and nothing after it has unsubscribed
 (`NothingAfterwards`).
 */
module EventRuns {
  import opened Runs

  import opened Events

  const EMPTY: State := State(map[], 0, [], [])

  function Run(types: set<string>, fits: Event -> bool, commands: seq<Command>): State {
    if commands == [] then EMPTY
    else Step(types, fits, Run(types, fits, commands[..|commands| - 1]), commands[|commands| - 1])
  }

  lemma RunNext(types: set<string>, fits: Event -> bool, commands: seq<Command>, n: nat)
    requires n < |commands|
    ensures Run(types, fits, commands[..n + 1]) == Step(types, fits, Run(types, fits, commands[..n]), commands[n])
  {
    assert commands[..n + 1][..n] == commands[..n];
  }

  // ---------- ids ----------

  ghost predicate SentBelow(deliveries: seq<Delivery>, bound: nat) {
    forall i :: 0 <= i < |deliveries| ==> deliveries[i].to < bound
  }

  ghost predicate Orderly(s: State) {
    DistinctIds(s.subs) && IdsBelow(s.subs, s.nextId) && SentBelow(s.deliveries, s.nextId)
  }

  lemma {:induction false} SentToSubscribers(subs: Subscribers, events: seq<Event>, bound: nat)
    requires IdsBelow(subs, bound)
    ensures SentBelow(AllDeliveries(subs, events), bound)
  {
    if events != [] {
      SentToSubscribers(subs, events[..|events| - 1], bound);
    }
  }

  lemma StepOrderly(types: set<string>, fits: Event -> bool, s: State, command: Command)
    requires Orderly(s)
    ensures Orderly(Step(types, fits, s, command))
  {
    match command
    case SubscribeTo(kind) => FreshIdKeepsDistinct(s.subs, kind, s.nextId);
    case UnsubscribeFrom(kind, id) => UnsubscribingKeepsDistinct(s.subs, kind, id, s.nextId);
    case PublishNow(event, script) =>
      SentToSubscribers(s.subs, Drain(types, fits, s.subs, [event], script).accepted, s.nextId);
  }

  lemma {:induction false} RunOrderly(types: set<string>, fits: Event -> bool, commands: seq<Command>)
    ensures Orderly(Run(types, fits, commands))
  {
    if commands != [] {
      RunOrderly(types, fits, commands[..|commands| - 1]);
      StepOrderly(types, fits, Run(types, fits, commands[..|commands| - 1]), commands[|commands| - 1]);
    }
  }

  lemma {:induction false} NeverSent(deliveries: seq<Delivery>, id: SubscriberId)
    requires forall i :: 0 <= i < |deliveries| ==> deliveries[i].to != id
    ensures SeenBy(deliveries, id) == []
  {
    if deliveries != [] {
      NeverSent(deliveries[..|deliveries| - 1], id);
    }
  }

  // ---------- what is due to a subscriber ----------

  /** The events of a type; all of them for the wildcard, those published under it twice. */
  function Due(kind: string, events: seq<Event>): seq<Event> {
    if kind == WILDCARD then Doubled(events) else OfKind(events, kind)
  }

  lemma {:induction false} DueAppends(kind: string, a: seq<Event>, b: seq<Event>)
    ensures Due(kind, a + b) == Due(kind, a) + Due(kind, b)
    decreases |b|
  {
    if b == [] {
      assert a + b == a;
    } else {
      assert (a + b)[..|a + b| - 1] == a + b[..|b| - 1];
      DueAppends(kind, a, b[..|b| - 1]);
    }
  }

  predicate Subscribed(s: State, kind: string, id: SubscriberId) {
    kind in s.subs && id in s.subs[kind]
  }

  /** The subscriber has seen just what was due from the first `since` accepted events on. */
  ghost predicate UpToDate(s: State, kind: string, id: SubscriberId, since: nat) {
    since <= |s.accepted| && SeenBy(s.deliveries, id) == Due(kind, s.accepted[since..])
  }

  lemma SeesDue(subs: Subscribers, events: seq<Event>, kind: string, id: SubscriberId)
    requires DistinctIds(subs) && kind in subs && id in subs[kind]
    ensures SeenBy(AllDeliveries(subs, events), id) == Due(kind, events)
  {
    var i :| 0 <= i < |subs[kind]| && subs[kind][i] == id;
    if kind == WILDCARD {
      WildcardSees(subs, events, i);
    } else {
      TypeSubscriberSees(subs, events, kind, i);
    }
  }

  lemma PublicationSeen(s: State, kind: string, id: SubscriberId, handled: seq<Event>, since: nat)
    requires Orderly(s) && Subscribed(s, kind, id) && UpToDate(s, kind, id, since)
    ensures UpToDate(s.(accepted := s.accepted + handled, deliveries := s.deliveries + AllDeliveries(s.subs, handled)),
                     kind, id, since)
  {
    SeenByAppends(s.deliveries, AllDeliveries(s.subs, handled), id);
    SeesDue(s.subs, handled, kind, id);
    DueAppends(kind, s.accepted[since..], handled);
    assert (s.accepted + handled)[since..] == s.accepted[since..] + handled;
  }

  lemma StepSeen(types: set<string>, fits: Event -> bool, s: State, command: Command, kind: string, id: SubscriberId,
                 since: nat)
    requires Orderly(s) && Subscribed(s, kind, id) && UpToDate(s, kind, id, since)
    requires command != UnsubscribeFrom(kind, id)
    ensures Subscribed(Step(types, fits, s, command), kind, id)
    ensures UpToDate(Step(types, fits, s, command), kind, id, since)
  {
    match command
    case SubscribeTo(_) =>
    case UnsubscribeFrom(other, gone) =>
      if other == kind {
        WithoutKeeps(s.subs[kind], gone);
        assert id in Without(s.subs[kind], gone);
      }
    case PublishNow(event, script) =>
      PublicationSeen(s, kind, id, Drain(types, fits, s.subs, [event], script).accepted, since);
  }

  /** Command n of the run subscribes to a type that is registered, or to everything. */
  predicate Subscribes(types: set<string>, commands: seq<Command>, n: nat, kind: string) {
    n < |commands| && commands[n] == SubscribeTo(kind) && (kind in types || kind == WILDCARD)
  }

  /** A fresh subscriber has seen nothing, and nothing is due yet. */
  lemma FreshUpToDate(types: set<string>, fits: Event -> bool, s: State, kind: string)
    requires Orderly(s) && (kind in types || kind == WILDCARD)
    ensures var after := Step(types, fits, s, SubscribeTo(kind));
            Subscribed(after, kind, s.nextId) && UpToDate(after, kind, s.nextId, |s.accepted|)
  {
    NeverSent(s.deliveries, s.nextId);
    assert s.accepted[|s.accepted|..] == [];
  }

  /** From the subscription on, in any run in which it is not taken back, the subscriber
      has seen exactly what was due of the events accepted since, in order. */
  lemma SubscriberSeesExactly(types: set<string>, fits: Event -> bool, commands: seq<Command>, n: nat, m: nat,
                              kind: string)
    requires Subscribes(types, commands, n, kind) && n < m <= |commands|
    requires var id := Run(types, fits, commands[..n]).nextId;
             forall k :: n < k < m ==> commands[k] != UnsubscribeFrom(kind, id)
    ensures var start, now := Run(types, fits, commands[..n]), Run(types, fits, commands[..m]);
            Subscribed(now, kind, start.nextId) && |start.accepted| <= |now.accepted| &&
            SeenBy(now.deliveries, start.nextId) == Due(kind, now.accepted[|start.accepted|..])
  {
    var start := Run(types, fits, commands[..n]);
    var id, since := start.nextId, |start.accepted|;
    var state := (prefix: seq<Command>) => Run(types, fits, prefix);
    var promise := (s: State) => Subscribed(s, kind, id) && UpToDate(s, kind, id, since);
    RunOrderly(types, fits, commands[..n]);
    RunNext(types, fits, commands, n);
    FreshUpToDate(types, fits, start, kind);
    forall k | n + 1 <= k < m
      ensures Carries(state, promise, commands, k)
    {
      RunOrderly(types, fits, commands[..k]);
      RunNext(types, fits, commands, k);
      var s := Run(types, fits, commands[..k]);
      if promise(s) {
        StepSeen(types, fits, s, commands[k], kind, id, since);
      }
    }
    PromiseCarried(state, promise, commands, n + 1, m);
  }

  // ---------- after unsubscribing ----------

  ghost predicate Gone(s: State, id: SubscriberId) {
    id < s.nextId && forall k :: k in s.subs ==> id !in s.subs[k]
  }

  lemma {:induction false} GoneSeesNothing(subs: Subscribers, events: seq<Event>, id: SubscriberId)
    requires forall k :: k in subs ==> id !in subs[k]
    ensures SeenBy(AllDeliveries(subs, events), id) == []
  {
    if events != [] {
      var init, last := events[..|events| - 1], events[|events| - 1];
      GoneSeesNothing(subs, init, id);
      SeenByAppends(AllDeliveries(subs, init), DeliveriesTo(Recipients(subs, last), last), id);
      SeenNotListed(Recipients(subs, last), last, id);
    }
  }

  lemma StepGoes(types: set<string>, fits: Event -> bool, s: State, kind: string, id: SubscriberId)
    requires Orderly(s) && Subscribed(s, kind, id)
    ensures var after := Step(types, fits, s, UnsubscribeFrom(kind, id));
            Gone(after, id) && after.deliveries == s.deliveries
  {
    WithoutKeeps(s.subs[kind], id);
    forall k | k in s.subs && id in s.subs[k]
      ensures k == kind
    {
      ListedOnce(s.subs, id, k, kind);
    }
    var i :| 0 <= i < |s.subs[kind]| && s.subs[kind][i] == id;
    assert s.subs[kind][i] < s.nextId;
  }

  lemma StepGone(types: set<string>, fits: Event -> bool, s: State, command: Command, id: SubscriberId)
    requires Orderly(s) && Gone(s, id)
    ensures Gone(Step(types, fits, s, command), id)
    ensures SeenBy(Step(types, fits, s, command).deliveries, id) == SeenBy(s.deliveries, id)
  {
    match command
    case SubscribeTo(_) =>
    case UnsubscribeFrom(kind, other) =>
      if kind in s.subs {
        WithoutKeeps(s.subs[kind], other);
      }
    case PublishNow(event, script) =>
      var handled := Drain(types, fits, s.subs, [event], script).accepted;
      GoneSeesNothing(s.subs, handled, id);
      SeenByAppends(s.deliveries, AllDeliveries(s.subs, handled), id);
  }

  /** Once a subscriber has unsubscribed, it sees nothing more. */
  lemma NothingAfterwards(types: set<string>, fits: Event -> bool, commands: seq<Command>, n: nat, m: nat,
                          kind: string, id: SubscriberId)
    requires n < m <= |commands| && commands[n] == UnsubscribeFrom(kind, id)
    requires Subscribed(Run(types, fits, commands[..n]), kind, id)
    ensures var start, now := Run(types, fits, commands[..n]), Run(types, fits, commands[..m]);
            Gone(now, id) && SeenBy(now.deliveries, id) == SeenBy(start.deliveries, id)
  {
    var start := Run(types, fits, commands[..n]);
    var seen := SeenBy(start.deliveries, id);
    var state := (prefix: seq<Command>) => Run(types, fits, prefix);
    var promise := (s: State) => Gone(s, id) && SeenBy(s.deliveries, id) == seen;
    RunOrderly(types, fits, commands[..n]);
    RunNext(types, fits, commands, n);
    StepGoes(types, fits, start, kind, id);
    forall k | n + 1 <= k < m
      ensures Carries(state, promise, commands, k)
    {
      RunOrderly(types, fits, commands[..k]);
      RunNext(types, fits, commands, k);
      var s := Run(types, fits, commands[..k]);
      if promise(s) {
        StepGone(types, fits, s, commands[k], id);
      }
    }
    PromiseCarried(state, promise, commands, n + 1, m);
  }
}
