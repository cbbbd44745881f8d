/**
 The event system (src/runtime/events.js), with callbacks that publish while an event is
 being delivered.

 What the callbacks do is the environment: a script says, callback by callback, what
 each of them publishes; a run that ends corresponds to a finite script.  A nested
 `Publish` returns at once, because the outer one is still processing; when the outermost
 returns, everything accepted meanwhile has been delivered (`EventSystem.Publish`, tied to
 `Drain`).  `TypeSubscriberSees` and `WildcardSeesExactly` say what that means for one
 subscriber.  Subscriptions do not change while events are being processed.
 */
module Events {

  datatype Event = Event(kind: string, data: string)

  type SubscriberId = nat

  type Subscribers = map<string, seq<SubscriberId>>

  datatype Delivery = Delivery(to: SubscriberId, event: Event)

  const WILDCARD: string := "*"

  // ---------- who gets an event ----------

  function SubscribersOf(subs: Subscribers, kind: string): seq<SubscriberId> {
    if kind in subs then subs[kind] else []
  }

  /** The subscribers to the type, then the wildcard subscribers. */
  function Recipients(subs: Subscribers, event: Event): seq<SubscriberId> {
    SubscribersOf(subs, event.kind) + SubscribersOf(subs, WILDCARD)
  }

  function DeliveriesTo(ids: seq<SubscriberId>, event: Event): seq<Delivery> {
    seq(|ids|, i requires 0 <= i < |ids| => Delivery(ids[i], event))
  }

  function AllDeliveries(subs: Subscribers, events: seq<Event>): seq<Delivery> {
    if events == [] then []
    else AllDeliveries(subs, events[..|events| - 1])
         + DeliveriesTo(Recipients(subs, events[|events| - 1]), events[|events| - 1])
  }

  /** The last n elements, or all. */
  function Last<T>(s: seq<T>, n: nat): seq<T> {
    if |s| <= n then s else s[|s| - n..]
  }

  // ---------- what one subscriber sees ----------

  /** Ids are unique: each stands in one list, once. */
  ghost predicate DistinctIds(subs: Subscribers) {
    forall k, l, i, j :: k in subs && l in subs && 0 <= i < |subs[k]| && 0 <= j < |subs[l]| && subs[k][i] == subs[l][j]
      ==> k == l && i == j
  }

  function SeenBy(deliveries: seq<Delivery>, id: SubscriberId): seq<Event> {
    if deliveries == [] then []
    else
      var init, last := deliveries[..|deliveries| - 1], deliveries[|deliveries| - 1];
      SeenBy(init, id) + if last.to == id then [last.event] else []
  }

  function OfKind(events: seq<Event>, kind: string): seq<Event> {
    if events == [] then []
    else
      var last := events[|events| - 1];
      OfKind(events[..|events| - 1], kind) + if last.kind == kind then [last] else []
  }

  lemma {:induction false} SeenByAppends(a: seq<Delivery>, b: seq<Delivery>, id: SubscriberId)
    ensures SeenBy(a + b, id) == SeenBy(a, id) + SeenBy(b, id)
    decreases |b|
  {
    if b == [] {
      assert a + b == a;
    } else {
      assert (a + b)[..|a + b| - 1] == a + b[..|b| - 1];
      SeenByAppends(a, b[..|b| - 1], id);
    }
  }

  lemma {:induction false} SeenNotListed(ids: seq<SubscriberId>, event: Event, id: SubscriberId)
    requires id !in ids
    ensures SeenBy(DeliveriesTo(ids, event), id) == []
  {
    if ids != [] {
      assert DeliveriesTo(ids, event)[..|ids| - 1] == DeliveriesTo(ids[..|ids| - 1], event);
      SeenNotListed(ids[..|ids| - 1], event, id);
    }
  }

  lemma {:induction false} SeenListedOnce(ids: seq<SubscriberId>, event: Event, i: nat)
    requires i < |ids| && forall j :: 0 <= j < |ids| && j != i ==> ids[j] != ids[i]
    ensures SeenBy(DeliveriesTo(ids, event), ids[i]) == [event]
  {
    var init := ids[..|ids| - 1];
    assert DeliveriesTo(ids, event)[..|ids| - 1] == DeliveriesTo(init, event);
    if i == |ids| - 1 {
      SeenNotListed(init, event, ids[i]);
    } else {
      SeenListedOnce(init, event, i);
    }
  }

  lemma DeliveriesToAppend(a: seq<SubscriberId>, b: seq<SubscriberId>, event: Event)
    ensures DeliveriesTo(a + b, event) == DeliveriesTo(a, event) + DeliveriesTo(b, event)
  {}

  /** How often an event reaches a subscriber: once for its own list if the type fits, and
      once for the wildcard list. */
  lemma SeenOfOne(subs: Subscribers, event: Event, kind: string, i: nat)
    requires DistinctIds(subs) && kind in subs && i < |subs[kind]|
    ensures SeenBy(DeliveriesTo(Recipients(subs, event), event), subs[kind][i])
         == (if event.kind == kind then [event] else []) + (if kind == WILDCARD then [event] else [])
  {
    var id := subs[kind][i];
    var typed, wild := SubscribersOf(subs, event.kind), SubscribersOf(subs, WILDCARD);
    DeliveriesToAppend(typed, wild, event);
    SeenByAppends(DeliveriesTo(typed, event), DeliveriesTo(wild, event), id);
    SeenInList(subs, event, event.kind, kind, i);
    SeenInList(subs, event, WILDCARD, kind, i);
  }

  lemma SeenInList(subs: Subscribers, event: Event, list: string, kind: string, i: nat)
    requires DistinctIds(subs) && kind in subs && i < |subs[kind]|
    ensures SeenBy(DeliveriesTo(SubscribersOf(subs, list), event), subs[kind][i])
         == if list == kind then [event] else []
  {
    var ids := SubscribersOf(subs, list);
    if list == kind {
      SeenListedOnce(ids, event, i);
    } else {
      SeenNotListed(ids, event, subs[kind][i]);
    }
  }

  /** A subscriber to a type sees exactly the events of that type, each once, in order. */
  lemma {:induction false} TypeSubscriberSees(subs: Subscribers, events: seq<Event>, kind: string, i: nat)
    requires DistinctIds(subs) && kind in subs && kind != WILDCARD && i < |subs[kind]|
    ensures SeenBy(AllDeliveries(subs, events), subs[kind][i]) == OfKind(events, kind)
  {
    if events != [] {
      var init, last := events[..|events| - 1], events[|events| - 1];
      TypeSubscriberSees(subs, init, kind, i);
      SeenByAppends(AllDeliveries(subs, init), DeliveriesTo(Recipients(subs, last), last), subs[kind][i]);
      SeenOfOne(subs, last, kind, i);
    }
  }

  /** What a wildcard subscriber sees: an event published under the wildcard itself is in
      both lists, and arrives twice. */
  function Doubled(events: seq<Event>): seq<Event> {
    if events == [] then []
    else
      var last := events[|events| - 1];
      Doubled(events[..|events| - 1]) + if last.kind == WILDCARD then [last, last] else [last]
  }

  lemma {:induction false} WildcardSees(subs: Subscribers, events: seq<Event>, i: nat)
    requires DistinctIds(subs) && WILDCARD in subs && i < |subs[WILDCARD]|
    ensures SeenBy(AllDeliveries(subs, events), subs[WILDCARD][i]) == Doubled(events)
  {
    if events != [] {
      var init, last := events[..|events| - 1], events[|events| - 1];
      WildcardSees(subs, init, i);
      SeenByAppends(AllDeliveries(subs, init), DeliveriesTo(Recipients(subs, last), last), subs[WILDCARD][i]);
      SeenOfOne(subs, last, WILDCARD, i);
    }
  }

  lemma {:induction false} DoubledLength(events: seq<Event>)
    ensures |Doubled(events)| == |events| + |OfKind(events, WILDCARD)|
  {
    if events != [] {
      DoubledLength(events[..|events| - 1]);
    }
  }

  lemma NoneInPrefix(events: seq<Event>, kind: string)
    requires events != [] && OfKind(events, kind) == []
    ensures OfKind(events[..|events| - 1], kind) == [] && events[|events| - 1].kind != kind
  {
    var init, last := events[..|events| - 1], events[|events| - 1];
    assert |OfKind(events, kind)| == |OfKind(init, kind)| + if last.kind == kind then 1 else 0;
  }

  lemma {:induction false} NoneDoubled(events: seq<Event>)
    requires OfKind(events, WILDCARD) == []
    ensures Doubled(events) == events
  {
    if events != [] {
      var init, last := events[..|events| - 1], events[|events| - 1];
      NoneInPrefix(events, WILDCARD);
      NoneDoubled(init);
      assert Doubled(events) == init + [last];
      assert init + [last] == events;
    }
  }

  /** So it sees exactly the published events just when none was published under "*". */
  lemma WildcardSeesExactly(subs: Subscribers, events: seq<Event>, i: nat)
    requires DistinctIds(subs) && WILDCARD in subs && i < |subs[WILDCARD]|
    ensures SeenBy(AllDeliveries(subs, events), subs[WILDCARD][i]) == events <==> OfKind(events, WILDCARD) == []
  {
    WildcardSees(subs, events, i);
    DoubledLength(events);
    if OfKind(events, WILDCARD) == [] {
      NoneDoubled(events);
    }
  }

  /** One wildcard subscriber and one event under the wildcard: it arrives twice. */
  lemma WildcardSeesTwice(event: Event)
    requires event.kind == WILDCARD
    ensures SeenBy(AllDeliveries(map[WILDCARD := [0]], [event]), 0) == [event, event]
  {
    WildcardSees(map[WILDCARD := [0]], [event], 0);
    assert [event][..0] == [];
  }

  /** Everything delivered between two moments, for the events handled in between. */
  ghost predicate Delivered(before: seq<Delivery>, now: seq<Delivery>, subs: Subscribers, handled: seq<Event>) {
    now == before + AllDeliveries(subs, handled)
  }

  lemma DeliverOneMore(before: seq<Delivery>, now: seq<Delivery>, subs: Subscribers, handled: seq<Event>, event: Event)
    requires Delivered(before, now, subs, handled)
    ensures Delivered(before, now + DeliveriesTo(Recipients(subs, event), event), subs, handled + [event])
    ensures |AllDeliveries(subs, handled + [event])| == |AllDeliveries(subs, handled)| + |Recipients(subs, event)|
  {
    assert (handled + [event])[..|handled|] == handled;
  }

  // ---------- what callbacks publish ----------

  predicate Accepts(types: set<string>, fits: Event -> bool, event: Event) {
    (event.kind in types || event.kind == WILDCARD) && fits(event)
  }

  /** A callback publishes one event after another until one is refused: `publish` throws,
      and nothing in the callback catches it. */
  function AcceptedPart(types: set<string>, fits: Event -> bool, events: seq<Event>): seq<Event> {
    if events == [] || !Accepts(types, fits, events[0]) then []
    else [events[0]] + AcceptedPart(types, fits, events[1..])
  }

  function PublishedBy(types: set<string>, fits: Event -> bool, scripts: seq<seq<Event>>): seq<Event> {
    if scripts == [] then []
    else PublishedBy(types, fits, scripts[..|scripts| - 1]) + AcceptedPart(types, fits, scripts[|scripts| - 1])
  }

  lemma {:induction false} UpToFirstRefused(types: set<string>, fits: Event -> bool, events: seq<Event>, k: nat)
    requires k <= |events|
    requires forall i :: 0 <= i < k ==> (events[i].kind in types || events[i].kind == "*") && fits(events[i])
    requires k < |events| ==> (events[k].kind !in types && events[k].kind != "*") || !fits(events[k])
    ensures AcceptedPart(types, fits, events) == events[..k]
  {
    if k > 0 {
      UpToFirstRefused(types, fits, events[1..], k - 1);
      assert events[..k] == [events[0]] + events[1..][..k - 1];
    }
  }

  /** The callbacks' script and the publications accepted so far. */
  datatype Play = Play(script: seq<seq<Event>>, accepted: seq<Event>)

  /** One callback plays its entry; a script that has run out publishes nothing more. */
  function PlayOne(types: set<string>, fits: Event -> bool, p: Play): Play {
    if p.script == [] then p
    else Play(p.script[1..], p.accepted + AcceptedPart(types, fits, p.script[0]))
  }

  function PlayMany(types: set<string>, fits: Event -> bool, calls: nat, p: Play): Play {
    if calls == 0 then p else PlayOne(types, fits, PlayMany(types, fits, calls - 1, p))
  }

  lemma {:induction false} PlayAdds(types: set<string>, fits: Event -> bool, calls: nat, more: nat, p: Play)
    ensures PlayMany(types, fits, calls + more, p) == PlayMany(types, fits, more, PlayMany(types, fits, calls, p))
  {
    if more > 0 {
      PlayAdds(types, fits, calls, more - 1, p);
    }
  }

  lemma {:induction false} PlayKeeps(types: set<string>, fits: Event -> bool, calls: nat, p: Play)
    ensures p.accepted <= PlayMany(types, fits, calls, p).accepted
  {
    if calls > 0 {
      PlayKeeps(types, fits, calls - 1, p);
    }
  }

  /** How many entries of the script that many callbacks use up. */
  function Used(calls: nat, script: seq<seq<Event>>): (n: nat)
    ensures n <= |script|
  {
    if calls <= |script| then calls else |script|
  }

  /** What was accepted is what the callbacks published, in the order of their invocation. */
  lemma {:induction false} PlayedInOrder(types: set<string>, fits: Event -> bool, calls: nat, p: Play)
    ensures var n := Used(calls, p.script);
            PlayMany(types, fits, calls, p) ==
            Play(p.script[n..], p.accepted + PublishedBy(types, fits, p.script[..n]))
  {
    if calls > 0 {
      PlayedInOrder(types, fits, calls - 1, p);
      if calls <= |p.script| {
        assert p.script[..calls][..calls - 1] == p.script[..calls - 1];
      }
    }
  }

  // ---------- draining the queue ----------

  lemma {:induction false} PlayShrinks(types: set<string>, fits: Event -> bool, calls: nat, p: Play)
    ensures var after := PlayMany(types, fits, calls, p);
            |after.script| < |p.script| || (after.script == p.script && after.accepted == p.accepted)
  {
    if calls > 0 {
      PlayShrinks(types, fits, calls - 1, p);
    }
  }

  /** What is handled until the queue is empty, in order, and what is left of the script: the
      first event goes to its recipients, and what their callbacks publish goes to the end
      of the queue. */
  function Drain(types: set<string>, fits: Event -> bool, subs: Subscribers, queue: seq<Event>,
                 script: seq<seq<Event>>): Play
    decreases |script|, |queue|
  {
    if queue == [] then Play(script, [])
    else
      var p := Play(script, queue[1..]);
      var after := PlayMany(types, fits, |Recipients(subs, queue[0])|, p);
      PlayShrinks(types, fits, |Recipients(subs, queue[0])|, p);
      Before(queue[0], Drain(types, fits, subs, after.accepted, after.script))
  }

  function Before(event: Event, rest: Play): Play {
    Play(rest.script, [event] + rest.accepted)
  }

  /** One round of the loop hands the rest of the work on. */
  lemma DrainNext(types: set<string>, fits: Event -> bool, subs: Subscribers, queue: seq<Event>,
                  script: seq<seq<Event>>, queue': seq<Event>, script': seq<seq<Event>>)
    requires queue != []
    requires Play(script', queue') ==
             PlayMany(types, fits, |Recipients(subs, queue[0])|, Play(script, queue[1..]))
    ensures Drain(types, fits, subs, queue, script) == Before(queue[0], Drain(types, fits, subs, queue', script'))
  {
  }

  lemma OneMoreHandled(all: Play, handled: seq<Event>, event: Event, rest: Play, rest': Play)
    requires all == Play(rest.script, handled + rest.accepted) && rest == Before(event, rest')
    ensures all == Play(rest'.script, (handled + [event]) + rest'.accepted)
  {
  }

  /** What was accepted before does not matter to what callbacks add. */
  lemma {:induction false} PlayShifts(types: set<string>, fits: Event -> bool, calls: nat, script: seq<seq<Event>>,
                                      before: seq<Event>, queue: seq<Event>)
    ensures var after := PlayMany(types, fits, calls, Play(script, queue));
            PlayMany(types, fits, calls, Play(script, before + queue)) == Play(after.script, before + after.accepted)
  {
    if calls > 0 {
      PlayShifts(types, fits, calls - 1, script, before, queue);
      var q := PlayMany(types, fits, calls - 1, Play(script, queue));
      if q.script != [] {
        var more := AcceptedPart(types, fits, q.script[0]);
        assert (before + q.accepted) + more == before + (q.accepted + more);
      }
    }
  }

  /** So the queue, the end of what was accepted, grows the same way. */
  lemma QueuePlays(types: set<string>, fits: Event -> bool, calls: nat, script: seq<seq<Event>>, before: seq<Event>,
                   queue: seq<Event>, script': seq<seq<Event>>, queue': seq<Event>)
    requires Play(script', before + queue') == PlayMany(types, fits, calls, Play(script, before + queue))
    ensures Play(script', queue') == PlayMany(types, fits, calls, Play(script, queue))
  {
    PlayShifts(types, fits, calls, script, before, queue);
    var after := PlayMany(types, fits, calls, Play(script, queue));
    assert queue' == (before + queue')[|before|..] && after.accepted == (before + after.accepted)[|before|..];
  }

  lemma {:induction false} AllDeliveriesOfFirst(subs: Subscribers, event: Event, events: seq<Event>)
    ensures |AllDeliveries(subs, [event] + events)| == |Recipients(subs, event)| + |AllDeliveries(subs, events)|
  {
    if events == [] {
      assert [event] + events == [event] && [event][..0] == [];
    } else {
      var init, last, all := events[..|events| - 1], events[|events| - 1], [event] + events;
      AllDeliveriesOfFirst(subs, event, init);
      assert all[..|all| - 1] == [event] + init && all[|all| - 1] == last;
      assert |AllDeliveries(subs, all)| == |AllDeliveries(subs, [event] + init)| + |Recipients(subs, last)|;
    }
  }

  /** All that is handled is the queue and then what the callbacks of all the deliveries
      publish, one after the other. */
  lemma {:induction false} DrainPlays(types: set<string>, fits: Event -> bool, subs: Subscribers, queue: seq<Event>,
                                      script: seq<seq<Event>>)
    ensures var drained := Drain(types, fits, subs, queue, script);
            PlayMany(types, fits, |AllDeliveries(subs, drained.accepted)|, Play(script, queue)) == drained
    decreases |script|, |queue|
  {
    if queue != [] {
      var p := Play(script, queue[1..]);
      var after := PlayMany(types, fits, |Recipients(subs, queue[0])|, p);
      PlayShrinks(types, fits, |Recipients(subs, queue[0])|, p);
      DrainPlays(types, fits, subs, after.accepted, after.script);
      PlaysThrough(types, fits, subs, queue, script, after, Drain(types, fits, subs, after.accepted, after.script));
    }
  }

  lemma PlaysThrough(types: set<string>, fits: Event -> bool, subs: Subscribers, queue: seq<Event>,
                     script: seq<seq<Event>>, after: Play, rest: Play)
    requires queue != []
    requires after == PlayMany(types, fits, |Recipients(subs, queue[0])|, Play(script, queue[1..]))
    requires rest == PlayMany(types, fits, |AllDeliveries(subs, rest.accepted)|, after)
    ensures PlayMany(types, fits, |AllDeliveries(subs, [queue[0]] + rest.accepted)|, Play(script, queue)) ==
            Before(queue[0], rest)
  {
    var first, more := |Recipients(subs, queue[0])|, |AllDeliveries(subs, rest.accepted)|;
    AllDeliveriesOfFirst(subs, queue[0], rest.accepted);
    PlayAdds(types, fits, first, more, Play(script, queue));
    assert [queue[0]] + queue[1..] == queue;
    PlayShifts(types, fits, first, script, [queue[0]], queue[1..]);
    PlayShifts(types, fits, more, after.script, [queue[0]], after.accepted);
  }

  /** One publication from outside the callbacks handles that event, and then what all the
      callbacks it leads to publish, in the order of their invocation. */
  lemma DrainedInOrder(types: set<string>, fits: Event -> bool, subs: Subscribers, event: Event,
                       script: seq<seq<Event>>)
    ensures var drained := Drain(types, fits, subs, [event], script);
            var n := Used(|AllDeliveries(subs, drained.accepted)|, script);
            drained == Play(script[n..], [event] + PublishedBy(types, fits, script[..n]))
  {
    var drained := Drain(types, fits, subs, [event], script);
    DrainPlays(types, fits, subs, [event], script);
    PlayedInOrder(types, fits, |AllDeliveries(subs, drained.accepted)|, Play(script, [event]));
  }

  // ---------- subscriptions ----------

  ghost predicate IdsBelow(subs: Subscribers, bound: nat) {
    forall k, i :: k in subs && 0 <= i < |subs[k]| ==> subs[k][i] < bound
  }

  lemma FreshIdKeepsDistinct(subs: Subscribers, kind: string, id: SubscriberId)
    requires DistinctIds(subs) && IdsBelow(subs, id)
    ensures DistinctIds(subs[kind := SubscribersOf(subs, kind) + [id]])
    ensures IdsBelow(subs[kind := SubscribersOf(subs, kind) + [id]], id + 1)
  {
    var ids := SubscribersOf(subs, kind) + [id];
    var after := subs[kind := ids];
    forall k, i | k in after && 0 <= i < |after[k]|
      ensures (after[k][i] == id && k == kind && i == |ids| - 1) ||
              (k in subs && i < |subs[k]| && after[k][i] == subs[k][i])
    {}
  }

  function Without(ids: seq<SubscriberId>, id: SubscriberId): seq<SubscriberId> {
    if ids == [] then [] else (if ids[0] == id then [] else [ids[0]]) + Without(ids[1..], id)
  }

  /** The list of a type goes with its last subscriber. */
  function Unsubscribed(subs: Subscribers, kind: string, id: SubscriberId): Subscribers {
    if kind !in subs then subs
    else
      var rest := Without(subs[kind], id);
      if rest == [] then subs - {kind} else subs[kind := rest]
  }

  ghost predicate NoRepeats(ids: seq<SubscriberId>) {
    forall i, j :: 0 <= i < |ids| && 0 <= j < |ids| && ids[i] == ids[j] ==> i == j
  }

  lemma {:induction false} WithoutKeeps(ids: seq<SubscriberId>, id: SubscriberId)
    requires NoRepeats(ids)
    ensures forall x :: x in Without(ids, id) <==> x in ids && x != id
    ensures NoRepeats(Without(ids, id))
  {
    if ids != [] {
      var tail := Without(ids[1..], id);
      WithoutKeeps(ids[1..], id);
      assert ids[0] !in tail by {
        assert forall k :: 1 <= k < |ids| ==> ids[k] != ids[0];
      }
    }
  }

  lemma UnsubscribingKeepsDistinct(subs: Subscribers, kind: string, id: SubscriberId, bound: nat)
    requires DistinctIds(subs) && IdsBelow(subs, bound)
    ensures DistinctIds(Unsubscribed(subs, kind, id)) && IdsBelow(Unsubscribed(subs, kind, id), bound)
  {
    if kind in subs {
      WithoutKeeps(subs[kind], id);
      var after := Unsubscribed(subs, kind, id);
      forall k, i | k in after && 0 <= i < |after[k]|
        ensures k in subs && after[k][i] in subs[k]
      {
        assert after[k][i] in after[k];
      }
      forall k, l, i, j | k in after && l in after && 0 <= i < |after[k]| && 0 <= j < |after[l]| &&
                          after[k][i] == after[l][j]
        ensures k == l && i == j
      {
        ListedOnce(subs, after[k][i], k, l);
        assert NoRepeats(after[k]);
      }
    }
  }

  lemma ListedOnce(subs: Subscribers, id: SubscriberId, k: string, l: string)
    requires DistinctIds(subs) && k in subs && l in subs && id in subs[k] && id in subs[l]
    ensures k == l && NoRepeats(subs[k])
  {
  }

  // ---------- what the calls do ----------

  datatype State = State(subs: Subscribers, nextId: SubscriberId, accepted: seq<Event>, deliveries: seq<Delivery>)

  /** A call from outside the callbacks; what these will publish comes with the event. */
  datatype Command =
    | SubscribeTo(kind: string)
    | UnsubscribeFrom(kind: string, id: SubscriberId)
    | PublishNow(event: Event, script: seq<seq<Event>>)

  function Step(types: set<string>, fits: Event -> bool, s: State, command: Command): State {
    match command
    case SubscribeTo(kind) =>
      if kind in types || kind == WILDCARD then
        s.(subs := s.subs[kind := SubscribersOf(s.subs, kind) + [s.nextId]], nextId := s.nextId + 1)
      else s
    case UnsubscribeFrom(kind, id) => s.(subs := Unsubscribed(s.subs, kind, id))
    case PublishNow(event, script) =>
      if Accepts(types, fits, event) then
        var handled := Drain(types, fits, s.subs, [event], script).accepted;
        s.(accepted := s.accepted + handled, deliveries := s.deliveries + AllDeliveries(s.subs, handled))
      else s
  }

  // ---------- the classes ----------

  /** What the callbacks still to be invoked publish, one entry for each. */
  class Script {
    var remaining: seq<seq<Event>>

    constructor (remaining: seq<seq<Event>>)
      ensures this.remaining == remaining
    {
      this.remaining := remaining;
    }

    method Next() returns (published: seq<Event>)
      modifies this
      ensures if old(remaining) == [] then published == [] && remaining == []
              else published == old(remaining)[0] && remaining == old(remaining)[1..]
    {
      if remaining == [] {
        return [];
      }
      published, remaining := remaining[0], remaining[1..];
    }
  }

  class EventSystem {
    var subscribers: Subscribers
    var eventTypes: set<string>
    var eventHistory: seq<Event>
    const maxHistorySize: nat
    var eventQueue: seq<Event>
    var processingQueue: bool
    var nextId: SubscriberId
    /** The schema check, for types that have a schema. */
    const fitsSchema: Event -> bool

    ghost var accepted: seq<Event>      // every publication accepted so far
    ghost var dispatched: seq<Event>    // those taken from the queue
    ghost var deliveries: seq<Delivery> // every callback invoked so far

    ghost function View(): State
      reads this
    {
      State(subscribers, nextId, accepted, deliveries)
    }

    /** Accepted publications are the dispatched ones and then the queued ones, in order,
        and the history is the last of them. */
    ghost predicate Consistent()
      reads this
    {
      accepted == dispatched + eventQueue && eventHistory == Last(accepted, maxHistorySize) && maxHistorySize > 0
    }

    /** Between calls nothing waits, unless an event is being processed. */
    ghost predicate Settled()
      reads this
    {
      Consistent() && (!processingQueue ==> eventQueue == [])
    }

    ghost predicate Valid()
      reads this
    {
      Settled() && DistinctIds(subscribers) && IdsBelow(subscribers, nextId)
    }

    constructor (eventTypes: set<string>, maxHistorySize: nat, fitsSchema: Event -> bool)
      ensures Valid() && !processingQueue && accepted == [] && deliveries == [] && subscribers == map[]
      ensures this.eventTypes == eventTypes && this.fitsSchema == fitsSchema
      ensures this.maxHistorySize == if maxHistorySize == 0 then 10000 else maxHistorySize
    {
      subscribers, this.eventTypes, eventHistory, eventQueue, processingQueue := map[], eventTypes, [], [], false;
      this.maxHistorySize := if maxHistorySize == 0 then 10000 else maxHistorySize;
      this.fitsSchema := fitsSchema;
      nextId := 0;
      accepted, dispatched, deliveries := [], [], [];
    }

    /** Appends a fresh id to the list of the type; an unregistered type is refused. */
    method Subscribe(kind: string) returns (registered: bool, id: SubscriberId)
      requires Valid()
      modifies this`subscribers, this`nextId
      ensures Valid() && View() == Step(eventTypes, fitsSchema, old(View()), SubscribeTo(kind))
      ensures registered <==> kind in eventTypes || kind == "*"
      ensures !registered ==> subscribers == old(subscribers) && nextId == old(nextId)
      ensures registered ==>
        id == old(nextId) && nextId == id + 1 && subscribers.Keys == old(subscribers).Keys + {kind} &&
        subscribers[kind] == (if kind in old(subscribers) then old(subscribers)[kind] else []) + [id] &&
        forall k :: k in old(subscribers) && k != kind ==> subscribers[k] == old(subscribers)[k]
    {
      id := nextId;
      if kind !in eventTypes && kind != WILDCARD {
        return false, id;
      }
      FreshIdKeepsDistinct(subscribers, kind, id);
      ghost var extended := subscribers[kind := SubscribersOf(subscribers, kind) + [id]];
      if kind !in subscribers {
        subscribers := subscribers[kind := []];
      }
      subscribers := subscribers[kind := subscribers[kind] + [id]];
      assert subscribers == extended;
      nextId := nextId + 1;
      return true, id;
    }

    method Unsubscribe(kind: string, id: SubscriberId)
      requires Valid()
      modifies this`subscribers
      ensures Valid() && View() == Step(eventTypes, fitsSchema, old(View()), UnsubscribeFrom(kind, id))
    {
      UnsubscribingKeepsDistinct(subscribers, kind, id, nextId);
      if kind in subscribers {
        subscribers := subscribers[kind := Without(subscribers[kind], id)];
        if |subscribers[kind]| == 0 {
          subscribers := subscribers - {kind};
        }
      }
    }

    /** Inside a callback the event is only queued; outside, everything that this
        publication sets off has been delivered on return. */
    method Publish(event: Event, env: Script) returns (ok: bool)
      requires Settled()
      modifies this`eventHistory, this`eventQueue, this`processingQueue, this`accepted, this`dispatched,
               this`deliveries, env
      ensures Settled() && processingQueue == old(processingQueue)
      ensures ok <==> (event.kind in eventTypes || event.kind == "*") && fitsSchema(event)
      ensures !ok ==> accepted == old(accepted) && deliveries == old(deliveries) && env.remaining == old(env.remaining)
      ensures old(processingQueue) ==>
        dispatched == old(dispatched) && deliveries == old(deliveries) && env.remaining == old(env.remaining)
      ensures old(processingQueue) && ok ==> accepted == old(accepted) + [event]
      ensures !old(processingQueue) ==>
        eventQueue == [] && View() == Step(eventTypes, fitsSchema, old(View()), PublishNow(event, old(env.remaining)))
      ensures !old(processingQueue) && ok ==>
        env.remaining == Drain(eventTypes, fitsSchema, subscribers, [event], old(env.remaining)).script
      decreases |env.remaining|, 3
    {
      if event.kind !in eventTypes && event.kind != WILDCARD {
        return false;
      }
      if !fitsSchema(event) {
        return false;
      }
      assert eventQueue == [] ==> dispatched + eventQueue == dispatched && eventQueue + [event] == [event];
      Enqueue(event);
      ProcessQueue(env);
      ok := true;
    }

    method Enqueue(event: Event)
      requires Consistent()
      modifies this`eventHistory, this`eventQueue, this`accepted
      ensures Consistent() && accepted == old(accepted) + [event] && eventQueue == old(eventQueue) + [event]
    {
      eventHistory := eventHistory + [event];
      if |eventHistory| > maxHistorySize {
        eventHistory := eventHistory[1..];
      }
      eventQueue := eventQueue + [event];
      accepted := accepted + [event];
    }

    method ProcessQueue(env: Script)
      requires Consistent()
      modifies this`eventHistory, this`eventQueue, this`processingQueue, this`accepted, this`dispatched,
               this`deliveries, env
      ensures Consistent() && processingQueue == old(processingQueue)
      ensures old(processingQueue) ==>
        accepted == old(accepted) && dispatched == old(dispatched) && deliveries == old(deliveries) &&
        eventQueue == old(eventQueue) && env.remaining == old(env.remaining)
      ensures !old(processingQueue) ==>
        var drained := Drain(eventTypes, fitsSchema, subscribers, old(eventQueue), old(env.remaining));
        eventQueue == [] && env.remaining == drained.script && accepted == old(dispatched) + drained.accepted &&
        Delivered(old(deliveries), deliveries, subscribers, drained.accepted)
      decreases |env.remaining|, 2
    {
      if processingQueue {
        return;
      }
      processingQueue := true;
      ghost var all := Drain(eventTypes, fitsSchema, subscribers, eventQueue, env.remaining);
      ghost var handled, left := [], all;
      while |eventQueue| > 0
        invariant Consistent() && processingQueue && dispatched == old(dispatched) + handled
        invariant Delivered(old(deliveries), deliveries, subscribers, handled)
        invariant all == Play(left.script, handled + left.accepted)
        invariant left == Drain(eventTypes, fitsSchema, subscribers, eventQueue, env.remaining)
        decreases |env.remaining|, |eventQueue|
      {
        ghost var now := deliveries;
        ghost var event := ProcessNext(env);
        DeliverOneMore(old(deliveries), now, subscribers, handled, event);
        ghost var left' := Drain(eventTypes, fitsSchema, subscribers, eventQueue, env.remaining);
        OneMoreHandled(all, handled, event, left, left');
        left := left';
        handled := handled + [event];
      }
      assert left == Play(env.remaining, []) && handled + [] == handled;
      processingQueue := false;
    }

    method ProcessNext(env: Script) returns (ghost event: Event)
      requires Consistent() && processingQueue && eventQueue != []
      modifies this`eventHistory, this`eventQueue, this`processingQueue, this`accepted, this`dispatched,
               this`deliveries, env
      ensures Consistent() && processingQueue && dispatched == old(dispatched) + [event]
      ensures Drain(eventTypes, fitsSchema, subscribers, old(eventQueue), old(env.remaining))
           == Before(event, Drain(eventTypes, fitsSchema, subscribers, eventQueue, env.remaining))
      ensures deliveries == old(deliveries) + DeliveriesTo(Recipients(subscribers, event), event)
      ensures Play(env.remaining, accepted) ==
          PlayMany(eventTypes, fitsSchema, |Recipients(subscribers, event)|, Play(old(env.remaining), old(accepted)))
      ensures |env.remaining| <= old(|env.remaining|)
      ensures |env.remaining| == old(|env.remaining|) ==> |eventQueue| < old(|eventQueue|)
      decreases |env.remaining|, 1, 2
    {
      var next := eventQueue[0];
      event := next;
      eventQueue := eventQueue[1..];
      dispatched := dispatched + [next];
      ghost var rest := eventQueue;
      assert accepted == dispatched + rest;
      Dispatch(next, env);
      QueuePlays(eventTypes, fitsSchema, |Recipients(subscribers, event)|, old(env.remaining), dispatched, rest,
                 env.remaining, eventQueue);
      DrainNext(eventTypes, fitsSchema, subscribers, old(eventQueue), old(env.remaining), eventQueue, env.remaining);
    }

    /** Notifies the subscribers to the type, then the wildcard subscribers. */
    method Dispatch(event: Event, env: Script)
      requires Consistent() && processingQueue
      modifies this`eventHistory, this`eventQueue, this`processingQueue, this`accepted, this`dispatched,
               this`deliveries, env
      ensures Consistent() && processingQueue && dispatched == old(dispatched)
      ensures deliveries == old(deliveries) + DeliveriesTo(Recipients(subscribers, event), event)
      ensures Play(env.remaining, accepted) ==
          PlayMany(eventTypes, fitsSchema, |Recipients(subscribers, event)|, Play(old(env.remaining), old(accepted)))
      ensures |env.remaining| <= old(|env.remaining|)
      ensures |env.remaining| == old(|env.remaining|) ==> eventQueue == old(eventQueue)
      decreases |env.remaining|, 1, 1
    {
      var typed, wild := SubscribersOf(subscribers, event.kind), SubscribersOf(subscribers, WILDCARD);
      NotifyAll(typed, event, env);
      NotifyAll(wild, event, env);
      PlayAdds(eventTypes, fitsSchema, |typed|, |wild|, Play(old(env.remaining), old(accepted)));
      DeliveriesToAppend(typed, wild, event);
    }

    method NotifyAll(ids: seq<SubscriberId>, event: Event, env: Script)
      requires Consistent() && processingQueue
      modifies this`eventHistory, this`eventQueue, this`processingQueue, this`accepted, this`dispatched,
               this`deliveries, env
      ensures Consistent() && processingQueue && dispatched == old(dispatched)
      ensures deliveries == old(deliveries) + DeliveriesTo(ids, event)
      ensures Play(env.remaining, accepted) ==
          PlayMany(eventTypes, fitsSchema, |ids|, Play(old(env.remaining), old(accepted)))
      ensures |env.remaining| <= old(|env.remaining|)
      ensures |env.remaining| == old(|env.remaining|) ==> eventQueue == old(eventQueue)
      decreases |env.remaining|, 1, 0
    {
      for i := 0 to |ids|
        invariant Consistent() && processingQueue && dispatched == old(dispatched)
        invariant deliveries == old(deliveries) + DeliveriesTo(ids[..i], event)
        invariant Play(env.remaining, accepted) ==
          PlayMany(eventTypes, fitsSchema, i, Play(old(env.remaining), old(accepted)))
        invariant |env.remaining| <= old(|env.remaining|)
        invariant |env.remaining| == old(|env.remaining|) ==> eventQueue == old(eventQueue)
      {
        InvokeCallback(ids[i], event, env);
        PlayAdds(eventTypes, fitsSchema, i, 1, Play(old(env.remaining), old(accepted)));
        assert DeliveriesTo(ids[..i + 1], event) == DeliveriesTo(ids[..i], event) + [Delivery(ids[i], event)];
      }
      assert ids[..|ids|] == ids;
    }

    /** The callback publishes what the script says, up to a publication that throws. */
    method InvokeCallback(id: SubscriberId, event: Event, env: Script)
      requires Consistent() && processingQueue
      modifies this`eventHistory, this`eventQueue, this`processingQueue, this`accepted, this`dispatched,
               this`deliveries, env
      ensures Consistent() && processingQueue && dispatched == old(dispatched)
      ensures deliveries == old(deliveries) + [Delivery(id, event)]
      ensures Play(env.remaining, accepted) ==
          PlayMany(eventTypes, fitsSchema, 1, Play(old(env.remaining), old(accepted)))
      ensures |env.remaining| <= old(|env.remaining|)
      ensures |env.remaining| == old(|env.remaining|) ==> eventQueue == old(eventQueue)
      decreases |env.remaining|, 0
    {
      deliveries := deliveries + [Delivery(id, event)];
      var published := env.Next();
      if published != [] {
        PublishAll(published, env);
      }
    }

    method PublishAll(published: seq<Event>, env: Script)
      requires Consistent() && processingQueue
      modifies this`eventHistory, this`eventQueue, this`processingQueue, this`accepted, this`dispatched,
               this`deliveries, env
      ensures Consistent() && processingQueue && dispatched == old(dispatched) && deliveries == old(deliveries)
      ensures env.remaining == old(env.remaining)
      ensures accepted == old(accepted) + AcceptedPart(eventTypes, fitsSchema, published)
      decreases |env.remaining|, 4
    {
      var k := 0;
      while k < |published|
        invariant k <= |published| && Consistent() && processingQueue && env.remaining == old(env.remaining)
        invariant dispatched == old(dispatched) && deliveries == old(deliveries)
        invariant accepted == old(accepted) + published[..k]
        invariant forall i :: 0 <= i < k ==> Accepts(eventTypes, fitsSchema, published[i])
      {
        var ok := Publish(published[k], env);
        if !ok {
          break;
        }
        k := k + 1;
      }
      UpToFirstRefused(eventTypes, fitsSchema, published, k);
    }
  }
}
