/**
 What single calls of the event system do (src/runtime/events.js), written out: the
 subscribers to the type are served before the wildcard ones, each in the order of their
 subscription (`NextDelivered`), and unsubscribing takes one of them out (`UnsubscribedExactly`).
 */
module EventCalls {
  import opened Events

  /** Handling one more event adds one delivery for each subscriber to its type and then one
      for each wildcard subscriber. */
  lemma NextDelivered(subs: Subscribers, events: seq<Event>, event: Event)
    ensures AllDeliveries(subs, []) == []
    ensures var typed := if event.kind in subs then subs[event.kind] else [];
            var wild := if "*" in subs then subs["*"] else [];
            var before, after := AllDeliveries(subs, events), AllDeliveries(subs, events + [event]);
            |after| == |before| + |typed| + |wild| && before <= after &&
            (forall i :: 0 <= i < |typed| ==> after[|before|..][i] == Delivery(typed[i], event)) &&
            forall i :: 0 <= i < |wild| ==> after[|before| + |typed|..][i] == Delivery(wild[i], event)
  {
    assert (events + [event])[..|events|] == events;
  }

  /** The history is made of the most recent publications. */
  lemma RecentHistory(s: seq<Event>, n: nat)
    ensures |s| <= n ==> Last(s, n) == s
    ensures |s| > n ==> |Last(s, n)| == n && forall i :: 0 <= i < n ==> Last(s, n)[i] == s[|s| - n + i]
  {
  }

  lemma HandledFirst(types: set<string>, fits: Event -> bool, subs: Subscribers, event: Event,
                     script: seq<seq<Event>>) returns (handled: seq<Event>)
    ensures handled == Drain(types, fits, subs, [event], script).accepted
    ensures handled != [] && handled == [event] + handled[1..]
  {
    DrainedInOrder(types, fits, subs, event, script);
    handled := Drain(types, fits, subs, [event], script).accepted;
  }

  /** A publication of an unregistered type or against the schema changes nothing.  Any other is
      the next accepted event, and it and all that it leads to have been delivered. */
  lemma PublishedExactly(types: set<string>, fits: Event -> bool, s: State, event: Event, script: seq<seq<Event>>)
    ensures var after := Step(types, fits, s, PublishNow(event, script));
            after.subs == s.subs && after.nextId == s.nextId &&
            if (event.kind in types || event.kind == "*") && fits(event) then
              s.accepted + [event] <= after.accepted &&
              after.deliveries == s.deliveries + AllDeliveries(s.subs, after.accepted[|s.accepted|..])
            else after == s
  {
    if (event.kind in types || event.kind == "*") && fits(event) {
      var handled := HandledFirst(types, fits, s.subs, event, script);
      assert (s.accepted + handled)[|s.accepted|..] == handled;
      assert s.accepted + handled == (s.accepted + [event]) + handled[1..];
    }
  }

  lemma {:induction false} WithoutAbsent(ids: seq<SubscriberId>, id: SubscriberId)
    requires id !in ids
    ensures Without(ids, id) == ids
  {
    if ids != [] {
      WithoutAbsent(ids[1..], id);
    }
  }

  lemma {:induction false} WithoutOne(before: seq<SubscriberId>, id: SubscriberId, after: seq<SubscriberId>)
    requires id !in before && id !in after
    ensures Without(before + [id] + after, id) == before + after
  {
    var ids := before + [id] + after;
    if before == [] {
      assert ids[1..] == after && before + after == after;
      WithoutAbsent(after, id);
    } else {
      assert ids[1..] == before[1..] + [id] + after;
      WithoutOne(before[1..], id, after);
      assert before + after == [before[0]] + (before[1..] + after);
    }
  }

  /** Unsubscribing takes the id out and keeps the order of the others; a list without
      subscribers goes.  An id that is not in the list changes nothing. */
  lemma UnsubscribedExactly(types: set<string>, fits: Event -> bool, s: State, kind: string,
                            before: seq<SubscriberId>, id: SubscriberId, after: seq<SubscriberId>)
    requires DistinctIds(s.subs)
    requires kind in s.subs && s.subs[kind] == before + [id] + after
    ensures var left := before + after;
            Step(types, fits, s, UnsubscribeFrom(kind, id)) ==
            s.(subs := if left == [] then s.subs - {kind} else s.subs[kind := left])
    ensures forall x :: x !in s.subs[kind] ==> Step(types, fits, s, UnsubscribeFrom(kind, x)) == s
  {
    var ids := s.subs[kind];
    assert ids[|before|] == id;
    forall i | 0 <= i < |ids| && ids[i] == id
      ensures i == |before|
    {}
    assert forall i :: 0 <= i < |before| ==> ids[i] == before[i];
    assert forall i :: 0 <= i < |after| ==> ids[|before| + 1 + i] == after[i];
    WithoutOne(before, id, after);
    forall x | x !in ids
      ensures Step(types, fits, s, UnsubscribeFrom(kind, x)) == s
    {
      WithoutAbsent(ids, x);
      assert s.subs[kind := ids] == s.subs;
    }
  }
}
