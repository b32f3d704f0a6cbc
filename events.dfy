/** The per-user event store of the agenda app: each user's events are one
    list stored under the key `events_<userId>`. */
module Events {
  import Seqs
  import Decimal

  datatype Category = Personal | Work | Study | Meeting | Other

  datatype Event = Event(id: string, title: string, category: Category, participants: string, date: string)

  /** The storage key of a user's list. */
  function EventsKey(userId: string): string
  {
    "events_" + userId
  }

  /** Different users never share a storage key. */
  lemma EventsKeyInjective(a: string, b: string)
    ensures EventsKey(a) == EventsKey(b) <==> a == b
  {
    if EventsKey(a) == EventsKey(b) {
      assert EventsKey(a)[7..] == a;
      assert EventsKey(b)[7..] == b;
    }
  }

  /** The `map` of `updateEvent`: every event whose id is `eventId` becomes
      `{...updated, id: eventId}`; every other event is kept as it is. */
  function Replace(events: seq<Event>, eventId: string, updated: Event): (r: seq<Event>)
    ensures |r| == |events|
    ensures forall i :: 0 <= i < |events| && events[i].id == eventId ==> r[i] == updated.(id := eventId)
    ensures forall i :: 0 <= i < |events| && events[i].id != eventId ==> r[i] == events[i]
  {
    if events == [] then []
    else
      var rest := Replace(events[1..], eventId, updated);
      assert forall i :: 1 <= i < |events| ==> events[i] == events[1..][i - 1];
      [if events[0].id == eventId then updated.(id := eventId) else events[0]] + rest
  }

  /** The predicate `event => event.id !== eventId`. */
  function NotId(eventId: string): Event -> bool
  {
    (e: Event) => e.id != eventId
  }

  /** The `filter` of `deleteEvent`: the events whose id is not `eventId`. */
  function Remove(events: seq<Event>, eventId: string): (r: seq<Event>)
    ensures forall i :: 0 <= i < |r| ==> r[i].id != eventId && r[i] in events
    ensures forall i :: 0 <= i < |events| && events[i].id != eventId ==> events[i] in r
    ensures forall e :: multiset(r)[e] == if e.id != eventId then multiset(events)[e] else 0
  {
    Seqs.FilterMultiset(NotId(eventId), events);
    Seqs.Filter(NotId(eventId), events)
  }

  /** Updating keeps every event's id, so it also keeps which events match. */
  lemma ReplaceKeepsIds(events: seq<Event>, eventId: string, updated: Event)
    ensures forall i :: 0 <= i < |events| ==> Replace(events, eventId, updated)[i].id == events[i].id
  {
  }

  /** Updating an id that is not in the list leaves the list as it was. */
  lemma ReplaceAbsent(events: seq<Event>, eventId: string, updated: Event)
    requires forall i :: 0 <= i < |events| ==> events[i].id != eventId
    ensures Replace(events, eventId, updated) == events
  {
  }

  /** Applying the same update twice is the same as applying it once. */
  lemma ReplaceIdempotent(events: seq<Event>, eventId: string, updated: Event)
    ensures Replace(Replace(events, eventId, updated), eventId, updated) == Replace(events, eventId, updated)
  {
  }

  /** Deleting an id that is not in the list leaves the list as it was. */
  lemma RemoveAbsent(events: seq<Event>, eventId: string)
    requires forall i :: 0 <= i < |events| ==> events[i].id != eventId
    ensures Remove(events, eventId) == events
  {
    Seqs.FilterKeepsAll(NotId(eventId), events);
  }

  /** Deleting twice is the same as deleting once. */
  lemma RemoveIdempotent(events: seq<Event>, eventId: string)
    ensures Remove(Remove(events, eventId), eventId) == Remove(events, eventId)
  {
    Seqs.FilterIdempotent(NotId(eventId), events);
  }

  /** The survivors keep their relative order, and deleting a present id
      shortens the list. */
  lemma RemoveKeepsOrder(events: seq<Event>, eventId: string)
    ensures Seqs.IsSubsequence(Remove(events, eventId), events)
    ensures (exists k :: 0 <= k < |events| && events[k].id == eventId) ==> |Remove(events, eventId)| < |events|
  {
    Seqs.FilterIsSubsequence(NotId(eventId), events);
    if k :| 0 <= k < |events| && events[k].id == eventId {
      Seqs.FilterDropsSome(NotId(eventId), events, k);
    }
  }

  class EventStore {
    /** The storage keys `events_<userId>` that have been written, with their lists. */
    var lists: map<string, seq<Event>>

    /** A store in which no user has events yet. */
    constructor ()
      ensures lists == map[]
    {
      lists := map[];
    }

    /** What `loadEvents` yields for a user: the stored list, or `[]` when the key is absent. */
    function Stored(userId: string): seq<Event>
      reads this
    {
      if EventsKey(userId) in lists then lists[EventsKey(userId)] else []
    }

    /** `saveEvents`: writes the user's key and no other. */
    method SaveEvents(userId: string, events: seq<Event>)
      modifies this
      ensures lists == old(lists)[EventsKey(userId) := events]
      ensures Stored(userId) == events
      ensures forall other :: other != userId ==> Stored(other) == old(Stored(other))
    {
      lists := lists[EventsKey(userId) := events];
      forall other | other != userId
        ensures Stored(other) == old(Stored(other))
      {
        EventsKeyInjective(other, userId);
      }
    }

    /** `loadEvents`: the stored list, and the empty list for a user with no key. */
    method LoadEvents(userId: string) returns (events: seq<Event>)
      ensures EventsKey(userId) !in lists ==> events == []
      ensures EventsKey(userId) in lists ==> events == lists[EventsKey(userId)]
    {
      var key := EventsKey(userId);
      if key in lists {
        events := lists[key];
      } else {
        events := [];
      }
    }

    /** `addEvent`: appends the draft with its id replaced by the timestamp
        string, stores the list and returns it. */
    method AddEvent(userId: string, newEvent: Event, now: nat) returns (events: seq<Event>)
      modifies this
      ensures events == old(Stored(userId)) + [newEvent.(id := Decimal.ToDecimal(now))]
      ensures Stored(userId) == events
      ensures forall other :: other != userId ==> Stored(other) == old(Stored(other))
    {
      events := LoadEvents(userId);
      events := events + [newEvent.(id := Decimal.ToDecimal(now))];
      SaveEvents(userId, events);
    }

    /** `updateEvent`: replaces every event with the id, stores the list and returns it. */
    method UpdateEvent(userId: string, eventId: string, updatedEvent: Event) returns (events: seq<Event>)
      modifies this
      ensures events == Replace(old(Stored(userId)), eventId, updatedEvent)
      ensures Stored(userId) == events
      ensures forall other :: other != userId ==> Stored(other) == old(Stored(other))
    {
      events := LoadEvents(userId);
      events := Replace(events, eventId, updatedEvent);
      SaveEvents(userId, events);
    }

    /** `deleteEvent`: removes every event with the id, stores the list and returns it. */
    method DeleteEvent(userId: string, eventId: string) returns (events: seq<Event>)
      modifies this
      ensures events == Remove(old(Stored(userId)), eventId)
      ensures Stored(userId) == events
      ensures forall other :: other != userId ==> Stored(other) == old(Stored(other))
    {
      events := LoadEvents(userId);
      events := Remove(events, eventId);
      SaveEvents(userId, events);
    }
  }

  /** Two adds for a new user give a two-event list in insertion order, each
      event carrying its own timestamp id. */
  method TwoAdds(userId: string, first: Event, second: Event, t1: nat, t2: nat)
    returns (events: seq<Event>)
    requires t1 != t2
    ensures |events| == 2
    ensures events[0] == first.(id := Decimal.ToDecimal(t1)) && events[1] == second.(id := Decimal.ToDecimal(t2))
    ensures events[0].id != events[1].id && events[0].id != "" && events[1].id != ""
  {
    var store := new EventStore();
    var loaded := store.LoadEvents(userId);
    assert loaded == [];
    events := store.AddEvent(userId, first, t1);
    events := store.AddEvent(userId, second, t2);
    Decimal.ToDecimalInjective(t1, t2);
  }
}
