/** The state-changing operations of the event controller over an
    in-memory store: the Event collection, the Club collection, and the
    source of fresh event ids. */
module EventStore {
  import opened Common
  import opened EventModel
  import opened EventRules
  import opened EventQueries

  class Store {
    var events: seq<Event>
    var clubs: map<Id, Club>
    /** The id the next created event receives (a fresh ObjectId). */
    var nextId: Id

    /** Ids are distinct and below `nextId`, and every stored event is
        owned by an existing club whose coordinator organizes it and whose
        back-reference list names it. */
    ghost predicate Valid()
      reads this
    {
      && DistinctIds(events)
      && (forall i :: 0 <= i < |events| ==> events[i].id < nextId)
      && (forall i :: 0 <= i < |events| ==> Owned(clubs, events[i]))
    }

    constructor (initialClubs: map<Id, Club>, firstId: Id)
      ensures Valid()
      ensures events == [] && clubs == initialClubs && nextId == firstId
    {
      events := [];
      clubs := initialClubs;
      nextId := firstId;
    }

    /** `createEvent`: on a rejected request nothing changes; on an
        accepted one exactly one event, organized by `user`, is appended
        and its id is pushed onto its club's list, no other club changing. */
    method CreateEvent(req: CreateRequest, user: Id, now: Time) returns (r: Result<Event, Error>)
      requires Valid()
      modifies this
      ensures Valid()
      ensures CheckCreate(old(clubs), req, user, now).Reject? ==>
        && r == Err(CheckCreate(old(clubs), req, user, now).error)
        && events == old(events) && clubs == old(clubs) && nextId == old(nextId)
      ensures CheckCreate(old(clubs), req, user, now) == Accept ==>
        && HasRequiredFields(req) && req.club.value in old(clubs)
        && r == Ok(NewEvent(old(nextId), req, user))
        && events == old(events) + [r.value]
        && clubs == AppendEvent(old(clubs), req.club.value, r.value.id)
        && nextId == old(nextId) + 1
    {
      if !HasRequiredFields(req) {
        return Err(BadRequest(MissingRequiredFields));
      }
      var start, end := req.startDate.value, req.endDate.value;
      if start < now {
        return Err(BadRequest(StartInPast));
      }
      if end <= start {
        return Err(BadRequest(EndNotAfterStart));
      }
      var clubId := req.club.value;
      if clubId !in clubs {
        return Err(NotFound);
      }
      if clubs[clubId].facultyCoordinator != user {
        return Err(Forbidden);
      }
      var event := NewEvent(nextId, req, user);
      ghost var before := clubs;
      events := events + [event];
      nextId := nextId + 1;
      clubs := AppendEvent(clubs, clubId, event.id);
      forall i | 0 <= i < |events| ensures Owned(clubs, events[i]) {
        if i < |events| - 1 {
          AppendEventKeepsOwnership(before, clubId, event.id, events[i]);
        }
      }
      r := Ok(event);
    }

    /** `updateEvent`: builds the update field by field and overwrites the
        stored event; an unknown id is a 404 that changes nothing. */
    method UpdateEvent(id: Id, u: UpdateRequest) returns (r: Result<Event, Error>)
      requires Valid()
      modifies this
      ensures Valid()
      ensures clubs == old(clubs) && nextId == old(nextId)
      ensures IndexOf(old(events), id).None? ==> r == Err(NotFound) && events == old(events)
      ensures IndexOf(old(events), id).Some? ==>
        var i := IndexOf(old(events), id).value;
        r == Ok(ApplyUpdate(old(events)[i], u)) && events == old(events)[i := r.value]
    {
      var found := IndexOf(events, id);
      if found.None? {
        return Err(NotFound);
      }
      var i := found.value;
      var e := UpdatedEvent(events[i], u);
      SameKeysReplaced(events, i, e);
      events := events[i := e];
      r := Ok(e);
    }

    /** `deleteEvent` (hard delete): removes the event and returns it; the
        club's back-reference list is left as it was. */
    method DeleteEvent(id: Id) returns (r: Result<Event, Error>)
      requires Valid()
      modifies this
      ensures Valid()
      ensures clubs == old(clubs) && nextId == old(nextId)
      ensures IndexOf(old(events), id).None? ==> r == Err(NotFound) && events == old(events)
      ensures IndexOf(old(events), id).Some? ==>
        var i := IndexOf(old(events), id).value;
        r == Ok(old(events)[i]) && events == RemoveAt(old(events), i)
    {
      var found := IndexOf(events, id);
      if found.None? {
        return Err(NotFound);
      }
      var i := found.value;
      r := Ok(events[i]);
      RemoveAtOnlyTarget(events, i);
      ghost var before := events;
      events := RemoveAt(events, i);
      forall k | 0 <= k < |events| ensures events[k].id < nextId && Owned(clubs, events[k]) {
        assert events[k] in before;
      }
    }

    /** `deactivateEvent` (soft delete): clears isActive and nothing else. */
    method DeactivateEvent(id: Id) returns (r: Result<Event, Error>)
      requires Valid()
      modifies this
      ensures Valid()
      ensures clubs == old(clubs) && nextId == old(nextId)
      ensures IndexOf(old(events), id).None? ==> r == Err(NotFound) && events == old(events)
      ensures IndexOf(old(events), id).Some? ==>
        var i := IndexOf(old(events), id).value;
        r == Ok(old(events)[i].(isActive := false)) && events == old(events)[i := r.value]
    {
      var found := IndexOf(events, id);
      if found.None? {
        return Err(NotFound);
      }
      var i := found.value;
      var e := events[i].(isActive := false);
      events := events[i := e];
      r := Ok(e);
    }
  }

  /** The `updateData` object of `updateEvent`, built one field at a time
      and merged into the stored event. */
  method UpdatedEvent(current: Event, u: UpdateRequest) returns (e: Event)
    ensures e == ApplyUpdate(current, u)
  {
    var title := current.title;
    if Truthy(u.title) { title := u.title.value; }
    var description := current.description;
    if Truthy(u.description) { description := u.description.value; }
    var startDate := current.startDate;
    if u.startDate.Some? { startDate := u.startDate.value; }
    var endDate := current.endDate;
    if u.endDate.Some? { endDate := u.endDate.value; }
    var location := current.location;
    if Truthy(u.location) { location := u.location.value; }
    var maxCapacity := current.maxCapacity;
    if u.maxCapacity.Provided? { maxCapacity := u.maxCapacity.value; }
    var eventType := current.eventType;
    if Truthy(u.eventType) { eventType := u.eventType; }
    var imageUrl := current.imageUrl;
    if Truthy(u.imageUrl) { imageUrl := u.imageUrl; }
    var tags := current.tags;
    if u.tags.Some? { tags := u.tags.value; }
    e := Event(current.id, title, description, startDate, endDate, location,
               current.club, current.organizer, maxCapacity, eventType, imageUrl, tags,
               current.registrations, current.isActive);
  }

  /** Replacing an event by one with the same id, club and organizer keeps
      those three at every position. */
  lemma SameKeysReplaced(es: seq<Event>, i: nat, e: Event)
    requires i < |es| && e.id == es[i].id && e.club == es[i].club && e.organizer == es[i].organizer
    ensures |es[i := e]| == |es|
    ensures forall k :: 0 <= k < |es| ==>
      es[i := e][k].id == es[k].id && es[i := e][k].club == es[k].club && es[i := e][k].organizer == es[k].organizer
  {
  }

  /** Replacing an event by its deactivated form keeps ids distinct, and
      the new collection holds that form and every event with another id. */
  lemma DeactivatedCollection(es: seq<Event>, i: nat)
    requires DistinctIds(es) && i < |es|
    ensures var after := es[i := es[i].(isActive := false)];
      && DistinctIds(after)
      && (forall e :: e in after && e.id == es[i].id ==> !e.isActive)
      && (forall e :: e in es && e.id != es[i].id ==> e in after)
      && (forall e :: e in after && e.id != es[i].id ==> e in es)
  {
    var after := es[i := es[i].(isActive := false)];
    forall e | e in es && e.id != es[i].id ensures e in after {
      var k :| 0 <= k < |es| && es[k] == e;
      assert after[k] == e;
    }
    forall e | e in after && e.id != es[i].id ensures e in es {
      var k :| 0 <= k < |after| && after[k] == e;
      assert es[k] == e;
    }
    forall e | e in after && e.id == es[i].id ensures !e.isActive {
      var k :| 0 <= k < |after| && after[k] == e;
      assert k == i;
    }
  }

  /** After a deactivation the event drops out of `getEvents` and of every
      search, while `getEventById` still returns it and every other event
      keeps its listing. */
  lemma DeactivatedHiddenButRetrievable(es: seq<Event>, i: nat, q: SearchQuery)
    requires DistinctIds(es) && i < |es|
    ensures var after := es[i := es[i].(isActive := false)];
      && DistinctIds(after)
      && GetEventById(after, es[i].id) == Ok(es[i].(isActive := false))
      && (forall e :: e in GetEvents(after) <==> e in GetEvents(es) && e.id != es[i].id)
      && (forall e :: e in SearchEvents(after, q) ==> e.id != es[i].id)
  {
    var after := es[i := es[i].(isActive := false)];
    DeactivatedCollection(es, i);
    IndexOfStored(after, i);
  }

  /** A created event can be read back by its id, and stored events keep
      their lookups. */
  lemma CreatedEventRetrievable(es: seq<Event>, e: Event)
    requires forall x :: x in es ==> x.id != e.id
    ensures GetEventById(es + [e], e.id) == Ok(e)
    ensures forall x :: x in es ==> GetEventById(es + [e], x.id) == GetEventById(es, x.id)
  {
    forall x | x in es ensures GetEventById(es + [e], x.id) == GetEventById(es, x.id) {
      IndexOfPrefix(es, e, x.id);
    }
    IndexOfPrefix(es, e, e.id);
  }

  lemma {:induction false} IndexOfPrefix(es: seq<Event>, e: Event, id: Id)
    ensures IndexOf(es, id).Some? ==> IndexOf(es + [e], id) == IndexOf(es, id)
    ensures IndexOf(es, id).None? && e.id == id ==> IndexOf(es + [e], id) == Some(|es|)
  {
    if es != [] {
      assert (es + [e])[1..] == es[1..] + [e];
      IndexOfPrefix(es[1..], e, id);
    }
  }
}
