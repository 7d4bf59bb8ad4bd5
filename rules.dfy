/** The decision logic of `createEvent` and `updateEvent`: the validation
    cascade, the event a successful create stores, the club back-reference,
    and the partial-field overwrite of an update. */
module EventRules {
  import opened Common
  import opened EventModel

  // ----- createEvent -----

  /** The body of a create request. A string or number field is None when
      its raw value is absent or null, and is otherwise kept as given;
      whether a string counts as falsy (the empty string) is decided by
      `Truthy`. A date field is None when its raw value is falsy, and a
      date that is present has already been turned into a timestamp. */
  datatype CreateRequest = CreateRequest(
    title: Option<string>,
    description: Option<string>,
    startDate: Option<Time>,
    endDate: Option<Time>,
    location: Option<string>,
    club: Option<Id>,
    maxCapacity: Option<int>,
    eventType: Option<string>,
    imageUrl: Option<string>,
    tags: Option<seq<string>>)

  /** All six required fields carry a truthy value. */
  predicate HasRequiredFields(req: CreateRequest)
  {
    && Truthy(req.title)
    && Truthy(req.description)
    && req.startDate.Some?
    && req.endDate.Some?
    && Truthy(req.location)
    && req.club.Some?
  }

  /** The dates of a complete request are acceptable at time `now`: the
      start is not in the past and the end is strictly after the start. */
  predicate DatesValid(req: CreateRequest, now: Time)
    requires HasRequiredFields(req)
  {
    now <= req.startDate.value < req.endDate.value
  }

  datatype Verdict = Accept | Reject(error: Error)

  /** The validation cascade of `createEvent`, in the order the controller
      runs it: required fields, start not in the past, end after start,
      club exists, requesting user is the club's faculty coordinator. */
  function CheckCreate(clubs: map<Id, Club>, req: CreateRequest, user: Id, now: Time): (v: Verdict)
    ensures v == Reject(BadRequest(MissingRequiredFields)) <==> !HasRequiredFields(req)
    ensures v == Reject(BadRequest(StartInPast)) <==>
              HasRequiredFields(req) && req.startDate.value < now
    ensures v == Reject(BadRequest(EndNotAfterStart)) <==>
              HasRequiredFields(req) && now <= req.startDate.value && req.endDate.value <= req.startDate.value
    ensures v == Reject(NotFound) <==>
              HasRequiredFields(req) && DatesValid(req, now) && req.club.value !in clubs
    ensures v == Reject(Forbidden) <==>
              HasRequiredFields(req) && DatesValid(req, now) && req.club.value in clubs
              && clubs[req.club.value].facultyCoordinator != user
    ensures v == Accept <==>
              HasRequiredFields(req) && DatesValid(req, now) && req.club.value in clubs
              && clubs[req.club.value].facultyCoordinator == user
  {
    if !HasRequiredFields(req) then Reject(BadRequest(MissingRequiredFields))
    else if req.startDate.value < now then Reject(BadRequest(StartInPast))
    else if req.endDate.value <= req.startDate.value then Reject(BadRequest(EndNotAfterStart))
    else if req.club.value !in clubs then Reject(NotFound)
    else if clubs[req.club.value].facultyCoordinator != user then Reject(Forbidden)
    else Accept
  }

  /** A 400 answer depends on the request and the clock only: the club
      table and the requesting user are consulted after validation. */
  lemma ValidationPrecedesClubLookup(c1: map<Id, Club>, c2: map<Id, Club>, req: CreateRequest,
                                     u1: Id, u2: Id, now: Time)
    requires CheckCreate(c1, req, u1, now).Reject? && CheckCreate(c1, req, u1, now).error.BadRequest?
    ensures CheckCreate(c2, req, u2, now) == CheckCreate(c1, req, u1, now)
  {
  }

  /** The event a successful create stores. The Event schema itself is not
      part of this model: new events are taken to be active, with no
      registrations and no tags unless tags were given. */
  function NewEvent(id: Id, req: CreateRequest, user: Id): Event
    requires HasRequiredFields(req)
  {
    Event(
      id := id,
      title := req.title.value,
      description := req.description.value,
      startDate := req.startDate.value,
      endDate := req.endDate.value,
      location := req.location.value,
      club := req.club.value,
      organizer := user,
      maxCapacity := req.maxCapacity,
      eventType := req.eventType,
      imageUrl := req.imageUrl,
      tags := if req.tags.Some? then req.tags.value else [],
      registrations := [],
      isActive := true)
  }

  /** An event stored by a successful create is owned by the requesting
      user, who coordinates its club, and its dates satisfy
      now <= startDate < endDate. */
  lemma CreatedEventFacts(clubs: map<Id, Club>, req: CreateRequest, user: Id, now: Time, id: Id)
    requires CheckCreate(clubs, req, user, now) == Accept
    ensures HasRequiredFields(req)
    ensures var e := NewEvent(id, req, user);
      && e.id == id && e.organizer == user && e.club == req.club.value
      && e.club in clubs && clubs[e.club].facultyCoordinator == e.organizer
      && now <= e.startDate < e.endDate
      && e.isActive && e.registrations == []
  {
  }

  /** `$push: { events: id }` on club `c`. */
  function AppendEvent(clubs: map<Id, Club>, c: Id, id: Id): (r: map<Id, Club>)
    requires c in clubs
    ensures r.Keys == clubs.Keys
    ensures r[c].events == clubs[c].events + [id]
    ensures r[c].facultyCoordinator == clubs[c].facultyCoordinator
    ensures forall k :: k in clubs && k != c ==> r[k] == clubs[k]
  {
    clubs[c := clubs[c].(events := clubs[c].events + [id])]
  }

  /** An event belongs to an existing club whose coordinator organizes it
      and whose back-reference list names it. */
  ghost predicate Owned(clubs: map<Id, Club>, e: Event)
  {
    e.club in clubs && clubs[e.club].facultyCoordinator == e.organizer && e.id in clubs[e.club].events
  }

  /** Appending to a club's list keeps every event owned that was owned. */
  lemma AppendEventKeepsOwnership(clubs: map<Id, Club>, c: Id, id: Id, e: Event)
    requires c in clubs && Owned(clubs, e)
    ensures Owned(AppendEvent(clubs, c, id), e)
  {
  }

  // ----- updateEvent -----

  /** `maxCapacity` in an update body: undefined, or given (null or a number). */
  datatype CapacityUpdate = Undefined | Provided(value: Option<int>)

  /** The body of an update request, with None and `Truthy` read as for a
      create. A tags array is truthy even when empty. */
  datatype UpdateRequest = UpdateRequest(
    title: Option<string>,
    description: Option<string>,
    startDate: Option<Time>,
    endDate: Option<Time>,
    location: Option<string>,
    maxCapacity: CapacityUpdate,
    eventType: Option<string>,
    imageUrl: Option<string>,
    tags: Option<seq<string>>)

  const EmptyUpdate := UpdateRequest(None, None, None, None, None, Undefined, None, None, None)

  /** The stored event after `findByIdAndUpdate(id, updateData)`: a field
      is overwritten only when the body supplies a truthy value for it, and
      maxCapacity whenever it is not undefined. */
  function ApplyUpdate(e: Event, u: UpdateRequest): (r: Event)
    ensures r.id == e.id && r.club == e.club && r.organizer == e.organizer
    ensures r.registrations == e.registrations && r.isActive == e.isActive
  {
    Event(
      id := e.id,
      title := if Truthy(u.title) then u.title.value else e.title,
      description := if Truthy(u.description) then u.description.value else e.description,
      startDate := if u.startDate.Some? then u.startDate.value else e.startDate,
      endDate := if u.endDate.Some? then u.endDate.value else e.endDate,
      location := if Truthy(u.location) then u.location.value else e.location,
      club := e.club,
      organizer := e.organizer,
      maxCapacity := if u.maxCapacity.Provided? then u.maxCapacity.value else e.maxCapacity,
      eventType := if Truthy(u.eventType) then u.eventType else e.eventType,
      imageUrl := if Truthy(u.imageUrl) then u.imageUrl else e.imageUrl,
      tags := if u.tags.Some? then u.tags.value else e.tags,
      registrations := e.registrations,
      isActive := e.isActive)
  }

  /** An empty body leaves the event as it was. */
  lemma EmptyUpdateChangesNothing(e: Event)
    ensures ApplyUpdate(e, EmptyUpdate) == e
  {
  }

  /** Applying the same body twice is the same as applying it once. */
  lemma UpdateIdempotent(e: Event, u: UpdateRequest)
    ensures ApplyUpdate(ApplyUpdate(e, u), u) == ApplyUpdate(e, u)
  {
  }

  /** A field changes only to the truthy value the body supplied for it,
      and every truthy value supplied overwrites its field; a falsy value
      (such as the empty string) never clears a field. */
  lemma UpdateChangesOnlySuppliedFields(e: Event, u: UpdateRequest)
    ensures var r := ApplyUpdate(e, u);
      && (r.title != e.title ==> Truthy(u.title) && r.title == u.title.value)
      && (r.description != e.description ==> Truthy(u.description) && r.description == u.description.value)
      && (r.location != e.location ==> Truthy(u.location) && r.location == u.location.value)
      && (r.eventType != e.eventType ==> Truthy(u.eventType) && r.eventType == u.eventType)
      && (r.imageUrl != e.imageUrl ==> Truthy(u.imageUrl) && r.imageUrl == u.imageUrl)
      && (r.startDate != e.startDate ==> u.startDate == Some(r.startDate))
      && (r.endDate != e.endDate ==> u.endDate == Some(r.endDate))
      && (r.tags != e.tags ==> u.tags == Some(r.tags))
      && (Truthy(u.title) ==> r.title == u.title.value)
      && (Truthy(u.description) ==> r.description == u.description.value)
      && (Truthy(u.location) ==> r.location == u.location.value)
      && (Truthy(u.eventType) ==> r.eventType == u.eventType)
      && (Truthy(u.imageUrl) ==> r.imageUrl == u.imageUrl)
      && (u.startDate.Some? ==> r.startDate == u.startDate.value)
      && (u.endDate.Some? ==> r.endDate == u.endDate.value)
      && (u.tags.Some? ==> r.tags == u.tags.value)
  {
  }

  /** maxCapacity follows the body whenever the body defines it, including
      null (which clears it) and 0. */
  lemma CapacityOverwrittenUnlessUndefined(e: Event, u: UpdateRequest)
    ensures u.maxCapacity.Provided? ==> ApplyUpdate(e, u).maxCapacity == u.maxCapacity.value
    ensures u.maxCapacity.Undefined? ==> ApplyUpdate(e, u).maxCapacity == e.maxCapacity
  {
  }

  /** The date order checked on create is not re-checked on update: moving
      the start of any well-ordered event to its end is accepted. */
  lemma UpdateDoesNotRecheckDates(e: Event)
    requires e.startDate < e.endDate
    ensures var r := ApplyUpdate(e, EmptyUpdate.(startDate := Some(e.endDate)));
      r.endDate <= r.startDate
  {
  }
}
