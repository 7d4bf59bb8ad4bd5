/** The Registration schema: a user's registration for one event, with an
    enumerated status, defaults filled in at creation, and at most one
    record per (user, event) pair. */
module Registrations {
  import opened Common
  import opened RecordSchema

  datatype RegistrationStatus = Registered | Cancelled | Attended | NoShow

  /** The values the schema's `enum` admits, in schema order. */
  const StatusValues: seq<string> := ["registered", "cancelled", "attended", "no-show"]

  function StatusName(s: RegistrationStatus): (name: string)
    ensures name in StatusValues
  {
    match s
    case Registered => "registered"
    case Cancelled => "cancelled"
    case Attended => "attended"
    case NoShow => "no-show"
  }

  /** The enum validator: a stored string names exactly one status, and
      only the listed strings pass. */
  function ParseStatus(name: string): (r: Option<RegistrationStatus>)
    ensures r.Some? <==> name in StatusValues
    ensures forall s :: r == Some(s) <==> StatusName(s) == name
  {
    if name == "registered" then Some(Registered)
    else if name == "cancelled" then Some(Cancelled)
    else if name == "attended" then Some(Attended)
    else if name == "no-show" then Some(NoShow)
    else None
  }

  /** A status survives being stored as its string and read back. */
  lemma StatusRoundTrip(s: RegistrationStatus)
    ensures ParseStatus(StatusName(s)) == Some(s)
  {
  }

  /** The status of a new registration when none is given. */
  const DefaultStatus := Registered

  /** A stored registration; `createdAt` and `updatedAt` are the schema's
      timestamps. */
  datatype Registration = Registration(
    user: Id,
    event: Id,
    registrationDate: Time,
    status: RegistrationStatus,
    notes: Option<string>,
    createdAt: Time,
    updatedAt: Time)

  /** The fields handed to `Registration.create`; None is undefined. */
  datatype RegistrationDraft = RegistrationDraft(
    user: Option<Id>,
    event: Option<Id>,
    registrationDate: Option<Time>,
    status: Option<string>,
    notes: Option<string>)

  /** The paths whose validators fail for a draft. */
  function FailingPaths(d: RegistrationDraft): (paths: set<string>)
    ensures "user" in paths <==> d.user.None?
    ensures "event" in paths <==> d.event.None?
    ensures "status" in paths <==> d.status.Some? && d.status.value !in StatusValues
    ensures paths <= {"user", "event", "status"}
  {
    (if d.user.None? then {"user"} else {})
    + (if d.event.None? then {"event"} else {})
    + (if d.status.Some? && ParseStatus(d.status.value).None? then {"status"} else {})
  }

  /** Casting and validating a draft at time `now`: a record needs both
      references and a listed status; registrationDate defaults to `now`
      and status to `registered`. */
  function Build(d: RegistrationDraft, now: Time): (r: Result<Registration, SchemaError>)
    ensures r.Ok? <==> d.user.Some? && d.event.Some? && (d.status.None? || d.status.value in StatusValues)
    ensures r.Err? ==> r.error == ValidationError(FailingPaths(d)) && FailingPaths(d) != {}
    ensures r.Ok? ==> r.value.user == d.user.value && r.value.event == d.event.value
    ensures r.Ok? && d.status.None? ==> r.value.status == DefaultStatus
    ensures r.Ok? && d.status.Some? ==> StatusName(r.value.status) == d.status.value
    ensures r.Ok? && d.registrationDate.None? ==> r.value.registrationDate == now
    ensures r.Ok? && d.registrationDate.Some? ==> r.value.registrationDate == d.registrationDate.value
    ensures r.Ok? ==> r.value.notes == d.notes && r.value.createdAt == now && r.value.updatedAt == now
  {
    if FailingPaths(d) != {} then Err(ValidationError(FailingPaths(d)))
    else
      var status := if d.status.Some? then ParseStatus(d.status.value).value else DefaultStatus;
      var date := if d.registrationDate.Some? then d.registrationDate.value else now;
      Ok(Registration(d.user.value, d.event.value, date, status, d.notes, now, now))
  }

  // ----- the Registration collection and its unique index -----

  function KeyOf(r: Registration): PairKey
  {
    PairKey(r.user, r.event)
  }

  /** The table invariant: at most one record per (user, event). */
  predicate UniqueUserEvent(t: seq<Registration>)
  {
    UniqueKeys(KeysOf(t, KeyOf))
  }

  /** Inserting into the collection: a record whose (user, event) pair is
      already present is refused and the table is left as it was;
      otherwise the record is appended, keeping the pairs unique. */
  function Insert(t: seq<Registration>, r: Registration): (res: Result<seq<Registration>, SchemaError>)
    ensures res.Err? <==> exists x :: x in t && x.user == r.user && x.event == r.event
    ensures res.Err? ==> res.error == DuplicateKey
    ensures res.Ok? ==> res.value == t + [r]
    ensures res.Ok? && UniqueUserEvent(t) ==> UniqueUserEvent(res.value)
  {
    InsertUnique(t, r, KeyOf)
  }

  /** `Registration.create`: validation runs before the index is consulted. */
  function Create(t: seq<Registration>, d: RegistrationDraft, now: Time): (res: Result<seq<Registration>, SchemaError>)
    ensures Build(d, now).Err? ==> res == Err(Build(d, now).error)
    ensures Build(d, now).Ok? ==> res == Insert(t, Build(d, now).value)
    ensures res.Ok? ==> |res.value| == |t| + 1 && res.value[..|t|] == t
    ensures res.Ok? && UniqueUserEvent(t) ==> UniqueUserEvent(res.value)
  {
    match Build(d, now)
    case Err(e) => Err(e)
    case Ok(r) =>
      var res := Insert(t, r);
      assert res.Ok? ==> res.value[..|t|] == t;
      res
  }

  /** Registering the same user for the same event a second time is
      refused, whatever the rest of the second record says. */
  lemma SecondRegistrationRefused(t: seq<Registration>, r1: Registration, r2: Registration)
    requires Insert(t, r1).Ok?
    requires r2.user == r1.user && r2.event == r1.event
    ensures Insert(Insert(t, r1).value, r2) == Err(DuplicateKey)
  {
    SameKeyRefusedAfterInsert(t, r1, r2, KeyOf);
  }
}
