/** The Attendance schema: whether a user attended one event and who
    recorded it, with an enumerated status, defaults filled in at creation,
    and at most one record per (user, event) pair. */
module Attendances {
  import opened Common
  import opened RecordSchema

  datatype AttendanceStatus = Present | Absent | Late

  /** The values the schema's `enum` admits, in schema order. */
  const StatusValues: seq<string> := ["present", "absent", "late"]

  function StatusName(s: AttendanceStatus): (name: string)
    ensures name in StatusValues
  {
    match s
    case Present => "present"
    case Absent => "absent"
    case Late => "late"
  }

  /** The enum validator: a stored string names exactly one status, and
      only the listed strings pass. */
  function ParseStatus(name: string): (r: Option<AttendanceStatus>)
    ensures r.Some? <==> name in StatusValues
    ensures forall s :: r == Some(s) <==> StatusName(s) == name
  {
    if name == "present" then Some(Present)
    else if name == "absent" then Some(Absent)
    else if name == "late" then Some(Late)
    else None
  }

  /** A status survives being stored as its string and read back. */
  lemma StatusRoundTrip(s: AttendanceStatus)
    ensures ParseStatus(StatusName(s)) == Some(s)
  {
  }

  /** The status of a new attendance record when none is given. */
  const DefaultStatus := Present

  /** A stored attendance record; `createdAt` and `updatedAt` are the
      schema's timestamps. */
  datatype Attendance = Attendance(
    user: Id,
    event: Id,
    markedBy: Id,
    markedAt: Time,
    status: AttendanceStatus,
    notes: Option<string>,
    createdAt: Time,
    updatedAt: Time)

  /** The fields handed to `Attendance.create`; None is undefined. */
  datatype AttendanceDraft = AttendanceDraft(
    user: Option<Id>,
    event: Option<Id>,
    markedBy: Option<Id>,
    markedAt: Option<Time>,
    status: Option<string>,
    notes: Option<string>)

  /** The paths whose validators fail for a draft. */
  function FailingPaths(d: AttendanceDraft): (paths: set<string>)
    ensures "user" in paths <==> d.user.None?
    ensures "event" in paths <==> d.event.None?
    ensures "markedBy" in paths <==> d.markedBy.None?
    ensures "status" in paths <==> d.status.Some? && d.status.value !in StatusValues
    ensures paths <= {"user", "event", "markedBy", "status"}
  {
    (if d.user.None? then {"user"} else {})
    + (if d.event.None? then {"event"} else {})
    + (if d.markedBy.None? then {"markedBy"} else {})
    + (if d.status.Some? && ParseStatus(d.status.value).None? then {"status"} else {})
  }

  /** Casting and validating a draft at time `now`: a record needs user,
      event and markedBy and a listed status; markedAt defaults to `now`,
      status to `present`, and notes may stay absent. */
  function Build(d: AttendanceDraft, now: Time): (r: Result<Attendance, SchemaError>)
    ensures r.Ok? <==> d.user.Some? && d.event.Some? && d.markedBy.Some?
                       && (d.status.None? || d.status.value in StatusValues)
    ensures r.Err? ==> r.error == ValidationError(FailingPaths(d)) && FailingPaths(d) != {}
    ensures r.Ok? ==> r.value.user == d.user.value && r.value.event == d.event.value
                      && r.value.markedBy == d.markedBy.value
    ensures r.Ok? && d.status.None? ==> r.value.status == DefaultStatus
    ensures r.Ok? && d.status.Some? ==> StatusName(r.value.status) == d.status.value
    ensures r.Ok? && d.markedAt.None? ==> r.value.markedAt == now
    ensures r.Ok? && d.markedAt.Some? ==> r.value.markedAt == d.markedAt.value
    ensures r.Ok? ==> r.value.notes == d.notes && r.value.createdAt == now && r.value.updatedAt == now
  {
    if FailingPaths(d) != {} then Err(ValidationError(FailingPaths(d)))
    else
      var status := if d.status.Some? then ParseStatus(d.status.value).value else DefaultStatus;
      var markedAt := if d.markedAt.Some? then d.markedAt.value else now;
      Ok(Attendance(d.user.value, d.event.value, d.markedBy.value, markedAt, status, d.notes, now, now))
  }

  // ----- the Attendance collection and its unique index -----

  function KeyOf(a: Attendance): PairKey
  {
    PairKey(a.user, a.event)
  }

  /** The table invariant: at most one record per (user, event). */
  predicate UniqueUserEvent(t: seq<Attendance>)
  {
    UniqueKeys(KeysOf(t, KeyOf))
  }

  /** Inserting into the collection: a record whose (user, event) pair is
      already present is refused and the table is left as it was;
      otherwise the record is appended, keeping the pairs unique. */
  function Insert(t: seq<Attendance>, a: Attendance): (res: Result<seq<Attendance>, SchemaError>)
    ensures res.Err? <==> exists x :: x in t && x.user == a.user && x.event == a.event
    ensures res.Err? ==> res.error == DuplicateKey
    ensures res.Ok? ==> res.value == t + [a]
    ensures res.Ok? && UniqueUserEvent(t) ==> UniqueUserEvent(res.value)
  {
    InsertUnique(t, a, KeyOf)
  }

  /** `Attendance.create`: validation runs before the index is consulted. */
  function Create(t: seq<Attendance>, d: AttendanceDraft, now: Time): (res: Result<seq<Attendance>, SchemaError>)
    ensures Build(d, now).Err? ==> res == Err(Build(d, now).error)
    ensures Build(d, now).Ok? ==> res == Insert(t, Build(d, now).value)
    ensures res.Ok? ==> |res.value| == |t| + 1 && res.value[..|t|] == t
    ensures res.Ok? && UniqueUserEvent(t) ==> UniqueUserEvent(res.value)
  {
    match Build(d, now)
    case Err(e) => Err(e)
    case Ok(a) =>
      var res := Insert(t, a);
      assert res.Ok? ==> res.value[..|t|] == t;
      res
  }

  /** Marking the same user's attendance at the same event a second time
      is refused, whoever marks it and whatever status it carries. */
  lemma SecondMarkRefused(t: seq<Attendance>, a1: Attendance, a2: Attendance)
    requires Insert(t, a1).Ok?
    requires a2.user == a1.user && a2.event == a1.event
    ensures Insert(Insert(t, a1).value, a2) == Err(DuplicateKey)
  {
    SameKeyRefusedAfterInsert(t, a1, a2, KeyOf);
  }
}
