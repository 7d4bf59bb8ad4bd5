# UniSphere event management: a Dafny model

This project models the event-management rules of the UniSphere campus
club backend and proves properties of the model. UniSphere is an Express
and Mongoose application. Three parts of it are modelled:

- the event controller (`backend/src/controllers/event.controllers.js`),
- the Registration schema (`backend/src/models/registration.model.js`),
- the Attendance schema (`backend/src/models/attendance.model.js`).

The Mongo collections become an in-memory store. Dates are integer
timestamps, and the current time `now` is a parameter. Ids are integers
compared by equality.

Files and modules:

- `common.dfy` (`Common`): ids, timestamps, `Option`, `Result`, the
  controller's 400/403/404 errors, and JavaScript truthiness of a string field.
- `text.dfy` (`Text`): case-insensitive substring matching. This is what a
  `$regex` condition with the `i` option means here.
- `event.dfy` (`EventModel`): the Event and Club documents, and lookup and
  removal by id.
- `query.dfy` (`EventQueries`): the read operations. Each one builds a filter
  document (`Filter`). `Find` selects the matching events and sorts them by
  startDate ascending. The upcoming list also keeps only the first ten.
- `rules.dfy` (`EventRules`): the pure logic of `createEvent` and
  `updateEvent`. This covers the validation cascade, the stored event, the
  club back-reference and the partial-field overwrite.
- `store.dfy` (`EventStore`): the class `Store`, which holds the event
  collection, the clubs and the next fresh id. It has methods for create,
  update, delete and deactivate. Its invariant `Valid()` says five things:
  event ids are distinct, every id is below the next fresh id, every event
  belongs to an existing club, that club's faculty coordinator is the
  event's organizer, and the club's events list names the event.
- `schema.dfy` (`RecordSchema`), `registration.dfy` (`Registrations`) and
  `attendance.dfy` (`Attendances`): the two record schemas. Each has its
  status enum, its defaults, its required fields and its unique
  `(user, event)` index as a table invariant.

Request bodies are datatypes of `Option` fields. A string or number field
is `None` when its raw value is absent or null, and is otherwise kept as
given, so a create stores 0 or the empty string for maxCapacity, eventType
or imageUrl unchanged. Whether a string is falsy (the empty string) is
decided by `Truthy`. A date field is `None` when its raw value is falsy,
and a date that is present has already been converted to a timestamp. For `updateEvent`,
`maxCapacity` is `Undefined` or `Provided(v)`, because the source tests it
with `!== undefined`. That means null and 0 both overwrite it. A `tags`
array is always truthy, even when it is empty.

Assumptions:
- The Event schema is not part of this model. The model assumes that a
  newly created event is active, has no registrations, and has no tags
  unless tags were given.
- Club management is not part of the core. Clubs are given to the store's
  constructor and change only through the `$push` of `createEvent`.

## Model

| member | source | states |
|---|---|---|
| Common.StatusCode | backend/src/controllers/event.controllers.js:44-67 | validation failures answer 400, a wrong organizer 403 and a missing club or event 404, and each code belongs to exactly one kind of failure |
| Text.OccursFrom | backend/src/controllers/event.controllers.js:136-142 | the substring search finds the needle from a position exactly when some occurrence starts at or after it |
| Text.ContainsIgnoreCase | backend/src/controllers/event.controllers.js:136-142 | a case-insensitive regex condition holds exactly when the lower-cased query is a substring of the lower-cased field |
| Text.LowerIdempotent | backend/src/controllers/event.controllers.js:137 | lower-casing an already lower-cased string changes nothing |
| Text.ContainsIgnoreCaseFolds | backend/src/controllers/event.controllers.js:137 | the match does not depend on the case of either argument |
| EventModel.IndexOf | backend/src/controllers/event.controllers.js:21 | lookup by id returns the position of the first event carrying that id, and returns nothing exactly when no stored event carries it |
| EventModel.IndexOfStored | backend/src/controllers/event.controllers.js:21 | with distinct ids, looking up a stored event's id finds that event |
| EventModel.GetEventById | backend/src/controllers/event.controllers.js:19-32 | getEventById returns a stored event with the requested id, or 404 exactly when none exists |
| EventModel.RemoveAtOnlyTarget | backend/src/controllers/event.controllers.js:174-175 | a hard delete removes exactly the event with the deleted id, keeps every other event and keeps ids distinct |
| EventQueries.Select | backend/src/controllers/event.controllers.js:162 | the find keeps each matching event as often as it is stored and drops every non-matching one |
| EventQueries.InsertByStart | backend/src/controllers/event.controllers.js:165 | inserting one event into a list yields that list plus the event, as a multiset |
| EventQueries.HeadIsEarliest | backend/src/controllers/event.controllers.js:165 | the head of a startDate-sorted list starts no later than any of its events |
| EventQueries.ConsSorted | backend/src/controllers/event.controllers.js:165 | an event starting no later than every event of a sorted list can be placed in front of it |
| EventQueries.InsertByStartFrom | backend/src/controllers/event.controllers.js:165 | every event of an insertion result is the inserted event or came from the list |
| EventQueries.InsertByStartSorted | backend/src/controllers/event.controllers.js:165 | inserting into a startDate-sorted list keeps it sorted |
| EventQueries.SortByStart | backend/src/controllers/event.controllers.js:165 | the sort on startDate ascending returns a sorted permutation of its input |
| EventQueries.Find | backend/src/controllers/event.controllers.js:162-165 | a find-and-sort returns exactly the events satisfying the filter, each with its stored multiplicity, in ascending startDate order |
| EventQueries.GetEvents | backend/src/controllers/event.controllers.js:6-17 | getEvents returns exactly the active events, sorted by startDate |
| EventQueries.SearchFilterMeaning | backend/src/controllers/event.controllers.js:134-159 | the filter built step by step holds exactly when the event is active and every truthy criterion holds: title and location substrings ignoring case, exact eventType, a startDate lower bound, an endDate upper bound, and at least one shared tag, with a single tag read as a one-element list |
| EventQueries.SearchEvents | backend/src/controllers/event.controllers.js:132-170 | searchEvents returns exactly the stored events matching all given criteria, sorted by startDate |
| EventQueries.EmptySearchIsGetEvents | backend/src/controllers/event.controllers.js:134 | a search with no criteria returns the same list as getEvents, because only the isActive condition applies |
| EventQueries.TakeSortedIsEarliest | backend/src/controllers/event.controllers.js:224-225 | the first n events of a sorted list stay sorted, come from the list, and start no later than any event left out |
| EventQueries.PrefixIsEarliest | backend/src/controllers/event.controllers.js:224-225 | a strict prefix of a sorted list is sorted, is a sub-multiset of it, and starts no later than any event cut off |
| EventQueries.UpcomingFilter | backend/src/controllers/event.controllers.js:218-221 | the upcoming filter holds exactly for active events starting strictly after now |
| EventQueries.GetUpcomingEvents | backend/src/controllers/event.controllers.js:215-230 | getUpcomingEvents returns at most 10 active events that start after now, sorted by startDate; an omitted such event means the list is full and starts no earlier than any listed event |
| EventQueries.GetEventsByClub | backend/src/controllers/event.controllers.js:183-195 | getEventsByClub returns exactly the club's active events, sorted by startDate |
| EventQueries.GetEventsByOrganizer | backend/src/controllers/event.controllers.js:198-210 | getEventsByOrganizer returns every event of the organizer, active or not, sorted by startDate |
| EventQueries.InactiveListedOnlyByOrganizer | backend/src/controllers/event.controllers.js:186-201 | an inactive event still appears in its organizer's list, but not in its club's list or in getEvents |
| EventRules.CheckCreate | backend/src/controllers/event.controllers.js:44-67 | the create cascade fails with 400 exactly when a required field is missing, otherwise 400 exactly when start < now, otherwise 400 exactly when end <= start, otherwise 404 exactly when the club is absent, otherwise 403 exactly when the coordinator is not the user; the request is accepted exactly when none of these holds |
| EventRules.ValidationPrecedesClubLookup | backend/src/controllers/event.controllers.js:44-59 | a 400 answer does not depend on the club table or on the requesting user |
| EventRules.CreatedEventFacts | backend/src/controllers/event.controllers.js:38-81 | an accepted create stores an active event with no registrations, organized by the requesting user, who coordinates its club, with now <= startDate < endDate |
| EventRules.AppendEvent | backend/src/controllers/event.controllers.js:85 | the push appends the new id to the end of the owning club's events list and leaves every other club unchanged |
| EventRules.AppendEventKeepsOwnership | backend/src/controllers/event.controllers.js:85 | after the push, every event already listed by its club is still listed |
| EventRules.ApplyUpdate | backend/src/controllers/event.controllers.js:102-118 | an update never changes the id, club, organizer, registrations or isActive |
| EventRules.EmptyUpdateChangesNothing | backend/src/controllers/event.controllers.js:104-113 | an empty payload leaves the event unchanged |
| EventRules.UpdateIdempotent | backend/src/controllers/event.controllers.js:104-118 | applying the same payload twice has the same effect as applying it once |
| EventRules.UpdateChangesOnlySuppliedFields | backend/src/controllers/event.controllers.js:105-113 | a field changes only to the truthy value supplied for it, and every truthy value supplied (title, description, location, eventType, imageUrl, either date, a tags array) overwrites its field; the empty string never clears a field |
| EventRules.CapacityOverwrittenUnlessUndefined | backend/src/controllers/event.controllers.js:110 | maxCapacity takes the supplied value whenever that value is not undefined, including null and 0 |
| EventRules.UpdateDoesNotRecheckDates | backend/src/controllers/event.controllers.js:107-108 | an update can leave an event whose end is not after its start |
| EventStore.Store.CreateEvent | backend/src/controllers/event.controllers.js:34-96 | a rejected create returns the cascade's error and changes nothing; an accepted create appends exactly one new event, pushes its id onto its club's list and uses a fresh id; the store invariant is kept |
| EventStore.Store.UpdateEvent | backend/src/controllers/event.controllers.js:100-130 | an unknown id gives 404 and changes nothing; otherwise only the target event is replaced by its updated form, which is returned |
| EventStore.UpdatedEvent | backend/src/controllers/event.controllers.js:104-118 | the updateData object built one field at a time and merged into the stored event is exactly the specified partial overwrite |
| EventStore.SameKeysReplaced | backend/src/controllers/event.controllers.js:115-119 | replacing an event by its updated form keeps the id, club and organizer at every position, so the store invariant survives |
| EventStore.Store.DeleteEvent | backend/src/controllers/event.controllers.js:172-180 | an unknown id gives 404 and changes nothing; otherwise only the target event is removed; clubs keep their back-references |
| EventStore.Store.DeactivateEvent | backend/src/controllers/event.controllers.js:233-253 | an unknown id gives 404 and changes nothing; otherwise only the target's isActive becomes false, and the deactivated event is returned |
| EventStore.DeactivatedCollection | backend/src/controllers/event.controllers.js:233-244 | deactivating one event keeps ids distinct, makes the event with that id inactive, and keeps every event with another id in place |
| EventStore.DeactivatedHiddenButRetrievable | backend/src/controllers/event.controllers.js:233-244 | after deactivation the event leaves getEvents and every search, getEventById still returns it, and the other events keep their place in getEvents |
| EventStore.CreatedEventRetrievable | backend/src/controllers/event.controllers.js:82-88 | a newly stored event can be read back by its id, and existing lookups are unaffected |
| EventStore.IndexOfPrefix | backend/src/controllers/event.controllers.js:82 | appending an event does not move earlier events in the id lookup |
| RecordSchema.KeysOf | backend/src/models/registration.model.js:31 | the index key list has one (user, event) key per record, in collection order, and a key is in it exactly when some stored record carries that key |
| RecordSchema.InsertUnique | backend/src/models/registration.model.js:30-31 | an insert under a unique index is refused with a duplicate-key error exactly when a stored record has the same key; otherwise the record is appended and the keys stay unique |
| RecordSchema.SameKeyRefusedAfterInsert | backend/src/models/registration.model.js:30-31 | once a record is inserted, any later record with the same key is refused |
| RecordSchema.AppendFreshKey | backend/src/models/registration.model.js:30-31 | appending a key that is not yet present keeps the (user, event) keys unique |
| Registrations.StatusName | backend/src/models/registration.model.js:18-21 | every status is stored as one of registered, cancelled, attended or no-show |
| Registrations.ParseStatus | backend/src/models/registration.model.js:18-21 | the enum validator accepts exactly the four listed strings, and each one names exactly one status |
| Registrations.StatusRoundTrip | backend/src/models/registration.model.js:18-21 | storing a status as its string and reading it back gives the same status |
| Registrations.FailingPaths | backend/src/models/registration.model.js:4-21 | the failing paths are user exactly when it is missing, event exactly when it is missing, and status exactly when it is outside the enum |
| Registrations.Build | backend/src/models/registration.model.js:3-28 | a registration is built exactly when both references are present and the status is listed; the status defaults to registered, registrationDate to the creation time, and notes are optional |
| Registrations.Insert | backend/src/models/registration.model.js:30-31 | an insert is refused with a duplicate-key error exactly when the (user, event) pair is already present; otherwise the record is appended and the pairs stay unique |
| Registrations.Create | backend/src/models/registration.model.js:3-31 | validation runs before the index check; a successful create appends exactly one record and preserves uniqueness |
| Registrations.SecondRegistrationRefused | backend/src/models/registration.model.js:30-31 | a second registration for the same user and event is refused |
| Attendances.StatusName | backend/src/models/attendance.model.js:23-27 | every status is stored as one of present, absent or late |
| Attendances.ParseStatus | backend/src/models/attendance.model.js:23-27 | the enum validator accepts exactly the three listed strings, and each one names exactly one status |
| Attendances.StatusRoundTrip | backend/src/models/attendance.model.js:23-27 | storing a status as its string and reading it back gives the same status |
| Attendances.FailingPaths | backend/src/models/attendance.model.js:4-27 | the failing paths are user, event or markedBy exactly when that field is missing, and status exactly when it is outside the enum |
| Attendances.Build | backend/src/models/attendance.model.js:3-33 | an attendance record is built exactly when user, event and markedBy are present and the status is listed; status defaults to present, markedAt to the creation time, and notes are optional |
| Attendances.Insert | backend/src/models/attendance.model.js:35-36 | an insert is refused with a duplicate-key error exactly when the (user, event) pair is already present; otherwise the record is appended and the pairs stay unique |
| Attendances.Create | backend/src/models/attendance.model.js:3-36 | validation runs before the index check; a successful create appends exactly one record and preserves uniqueness |
| Attendances.SecondMarkRefused | backend/src/models/attendance.model.js:35-36 | marking attendance a second time for the same user and event is refused, whoever marks it |

## Left out

- Population: the `.populate(...)` joins only shape the JSON response. Results here are bare events holding bare ids.
- Store failures: the `res.status(500)` branches are left out, and so is an invalid ObjectId that makes a lookup throw.
- `addAttendee` and `sendReminder`: the routes import them, but they are not defined in the controller. Registration capacity, joining and leaving an event, and reminders are therefore not modelled.
- Date parsing: `new Date(...)` and the real clock are not modelled. Dates arrive as timestamps and `now` is a parameter. An unparsable date string gives an Invalid Date in the source, and every comparison with it is false. The model has no such value.
- Falsy dates: because dates are timestamps, a raw date value of numeric 0 is falsy in the source but would be `Some(0)` here.
- The authenticated user: `req.user._id` is read before validation, so an unauthenticated request throws before any check runs. The model passes the requesting user as a parameter.
- Regex matching: query strings are matched as literal substrings. Regex metacharacters have no special meaning, and case folding covers ASCII letters only.
- Non-string query values: repeated query parameters for title, location or eventType are not modelled.
- Sort ties: Mongo does not fix the order of events with equal startDate. The model's sort is stable, but the contracts state only sortedness and multiplicity, so they hold for any order of ties.
- EventStore.Store.DeleteEvent: returns the deleted event where the source answers with a fixed message. Registrations and club back-references of a deleted event are left as they were, as in the source, which does not cascade.
- Timestamps on update: `updatedAt` of a Registration or Attendance is set at creation only, because no update of those records is part of the core.
- Null status: a status given as null is not modelled. Mongoose would store it without applying the default.
- Secondary indexes: the single-field indexes on event, user, markedBy and status only speed up queries.
- Event schema: the Event schema's own validation and defaults are not part of this model, beyond the stated assumptions about new events.
- Other files: `backend/server.js`, the two route files and the React pages are wiring and UI. `EditEvents` sends `name` and `date`, which `updateEvent` does not read, so from that page only location and description would change.
- Concurrency: every operation runs to completion before the next starts.
