/** The Event and Club documents and lookups by id over the Event
    collection, which is kept in its natural (insertion) order. */
module EventModel {
  import opened Common

  /** A club: the only user allowed to create its events, and the ids of
      the events created under it (back-references, never pruned). */
  datatype Club = Club(facultyCoordinator: Id, events: seq<Id>)

  datatype Event = Event(
    id: Id,
    title: string,
    description: string,
    startDate: Time,
    endDate: Time,
    location: string,
    club: Id,
    organizer: Id,
    maxCapacity: Option<int>,
    eventType: Option<string>,
    imageUrl: Option<string>,
    tags: seq<string>,
    registrations: seq<Id>,
    isActive: bool)

  /** The `_id` index: no two stored events share an id. */
  predicate DistinctIds(es: seq<Event>)
  {
    forall i, j :: 0 <= i < j < |es| ==> es[i].id != es[j].id
  }

  /** Position of the first event with the given id (`findById`). */
  function IndexOf(es: seq<Event>, id: Id): (r: Option<nat>)
    ensures r.Some? ==> r.value < |es| && es[r.value].id == id
    ensures r.Some? ==> forall j :: 0 <= j < r.value ==> es[j].id != id
    ensures r.None? <==> forall j :: 0 <= j < |es| ==> es[j].id != id
  {
    if es == [] then None
    else if es[0].id == id then Some(0)
    else match IndexOf(es[1..], id)
      case None => None
      case Some(k) => Some(k + 1)
  }

  /** Under the `_id` index, the id of a stored event leads back to it. */
  lemma IndexOfStored(es: seq<Event>, i: nat)
    requires DistinctIds(es) && i < |es|
    ensures IndexOf(es, es[i].id) == Some(i)
  {
  }

  /** `getEventById`: the stored event with that id, or 404. */
  function GetEventById(es: seq<Event>, id: Id): (r: Result<Event, Error>)
    ensures r.Ok? ==> r.value in es && r.value.id == id
    ensures r.Err? <==> forall e :: e in es ==> e.id != id
    ensures r.Err? ==> r.error == NotFound
  {
    match IndexOf(es, id)
    case Some(i) => Ok(es[i])
    case None => Err(NotFound)
  }

  /** The collection without the event at position `i`. */
  function RemoveAt(es: seq<Event>, i: nat): seq<Event>
    requires i < |es|
  {
    es[..i] + es[i + 1..]
  }

  /** Removing one event keeps every other event, keeps ids distinct and
      removes exactly the events carrying the removed id. */
  lemma RemoveAtOnlyTarget(es: seq<Event>, i: nat)
    requires DistinctIds(es) && i < |es|
    ensures DistinctIds(RemoveAt(es, i))
    ensures |RemoveAt(es, i)| == |es| - 1
    ensures forall e :: e in RemoveAt(es, i) <==> e in es && e.id != es[i].id
  {
    var r := RemoveAt(es, i);
    assert forall k :: 0 <= k < |r| ==> r[k] == if k < i then es[k] else es[k + 1];
    forall e | e in es && e.id != es[i].id
      ensures e in r
    {
      var k :| 0 <= k < |es| && es[k] == e;
      assert k != i;
      if k < i { assert r[k] == e; } else { assert r[k - 1] == e; }
    }
  }
}
