/** The read operations of the event controller: each builds a Mongo
    filter document, selects the matching events, sorts them by startDate
    ascending and, for the upcoming list, keeps the first ten. */
module EventQueries {
  import opened Common
  import opened Text
  import opened EventModel

  /** A filter document over the Event collection; an absent condition is
      not applied. */
  datatype Filter = Filter(
    isActive: Option<bool>,
    club: Option<Id>,
    organizer: Option<Id>,
    titleLike: Option<string>,          // { $regex, $options: 'i' }
    locationLike: Option<string>,       // { $regex, $options: 'i' }
    eventType: Option<string>,          // exact match
    startAtLeast: Option<Time>,         // { $gte }
    startAfter: Option<Time>,           // { $gt }
    endAtMost: Option<Time>,            // { $lte }
    tagsIn: Option<seq<string>>)        // { $in }

  const MatchAll := Filter(None, None, None, None, None, None, None, None, None, None)

  /** How the store evaluates a filter document against one event. */
  predicate Satisfies(f: Filter, e: Event)
  {
    && (f.isActive.Some? ==> e.isActive == f.isActive.value)
    && (f.club.Some? ==> e.club == f.club.value)
    && (f.organizer.Some? ==> e.organizer == f.organizer.value)
    && (f.titleLike.Some? ==> ContainsIgnoreCase(e.title, f.titleLike.value))
    && (f.locationLike.Some? ==> ContainsIgnoreCase(e.location, f.locationLike.value))
    && (f.eventType.Some? ==> e.eventType == Some(f.eventType.value))
    && (f.startAtLeast.Some? ==> e.startDate >= f.startAtLeast.value)
    && (f.startAfter.Some? ==> e.startDate > f.startAfter.value)
    && (f.endAtMost.Some? ==> e.endDate <= f.endAtMost.value)
    && (f.tagsIn.Some? ==> exists t :: t in e.tags && t in f.tagsIn.value)
  }

  /** The matching events, in collection order, each as often as stored. */
  function Select(es: seq<Event>, f: Filter): (r: seq<Event>)
    ensures forall e :: multiset(r)[e] == if Satisfies(f, e) then multiset(es)[e] else 0
  {
    if es == [] then []
    else
      assert es == [es[0]] + es[1..];
      if Satisfies(f, es[0]) then [es[0]] + Select(es[1..], f) else Select(es[1..], f)
  }

  predicate SortedByStart(s: seq<Event>)
  {
    forall i, j :: 0 <= i < j < |s| ==> s[i].startDate <= s[j].startDate
  }

  /** Inserts `e` before the first event that does not start earlier. */
  function InsertByStart(e: Event, s: seq<Event>): (r: seq<Event>)
    ensures multiset(r) == multiset{e} + multiset(s)
  {
    if s == [] then [e]
    else if e.startDate <= s[0].startDate then [e] + s
    else
      assert s == [s[0]] + s[1..];
      [s[0]] + InsertByStart(e, s[1..])
  }

  /** Every element of a sorted sequence starts no earlier than its head. */
  lemma HeadIsEarliest(s: seq<Event>, x: Event)
    requires SortedByStart(s) && s != [] && x in s
    ensures s[0].startDate <= x.startDate
  {
    var k :| 0 <= k < |s| && s[k] == x;
    if k > 0 { assert s[0].startDate <= s[k].startDate; }
  }

  /** An event placed before a sorted sequence whose events all start no
      earlier keeps it sorted. */
  lemma ConsSorted(h: Event, rest: seq<Event>)
    requires SortedByStart(rest)
    requires forall x :: x in rest ==> h.startDate <= x.startDate
    ensures SortedByStart([h] + rest)
  {
    var r := [h] + rest;
    forall i, j | 0 <= i < j < |r| ensures r[i].startDate <= r[j].startDate {
      assert r[j] == rest[j - 1];
      if i > 0 { assert r[i] == rest[i - 1]; } else { assert r[j] in rest; }
    }
  }

  /** Every element of an insertion is the inserted event or came from the
      sequence. */
  lemma InsertByStartFrom(e: Event, s: seq<Event>, x: Event)
    requires x in InsertByStart(e, s)
    ensures x == e || x in s
  {
    assert x in multiset(InsertByStart(e, s));
  }

  /** Inserting into a sorted sequence keeps it sorted. */
  lemma {:induction false} InsertByStartSorted(e: Event, s: seq<Event>)
    requires SortedByStart(s)
    ensures SortedByStart(InsertByStart(e, s))
  {
    if s == [] {
    } else if e.startDate <= s[0].startDate {
      forall x | x in s ensures e.startDate <= x.startDate {
        HeadIsEarliest(s, x);
      }
      ConsSorted(e, s);
    } else {
      var tail := s[1..];
      assert SortedByStart(tail);
      InsertByStartSorted(e, tail);
      var rest := InsertByStart(e, tail);
      forall x | x in rest ensures s[0].startDate <= x.startDate {
        InsertByStartFrom(e, tail, x);
        if x != e {
          assert x in s;
          HeadIsEarliest(s, x);
        }
      }
      ConsSorted(s[0], rest);
    }
  }

  /** `.sort({ startDate: 1 })`: a sorted permutation of its input. */
  function SortByStart(s: seq<Event>): (r: seq<Event>)
    ensures SortedByStart(r)
    ensures multiset(r) == multiset(s)
  {
    if s == [] then []
    else
      assert s == [s[0]] + s[1..];
      InsertByStartSorted(s[0], SortByStart(s[1..]));
      InsertByStart(s[0], SortByStart(s[1..]))
  }

  /** `Event.find(filter).sort({ startDate: 1 })`. */
  function Find(es: seq<Event>, f: Filter): (r: seq<Event>)
    ensures SortedByStart(r)
    ensures forall e :: multiset(r)[e] == if Satisfies(f, e) then multiset(es)[e] else 0
    ensures forall e :: e in r <==> e in es && Satisfies(f, e)
  {
    var r := SortByStart(Select(es, f));
    assert forall e :: e in r <==> e in es && Satisfies(f, e) by {
      forall e ensures e in r <==> e in es && Satisfies(f, e) {
        assert e in r <==> multiset(r)[e] > 0;
        assert e in es <==> multiset(es)[e] > 0;
      }
    }
    r
  }

  // ----- getEvents -----

  /** `getEvents`: every active event, earliest start first. */
  function GetEvents(es: seq<Event>): (r: seq<Event>)
    ensures SortedByStart(r)
    ensures forall e :: e in r <==> e in es && e.isActive
    ensures forall e :: multiset(r)[e] == if e.isActive then multiset(es)[e] else 0
  {
    Find(es, MatchAll.(isActive := Some(true)))
  }

  // ----- searchEvents -----

  /** The `tags` query parameter: absent, a single value, or repeated. */
  datatype TagsParam = NoTags | OneTag(tag: string) | TagList(tags: seq<string>)

  /** The query string of `searchEvents`; a date is None when its raw
      value is falsy. */
  datatype SearchQuery = SearchQuery(
    title: Option<string>,
    location: Option<string>,
    eventType: Option<string>,
    startDate: Option<Time>,
    endDate: Option<Time>,
    tags: TagsParam)

  predicate TagsGiven(p: TagsParam)
  {
    match p
    case NoTags => false
    case OneTag(t) => t != ""
    case TagList(_) => true
  }

  /** A single tag is treated as a one-element list. */
  function TagArray(p: TagsParam): seq<string>
  {
    match p
    case NoTags => []
    case OneTag(t) => [t]
    case TagList(ts) => ts
  }

  /** The filter document `searchEvents` builds, criterion by criterion. */
  function SearchFilter(q: SearchQuery): Filter
  {
    var f0 := MatchAll.(isActive := Some(true));
    var f1 := if Truthy(q.title) then f0.(titleLike := q.title) else f0;
    var f2 := if Truthy(q.location) then f1.(locationLike := q.location) else f1;
    var f3 := if Truthy(q.eventType) then f2.(eventType := q.eventType) else f2;
    var f4 := if q.startDate.Some? then f3.(startAtLeast := q.startDate) else f3;
    var f5 := if q.endDate.Some? then f4.(endAtMost := q.endDate) else f4;
    if TagsGiven(q.tags) then f5.(tagsIn := Some(TagArray(q.tags))) else f5
  }

  /** What a search promises of each event it returns: active, and every
      criterion that was given holds. */
  predicate SearchMatches(q: SearchQuery, e: Event)
  {
    && e.isActive
    && (Truthy(q.title) ==> ContainsIgnoreCase(e.title, q.title.value))
    && (Truthy(q.location) ==> ContainsIgnoreCase(e.location, q.location.value))
    && (Truthy(q.eventType) ==> e.eventType == q.eventType)
    && (q.startDate.Some? ==> q.startDate.value <= e.startDate)
    && (q.endDate.Some? ==> e.endDate <= q.endDate.value)
    && (TagsGiven(q.tags) ==> exists i :: 0 <= i < |TagArray(q.tags)| && TagArray(q.tags)[i] in e.tags)
  }

  /** The filter document means exactly the conjunction of the criteria. */
  lemma SearchFilterMeaning(q: SearchQuery, e: Event)
    ensures Satisfies(SearchFilter(q), e) <==> SearchMatches(q, e)
  {
    if TagsGiven(q.tags) {
      var ts := TagArray(q.tags);
      if exists t :: t in e.tags && t in ts {
        var t :| t in e.tags && t in ts;
        var i :| 0 <= i < |ts| && ts[i] == t;
      }
    }
  }

  /** `searchEvents`: exactly the stored events matching the query, each as
      often as stored, earliest start first. */
  function SearchEvents(es: seq<Event>, q: SearchQuery): (r: seq<Event>)
    ensures SortedByStart(r)
    ensures forall e :: e in r <==> e in es && SearchMatches(q, e)
    ensures forall e :: multiset(r)[e] == if SearchMatches(q, e) then multiset(es)[e] else 0
  {
    var r := Find(es, SearchFilter(q));
    assert forall e :: Satisfies(SearchFilter(q), e) == SearchMatches(q, e) by {
      forall e ensures Satisfies(SearchFilter(q), e) == SearchMatches(q, e) {
        SearchFilterMeaning(q, e);
      }
    }
    r
  }

  const EmptySearch := SearchQuery(None, None, None, None, None, NoTags)

  /** A search with no criteria lists the same events as `getEvents`. */
  lemma EmptySearchIsGetEvents(es: seq<Event>)
    ensures SearchEvents(es, EmptySearch) == GetEvents(es)
  {
  }

  // ----- getUpcomingEvents -----

  const UpcomingLimit := 10

  /** Keeps the first `n` elements (`.limit(n)`). */
  function Take(s: seq<Event>, n: nat): seq<Event>
  {
    if |s| <= n then s else s[..n]
  }

  /** The first `n` of a sorted sequence are sorted, come from it, and
      start no later than any element left out. */
  lemma TakeSortedIsEarliest(s: seq<Event>, n: nat)
    requires SortedByStart(s)
    ensures |Take(s, n)| <= n
    ensures SortedByStart(Take(s, n))
    ensures forall x :: x in Take(s, n) ==> x in s
    ensures multiset(Take(s, n)) <= multiset(s)
    ensures forall e :: e in s && e !in Take(s, n) ==>
              |Take(s, n)| == n && forall x :: x in Take(s, n) ==> x.startDate <= e.startDate
  {
    if n < |s| {
      PrefixIsEarliest(s, n);
    }
  }

  /** The strict-prefix case of `TakeSortedIsEarliest`. */
  lemma PrefixIsEarliest(s: seq<Event>, n: nat)
    requires SortedByStart(s) && n < |s|
    ensures SortedByStart(s[..n])
    ensures multiset(s[..n]) <= multiset(s)
    ensures forall e :: e in s && e !in s[..n] ==> forall x :: x in s[..n] ==> x.startDate <= e.startDate
  {
    var t := s[..n];
    assert s == t + s[n..];
    forall e, x | e in s && e !in t && x in t
      ensures x.startDate <= e.startDate
    {
      var j :| 0 <= j < |s| && s[j] == e;
      var i :| 0 <= i < n && t[i] == x;
      assert s[i] == x;
    }
  }

  /** The filter of `getUpcomingEvents`: active and starting after `now`. */
  function UpcomingFilter(now: Time): (f: Filter)
    ensures forall e :: Satisfies(f, e) <==> e.isActive && e.startDate > now
  {
    MatchAll.(isActive := Some(true), startAfter := Some(now))
  }

  /** `getUpcomingEvents`: at most ten active events starting after `now`,
      earliest first, and no omitted such event starts before one listed. */
  function GetUpcomingEvents(es: seq<Event>, now: Time): (r: seq<Event>)
    ensures |r| <= UpcomingLimit
    ensures SortedByStart(r)
    ensures forall e :: e in r ==> e in es && e.isActive && e.startDate > now
    ensures multiset(r) <= multiset(es)
    ensures forall e :: e in es && e.isActive && e.startDate > now && e !in r ==>
              |r| == UpcomingLimit && forall x :: x in r ==> x.startDate <= e.startDate
  {
    var f := UpcomingFilter(now);
    var all := Find(es, f);
    assert multiset(all) <= multiset(es);
    TakeSortedIsEarliest(all, UpcomingLimit);
    Take(all, UpcomingLimit)
  }

  // ----- getEventsByClub / getEventsByOrganizer -----

  /** `getEventsByClub`: the club's active events, earliest first. */
  function GetEventsByClub(es: seq<Event>, clubId: Id): (r: seq<Event>)
    ensures SortedByStart(r)
    ensures forall e :: e in r <==> e in es && e.club == clubId && e.isActive
    ensures forall e :: multiset(r)[e] == if e.club == clubId && e.isActive then multiset(es)[e] else 0
  {
    Find(es, MatchAll.(club := Some(clubId), isActive := Some(true)))
  }

  /** `getEventsByOrganizer`: every event of the organizer, active or not,
      earliest first. */
  function GetEventsByOrganizer(es: seq<Event>, organizerId: Id): (r: seq<Event>)
    ensures SortedByStart(r)
    ensures forall e :: e in r <==> e in es && e.organizer == organizerId
    ensures forall e :: multiset(r)[e] == if e.organizer == organizerId then multiset(es)[e] else 0
  {
    Find(es, MatchAll.(organizer := Some(organizerId)))
  }

  /** The club listing hides an inactive event that the organizer listing
      still shows. */
  lemma InactiveListedOnlyByOrganizer(es: seq<Event>, e: Event)
    requires e in es && !e.isActive
    ensures e in GetEventsByOrganizer(es, e.organizer)
    ensures e !in GetEventsByClub(es, e.club)
    ensures e !in GetEvents(es)
  {
  }
}
