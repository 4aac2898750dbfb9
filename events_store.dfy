/**
 * The events store (`eventsSlice`): the list of stored events, the three
 * reducers that append, patch in place and delete, and the selectors over
 * the list. The id generator and the clock are parameters of `AddEvent`.
 */
module EventsStore {
  import opened Options
  import opened Strings
  import opened Seqs
  import opened EventTypes

  // ---------------------------------------------------------------------------
  // Titles
  // ---------------------------------------------------------------------------

  /** A title as the store keeps it: not empty and no white space at either end. */
  predicate CleanTitle(t: string) {
    t != [] && !IsJsSpace(t[0]) && !IsJsSpace(t[|t| - 1])
  }

  /** `title.trim() || '(제목 없음)'`: the trimmed title, or the default one when nothing is left. */
  function TidyTitle(title: string): (r: string)
    ensures CleanTitle(r)
    ensures (forall i :: 0 <= i < |title| ==> IsJsSpace(title[i])) ==> r == DefaultTitle
    ensures (exists i :: 0 <= i < |title| && !IsJsSpace(title[i])) ==> r == Trim(title)
  {
    var t := Trim(title);
    if t == [] then DefaultTitle else t
  }

  /** `title?.trim() || '(제목 없음)'`: a missing title also gets the default. */
  function NewTitle(title: Option<string>): (r: string)
    ensures CleanTitle(r)
    ensures title.None? ==> r == DefaultTitle
  {
    match title
    case None => DefaultTitle
    case Some(t) => TidyTitle(t)
  }

  /** A clean title goes through `trim() || default` unchanged. */
  lemma {:induction false} TidyClean(t: string)
    requires CleanTitle(t)
    ensures TidyTitle(t) == t
  {
    assert TrimStart(t) == t;
    assert TrimEnd(t) == t;
  }

  /** Tidying a title twice is tidying it once. */
  lemma {:induction false} TidyIdempotent(title: string)
    ensures TidyTitle(TidyTitle(title)) == TidyTitle(title)
  {
    TidyClean(TidyTitle(title));
  }

  // ---------------------------------------------------------------------------
  // The state changes, as functions of the list
  // ---------------------------------------------------------------------------

  /** The event `addEvent` builds from its payload, the generated id and the creation instant. */
  function NewEvent(data: CreateEventData, id: string, createdAt: int): (e: CalendarEvent)
    ensures CleanTitle(e.title)
  {
    CalendarEvent(id, NewTitle(data.title), data.date, data.startTime, data.endTime,
                  data.repeatType.GetOr(DefaultRepeatType), createdAt)
  }

  /** `{...event, ...}` of `updateEvent`: each field the patch gives replaces the stored one. */
  function Patched(e: CalendarEvent, patch: EventPatch): (r: CalendarEvent)
    ensures r.id == e.id && r.createdAt == e.createdAt
    ensures CleanTitle(e.title) ==> CleanTitle(r.title)
  {
    CalendarEvent(
      e.id,
      match patch.title case Some(t) => TidyTitle(t) case None => e.title,
      patch.date.GetOr(e.date),
      patch.startTime.GetOr(e.startTime),
      patch.endTime.GetOr(e.endTime),
      patch.repeatType.GetOr(e.repeatType),
      e.createdAt)
  }

  /** The list after `updateEvent(id, patch)`: the first event with `id` patched, when there is one. */
  function UpdatedEvents(events: seq<CalendarEvent>, id: string, patch: EventPatch): (r: seq<CalendarEvent>)
    ensures |r| == |events|
    ensures forall j :: 0 <= j < |r| ==> r[j].id == events[j].id && r[j].createdAt == events[j].createdAt
  {
    var index := IndexOfId(events, id);
    if index == -1 then events else events[index := Patched(events[index], patch)]
  }

  /** The test of `deleteEvent`'s filter. */
  function NotId(id: string): CalendarEvent -> bool {
    (e: CalendarEvent) => e.id != id
  }

  /** The list after `deleteEvent(id)`. */
  function WithoutId(events: seq<CalendarEvent>, id: string): (r: seq<CalendarEvent>)
    ensures |r| <= |events|
    ensures forall e :: e in r <==> e in events && e.id != id
  {
    FilterKeeps(events, NotId(id));
    Filter(events, NotId(id))
  }

  // ---------------------------------------------------------------------------
  // The store
  // ---------------------------------------------------------------------------

  class EventsState {
    var events: seq<CalendarEvent>

    /** The initial state: no events. */
    constructor()
      ensures events == []
    {
      events := [];
    }

    /** `addEvent`: push the new event. */
    method AddEvent(data: CreateEventData, id: string, createdAt: int)
      modifies this
      ensures events == old(events) + [NewEvent(data, id, createdAt)]
    {
      var newEvent := NewEvent(data, id, createdAt);
      events := events + [newEvent];
    }

    /** `updateEvent`: find the index, return when there is none, otherwise overwrite that slot. */
    method UpdateEvent(id: string, patch: EventPatch)
      modifies this
      ensures events == UpdatedEvents(old(events), id, patch)
    {
      var index := IndexOfId(events, id);
      if index == -1 {
        return;
      }
      var event := events[index];
      var updatedEvent := Patched(event, patch);
      events := events[index := updatedEvent];
    }

    /** `deleteEvent`: keep the events whose id differs. */
    method DeleteEvent(id: string)
      modifies this
      ensures events == WithoutId(old(events), id)
    {
      events := Filter(events, NotId(id));
    }
  }

  // ---------------------------------------------------------------------------
  // Selectors
  // ---------------------------------------------------------------------------

  function OnDate(date: string): CalendarEvent -> bool {
    (e: CalendarEvent) => e.date == date
  }

  /** `selectEventsByDate` (and `selectEventsDayEvents`, the same filter): the events of one date, in list order. */
  function SelectEventsByDate(events: seq<CalendarEvent>, date: string): (r: seq<CalendarEvent>)
    ensures forall e :: e in r <==> e in events && e.date == date
  {
    FilterKeeps(events, OnDate(date));
    Filter(events, OnDate(date))
  }

  /** `selectEventById`: the first event carrying `id`, or `undefined`. */
  function SelectEventById(events: seq<CalendarEvent>, id: string): (r: Option<CalendarEvent>)
    ensures r.None? <==> forall e :: e in events ==> e.id != id
    ensures r.Some? ==> r.value in events && r.value.id == id
    ensures r.Some? ==> exists i :: 0 <= i < |events| && events[i] == r.value && forall j :: 0 <= j < i ==> events[j].id != id
  {
    var index := IndexOfId(events, id);
    if index == -1 then None else Some(events[index])
  }

  /** `selectEventsCount`: the length of the list. */
  function SelectEventsCount(events: seq<CalendarEvent>): nat {
    |events|
  }

  // ---------------------------------------------------------------------------
  // What the reducers do
  // ---------------------------------------------------------------------------

  /**
   * `addEvent` appends exactly one event: one more in the count, every earlier
   * entry where it was, and the new event titled, dated and typed from the payload.
   */
  lemma {:induction false} AddAppends(events: seq<CalendarEvent>, data: CreateEventData, id: string, createdAt: int)
    ensures var r := events + [NewEvent(data, id, createdAt)];
      && SelectEventsCount(r) == SelectEventsCount(events) + 1
      && r[..|events|] == events
      && r[|events|].id == id && r[|events|].createdAt == createdAt
      && r[|events|].date == data.date
      && r[|events|].startTime == data.startTime && r[|events|].endTime == data.endTime
      && (data.repeatType.None? ==> r[|events|].repeatType == NoRepeat)
      && (data.repeatType.Some? ==> r[|events|].repeatType == data.repeatType.value)
      && (data.title.None? ==> r[|events|].title == DefaultTitle)
      && (data.title.Some? ==> r[|events|].title == TidyTitle(data.title.value))
  {
    var r := events + [NewEvent(data, id, createdAt)];
    assert r[..|events|] == events;
  }

  /** With a fresh id, the new event is what `selectEventById` finds; other ids find what they found before. */
  lemma {:induction false} AddThenSelect(events: seq<CalendarEvent>, data: CreateEventData, id: string, createdAt: int, other: string)
    requires SelectEventById(events, id).None?
    ensures SelectEventById(events + [NewEvent(data, id, createdAt)], id) == Some(NewEvent(data, id, createdAt))
    ensures other != id ==> SelectEventById(events + [NewEvent(data, id, createdAt)], other) == SelectEventById(events, other)
  {
    var e := NewEvent(data, id, createdAt);
    IndexOfIdAppend(events, e, id);
    IndexOfIdAppend(events, e, other);
  }

  lemma {:induction false} IndexOfIdAppend(events: seq<CalendarEvent>, e: CalendarEvent, id: string)
    ensures var i := IndexOfId(events, id);
      IndexOfId(events + [e], id) == if i >= 0 then i else if e.id == id then |events| else -1
  {
    if events != [] {
      assert (events + [e])[1..] == events[1..] + [e];
      IndexOfIdAppend(events[1..], e, id);
    }
  }

  /** A fresh id keeps the ids unique. */
  lemma {:induction false} AddKeepsUniqueIds(events: seq<CalendarEvent>, data: CreateEventData, id: string, createdAt: int)
    requires UniqueIds(events) && SelectEventById(events, id).None?
    ensures UniqueIds(events + [NewEvent(data, id, createdAt)])
  {
    var r := events + [NewEvent(data, id, createdAt)];
    forall i | 0 <= i < |events|
      ensures r[i].id != id
    {
      assert r[i] in events;
    }
  }

  /** `updateEvent` with an id that is not stored changes nothing. */
  lemma {:induction false} UpdateMissing(events: seq<CalendarEvent>, id: string, patch: EventPatch)
    requires SelectEventById(events, id).None?
    ensures UpdatedEvents(events, id, patch) == events
  {
  }

  /**
   * `updateEvent` with a stored id rewrites the first event carrying it and no
   * other: same length, same id and creation instant there, each field the
   * patch leaves out kept, a given title tidied.
   */
  lemma {:induction false} UpdateReplacesOne(events: seq<CalendarEvent>, id: string, patch: EventPatch)
    requires SelectEventById(events, id).Some?
    ensures var r := UpdatedEvents(events, id, patch);
      var i := IndexOfId(events, id);
      && 0 <= i && |r| == |events|
      && (forall j :: 0 <= j < |events| && j != i ==> r[j] == events[j])
      && r[i].id == id && r[i].createdAt == events[i].createdAt
      && (patch.title.None? ==> r[i].title == events[i].title)
      && (patch.title.Some? ==> r[i].title == TidyTitle(patch.title.value))
      && (patch.date.None? ==> r[i].date == events[i].date)
      && (patch.date.Some? ==> r[i].date == patch.date.value)
      && (patch.startTime.None? ==> r[i].startTime == events[i].startTime)
      && (patch.startTime.Some? ==> r[i].startTime == patch.startTime.value)
      && (patch.endTime.None? ==> r[i].endTime == events[i].endTime)
      && (patch.endTime.Some? ==> r[i].endTime == patch.endTime.value)
      && (patch.repeatType.None? ==> r[i].repeatType == events[i].repeatType)
      && (patch.repeatType.Some? ==> r[i].repeatType == patch.repeatType.value)
  {
  }

  /** A patch that gives no field changes nothing. */
  lemma {:induction false} EmptyPatch(events: seq<CalendarEvent>, id: string)
    ensures UpdatedEvents(events, id, EventPatch(None, None, None, None, None)) == events
  {
    var i := IndexOfId(events, id);
    if i >= 0 {
      assert Patched(events[i], EventPatch(None, None, None, None, None)) == events[i];
    }
  }

  /** Applying the same patch twice is applying it once. */
  lemma {:induction false} UpdateIdempotent(events: seq<CalendarEvent>, id: string, patch: EventPatch)
    ensures UpdatedEvents(UpdatedEvents(events, id, patch), id, patch) == UpdatedEvents(events, id, patch)
  {
    var i := IndexOfId(events, id);
    if i >= 0 {
      var r := UpdatedEvents(events, id, patch);
      IndexOfIdSameIds(events, r, id);
      if patch.title.Some? {
        TidyIdempotent(patch.title.value);
      }
      assert Patched(r[i], patch) == r[i];
    }
  }

  /** The index lookup only looks at ids. */
  lemma {:induction false} IndexOfIdSameIds(a: seq<CalendarEvent>, b: seq<CalendarEvent>, id: string)
    requires |a| == |b| && forall j :: 0 <= j < |a| ==> a[j].id == b[j].id
    ensures IndexOfId(a, id) == IndexOfId(b, id)
  {
    if a != [] {
      IndexOfIdSameIds(a[1..], b[1..], id);
    }
  }

  /** Patching keeps every id, so it keeps the ids unique. */
  lemma {:induction false} UpdateKeepsUniqueIds(events: seq<CalendarEvent>, id: string, patch: EventPatch)
    requires UniqueIds(events)
    ensures UniqueIds(UpdatedEvents(events, id, patch))
  {
    var r := UpdatedEvents(events, id, patch);
    assert forall j :: 0 <= j < |r| ==> r[j].id == events[j].id;
  }

  /**
   * `deleteEvent` leaves no event with `id`, keeps every other event as often
   * as it was there and in its order, and so changes nothing for an id that is not stored.
   */
  lemma {:induction false} DeleteRemoves(events: seq<CalendarEvent>, id: string)
    ensures var r := WithoutId(events, id);
      && (forall e :: e in r ==> e.id != id)
      && (forall e: CalendarEvent :: e.id != id ==> multiset(r)[e] == multiset(events)[e])
      && IsSubsequence(r, events)
      && SelectEventById(r, id).None?
      && (SelectEventById(events, id).None? ==> r == events)
  {
    var p := NotId(id);
    FilterKeeps(events, p);
    if SelectEventById(events, id).None? {
      FilterKeepsAll(events, p);
    }
  }

  /** With unique ids, deleting a stored id takes exactly one event off the count. */
  lemma {:induction false} DeleteCount(events: seq<CalendarEvent>, id: string)
    requires UniqueIds(events)
    ensures SelectEventsCount(WithoutId(events, id))
      == SelectEventsCount(events) - if SelectEventById(events, id).Some? then 1 else 0
  {
    if events != [] {
      var rest := events[1..];
      if events[0].id == id {
        forall j | 0 <= j < |rest|
          ensures NotId(id)(rest[j])
        {
          assert rest[j] == events[j + 1];
        }
        FilterKeepsAll(rest, NotId(id));
      } else {
        assert UniqueIds(rest);
        DeleteCount(rest, id);
      }
    }
  }

  /** Deleting never makes two events share an id. */
  lemma {:induction false} DeleteKeepsUniqueIds(events: seq<CalendarEvent>, id: string)
    requires UniqueIds(events)
    ensures UniqueIds(WithoutId(events, id))
  {
    FilterKeepsUniqueIds(events, NotId(id));
  }

  /** `selectEventsByDate` keeps the list order and each event of that date as often as it is stored. */
  lemma {:induction false} ByDateInOrder(events: seq<CalendarEvent>, date: string)
    ensures var r := SelectEventsByDate(events, date);
      && IsSubsequence(r, events)
      && (forall e: CalendarEvent :: e.date == date ==> multiset(r)[e] == multiset(events)[e])
      && (forall i :: 0 <= i < |r| ==> r[i].date == date)
  {
    FilterKeeps(events, OnDate(date));
  }
}
