/**
 * The event record shared by the store and the layout engine, the payloads
 * that create and patch it, and the defaults of the event configuration.
 */
module EventTypes {
  import opened Options
  import opened Seqs

  datatype RepeatType = NoRepeat | Daily | Weekly | Monthly

  /**
   * A stored event. `date` is the `yyyy-MM-dd` text the store keeps; the two
   * times are `HH:MM` text; `createdAt` is the creation instant in
   * milliseconds, the key the overlap layout sorts by.
   */
  datatype CalendarEvent = CalendarEvent(
    id: string,
    title: string,
    date: string,
    startTime: string,
    endTime: string,
    repeatType: RepeatType,
    createdAt: int)

  /** The payload of `addEvent`: an event without `id` and `createdAt`; title and repeat type may be missing. */
  datatype CreateEventData = CreateEventData(
    title: Option<string>,
    date: string,
    startTime: string,
    endTime: string,
    repeatType: Option<RepeatType>)

  /** The payload of `updateEvent`: every field may be left out. */
  datatype EventPatch = EventPatch(
    title: Option<string>,
    date: Option<string>,
    startTime: Option<string>,
    endTime: Option<string>,
    repeatType: Option<RepeatType>)

  const DefaultTitle: string := "(제목 없음)"
  const DefaultRepeatType: RepeatType := NoRepeat

  /** `findIndex(e => e.id === id)`: the position of the first event carrying `id`, or -1 when none does. */
  function IndexOfId(events: seq<CalendarEvent>, id: string): (i: int)
    ensures -1 <= i < |events|
    ensures 0 <= i ==> events[i].id == id
    ensures forall j :: 0 <= j < |events| && (i < 0 || j < i) ==> events[j].id != id
  {
    if events == [] then -1
    else if events[0].id == id then 0
    else
      var j := IndexOfId(events[1..], id);
      if j < 0 then -1 else j + 1
  }

  /** No two stored events share an id (what the store's id generator is for). */
  predicate UniqueIds(events: seq<CalendarEvent>) {
    forall i, j :: 0 <= i < j < |events| ==> events[i].id != events[j].id
  }

  /** Dropping events never makes two share an id. */
  lemma {:induction false} FilterKeepsUniqueIds(events: seq<CalendarEvent>, p: CalendarEvent -> bool)
    requires UniqueIds(events)
    ensures UniqueIds(Filter(events, p))
  {
    if events != [] {
      var rest := events[1..];
      assert UniqueIds(rest);
      FilterKeepsUniqueIds(rest, p);
      var r := Filter(events, p);
      if p(events[0]) {
        assert r == [events[0]] + Filter(rest, p);
        forall k | 1 <= k < |r|
          ensures r[k].id != events[0].id
        {
          assert r[k] in rest;
        }
      }
    }
  }
}
