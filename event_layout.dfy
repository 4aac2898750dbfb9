/**
 * The layout engine of a day column (`eventUtils.ts`): the vertical slice of an
 * event, the overlap test between two events, and the side-by-side columns of
 * the events that overlap a target.
 */
module EventLayout {
  import opened Options
  import opened Strings
  import opened Seqs
  import opened JsMath
  import opened EventTypes
  import opened TimeCodec

  const CellHeight: real := 80.0
  const MinEventHeight: real := 20.0

  // ---------------------------------------------------------------------------
  // getEventFullPosition
  // ---------------------------------------------------------------------------

  /** `hour * 60 + minute` of a parsed time; `None` (NaN) when either field is. */
  function MinutesOf(timeString: string): Option<int> {
    match ParseTime(timeString)
    case Some(t) => Some(MinuteOfDay(t))
    case None => None
  }

  /** An event's start and end in minutes since midnight, `None` standing for `NaN`. */
  datatype Span = Span(start: Option<int>, end: Option<int>) {
    /** The minute `m` lies in the half-open interval `[start, end)`. */
    predicate Covers(m: int) {
      start.Some? && end.Some? && start.value <= m < end.value
    }

    /** Both ends are numbers and the span ends after it starts. */
    predicate Proper() {
      start.Some? && end.Some? && start.value < end.value
    }
  }

  function SpanOf(startTime: string, endTime: string): Span {
    Span(MinutesOf(startTime), MinutesOf(endTime))
  }

  /** Top and height in pixels; `None` where the source computes `NaN`. */
  datatype Position = Position(top: Option<real>, height: Option<real>)

  /** `getEventFullPosition`: the position of the event's span. */
  function GetEventFullPosition(startTime: string, endTime: string, cellHeight: real): (p: Position)
    ensures p.top.Some? <==> ParseTime(startTime).Some?
    ensures p.height.Some? <==> ParseTime(startTime).Some? && ParseTime(endTime).Some?
  {
    PositionOf(SpanOf(startTime, endTime), cellHeight)
  }

  /** The top from the start, the height from the duration with a floor of `MinEventHeight`. */
  function PositionOf(span: Span, cellHeight: real): (p: Position)
    ensures p.top.Some? <==> span.start.Some?
    ensures p.height.Some? <==> span.start.Some? && span.end.Some?
    ensures p.height.Some? ==> p.height.value >= MinEventHeight
  {
    var top := if span.start.Some? then Some(span.start.value as real / 60.0 * cellHeight) else None;
    var height :=
      if span.start.Some? && span.end.Some? then
        var durationMinutes := span.end.value - span.start.value;
        Some(Max(durationMinutes as real / 60.0 * cellHeight, MinEventHeight))
      else None;
    Position(top, height)
  }

  /** The top is the start's offset into the day, scaled to the cell height; the end plays no part. */
  lemma {:induction false} TopFromStart(start: int, end: Option<int>, other: Option<int>, cellHeight: real)
    ensures PositionOf(Span(Some(start), end), cellHeight).top == Some(start as real * cellHeight / 60.0)
    ensures PositionOf(Span(Some(start), end), cellHeight).top == PositionOf(Span(Some(start), other), cellHeight).top
  {
    var p := PositionOf(Span(Some(start), end), cellHeight);
    var q := PositionOf(Span(Some(start), other), cellHeight);
    assert p.top.value == start as real / 60.0 * cellHeight == q.top.value;
    Reassociate(start as real, cellHeight);
  }

  lemma {:induction false} Reassociate(a: real, c: real)
    ensures a / 60.0 * c == a * c / 60.0
  {
  }

  /** A later start sits strictly lower. */
  lemma {:induction false} TopIncreasing(s1: int, s2: int, e1: Option<int>, e2: Option<int>, cellHeight: real)
    requires cellHeight > 0.0 && s1 < s2
    ensures PositionOf(Span(Some(s1), e1), cellHeight).top.value < PositionOf(Span(Some(s2), e2), cellHeight).top.value
  {
    ScaleIncreasing(s1 as real / 60.0, s2 as real / 60.0, cellHeight);
  }

  lemma {:induction false} ScaleIncreasing(a: real, b: real, c: real)
    requires a < b && c > 0.0
    ensures a * c < b * c
  {
  }

  /**
   * A block at least the minimum tall is exactly its duration tall, so it ends
   * where an event starting at its end would begin; shorter blocks, and blocks
   * that end before they start, get the minimum.
   */
  lemma {:induction false} HeightFromDuration(start: int, end: int, cellHeight: real)
    ensures var p := PositionOf(Span(Some(start), Some(end)), cellHeight);
      var exact := (end - start) as real / 60.0 * cellHeight;
      && (exact >= 20.0 ==>
            p.height.value == exact
            && p.top.value + p.height.value == PositionOf(Span(Some(end), Some(end)), cellHeight).top.value)
      && (exact < 20.0 ==> p.height.value == 20.0)
  {
  }

  // ---------------------------------------------------------------------------
  // eventsOverlap
  // ---------------------------------------------------------------------------

  /** `a < b` on numbers that may be `NaN`: false whenever either is. */
  predicate Less(a: Option<int>, b: Option<int>) {
    a.Some? && b.Some? && a.value < b.value
  }

  /** `start1 < end2 && start2 < end1`. */
  predicate SpansOverlap(a: Span, b: Span) {
    Less(a.start, b.end) && Less(b.start, a.end)
  }

  /** `eventsOverlap`: same date and the two spans overlap; an overlap needs all four times to read. */
  function EventsOverlap(event1: CalendarEvent, event2: CalendarEvent): (overlap: bool)
    ensures overlap ==> event1.date == event2.date
    ensures overlap ==>
      SpanOf(event1.startTime, event1.endTime).start.Some? && SpanOf(event1.startTime, event1.endTime).end.Some?
      && SpanOf(event2.startTime, event2.endTime).start.Some? && SpanOf(event2.startTime, event2.endTime).end.Some?
  {
    if event1.date != event2.date then false
    else SpansOverlap(SpanOf(event1.startTime, event1.endTime), SpanOf(event2.startTime, event2.endTime))
  }

  /**
   * Two proper spans overlap exactly when some minute lies in both; a span
   * with a `NaN` end overlaps nothing. (A span ending before it starts covers
   * no minute, yet the test can still report an overlap with it.)
   */
  lemma {:induction false} SpansOverlapIsSharedMinute(a: Span, b: Span)
    ensures (exists m :: a.Covers(m) && b.Covers(m)) ==> SpansOverlap(a, b)
    ensures a.Proper() && b.Proper() && SpansOverlap(a, b) ==> exists m :: a.Covers(m) && b.Covers(m)
    ensures a.start.None? || a.end.None? || b.start.None? || b.end.None? ==> !SpansOverlap(a, b)
  {
    if a.Proper() && b.Proper() && SpansOverlap(a, b) {
      var m := if a.start.value < b.start.value then b.start.value else a.start.value;
      assert a.Covers(m) && b.Covers(m);
    }
  }

  /** Two events with proper spans overlap exactly when they share a date and a minute. */
  lemma {:induction false} OverlapIsSharedMinute(e1: CalendarEvent, e2: CalendarEvent)
    requires SpanOf(e1.startTime, e1.endTime).Proper() && SpanOf(e2.startTime, e2.endTime).Proper()
    ensures EventsOverlap(e1, e2) <==>
      e1.date == e2.date
      && exists m :: SpanOf(e1.startTime, e1.endTime).Covers(m) && SpanOf(e2.startTime, e2.endTime).Covers(m)
  {
    SpansOverlapIsSharedMinute(SpanOf(e1.startTime, e1.endTime), SpanOf(e2.startTime, e2.endTime));
  }

  lemma {:induction false} OverlapSymmetric(e1: CalendarEvent, e2: CalendarEvent)
    ensures EventsOverlap(e1, e2) <==> EventsOverlap(e2, e1)
  {
  }

  lemma {:induction false} OtherDatesNeverOverlap(e1: CalendarEvent, e2: CalendarEvent)
    requires e1.date != e2.date
    ensures !EventsOverlap(e1, e2)
  {
  }

  /** A span ending when the other starts does not overlap it. */
  lemma {:induction false} TouchingDoNotOverlap(a: Span, b: Span)
    requires a.end.Some? && a.end == b.start
    ensures !SpansOverlap(a, b) && !SpansOverlap(b, a)
  {
  }

  // ---------------------------------------------------------------------------
  // calculateOverlapLayout
  // ---------------------------------------------------------------------------

  function SameDayAs(target: CalendarEvent): CalendarEvent -> bool {
    (e: CalendarEvent) => e.date == target.date
  }

  /** The target itself (by id) or an event overlapping it. */
  function InGroupOf(target: CalendarEvent): CalendarEvent -> bool {
    (e: CalendarEvent) => e.id == target.id || EventsOverlap(e, target)
  }

  /**
   * The overlap set: the same-day events that are the target or overlap it,
   * each compared with the target only, in list order.
   */
  function OverlapGroup(events: seq<CalendarEvent>, target: CalendarEvent): (group: seq<CalendarEvent>)
    ensures |group| <= |events|
    ensures forall e :: e in group <==>
      e in events && e.date == target.date && (e.id == target.id || EventsOverlap(e, target))
  {
    var sameDay := Filter(events, SameDayAs(target));
    FilterKeeps(events, SameDayAs(target));
    FilterKeeps(sameDay, InGroupOf(target));
    Filter(sameDay, InGroupOf(target))
  }

  predicate SortedByCreated(s: seq<CalendarEvent>) {
    forall i, j :: 0 <= i < j < |s| ==> s[i].createdAt <= s[j].createdAt
  }

  /** Insert `x` before the first event created no earlier than it. */
  function InsertByCreated(x: CalendarEvent, s: seq<CalendarEvent>): (r: seq<CalendarEvent>)
    ensures |r| == |s| + 1 && multiset(r) == multiset(s) + multiset{x}
  {
    if s == [] then [x]
    else if x.createdAt <= s[0].createdAt then [x] + s
    else
      assert s == [s[0]] + s[1..];
      [s[0]] + InsertByCreated(x, s[1..])
  }

  /**
   * `sort((a, b) => a.createdAt - b.createdAt)` on a fresh copy: insertion
   * sort from the back, so that of two events created at the same instant the
   * one listed first stays first (the sort is stable).
   */
  function SortByCreated(s: seq<CalendarEvent>): (r: seq<CalendarEvent>)
    ensures |r| == |s| && multiset(r) == multiset(s)
  {
    if s == [] then []
    else
      assert s == [s[0]] + s[1..];
      InsertByCreated(s[0], SortByCreated(s[1..]))
  }

  /** Inserting into a sorted list keeps it sorted, and keeps every lower bound of the two. */
  lemma {:induction false} InsertBounded(x: CalendarEvent, s: seq<CalendarEvent>, low: int)
    requires SortedByCreated(s) && x.createdAt >= low
    requires forall k :: 0 <= k < |s| ==> s[k].createdAt >= low
    ensures SortedByCreated(InsertByCreated(x, s))
    ensures forall k :: 0 <= k < |s| + 1 ==> InsertByCreated(x, s)[k].createdAt >= low
  {
    if s == [] {
    } else if x.createdAt <= s[0].createdAt {
      assert forall k :: 0 <= k < |s| ==> s[0].createdAt <= s[k].createdAt;
      ConsSorted(x, s);
    } else {
      var tail := s[1..];
      assert forall k :: 0 <= k < |tail| ==> tail[k] == s[k + 1];
      InsertBounded(x, tail, s[0].createdAt);
      ConsSorted(s[0], InsertByCreated(x, tail));
    }
  }

  /** An event created no later than every event of a sorted list can go in front of it. */
  lemma {:induction false} ConsSorted(h: CalendarEvent, t: seq<CalendarEvent>)
    requires SortedByCreated(t) && forall k :: 0 <= k < |t| ==> h.createdAt <= t[k].createdAt
    ensures SortedByCreated([h] + t)
    ensures forall k :: 1 <= k < |t| + 1 ==> ([h] + t)[k] == t[k - 1]
  {
    var r := [h] + t;
    forall i, j | 0 <= i < j < |r|
      ensures r[i].createdAt <= r[j].createdAt
    {
      assert r[j] == t[j - 1];
    }
  }

  lemma {:induction false} InsertSorted(x: CalendarEvent, s: seq<CalendarEvent>)
    requires SortedByCreated(s)
    ensures SortedByCreated(InsertByCreated(x, s))
  {
    var low := if s != [] && s[0].createdAt < x.createdAt then s[0].createdAt else x.createdAt;
    InsertBounded(x, s, low);
  }

  /** The sorted copy is ascending by creation time. */
  lemma {:induction false} SortSorted(s: seq<CalendarEvent>)
    ensures SortedByCreated(SortByCreated(s))
  {
    if s != [] {
      SortSorted(s[1..]);
      InsertSorted(s[0], SortByCreated(s[1..]));
    }
  }

  /** How many of `s` were created strictly before `t`. */
  function CountCreatedBefore(s: seq<CalendarEvent>, t: int): nat {
    if s == [] then 0 else (if s[0].createdAt < t then 1 else 0) + CountCreatedBefore(s[1..], t)
  }

  /** How many of `s` were created exactly at `t`. */
  function CountCreatedAt(s: seq<CalendarEvent>, t: int): nat {
    if s == [] then 0 else (if s[0].createdAt == t then 1 else 0) + CountCreatedAt(s[1..], t)
  }

  /**
   * Where the stable sort puts the `p`-th event of `s`: after every event
   * created before it and after the ones created at the same instant that
   * precede it in `s`.
   */
  function CreatedRank(s: seq<CalendarEvent>, p: int): nat
    requires 0 <= p < |s|
  {
    CountCreatedBefore(s, s[p].createdAt) + CountCreatedAt(s[..p], s[p].createdAt)
  }

  lemma {:induction false} CountBeforeInsert(x: CalendarEvent, s: seq<CalendarEvent>, t: int)
    ensures CountCreatedBefore(InsertByCreated(x, s), t)
      == CountCreatedBefore(s, t) + (if x.createdAt < t then 1 else 0)
  {
    if s != [] && x.createdAt > s[0].createdAt {
      CountBeforeInsert(x, s[1..], t);
      assert InsertByCreated(x, s)[1..] == InsertByCreated(x, s[1..]);
    } else if s != [] {
      assert InsertByCreated(x, s)[1..] == s;
    }
  }

  /** Sorting does not change how many events were created before `t`. */
  lemma {:induction false} CountBeforeSort(s: seq<CalendarEvent>, t: int)
    ensures CountCreatedBefore(SortByCreated(s), t) == CountCreatedBefore(s, t)
  {
    if s != [] {
      CountBeforeSort(s[1..], t);
      CountBeforeInsert(s[0], SortByCreated(s[1..]), t);
    }
  }

  lemma {:induction false} NoneBefore(s: seq<CalendarEvent>, t: int)
    requires forall k :: 0 <= k < |s| ==> s[k].createdAt >= t
    ensures CountCreatedBefore(s, t) == 0
  {
    if s != [] {
      NoneBefore(s[1..], t);
    }
  }

  /** Inserted into a sorted list holding no event with its id, `x` lands after the events created before it. */
  lemma {:induction false} InsertIndexOfNew(x: CalendarEvent, s: seq<CalendarEvent>)
    requires SortedByCreated(s) && IndexOfId(s, x.id) == -1
    ensures IndexOfId(InsertByCreated(x, s), x.id) == CountCreatedBefore(s, x.createdAt)
  {
    if s == [] {
    } else if x.createdAt <= s[0].createdAt {
      NoneBefore(s, x.createdAt);
    } else {
      assert s[0].id != x.id;
      assert IndexOfId(s[1..], x.id) == -1;
      InsertIndexOfNew(x, s[1..]);
      assert InsertByCreated(x, s)[1..] == InsertByCreated(x, s[1..]);
    }
  }

  /** An event already in a sorted list moves one place down exactly when `x` is created no later than it. */
  lemma {:induction false} InsertIndexOfOld(x: CalendarEvent, s: seq<CalendarEvent>, id: string)
    requires SortedByCreated(s) && x.id != id && 0 <= IndexOfId(s, id)
    ensures var q := IndexOfId(s, id);
      IndexOfId(InsertByCreated(x, s), id) == q + (if x.createdAt <= s[q].createdAt then 1 else 0)
  {
    var q := IndexOfId(s, id);
    if x.createdAt <= s[0].createdAt {
      assert InsertByCreated(x, s)[1..] == s;
    } else if q > 0 {
      assert IndexOfId(s[1..], id) == q - 1;
      InsertIndexOfOld(x, s[1..], id);
      assert InsertByCreated(x, s)[1..] == InsertByCreated(x, s[1..]);
    }
  }

  /** An id absent from a list is absent from its sorted copy. */
  lemma {:induction false} SortKeepsAbsent(s: seq<CalendarEvent>, id: string)
    requires IndexOfId(s, id) == -1
    ensures IndexOfId(SortByCreated(s), id) == -1
  {
    var r := SortByCreated(s);
    forall k | 0 <= k < |r|
      ensures r[k].id != id
    {
      assert r[k] in multiset(r);
      assert r[k] in s;
    }
  }

  /** The event of the sorted copy carrying `s[p]`'s id is `s[p]` itself, when ids are unique. */
  lemma {:induction false} SortedEntryOf(s: seq<CalendarEvent>, p: int)
    requires UniqueIds(s) && 0 <= p < |s| && 0 <= IndexOfId(SortByCreated(s), s[p].id)
    ensures SortByCreated(s)[IndexOfId(SortByCreated(s), s[p].id)] == s[p]
  {
    var r := SortByCreated(s);
    var x := r[IndexOfId(r, s[p].id)];
    assert x in multiset(r);
    assert x in multiset(s);
    var j :| 0 <= j < |s| && s[j] == x;
    UniqueIdsSameIndex(s, j, p);
  }

  /**
   * The rank theorem of the stable sort: with unique ids, the `p`-th event's
   * position in the sorted copy is its `CreatedRank`.
   */
  lemma {:induction false} SortRank(s: seq<CalendarEvent>, p: int)
    requires UniqueIds(s) && 0 <= p < |s|
    ensures IndexOfId(SortByCreated(s), s[p].id) == CreatedRank(s, p)
  {
    if p == 0 {
      SortRankFirst(s);
    } else {
      SortRank(s[1..], p - 1);
      SortRankLater(s, p);
    }
  }

  /** The first event lands after the later-listed ones created before it. */
  lemma {:induction false} SortRankFirst(s: seq<CalendarEvent>)
    requires UniqueIds(s) && 0 < |s|
    ensures IndexOfId(SortByCreated(s), s[0].id) == CreatedRank(s, 0)
  {
    var tail := s[1..];
    assert IndexOfId(tail, s[0].id) == -1;
    SortKeepsAbsent(tail, s[0].id);
    SortSorted(tail);
    InsertIndexOfNew(s[0], SortByCreated(tail));
    CountBeforeSort(tail, s[0].createdAt);
  }

  /** A later event moves one place down when the first one was created no later than it. */
  lemma {:induction false} SortRankLater(s: seq<CalendarEvent>, p: int)
    requires UniqueIds(s) && 0 < p < |s|
    requires IndexOfId(SortByCreated(s[1..]), s[p].id) == CreatedRank(s[1..], p - 1)
    ensures IndexOfId(SortByCreated(s), s[p].id) == CreatedRank(s, p)
  {
    var tail := s[1..];
    var t := s[p].createdAt;
    assert tail[p - 1] == s[p];
    assert s[0].id != s[p].id;
    TailIds(s);
    SortSorted(tail);
    SortedEntryOf(tail, p - 1);
    InsertIndexOfOld(s[0], SortByCreated(tail), s[p].id);
    TiesStep(s, p, t);
  }

  lemma {:induction false} TailIds(s: seq<CalendarEvent>)
    requires UniqueIds(s) && s != []
    ensures UniqueIds(s[1..])
  {
  }

  /** Counting ties in a prefix, one event at a time. */
  lemma {:induction false} TiesStep(s: seq<CalendarEvent>, p: int, t: int)
    requires 0 < p <= |s|
    ensures CountCreatedAt(s[..p], t) == (if s[0].createdAt == t then 1 else 0) + CountCreatedAt(s[1..][..p - 1], t)
  {
    assert s[..p][1..] == s[1..][..p - 1];
  }

  /** The layout of one event block: full width with a 2px gutter, or one of the group's columns. */
  datatype OverlapLayout = FullWidth | Column(leftPercent: int, widthPercent: int, zIndex: int) {
    function Left(): string {
      if FullWidth? then "2px" else IntToString(leftPercent) + "%"
    }

    function Right(): string {
      if FullWidth? then "2px" else "auto"
    }

    function Width(): string {
      if FullWidth? then "calc(100% - 4px)" else IntToString(widthPercent) + "%"
    }

    function ZIndex(): int {
      if FullWidth? then 1 else zIndex
    }
  }

  /**
   * `calculateOverlapLayout`: full width when the overlap set has at most one
   * event; otherwise the `floor(100 / n)`% column at the target's place in the
   * creation order.
   */
  function CalculateOverlapLayout(events: seq<CalendarEvent>, target: CalendarEvent): (layout: OverlapLayout)
    ensures layout.FullWidth? <==> |OverlapGroup(events, target)| <= 1
    ensures layout.Column? ==> layout.widthPercent == 100 / |OverlapGroup(events, target)|
  {
    LayoutInGroup(OverlapGroup(events, target), target)
  }

  /** The layout `calculateOverlapLayout` gives the target once its overlap set is known. */
  function LayoutInGroup(overlapping: seq<CalendarEvent>, target: CalendarEvent): (layout: OverlapLayout)
    ensures layout.FullWidth? <==> |overlapping| <= 1
    ensures layout.Column? ==>
      && 0 <= layout.widthPercent <= 50
      && 0 <= layout.zIndex <= |overlapping|
      && layout.leftPercent == (layout.zIndex - 1) * layout.widthPercent
  {
    if |overlapping| <= 1 then FullWidth
    else
      HalfAtMost(|overlapping|);
      var targetIndex := IndexOfId(SortByCreated(overlapping), target.id);
      var total := |overlapping|;
      var width := 100 / total;
      Column(targetIndex * width, width, targetIndex + 1)
  }

  /** A column shares the width among at least two, so it is at most half of it. */
  lemma {:induction false} HalfAtMost(n: int)
    requires 2 <= n
    ensures 0 <= 100 / n <= 50
  {
  }

  /** A target that no other same-day event overlaps takes the whole column width. */
  lemma {:induction false} AloneTakesFullWidth(events: seq<CalendarEvent>, target: CalendarEvent)
    requires UniqueIds(events)
    requires forall e :: e in events && e.date == target.date && e.id != target.id ==> !EventsOverlap(e, target)
    ensures CalculateOverlapLayout(events, target) == FullWidth
  {
    var sameDay := Filter(events, SameDayAs(target));
    var group := OverlapGroup(events, target);
    FilterKeepsUniqueIds(events, SameDayAs(target));
    FilterKeepsUniqueIds(sameDay, InGroupOf(target));
    if |group| >= 2 {
      SoleMember(events, target, 0);
      SoleMember(events, target, 1);
      assert false;
    }
  }

  /** Under that condition every member of the group carries the target's id. */
  lemma {:induction false} SoleMember(events: seq<CalendarEvent>, target: CalendarEvent, k: int)
    requires forall e :: e in events && e.date == target.date && e.id != target.id ==> !EventsOverlap(e, target)
    requires 0 <= k < |OverlapGroup(events, target)|
    ensures OverlapGroup(events, target)[k].id == target.id
  {
    var sameDay := Filter(events, SameDayAs(target));
    var e := OverlapGroup(events, target)[k];
    assert InGroupOf(target)(e);
    assert e in sameDay;
    assert e in events && e.date == target.date;
  }

  /** The target is in its own group when it is one of the events. */
  lemma {:induction false} TargetInGroup(events: seq<CalendarEvent>, target: CalendarEvent)
    requires target in events
    ensures target in OverlapGroup(events, target)
  {
    FilterContains(events, SameDayAs(target), target);
    FilterContains(Filter(events, SameDayAs(target)), InGroupOf(target), target);
  }

  /**
   * With two or more events in the group, the target gets the column at its
   * creation rank: `floor(100 / n)`% wide, that many percent times its rank
   * from the left, stacked at rank + 1.
   */
  lemma {:induction false} ColumnAtRank(events: seq<CalendarEvent>, target: CalendarEvent)
    requires UniqueIds(events) && target in events
    requires |OverlapGroup(events, target)| >= 2
    ensures var group := OverlapGroup(events, target);
      var p := IndexOfId(group, target.id);
      && 0 <= p && group[p] == target
      && var rank := CreatedRank(group, p);
        CalculateOverlapLayout(events, target) == Column(rank * (100 / |group|), 100 / |group|, rank + 1)
  {
    GroupFacts(events, target);
    RankInGroup(OverlapGroup(events, target), target);
  }

  /** The overlap set of a listed target holds it, and its ids are unique when the list's are. */
  lemma {:induction false} GroupFacts(events: seq<CalendarEvent>, target: CalendarEvent)
    requires UniqueIds(events) && target in events
    ensures UniqueIds(OverlapGroup(events, target)) && target in OverlapGroup(events, target)
  {
    FilterKeepsUniqueIds(events, SameDayAs(target));
    FilterKeepsUniqueIds(Filter(events, SameDayAs(target)), InGroupOf(target));
    TargetInGroup(events, target);
  }

  lemma {:induction false} RankInGroup(group: seq<CalendarEvent>, target: CalendarEvent)
    requires UniqueIds(group) && target in group && |group| >= 2
    ensures var p := IndexOfId(group, target.id);
      && 0 <= p && group[p] == target
      && var rank := CreatedRank(group, p);
        LayoutInGroup(group, target) == Column(rank * (100 / |group|), 100 / |group|, rank + 1)
  {
    var p := IndexOfId(group, target.id);
    TargetIndex(group, target);
    SortRank(group, p);
    LayoutAtIndex(group, target, CreatedRank(group, p));
  }

  lemma {:induction false} TargetIndex(group: seq<CalendarEvent>, target: CalendarEvent)
    requires UniqueIds(group) && target in group
    ensures 0 <= IndexOfId(group, target.id) && group[IndexOfId(group, target.id)] == target
  {
    var j :| 0 <= j < |group| && group[j] == target;
    UniqueIdsSameIndex(group, IndexOfId(group, target.id), j);
  }

  lemma {:induction false} LayoutAtIndex(group: seq<CalendarEvent>, target: CalendarEvent, i: int)
    requires |group| >= 2 && IndexOfId(SortByCreated(group), target.id) == i
    ensures LayoutInGroup(group, target) == Column(i * (100 / |group|), 100 / |group|, i + 1)
  {
  }

  lemma {:induction false} UniqueIdsSameIndex(s: seq<CalendarEvent>, i: int, j: int)
    requires UniqueIds(s) && 0 <= i < |s| && 0 <= j < |s| && s[i].id == s[j].id
    ensures i == j
  {
  }

  /** The column fits: its stack level is between 1 and n, and it ends at or before 100%. */
  lemma {:induction false} ColumnBounds(events: seq<CalendarEvent>, target: CalendarEvent)
    requires target in events
    requires |OverlapGroup(events, target)| >= 2
    ensures var layout := CalculateOverlapLayout(events, target);
      && layout.Column?
      && 1 <= layout.zIndex <= |OverlapGroup(events, target)|
      && 0 <= layout.leftPercent
      && layout.leftPercent + layout.widthPercent <= 100
  {
    TargetInGroup(events, target);
    GroupColumnFits(OverlapGroup(events, target), target);
  }

  lemma {:induction false} GroupColumnFits(group: seq<CalendarEvent>, target: CalendarEvent)
    requires target in group && |group| >= 2
    ensures var layout := LayoutInGroup(group, target);
      && layout.Column?
      && 1 <= layout.zIndex <= |group|
      && 0 <= layout.leftPercent
      && layout.leftPercent + layout.widthPercent <= 100
  {
    var sorted := SortByCreated(group);
    assert target in multiset(sorted);
    var i := IndexOfId(sorted, target.id);
    assert 0 <= i by {
      var j :| 0 <= j < |sorted| && sorted[j] == target;
    }
    ColumnArithmetic(i, |group|);
  }

  lemma {:induction false} ColumnArithmetic(i: int, n: int)
    requires 0 <= i < n
    ensures 0 <= i * (100 / n) && i * (100 / n) + 100 / n <= 100
  {
    var w := 100 / n;
    assert 0 <= w;
    assert n * w <= 100;
    MulLeq(i + 1, n, w);
    MulNonNegative(i, w);
  }

  lemma {:induction false} MulLeq(a: int, b: int, w: int)
    requires a <= b && 0 <= w
    ensures a * w <= b * w
  {
    assert b * w - a * w == (b - a) * w;
  }

  lemma {:induction false} MulNonNegative(a: int, b: int)
    requires 0 <= a && 0 <= b
    ensures 0 <= a * b
  {
  }

  /** An event on another date, or a same-day event neither the target nor overlapping it, changes nothing. */
  lemma {:induction false} UnrelatedEventIgnored(before: seq<CalendarEvent>, e: CalendarEvent, after: seq<CalendarEvent>, target: CalendarEvent)
    requires e.date != target.date || (e.id != target.id && !EventsOverlap(e, target))
    ensures CalculateOverlapLayout(before + [e] + after, target) == CalculateOverlapLayout(before + after, target)
  {
    GroupIgnoresUnrelated(before, e, after, target);
  }

  lemma {:induction false} GroupIgnoresUnrelated(before: seq<CalendarEvent>, e: CalendarEvent, after: seq<CalendarEvent>, target: CalendarEvent)
    requires e.date != target.date || (e.id != target.id && !EventsOverlap(e, target))
    ensures OverlapGroup(before + [e] + after, target) == OverlapGroup(before + after, target)
  {
    var same := SameDayAs(target);
    if same(e) {
      FilterKeepsOne(before, e, after, same);
      var inGroup := InGroupOf(target);
      assert !inGroup(e);
      FilterSkipsOne(Filter(before, same), e, Filter(after, same), inGroup);
    } else {
      FilterSkipsOne(before, e, after, same);
    }
  }

  /** Only the target's own date matters: the other dates can be dropped first. */
  lemma {:induction false} OtherDatesIgnored(events: seq<CalendarEvent>, target: CalendarEvent)
    ensures CalculateOverlapLayout(events, target)
      == CalculateOverlapLayout(Filter(events, SameDayAs(target)), target)
  {
    FilterKeepsAll(Filter(events, SameDayAs(target)), SameDayAs(target));
  }
}
