# Calendar layout engine, modelled in Dafny

This project models the computational core of a week-view calendar application written in TypeScript and React:

- the layout engine of a day column: the vertical position of an event block, the overlap test between two events, and the side-by-side columns of events that overlap;
- the placement of the event dialog beside the clicked cell;
- the time helpers of the event form: reading and writing `HH:MM`, the 12-hour 오전/오후 label, the 96 quarter-hour choices, the suggested end time, and the two picker handlers;
- the hour labels and the seven days of the week header;
- the viewport size classes;
- the three Redux stores: events, event dialog and calendar navigation.

One Dafny module per source file:

| module | file | form |
|---|---|---|
| `EventLayout` | `event_layout.dfy` | pure functions and lemmas, as `eventUtils.ts` is |
| `ModalPlacement` | `modal_placement.dfy` | a method over the locals of `calculateModalPosition`, proved equal to a closed-form placement |
| `TimeCodec`, `EventForm` | `time_codec.dfy`, `event_form.dfy` | the `EventModal.tsx` helpers: `generateTimeOptions` and `calculateEndTime` as methods with loops and locals, `parseTime` and `formatTimeWithPeriod` as functions, the form's time fields as a class |
| `TimeLabels` | `time_labels.dfy` | `formatHour` |
| `DateGrid` | `date_grid.dfy` | `getWeekDays`, `get24Hours` on day numbers |
| `Breakpoint` | `breakpoint.dfy` | the classification object of `useBreakpoint` |
| `EventsStore` | `events_store.dfy` | `eventsSlice`: a class whose methods mutate the list, plus pure selectors |
| `EventsModal` | `events_modal.dfy` | `eventsModalSlice` as a class with the six fields |
| `CalendarNav` | `calendar_nav.dfy` | `calendarSlice` as a class with date and view mode |

A few modules model what the program takes from JavaScript itself:

- `Strings` covers `String(n)`, `padStart`, `split`, `parseInt(_, 10)` and `trim`.
- `Seqs` covers `Array.prototype.filter`.
- `JsMath` covers `Math.max` and `Math.min`.
- `Options` stands in for `undefined`, `null` and `NaN`.
- `EventTypes` holds the event record and its payloads.

Conventions:

- A JavaScript `NaN` (from `parseInt` on text with no digits) is `None`. Every comparison with it is false, as in the source.
- Dates in the week header and the navigation store are day numbers. Day 0 is 1970-01-01, a Thursday, and `Weekday(d) = (d + 4) % 7` with Sunday = 0.
- `createdAt` is the creation instant as an integer (milliseconds).
- Pixel coordinates are exact reals.

## Model

| member | source | states |
|---|---|---|
| EventLayout.GetEventFullPosition | src/features/calendar/utils/eventUtils.ts:6-22 | `top` is a number exactly when the start time parses; `height` is a number exactly when both times parse |
| EventLayout.PositionOf | src/features/calendar/utils/eventUtils.ts:14-21 | the height is never below `MIN_EVENT_HEIGHT` (20), even when the end is not after the start |
| EventLayout.TopFromStart | src/features/calendar/utils/eventUtils.ts:19 | `top = startMinutes * cellHeight / 60`, and changing the end does not change the top |
| EventLayout.TopIncreasing | src/features/calendar/utils/eventUtils.ts:19 | with a positive cell height, a later start gives a strictly larger top |
| EventLayout.HeightFromDuration | src/features/calendar/utils/eventUtils.ts:16-20 | when `duration * cellHeight / 60 >= 20` the height is exactly that, with no cap, and the block ends at the top of its end minute; otherwise the height is 20 |
| EventLayout.EventsOverlap | src/features/calendar/utils/eventUtils.ts:25-39 | an overlap needs the same date and all four times to read as numbers |
| EventLayout.SpansOverlapIsSharedMinute | src/features/calendar/utils/eventUtils.ts:33-38 | two proper spans overlap exactly when some minute lies in both; a shared minute always means an overlap; a NaN end never overlaps |
| EventLayout.OverlapIsSharedMinute | src/features/calendar/utils/eventUtils.ts:25-39 | events with proper spans overlap if and only if they share a date and a minute |
| EventLayout.OverlapSymmetric | src/features/calendar/utils/eventUtils.ts:38 | `eventsOverlap(a, b) == eventsOverlap(b, a)` |
| EventLayout.OtherDatesNeverOverlap | src/features/calendar/utils/eventUtils.ts:26 | events on different dates never overlap |
| EventLayout.TouchingDoNotOverlap | src/features/calendar/utils/eventUtils.ts:38 | a span ending at the minute another starts overlaps it in neither order |
| EventLayout.OverlapGroup | src/features/calendar/utils/eventUtils.ts:44-47 | an event is in the overlap set exactly when it is listed, has the target's date, and is the target (by id) or overlaps it; the set is no longer than the list |
| EventLayout.InsertByCreated | src/features/calendar/utils/eventUtils.ts:60 | inserting keeps every element and adds one (length and multiset) |
| EventLayout.SortByCreated | src/features/calendar/utils/eventUtils.ts:60 | the sorted copy is a permutation of the overlap set (length and multiset) |
| EventLayout.InsertBounded | src/features/calendar/utils/eventUtils.ts:60 | inserting into an ascending list keeps it ascending and keeps every common lower bound |
| EventLayout.SortSorted | src/features/calendar/utils/eventUtils.ts:60 | the sorted copy ascends by `createdAt` |
| EventLayout.CountBeforeSort | src/features/calendar/utils/eventUtils.ts:60 | sorting keeps the number of events created before any instant |
| EventLayout.SortKeepsAbsent | src/features/calendar/utils/eventUtils.ts:60-61 | an id absent from the set is absent from the sorted copy |
| EventLayout.SortRank | src/features/calendar/utils/eventUtils.ts:59-61 | stability: with unique ids, the index `findIndex` returns in the sorted copy is the number of events created earlier plus the same-instant events listed before it |
| EventLayout.LayoutInGroup | src/features/calendar/utils/eventUtils.ts:49-72 | full width exactly when the set has at most one event; a column is at most 50% wide, its z-index is in 0..n, and its left edge is (z-index − 1) column widths |
| EventLayout.CalculateOverlapLayout | src/features/calendar/utils/eventUtils.ts:42-73 | full width exactly when the target's overlap set has at most one event; otherwise the column is `floor(100 / n)`% wide for the set's size n |
| EventLayout.AloneTakesFullWidth | src/features/calendar/utils/eventUtils.ts:44-57 | with unique ids, if no other same-day event overlaps the target, the layout is the full-width one (`2px`, `2px`, `calc(100% - 4px)`, z-index 1) |
| EventLayout.TargetInGroup | src/features/calendar/utils/eventUtils.ts:44-47 | a target that is one of the events is in its own overlap set |
| EventLayout.ColumnAtRank | src/features/calendar/utils/eventUtils.ts:59-72 | with two or more in the set, the target is found in it, and its layout is `Column(i * floor(100/n), floor(100/n), i + 1)`, where `i` is the target's stable creation rank |
| EventLayout.RankInGroup | src/features/calendar/utils/eventUtils.ts:59-72 | the same, stated directly on the overlap set |
| EventLayout.ColumnBounds | src/features/calendar/utils/eventUtils.ts:63-71 | the column satisfies `1 <= zIndex <= n`, `0 <= left` and `left + width <= 100` |
| EventLayout.GroupColumnFits | src/features/calendar/utils/eventUtils.ts:63-71 | the same bounds, stated on the overlap set |
| EventLayout.ColumnArithmetic | src/features/calendar/utils/eventUtils.ts:64-65 | `0 <= i * floor(100/n)` and `i * floor(100/n) + floor(100/n) <= 100` for `0 <= i < n` |
| EventLayout.UnrelatedEventIgnored | src/features/calendar/utils/eventUtils.ts:44-47 | inserting an event from another date, or a same-day event that neither is the target nor overlaps it, anywhere in the list leaves the target's layout unchanged |
| EventLayout.GroupIgnoresUnrelated | src/features/calendar/utils/eventUtils.ts:44-47 | such an event leaves the overlap set unchanged |
| EventLayout.OtherDatesIgnored | src/features/calendar/utils/eventUtils.ts:44 | the layout is the same when computed from the target's date only |
| JsMath.Max | src/features/calendar/utils/modalPositionCalculator.ts:33 | `Math.max` is an upper bound of both arguments and equals one of them |
| JsMath.Min | src/features/calendar/utils/modalPositionCalculator.ts:21 | `Math.min` is a lower bound of both arguments and equals one of them |
| ModalPlacement.CalculateModalPosition | src/features/calendar/utils/modalPositionCalculator.ts:13-56 | the step-by-step computation on `modalWidth`, `x` and `y` gives the closed-form `Placement` |
| ModalPlacement.ModalWidth | src/features/calendar/utils/modalPositionCalculator.ts:20-26 | the width is at most 448, at least 400 off a phone, and on a phone at most 360 and at least 20 short of the screen |
| ModalPlacement.ModalWidthByClass | src/features/calendar/utils/modalPositionCalculator.ts:20-26 | modal width is `min(width - 20, 360)` below 768px, 400 below 1024px, else 448 |
| ModalPlacement.MobileCentred | src/features/calendar/utils/modalPositionCalculator.ts:31-33 | on a phone, the modal is horizontally centred, `y = max(10, (height - 500) / 2)`, and the anchor is ignored |
| ModalPlacement.Placement | src/features/calendar/utils/modalPositionCalculator.ts:13-56 | on every screen, phone included, `x >= 10` and `y >= 10` |
| ModalPlacement.OpensBeside | src/features/calendar/utils/modalPositionCalculator.ts:35-44 | if there is room on the right, `x = left + width + 10` |
| ModalPlacement.FlipsLeft | src/features/calendar/utils/modalPositionCalculator.ts:38-44 | on right-edge overflow, `x = max(10, left - modalWidth - 10)` |
| ModalPlacement.KeepsTop | src/features/calendar/utils/modalPositionCalculator.ts:36-52 | if `10 <= top` and `top + 500 <= height`, then `y = top` |
| ModalPlacement.RaisedFromBottom | src/features/calendar/utils/modalPositionCalculator.ts:46-52 | on bottom overflow, `y = max(10, height - 510)` |
| ModalPlacement.BottomOnScreen | src/features/calendar/utils/modalPositionCalculator.ts:46-52 | in a window at least 520px tall, the modal's bottom is on screen |
| ModalPlacement.ShortWindowExample | src/features/calendar/utils/modalPositionCalculator.ts:46-52 | in a 1024×400 window the top clamp wins, so `y = 10` and the bottom is past the edge |
| ModalPlacement.PhoneExample | src/features/calendar/utils/modalPositionCalculator.ts:20-33 | a 320×600 viewport gives (10, 50) for any anchor |
| ModalPlacement.DesktopFlipExample | src/features/calendar/utils/modalPositionCalculator.ts:35-52 | on a 1200×800 desktop, anchor left 1100, width 100, top 50 flips to (642, 50) |
| TimeCodec.ParseFormatTime | src/features/calendar/components/EventModal.tsx:52-58 | `parseTime` reads back every time the form writes |
| TimeCodec.ParseTimeFields | src/features/calendar/components/EventModal.tsx:52-58 | a minute is read only when the text holds a `:` |
| TimeCodec.ParseTime | src/features/calendar/components/EventModal.tsx:52-58 | a time is read only from text with a `:`, and its hour is the hour field |
| TimeCodec.HourBeforeColon | src/features/calendar/components/EventModal.tsx:53-55 | the hour is `parseInt` of the text before the first `:`, or of all of it when there is none |
| TimeCodec.ParsePaddedTime | src/features/calendar/components/EventModal.tsx:52-58 | `parseTime` reads a padded hour and minute back |
| TimeCodec.ParseFieldsOfJoin | src/features/calendar/components/EventModal.tsx:53-57 | `a:b` with no further colon is read field by field |
| TimeCodec.ParsePadNumber | src/features/calendar/components/EventModal.tsx:55-56 | `parseInt` reads back a two-digit padded number, and `NaN` from the text `NaN` |
| TimeCodec.DisplayHour | src/features/calendar/components/EventModal.tsx:35 | the clock-face hour is 1..12 for hours 0..23 |
| TimeCodec.LabelPeriod | src/features/calendar/components/EventModal.tsx:33-38 | the label starts with 오전 exactly when hour < 12 and with 오후 exactly when hour >= 12, then a space |
| TimeCodec.LabelPieces | src/features/calendar/components/EventModal.tsx:35-37 | after the period and space comes the clock-face hour (0 becomes 12, 13-23 become hour - 12), a `:`, and the minute padded to two digits |
| TimeCodec.LabelRoundTrip | src/features/calendar/components/EventModal.tsx:33-38 | the label of any hour 0..23 reads back as that hour and minute, so no two times share a label |
| TimeCodec.ClockFaceInverse | src/features/calendar/components/EventModal.tsx:34-35 | period and clock-face hour determine the 24-hour hour |
| TimeCodec.GenerateTimeOptions | src/features/calendar/components/EventModal.tsx:40-50 | the nested loops produce 96 choices; choice k is hour k/4 and minute 15*(k%4), with the value and label of that time |
| TimeCodec.NextQuarterHour | src/features/calendar/components/EventModal.tsx:44-46 | each push appends the choice of the next quarter hour |
| TimeCodec.QuarterPosition | src/features/calendar/components/EventModal.tsx:42-43 | minute m of hour h is quarter number 4h + m/15 |
| TimeCodec.QuarterHourChoice | src/features/calendar/components/EventModal.tsx:44-46 | every choice is a well-formed quarter hour at minute 15k of the day, and both its value and its label read back as its hour and minute |
| TimeCodec.ChoiceReadable | src/features/calendar/components/EventModal.tsx:44-45 | value and label of a choice for hour 0..23 read back as that time |
| TimeCodec.QuarterHoursAscending | src/features/calendar/components/EventModal.tsx:42-48 | the choices' minutes of the day strictly increase |
| TimeCodec.QuarterHoursComplete | src/features/calendar/components/EventModal.tsx:42-48 | every quarter hour of the day is present, at index 4h + m/15 |
| TimeCodec.EndTimeFor | src/features/calendar/components/EventModal.tsx:62-68 | for a well-formed start, the end is 60 minutes later (hour < 23) or 23:59, never earlier, and equal only at 23:59 |
| TimeCodec.SuggestedEndTime | src/features/calendar/components/EventModal.tsx:60-71 | any start whose hour field reads as 23 or more, whatever its minute, gives `23:59` |
| TimeCodec.CalculateEndTime | src/features/calendar/components/EventModal.tsx:60-71 | the method over `endHour` and `endMinute` writes `SuggestedEndTime`; any start whose hour reads as 23 or more gives `23:59` |
| TimeCodec.EndOneHourLater | src/features/calendar/components/EventModal.tsx:61-64 | a start with hour below 23 ends at hour + 1 and the same minute, both zero-padded |
| TimeCodec.SuggestedEndTimeReadable | src/features/calendar/components/EventModal.tsx:60-71 | the suggested end reads back as the end of the start, as 23:59 when only a late hour reads, and otherwise as NaN |
| TimeCodec.ChoiceEndAfterStart | src/features/calendar/components/EventModal.tsx:60-77 | any picked choice suggests a well-formed, strictly later end that reads back |
| TimeCodec.EndOfWrittenStart | src/features/calendar/components/EventModal.tsx:60-71 | a start written by the form suggests the written end of that time |
| TimeCodec.NineOClockExample | src/features/calendar/components/EventModal.tsx:60-71 | `calculateEndTime("09:00") == "10:00"` |
| TimeCodec.LateStartExamples | src/features/calendar/components/EventModal.tsx:65-68 | `"23:30"` and `"23:59"` both give `"23:59"` |
| TimeCodec.LateWrittenStart | src/features/calendar/components/EventModal.tsx:65-68 | a written start in hour 23 or later ends at `23:59` |
| TimeCodec.OnTheHour | src/features/calendar/components/EventModal.tsx:28-29 | the `hh:00` text the form opens with is the written time hh:00 |
| EventForm.EventTimeForm.constructor | src/features/calendar/components/EventModal.tsx:27-31 | the form opens with an empty title, from the selected hour to the next, both pickers closed |
| EventForm.EventTimeForm.HandleStartTimeChange | src/features/calendar/components/EventModal.tsx:75-79 | stores the start, sets the end to the suggested end, closes the start picker, and changes nothing else |
| EventForm.EventTimeForm.HandleEndTimeChange | src/features/calendar/components/EventModal.tsx:81-84 | stores the end, closes the end picker, and changes nothing else |
| TimeLabels.FormatHour | src/features/calendar/utils/timeUtils.ts:1-9 | the label is empty exactly for hour 0 |
| TimeLabels.HourLabelParts | src/features/calendar/utils/timeUtils.ts:4-8 | every other hour renders as period, space, shown number and 시: `오전 h시` for 1-11, `오후 12시`, `오후 (h-12)시` for 13-23 |
| TimeLabels.HourLabelPeriod | src/features/calendar/utils/timeUtils.ts:2-8 | labels start with 오전 exactly before noon and with 오후 from noon on |
| TimeLabels.HourLabelRoundTrip | src/features/calendar/utils/timeUtils.ts:1-9 | every hour 1..23 reads back from its label, so the labels are distinct and non-empty |
| DateGrid.Weekday | src/features/calendar/utils/dateUtils.ts:5 | the day of the week is in 0..6 |
| DateGrid.StartOfWeek | src/features/calendar/utils/dateUtils.ts:5 | the week start is a Sunday at most six days before the reference |
| DateGrid.GetWeekDays | src/features/calendar/utils/dateUtils.ts:4-7 | exactly 7 dates |
| DateGrid.WeekStartIsLatestSunday | src/features/calendar/utils/dateUtils.ts:5 | no later Sunday lies on or before the reference day |
| DateGrid.WeekDaysLayout | src/features/calendar/utils/dateUtils.ts:4-7 | element 0 is the week start; element i is element 0 plus i days and falls on weekday i, so element 6 is a Saturday; the reference day is element `weekday(reference)` |
| DateGrid.WeekOfEachDay | src/features/calendar/utils/dateUtils.ts:4-7 | every day of a week's header produces the same header |
| DateGrid.NextWeekDays | src/features/calendar/utils/dateUtils.ts:4-7 | the header for a date a week on is each day plus 7 |
| DateGrid.Get24Hours | src/features/calendar/utils/dateUtils.ts:9-11 | length 24, element i equals i |
| Breakpoint.Classify | src/hooks/useBreakpoint.ts:16-22 | width and height are copied through unchanged |
| Breakpoint.ClassifyBands | src/hooks/useBreakpoint.ts:19-21 | `isMobile` iff width < 768, `isTablet` iff 768 <= width < 1024, `isDesktop` iff width >= 1024 |
| Breakpoint.ExactlyOneClass | src/hooks/useBreakpoint.ts:19-21 | in every state the hook builds, exactly one flag holds |
| Breakpoint.ClassMonotone | src/hooks/useBreakpoint.ts:19-21 | a wider window never falls into a smaller class |
| EventsStore.TidyTitle | src/features/calendar/store/eventsSlice.ts:43 | the stored title is never blank or padded: it is the trimmed title, or '(제목 없음)' when the title is all white space |
| EventsStore.NewTitle | src/features/calendar/store/eventsSlice.ts:25 | a missing title becomes '(제목 없음)'; the result is a clean title |
| EventsStore.TidyClean | src/features/calendar/store/eventsSlice.ts:25 | a clean title passes through unchanged |
| EventsStore.TidyIdempotent | src/features/calendar/store/eventsSlice.ts:43 | tidying twice is tidying once |
| EventsStore.NewEvent | src/features/calendar/store/eventsSlice.ts:23-31 | a new event's title is clean |
| EventsStore.Patched | src/features/calendar/store/eventsSlice.ts:41-48 | a patch keeps `id` and `createdAt` and keeps a clean title clean |
| EventsStore.EventsState.constructor | src/features/calendar/store/eventsSlice.ts:10-12 | the store starts empty |
| EventsStore.EventsState.AddEvent | src/features/calendar/store/eventsSlice.ts:22-33 | the list becomes the old list plus the new event at the end |
| EventsStore.EventsState.UpdateEvent | src/features/calendar/store/eventsSlice.ts:34-51 | the list becomes `UpdatedEvents` of the old one |
| EventsStore.EventsState.DeleteEvent | src/features/calendar/store/eventsSlice.ts:52-54 | the list becomes the old list without the id |
| EventsStore.UpdatedEvents | src/features/calendar/store/eventsSlice.ts:34-51 | the updated list has the same length, and every entry keeps its id and creation instant |
| EventsStore.WithoutId | src/features/calendar/store/eventsSlice.ts:52-54 | an event is kept exactly when it was stored and its id differs; the list never grows |
| EventsStore.AddAppends | src/features/calendar/store/eventsSlice.ts:22-33 | the count grows by one and the earlier entries are unchanged; the new entry has the given id and creation instant, the date and times verbatim, the repeat type or `none`, and the tidied title or the default |
| EventsStore.AddThenSelect | src/features/calendar/store/eventsSlice.ts:22-33 | with a fresh id, `selectEventById` finds the new event; lookups of other ids are unchanged |
| EventsStore.AddKeepsUniqueIds | src/features/calendar/store/eventsSlice.ts:22-33 | a fresh id keeps the ids unique |
| EventsStore.UpdateMissing | src/features/calendar/store/eventsSlice.ts:36-37 | updating an id not in the list changes nothing |
| EventsStore.UpdateReplacesOne | src/features/calendar/store/eventsSlice.ts:39-50 | only the matched index changes and the length is kept; `id` and `createdAt` are kept; each field the patch leaves out keeps its value; a given title is tidied, so a blank one becomes '(제목 없음)' |
| EventsStore.EmptyPatch | src/features/calendar/store/eventsSlice.ts:43-47 | a patch with no fields changes nothing |
| EventsStore.UpdateIdempotent | src/features/calendar/store/eventsSlice.ts:34-51 | applying the same patch twice equals applying it once |
| EventsStore.UpdateKeepsUniqueIds | src/features/calendar/store/eventsSlice.ts:39-50 | updating keeps the ids unique |
| EventsStore.DeleteRemoves | src/features/calendar/store/eventsSlice.ts:52-54 | no event with the id is left; every other event keeps its multiplicity and its relative order; `selectEventById` finds nothing; an absent id is a no-op |
| EventsStore.DeleteCount | src/features/calendar/store/eventsSlice.ts:52-54 | with unique ids, deleting a stored id lowers the count by exactly one |
| EventsStore.DeleteKeepsUniqueIds | src/features/calendar/store/eventsSlice.ts:52-54 | deleting keeps the ids unique |
| EventsStore.SelectEventsByDate | src/features/calendar/store/eventsSlice.ts:62-63 | an event is selected exactly when it is stored with that date |
| EventsStore.ByDateInOrder | src/features/calendar/store/eventsSlice.ts:62-63 | the selection follows list order, keeps each event's multiplicity, and has only that date |
| EventsStore.SelectEventById | src/features/calendar/store/eventsSlice.ts:65-66 | nothing is found exactly when no event has the id; otherwise the result is the first event with that id |
| EventsStore.IndexOfIdAppend | src/features/calendar/store/eventsSlice.ts:36 | appending does not move an id already present |
| EventsStore.IndexOfIdSameIds | src/features/calendar/store/eventsSlice.ts:36 | `findIndex` on ids depends only on the ids |
| EventTypes.IndexOfId | src/features/calendar/store/eventsSlice.ts:36 | the index is in -1..n-1; it is -1 exactly when no event has the id; otherwise it is the first event with the id |
| EventTypes.FilterKeepsUniqueIds | src/features/calendar/store/eventsSlice.ts:53 | filtering keeps the ids unique |
| Seqs.Filter | src/features/calendar/store/eventsSlice.ts:53 | the filter result is no longer than its input, all of it passes the test, and all of it comes from the input |
| Seqs.FilterKeeps | src/features/calendar/utils/eventUtils.ts:44-47 | the filter keeps each passing element as often as it occurs, drops the others, and is a subsequence |
| Seqs.FilterConcat | src/features/calendar/utils/eventUtils.ts:44-47 | filtering distributes over concatenation |
| EventsModal.Initial | src/features/calendar/store/eventsModalSlice.ts:13-20 | closed, mode `create`, hour 9, minute 0, no edited event |
| EventsModal.EventsModalState.constructor | src/features/calendar/store/eventsModalSlice.ts:13-20 | the state is `Initial(now)` |
| EventsModal.EventsModalState.OpenCreateModal | src/features/calendar/store/eventsModalSlice.ts:26-36 | the state becomes `OpenedForCreate` |
| EventsModal.EventsModalState.OpenEditModal | src/features/calendar/store/eventsModalSlice.ts:37-41 | the state becomes `OpenedForEdit` |
| EventsModal.EventsModalState.CloseModal | src/features/calendar/store/eventsModalSlice.ts:42-44 | the state becomes `Closed` |
| EventsModal.OpenedForCreate | src/features/calendar/store/eventsModalSlice.ts:26-36 | opens in `create` mode with no edited id, on the given date and hour; the minute is 0 when omitted and kept otherwise |
| EventsModal.OpenCreateForgets | src/features/calendar/store/eventsModalSlice.ts:30-35 | the result does not depend on the earlier state |
| EventsModal.OpenedForEdit | src/features/calendar/store/eventsModalSlice.ts:37-41 | opens in `edit` mode with the given id; the selected date, hour and minute are unchanged |
| EventsModal.Closed | src/features/calendar/store/eventsModalSlice.ts:42-44 | the dialog is closed; mode, edited id, date, hour and minute are unchanged |
| EventsModal.CloseIdempotent | src/features/calendar/store/eventsModalSlice.ts:42-44 | closing twice equals closing once; reopening a closed dialog restores it |
| EventsModal.ReopenEdit | src/features/calendar/store/eventsModalSlice.ts:37-44 | closing and then reopening the same edit restores the open state |
| CalendarNav.CalendarState.constructor | src/features/calendar/store/calendarSlice.ts:10-13 | starts on today in `week` view |
| CalendarNav.CalendarState.SetCurrentDate | src/features/calendar/store/calendarSlice.ts:19-21 | stores the date verbatim and keeps the view mode |
| CalendarNav.CalendarState.GoToNextWeek | src/features/calendar/store/calendarSlice.ts:22-26 | the date moves one week on and the view mode is kept |
| CalendarNav.CalendarState.GoToPrevWeek | src/features/calendar/store/calendarSlice.ts:27-31 | the date moves one week back and the view mode is kept |
| CalendarNav.CalendarState.SetViewMode | src/features/calendar/store/calendarSlice.ts:35-37 | only the view mode changes |
| CalendarNav.NextWeek | src/features/calendar/store/calendarSlice.ts:22-26 | a week on is exactly 7 days later, on the same weekday |
| CalendarNav.PrevWeek | src/features/calendar/store/calendarSlice.ts:27-31 | a week back is exactly 7 days earlier, on the same weekday |
| CalendarNav.NextPrevInverse | src/features/calendar/store/calendarSlice.ts:22-31 | next then previous restores the date, and the other way round |
| CalendarNav.NextWeekHeader | src/features/calendar/store/calendarSlice.ts:22-31 | after a step, every header day is 7 days later (or earlier) |

## Left out

- Rendering is not modelled: JSX, portals, styling, the resize listener and the React state hooks. The form's handlers are modelled as methods on the fields they set.
- Id generation (`Date.now`, `Math.random`) and the clock (`new Date()`) are not modelled. The id, the creation instant and "now" are parameters.
- Persistence (redux-persist, localStorage) is not modelled.
- `goToToday` is outside the modelled core. Its effect is `SetCurrentDate` with the current day.
- The selectors that only project a field are not modelled.
- IEEE-754 floating point is not modelled: coordinates and `/ 60`, `/ 2` are exact reals. `parseInt` is exact on arbitrarily long digit runs.
- `NaN` is `None`, not a number that propagates. `getEventFullPosition` yields `None` where the source yields `NaN`.
- date-fns and time zones are not modelled. `startOfWeek`, `addDays` and `addWeeks` are day-number arithmetic, so daylight-saving shifts and the time of day within `currentDate` are not modelled.
- The calendar store's `currentDate` and the dialog's `selectedDate` hold ISO text in the source. Here they are a day number and an integer instant; ISO formatting and parsing are not modelled.
- `createdAt` is ISO text in the source and is compared through `new Date(...).getTime()`. Here it is that integer instant.
- `CalendarEvent.title` and `repeatType` are optional in the source type. The store never writes them missing, so the model's stored event always has both.
- `selectEventsDayEvents` (src/features/calendar/store/eventsSlice.ts:70-71) is the same filter as `selectEventsByDate`, so `SelectEventsByDate` models both.
- `selectAllEvents` is the `events` field itself.
- `eventUtils.ts` imports `parseTime` from `./timeUtils` (src/features/calendar/utils/eventUtils.ts:3), but `timeUtils.ts` exports only `formatHour`, so that import does not resolve as shown. The model uses the `parseTime` of src/features/calendar/components/EventModal.tsx:52-58 in its place (`EventLayout.MinutesOf` calls `TimeCodec.ParseTime`), and every `NaN` case of the layout rows rests on that definition.
- EventForm.EventTimeForm.constructor: takes the selected hour explicitly. The source's default of 9 (src/features/calendar/components/EventModal.tsx:24) is not modelled.
- TimeCodec.FormatTimeWithPeriod: takes the minute explicitly. The source's default of `minute = 0` (src/features/calendar/components/EventModal.tsx:33) is not modelled.
- `getEventFullPosition` takes the cell height explicitly. The source's default is `CELL_HEIGHT`, which is 80 (`EventLayout.CellHeight`).
- The overlap layout returns the four fields as a datatype. `Left()`, `Right()`, `Width()` and `ZIndex()` render the CSS text.
- The sort in `calculateOverlapLayout` runs on the freshly filtered copy. In the model every value is immutable, so "the input list is not mutated" holds by construction and is not stated as a lemma.
- The sort is modelled as a stable insertion sort. ECMAScript requires `Array.prototype.sort` to be stable, and the comparator here is `a.createdAt - b.createdAt`.
- EventLayout.OverlapIsSharedMinute: stated only for proper spans (start before end). A reversed span covers no minute, yet `start1 < end2 && start2 < end1` can still hold for it, and the model follows the code there.
- The overlap set compares each event with the target only, not transitively. The model does the same; nothing is proved about transitive clusters.
- ModalPlacement.OpensBeside: needs `rect.left + rect.width >= 0`. Otherwise the later clamp to 10 moves `x`.
- ModalPlacement.BottomOnScreen: needs a window at least 520px tall. In a shorter one the top clamp runs last and the bottom is off screen (`ShortWindowExample`). In such a window the program leaves the modal's bottom below the edge, and the model does too.
- EventForm.EventTimeForm.constructor: for a selected hour of 23 the initial end is the text `24:00`, as the source writes it. Nothing in the source clamps it, and the model does not either.
- The `label` field of a time option is called `labelText`.
