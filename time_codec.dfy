/**
 * The time helpers of the event form: reading and writing `HH:MM`, the
 * 12-hour label with its 오전/오후 period, the 96 quarter-hour choices of the
 * time pickers, the suggested end time, and the two picker handlers.
 */
module TimeCodec {
  import opened Options
  import opened Strings

  /** A time of day as the form parses it; nothing restricts the range. */
  datatype Time = Time(hour: int, minute: int)

  predicate WellFormed(t: Time) {
    0 <= t.hour < 24 && 0 <= t.minute < 60
  }

  function MinuteOfDay(t: Time): int {
    t.hour * 60 + t.minute
  }

  /** What `parseTime` returns: both fields read by `parseInt(_, 10)`, `None` standing for `NaN`. */
  datatype ParsedTime = ParsedTime(hour: Option<int>, minute: Option<int>) {
    /** The time the fields name, when neither is `NaN`. */
    function ToTime(): Option<Time> {
      if hour.Some? && minute.Some? then Some(Time(hour.value, minute.value)) else None
    }
  }

  /**
   * `parseTime`: split on `:` and read the first two pieces with
   * `parseInt(_, 10)`; a missing second piece reads as `NaN`.
   */
  function ParseTimeFields(timeString: string): (fields: ParsedTime)
    ensures fields.minute.Some? ==> ':' in timeString
  {
    var parts := Split(timeString, ':');
    ParsedTime(ParseInt(parts[0]), if |parts| > 1 then ParseInt(parts[1]) else None)
  }

  /** The time `parseTime` reads, `None` when either field is `NaN`. */
  function ParseTime(timeString: string): (t: Option<Time>)
    ensures t.Some? ==> ':' in timeString && ParseTimeFields(timeString).hour == Some(t.value.hour)
  {
    ParseTimeFields(timeString).ToTime()
  }

  /** `parseTime` reads its hour from the text before the first `:`, or from all of it when there is none. */
  lemma {:induction false} HourBeforeColon(timeString: string)
    ensures var i := IndexOf(timeString, ':');
      ParseTimeFields(timeString).hour == ParseInt(if i < 0 then timeString else timeString[..i])
  {
  }

  /** `n.toString().padStart(2, '0')`. */
  function Pad2(n: int): string {
    PadStart(IntToString(n), 2, '0')
  }

  /** `String(n).padStart(2, '0')` for a number that may be `NaN`. */
  function PadNumber(n: Option<int>): string {
    if n.None? then "NaN" else Pad2(n.value)
  }

  /** The `HH:MM` text the form writes. */
  function FormatTime(t: Time): string {
    Pad2(t.hour) + ":" + Pad2(t.minute)
  }

  /** Reading back a written time gives the same time, for every hour and minute. */
  lemma {:induction false} ParseFormatTime(t: Time)
    ensures ParseTime(FormatTime(t)) == Some(t)
  {
    ParsePaddedTime(t.hour, 2, t.minute);
  }

  lemma {:induction false} ParsePaddedTime(hour: int, width: nat, minute: int)
    requires 0 <= hour || width <= 2
    ensures ParseTime(PadStart(IntToString(hour), width, '0') + ":" + Pad2(minute)) == Some(Time(hour, minute))
  {
    PaddedHasNoColon(hour, width);
    PaddedHasNoColon(minute, 2);
    ParseFieldsOfJoin(PadStart(IntToString(hour), width, '0'), Pad2(minute));
    ParseIntOfPadded(hour, width);
    ParseIntOfPadded(minute, 2);
  }

  /** `a:b` is read field by field when neither half holds a `:`. */
  lemma {:induction false} ParseFieldsOfJoin(a: string, b: string)
    requires ':' !in a && ':' !in b
    ensures ParseTimeFields(a + ":" + b) == ParsedTime(ParseInt(a), ParseInt(b))
  {
    assert a + ":" + b == a + [':'] + b;
    SplitTwo(a, b, ':');
  }

  /** `parseInt` reads a padded number back, `NaN` included. */
  lemma {:induction false} ParsePadNumber(n: Option<int>)
    ensures ':' !in PadNumber(n)
    ensures ParseInt(PadNumber(n)) == n
  {
    if n.Some? {
      PaddedHasNoColon(n.value, 2);
      ParseIntOfPadded(n.value, 2);
    } else {
      NaNText();
    }
  }

  /** `NaN` as text holds no `:` and reads back as `NaN`. */
  lemma {:induction false} NaNText()
    ensures ':' !in "NaN" && ParseInt("NaN") == None
  {
    assert TrimStart("NaN") == "NaN";
  }

  // ---------------------------------------------------------------------------
  // formatTimeWithPeriod
  // ---------------------------------------------------------------------------

  const Morning: string := "오전"
  const Afternoon: string := "오후"

  function Period(hour: int): string {
    if hour < 12 then Morning else Afternoon
  }

  /** The hour on a 12-hour clock face. */
  function DisplayHour(hour: int): (shown: int)
    ensures 0 <= hour < 24 ==> 1 <= shown <= 12
  {
    if hour == 0 then 12 else if hour > 12 then hour - 12 else hour
  }

  /** `formatTimeWithPeriod`: period, a space, the clock-face hour, `:` and the minute padded to two digits. */
  function FormatTimeWithPeriod(hour: int, minute: int): string {
    var face := IntToString(DisplayHour(hour)) + ":" + Pad2(minute);
    Period(hour) + " " + face
  }

  /** The label opens with 오전 exactly for the hours before noon and with 오후 for the others, then a space. */
  lemma {:induction false} LabelPeriod(hour: int, minute: int)
    ensures var text := FormatTimeWithPeriod(hour, minute);
      && 3 < |text| && text[2] == ' '
      && (text[..2] == Morning <==> hour < 12)
      && (text[..2] == Afternoon <==> 12 <= hour)
  {
    LabelPieces(hour, minute);
    assert Morning[1] != Afternoon[1];
  }

  /** Reads a 12-hour label back into a 24-hour time: the inverse of `FormatTimeWithPeriod` on a day's hours. */
  function ParseTimeLabel(text: string): Option<Time> {
    if |text| < 3 || text[2] != ' ' then None else FromClockFace(text[..2], ParseTime(text[3..]))
  }

  function FromClockFace(period: string, face: Option<Time>): Option<Time> {
    if face.None? then None
    else if period == Morning then
      Some(Time(if face.value.hour == 12 then 0 else face.value.hour, face.value.minute))
    else if period == Afternoon then
      Some(Time(if face.value.hour == 12 then 12 else face.value.hour + 12, face.value.minute))
    else None
  }

  /** The 12-hour label loses nothing: period and clock-face hour recover the hour 0..23. */
  lemma {:induction false} LabelRoundTrip(hour: int, minute: int)
    requires 0 <= hour < 24
    ensures ParseTimeLabel(FormatTimeWithPeriod(hour, minute)) == Some(Time(hour, minute))
  {
    var text := FormatTimeWithPeriod(hour, minute);
    LabelPieces(hour, minute);
    ClockFaceText(DisplayHour(hour), minute);
    ClockFaceInverse(hour, minute);
  }

  lemma {:induction false} LabelPieces(hour: int, minute: int)
    ensures var text := FormatTimeWithPeriod(hour, minute);
      text[..2] == Period(hour) && text[3..] == IntToString(DisplayHour(hour)) + ":" + Pad2(minute)
  {
    var face := IntToString(DisplayHour(hour)) + ":" + Pad2(minute);
    var text := FormatTimeWithPeriod(hour, minute);
    assert text == Period(hour) + " " + face;
    assert |Period(hour) + " "| == 3;
    assert text[..2] == Period(hour);
  }

  /** The clock-face part `h:mm` reads back as its hour and minute. */
  lemma {:induction false} ClockFaceText(shown: int, minute: int)
    requires 0 <= shown
    ensures ParseTime(IntToString(shown) + ":" + Pad2(minute)) == Some(Time(shown, minute))
  {
    assert PadStart(IntToString(shown), 0, '0') == IntToString(shown);
    ParsePaddedTime(shown, 0, minute);
  }

  lemma {:induction false} ClockFaceInverse(hour: int, minute: int)
    requires 0 <= hour < 24
    ensures FromClockFace(Period(hour), Some(Time(DisplayHour(hour), minute))) == Some(Time(hour, minute))
  {
    assert Morning != Afternoon by { assert Morning[1] != Afternoon[1]; }
  }

  // ---------------------------------------------------------------------------
  // generateTimeOptions
  // ---------------------------------------------------------------------------

  datatype TimeOption = TimeOption(value: string, labelText: string, hour: int, minute: int)

  /** The choice for `hour:minute`: its `HH:MM` value, its 12-hour label, and the two numbers. */
  function TimeOptionAt(hour: int, minute: int): TimeOption {
    TimeOption(FormatTime(Time(hour, minute)), FormatTimeWithPeriod(hour, minute), hour, minute)
  }

  /**
   * The list `generateTimeOptions` builds: 96 choices, the `k`-th for the
   * `k`-th quarter hour of the day, each written as its own hour and minute.
   */
  ghost predicate QuarterHourList(options: seq<TimeOption>) {
    |options| == 96 && QuarterHoursPlaced(options) && ChoicesWritten(options)
  }

  /** The `k`-th entry is the `k`-th quarter hour: hour `k / 4`, minute `15 * (k % 4)`. */
  ghost predicate QuarterHoursPlaced(options: seq<TimeOption>) {
    forall k :: 0 <= k < |options| ==> options[k].hour == k / 4 && options[k].minute == 15 * (k % 4)
  }

  /** Every entry carries the value and label of its own hour and minute. */
  ghost predicate ChoicesWritten(options: seq<TimeOption>) {
    forall k :: 0 <= k < |options| ==> options[k] == TimeOptionAt(options[k].hour, options[k].minute)
  }

  /** `generateTimeOptions`: every quarter hour of the day, hour by hour. */
  method GenerateTimeOptions() returns (options: seq<TimeOption>)
    ensures QuarterHourList(options)
  {
    options := [];
    for hour := 0 to 24
      invariant |options| == 4 * hour && QuarterHoursPlaced(options) && ChoicesWritten(options)
    {
      var minute := 0;
      while minute < 60
        invariant minute in {0, 15, 30, 45, 60}
        invariant |options| == 4 * hour + minute / 15 && QuarterHoursPlaced(options) && ChoicesWritten(options)
      {
        var value := Pad2(hour) + ":" + Pad2(minute);
        var labelText := FormatTimeWithPeriod(hour, minute);
        var next := TimeOption(value, labelText, hour, minute);
        NextQuarterHour(options, hour, minute);
        options := options + [next];
        minute := minute + 15;
      }
    }
  }

  /** The loop's push appends the choice of the next quarter hour. */
  lemma {:induction false} NextQuarterHour(options: seq<TimeOption>, hour: int, minute: int)
    requires minute in {0, 15, 30, 45}
    requires |options| == 4 * hour + minute / 15 && QuarterHoursPlaced(options) && ChoicesWritten(options)
    ensures var next := TimeOption(Pad2(hour) + ":" + Pad2(minute), FormatTimeWithPeriod(hour, minute), hour, minute);
      QuarterHoursPlaced(options + [next]) && ChoicesWritten(options + [next])
  {
    var next := TimeOption(Pad2(hour) + ":" + Pad2(minute), FormatTimeWithPeriod(hour, minute), hour, minute);
    QuarterPosition(|options|, hour, minute);
    PlaceNext(options, next);
    ChoiceText(hour, minute);
    WriteNext(options, next);
  }

  /** The `minute`-th minute of `hour` is quarter hour number `n` of the day. */
  lemma {:induction false} QuarterPosition(n: int, hour: int, minute: int)
    requires minute in {0, 15, 30, 45} && n == 4 * hour + minute / 15
    ensures hour == n / 4 && minute == 15 * (n % 4)
  {
    MinuteQuarter(minute);
    QuarterIndex(hour, minute / 15);
  }

  lemma {:induction false} PlaceNext(options: seq<TimeOption>, next: TimeOption)
    requires QuarterHoursPlaced(options)
    requires next.hour == |options| / 4 && next.minute == 15 * (|options| % 4)
    ensures QuarterHoursPlaced(options + [next])
  {
  }

  lemma {:induction false} WriteNext(options: seq<TimeOption>, next: TimeOption)
    requires ChoicesWritten(options)
    requires next == TimeOptionAt(next.hour, next.minute)
    ensures ChoicesWritten(options + [next])
  {
  }

  lemma {:induction false} MinuteQuarter(minute: int)
    requires minute in {0, 15, 30, 45}
    ensures 0 <= minute / 15 < 4 && 15 * (minute / 15) == minute
  {
  }

  /** The value the loop writes is the `HH:MM` text of the choice. */
  lemma {:induction false} ChoiceText(hour: int, minute: int)
    ensures TimeOption(Pad2(hour) + ":" + Pad2(minute), FormatTimeWithPeriod(hour, minute), hour, minute)
      == TimeOptionAt(hour, minute)
  {
  }

  lemma {:induction false} QuarterIndex(hour: int, q: int)
    requires 0 <= q < 4
    ensures (4 * hour + q) / 4 == hour && (4 * hour + q) % 4 == q
  {
  }

  /**
   * Every choice is a well-formed time of the day on a quarter hour; its value
   * reads back as its hour and minute, and so does its label.
   */
  lemma {:induction false} QuarterHourChoice(options: seq<TimeOption>, k: int)
    requires QuarterHourList(options) && 0 <= k < |options|
    ensures var o := options[k];
      && WellFormed(Time(o.hour, o.minute))
      && o.minute in {0, 15, 30, 45}
      && MinuteOfDay(Time(o.hour, o.minute)) == 15 * k
      && ParseTime(o.value) == Some(Time(o.hour, o.minute))
      && ParseTimeLabel(o.labelText) == Some(Time(o.hour, o.minute))
  {
    var o := options[k];
    QuarterArithmetic(k);
    assert o == TimeOptionAt(o.hour, o.minute);
    ChoiceReadable(o.hour, o.minute);
  }

  /** The value and the label of the choice for a time of the day both read back as that time. */
  lemma {:induction false} ChoiceReadable(hour: int, minute: int)
    requires 0 <= hour < 24
    ensures ParseTime(TimeOptionAt(hour, minute).value) == Some(Time(hour, minute))
    ensures ParseTimeLabel(TimeOptionAt(hour, minute).labelText) == Some(Time(hour, minute))
  {
    ParseFormatTime(Time(hour, minute));
    LabelRoundTrip(hour, minute);
  }

  lemma {:induction false} QuarterArithmetic(k: int)
    requires 0 <= k < 96
    ensures 0 <= k / 4 < 24 && 15 * (k % 4) in {0, 15, 30, 45}
    ensures (k / 4) * 60 + 15 * (k % 4) == 15 * k
  {
  }

  /** The choices run strictly upwards in time. */
  lemma {:induction false} QuarterHoursAscending(options: seq<TimeOption>, j: int, k: int)
    requires QuarterHourList(options) && 0 <= j < k < |options|
    ensures MinuteOfDay(Time(options[j].hour, options[j].minute)) < MinuteOfDay(Time(options[k].hour, options[k].minute))
  {
    QuarterArithmetic(j);
    QuarterArithmetic(k);
  }

  /** No quarter hour is missing: the one at `hour:minute` is choice `4 * hour + minute / 15`. */
  lemma {:induction false} QuarterHoursComplete(options: seq<TimeOption>, hour: int, minute: int)
    requires QuarterHourList(options) && 0 <= hour < 24 && minute in {0, 15, 30, 45}
    ensures var k := 4 * hour + minute / 15;
      0 <= k < |options| && options[k].hour == hour && options[k].minute == minute
      && options[k].value == FormatTime(Time(hour, minute))
  {
    var q := minute / 15;
    assert 0 <= q < 4 && 15 * q == minute;
    QuarterIndex(hour, q);
  }

  // ---------------------------------------------------------------------------
  // calculateEndTime and the picker handlers
  // ---------------------------------------------------------------------------

  /** The end suggested for a start: one hour later, or 23:59 when that would leave the day. */
  function EndTimeFor(start: Time): (end: Time)
    ensures WellFormed(start) ==> WellFormed(end)
    ensures WellFormed(start) ==>
      MinuteOfDay(end) == if start.hour < 23 then MinuteOfDay(start) + 60 else 23 * 60 + 59
    ensures WellFormed(start) ==>
      MinuteOfDay(start) <= MinuteOfDay(end) && (MinuteOfDay(start) == MinuteOfDay(end) <==> start == Time(23, 59))
  {
    if start.hour + 1 >= 24 then Time(23, 59) else Time(start.hour + 1, start.minute)
  }

  /**
   * The text `calculateEndTime` produces for any input: the written suggested
   * end when the start reads as a time; `23:59` when only its hour reads and
   * is 23 or later; otherwise the fields with `NaN` written where they fail.
   */
  function SuggestedEndTime(startTimeValue: string): (r: string)
    ensures var f := ParseTimeFields(startTimeValue);
      f.hour.Some? && f.hour.value >= 23 ==> r == "23:59"
  {
    LastMinuteText();
    var f := ParseTimeFields(startTimeValue);
    match f.ToTime()
    case Some(t) => FormatTime(EndTimeFor(t))
    case None =>
      if f.hour.Some? && f.hour.value >= 23 then FormatTime(Time(23, 59))
      else PadNumber(if f.hour.Some? then Some(f.hour.value + 1) else None) + ":" + PadNumber(f.minute)
  }

  /** `calculateEndTime`: the start's hour plus one with the same minute, clamped to `23:59`. */
  method CalculateEndTime(startTimeValue: string) returns (r: string)
    ensures r == SuggestedEndTime(startTimeValue)
    ensures var f := ParseTimeFields(startTimeValue);
      f.hour.Some? && f.hour.value >= 23 ==> r == "23:59"
  {
    var f := ParseTimeFields(startTimeValue);
    var endHour: Option<int> := if f.hour.Some? then Some(f.hour.value + 1) else None;
    var endMinute := f.minute;
    if endHour.Some? && endHour.value >= 24 {
      endHour := Some(23);
      endMinute := Some(59);
    }
    r := PadNumber(endHour) + ":" + PadNumber(endMinute);
    match f.ToTime()
    case Some(t) =>
      assert Time(endHour.value, endMinute.value) == EndTimeFor(t);
      assert r == FormatTime(EndTimeFor(t));
      if t.hour >= 23 {
        LastMinuteText();
      }
    case None =>
      if f.hour.Some? && f.hour.value >= 23 {
        assert r == FormatTime(Time(23, 59));
        LastMinuteText();
      }
  }

  /** A start whose hour is before 23 gets the next hour at the same minute, both padded to two digits. */
  lemma {:induction false} EndOneHourLater(startTimeValue: string, hour: int, minute: int)
    requires ParseTime(startTimeValue) == Some(Time(hour, minute)) && hour < 23
    ensures SuggestedEndTime(startTimeValue) == Pad2(hour + 1) + ":" + Pad2(minute)
  {
    var f := ParseTimeFields(startTimeValue);
    assert f.ToTime() == Some(Time(hour, minute));
    assert EndTimeFor(Time(hour, minute)) == Time(hour + 1, minute);
  }

  /** A start written by the form suggests the written end of that time. */
  lemma {:induction false} EndOfWrittenStart(t: Time)
    ensures SuggestedEndTime(FormatTime(t)) == FormatTime(EndTimeFor(t))
  {
    ParseFormatTime(t);
  }

  /** 09:00 ends at 10:00. */
  lemma {:induction false} NineOClockExample()
    ensures SuggestedEndTime("09:00") == "10:00"
  {
    NineText();
    assert FormatTime(Time(9, 0)) == "09:00";
    assert FormatTime(Time(10, 0)) == "10:00";
    EndOfWrittenStart(Time(9, 0));
  }

  /** 23:30 and 23:59 both end at 23:59. */
  lemma {:induction false} LateStartExamples()
    ensures SuggestedEndTime("23:30") == "23:59"
    ensures SuggestedEndTime("23:59") == "23:59"
  {
    LastMinuteText();
    ThirtyText();
    assert FormatTime(Time(23, 30)) == "23:30";
    LateWrittenStart(Time(23, 30));
    LateWrittenStart(Time(23, 59));
  }

  /** A written start in hour 23 or later ends at 23:59. */
  lemma {:induction false} LateWrittenStart(t: Time)
    requires t.hour >= 23
    ensures SuggestedEndTime(FormatTime(t)) == "23:59"
  {
    ParseFormatTime(t);
  }

  lemma {:induction false} NineText()
    ensures Pad2(9) == "09" && Pad2(10) == "10" && Pad2(0) == "00"
  {
    assert NatToString(10) == NatToString(1) + [DigitChar(0)] == "10";
    assert IntToString(0) == "0" && IntToString(9) == "9";
  }

  lemma {:induction false} ThirtyText()
    ensures Pad2(23) == "23" && Pad2(30) == "30"
  {
    assert NatToString(23) == NatToString(2) + [DigitChar(3)] == "23";
    assert NatToString(30) == NatToString(3) + [DigitChar(0)] == "30";
  }

  /** `23:59` is how the clamped end is written. */
  lemma {:induction false} LastMinuteText()
    ensures FormatTime(Time(23, 59)) == "23:59"
  {
    assert NatToString(2) == "2" && NatToString(5) == "5";
    assert NatToString(23) == NatToString(2) + [DigitChar(3)] == "23";
    assert NatToString(59) == NatToString(5) + [DigitChar(9)] == "59";
    assert Pad2(23) == "23" && Pad2(59) == "59";
  }

  /**
   * The suggested end reads back as the suggested end of the start when the
   * start reads; as 23:59 when only an hour of 23 or later reads; and not at
   * all otherwise.
   */
  lemma {:induction false} SuggestedEndTimeReadable(startTimeValue: string)
    ensures var f := ParseTimeFields(startTimeValue);
      ParseTime(SuggestedEndTime(startTimeValue)) ==
        if f.ToTime().Some? then Some(EndTimeFor(f.ToTime().value))
        else if f.hour.Some? && f.hour.value >= 23 then Some(Time(23, 59))
        else None
  {
    var f := ParseTimeFields(startTimeValue);
    if f.ToTime().Some? {
      ParseFormatTime(EndTimeFor(f.ToTime().value));
    } else if f.hour.Some? && f.hour.value >= 23 {
      ParseFormatTime(Time(23, 59));
    } else {
      var h: Option<int> := if f.hour.Some? then Some(f.hour.value + 1) else None;
      ParsePadNumber(h);
      ParsePadNumber(f.minute);
      ParseFieldsOfJoin(PadNumber(h), PadNumber(f.minute));
    }
  }

  /** Picking any start from the list suggests an end strictly later on the same day, which reads back. */
  lemma {:induction false} ChoiceEndAfterStart(options: seq<TimeOption>, k: int)
    requires QuarterHourList(options) && 0 <= k < |options|
    ensures var o := options[k];
      var end := EndTimeFor(Time(o.hour, o.minute));
      && ParseTime(o.value) == Some(Time(o.hour, o.minute))
      && WellFormed(end)
      && MinuteOfDay(Time(o.hour, o.minute)) < MinuteOfDay(end)
      && ParseTime(SuggestedEndTime(o.value)) == Some(end)
  {
    var o := options[k];
    QuarterHourChoice(options, k);
    SuggestedEndTimeReadable(o.value);
  }

  /** `00` is how a zero minute is written. */
  lemma {:induction false} ZeroMinuteText()
    ensures Pad2(0) == "00"
  {
    assert IntToString(0) == "0";
  }

  /** The text `hh:00` the form opens with is the written time `hh:00`. */
  lemma {:induction false} OnTheHour(hour: int)
    ensures Pad2(hour) + ":00" == FormatTime(Time(hour, 0))
  {
    ZeroMinuteText();
    var a := Pad2(hour);
    assert ":" + Pad2(0) == ":00";
    assert a + ":" + Pad2(0) == a + (":" + Pad2(0));
  }
}
