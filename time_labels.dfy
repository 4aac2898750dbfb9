/** The hour labels of the time grid's left column (`formatHour`). */
module TimeLabels {
  import opened Options
  import opened Strings
  import opened TimeCodec

  /**
   * `formatHour`: nothing for midnight, `오전 h시` before noon, `오후 12시` at
   * noon and `오후 (h-12)시` after it.
   */
  function FormatHour(hour: int): (text: string)
    ensures text == [] <==> hour == 0
  {
    if hour == 0 then ""
    else if hour < 12 then Morning + " " + IntToString(hour) + "시"
    else if hour == 12 then "오후 12시"
    else Afternoon + " " + IntToString(hour - 12) + "시"
  }

  /** The number the label shows for a non-midnight hour. */
  function ShownHour(hour: int): int {
    if hour <= 12 then hour else hour - 12
  }

  /**
   * Reads a label back: period, space, a number and `시`; `None` for any text
   * that is not of that shape.
   */
  function ParseHourLabel(text: string): Option<int> {
    if |text| < 5 || text[2] != ' ' || text[|text| - 1] != '시' then None
    else
      var n := ParseInt(text[3..|text| - 1]);
      if n.None? then None
      else if text[..2] == Morning then Some(n.value)
      else if text[..2] == Afternoon then Some(if n.value == 12 then 12 else n.value + 12)
      else None
  }

  /** Every non-midnight label is its period, a space, the shown number and `시`. */
  lemma {:induction false} HourLabelParts(hour: int)
    requires hour != 0
    ensures FormatHour(hour) == Period(hour) + " " + IntToString(ShownHour(hour)) + "시"
  {
    if hour == 12 {
      TwelveText();
    }
  }

  lemma {:induction false} TwelveText()
    ensures IntToString(12) == "12"
  {
    assert NatToString(12) == NatToString(1) + [DigitChar(2)];
  }

  /** The period opens the label: 오전 exactly before noon, 오후 from noon on. */
  lemma {:induction false} HourLabelPeriod(hour: int)
    requires hour != 0
    ensures |FormatHour(hour)| >= 5 && FormatHour(hour)[..2] == Period(hour)
    ensures FormatHour(hour)[..2] == Morning <==> hour < 12
    ensures FormatHour(hour)[..2] == Afternoon <==> hour >= 12
  {
    HourLabelParts(hour);
    LabelSlices(Period(hour), IntToString(ShownHour(hour)));
  }

  lemma {:induction false} LabelSlices(period: string, digits: string)
    requires |period| == 2 && digits != []
    ensures var text := period + " " + digits + "시";
      && |text| == |digits| + 4
      && text[..2] == period && text[2] == ' ' && text[|text| - 1] == '시'
      && text[3..|text| - 1] == digits
  {
    var text := period + " " + digits + "시";
    assert text[..2] == period;
    assert text[3..|text| - 1] == digits;
  }

  /** Every hour of the grid after midnight reads back from its label, so no two hours share one. */
  lemma {:induction false} HourLabelRoundTrip(hour: int)
    requires 1 <= hour <= 23
    ensures ParseHourLabel(FormatHour(hour)) == Some(hour)
  {
    var shown := ShownHour(hour);
    HourLabelParts(hour);
    LabelSlices(Period(hour), IntToString(shown));
    ParseIntOfIntToString(shown);
  }
}
