/**
 * The state of the event form that the time pickers change: the text of the
 * two time fields and whether each picker's list is open.
 */
module EventForm {
  import opened TimeCodec

  /** The time fields of the event form. */
  class EventTimeForm {
    var title: string
    var startTime: string
    var endTime: string
    var showStartTimeDropdown: bool
    var showEndTimeDropdown: bool

    /** The form as it opens on the row of `selectedHour`: from that hour to the next, on the hour. */
    constructor (selectedHour: int)
      ensures title == ""
      ensures startTime == FormatTime(Time(selectedHour, 0))
      ensures endTime == FormatTime(Time(selectedHour + 1, 0))
      ensures !showStartTimeDropdown && !showEndTimeDropdown
    {
      var start := Pad2(selectedHour) + ":00";
      var end := Pad2(selectedHour + 1) + ":00";
      OnTheHour(selectedHour);
      OnTheHour(selectedHour + 1);
      title, startTime, endTime := "", start, end;
      showStartTimeDropdown, showEndTimeDropdown := false, false;
    }

    /** `handleStartTimeChange`: take the new start, move the end to the suggested end, close the start picker. */
    method HandleStartTimeChange(timeValue: string)
      modifies this
      ensures startTime == timeValue
      ensures endTime == SuggestedEndTime(timeValue)
      ensures !showStartTimeDropdown
      ensures title == old(title) && showEndTimeDropdown == old(showEndTimeDropdown)
    {
      var end := CalculateEndTime(timeValue);
      startTime, endTime, showStartTimeDropdown := timeValue, end, false;
    }

    /** `handleEndTimeChange`: take the new end and close the end picker; nothing else moves. */
    method HandleEndTimeChange(timeValue: string)
      modifies this
      ensures endTime == timeValue
      ensures !showEndTimeDropdown
      ensures title == old(title) && startTime == old(startTime)
      ensures showStartTimeDropdown == old(showStartTimeDropdown)
    {
      endTime, showEndTimeDropdown := timeValue, false;
    }
  }
}
