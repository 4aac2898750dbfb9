/**
 * The event dialog's store (`eventsModalSlice`): whether the dialog is open,
 * the slot it was opened on, and whether it creates or edits an event. The
 * selected date is an instant (milliseconds); the clock is a parameter of
 * the initial state.
 */
module EventsModal {
  import opened Options

  datatype ModalMode = Create | Edit

  const InitialHour: int := 9
  const InitialMinute: int := 0

  /** The whole state as one value, for stating what a reducer keeps. */
  datatype ModalSnapshot = ModalSnapshot(
    isOpen: bool,
    selectedDate: int,
    selectedHour: int,
    selectedMinute: int,
    editingEventId: Option<string>,
    mode: ModalMode)

  /** `initialState`: closed, creating, on 09:00 of `now`, editing nothing. */
  function Initial(now: int): (s: ModalSnapshot)
    ensures !s.isOpen && s.mode == Create && s.editingEventId.None?
    ensures s.selectedHour == 9 && s.selectedMinute == 0 && s.selectedDate == now
  {
    ModalSnapshot(false, now, InitialHour, InitialMinute, None, Create)
  }

  /**
   * `openCreateModal`: open on a slot, creating, editing nothing; an omitted
   * minute (`minute || 0`) is 0.
   */
  function OpenedForCreate(s: ModalSnapshot, date: int, hour: int, minute: Option<int>): (t: ModalSnapshot)
    ensures t.isOpen && t.mode == Create && t.editingEventId.None?
    ensures t.selectedDate == date && t.selectedHour == hour
    ensures minute.None? ==> t.selectedMinute == 0
    ensures minute.Some? ==> t.selectedMinute == minute.value
  {
    ModalSnapshot(true, date, hour, minute.GetOr(0), None, Create)
  }

  /** `openEditModal`: open on an event, editing; the slot the dialog last showed is not touched. */
  function OpenedForEdit(s: ModalSnapshot, id: string): (t: ModalSnapshot)
    ensures t.isOpen && t.mode == Edit && t.editingEventId == Some(id)
    ensures t.selectedDate == s.selectedDate && t.selectedHour == s.selectedHour && t.selectedMinute == s.selectedMinute
  {
    s.(isOpen := true, editingEventId := Some(id), mode := Edit)
  }

  /** `closeModal`: only `isOpen` changes. */
  function Closed(s: ModalSnapshot): (t: ModalSnapshot)
    ensures !t.isOpen
    ensures t.mode == s.mode && t.editingEventId == s.editingEventId
    ensures t.selectedDate == s.selectedDate && t.selectedHour == s.selectedHour && t.selectedMinute == s.selectedMinute
  {
    s.(isOpen := false)
  }

  class EventsModalState {
    var isOpen: bool
    var selectedDate: int
    var selectedHour: int
    var selectedMinute: int
    var editingEventId: Option<string>
    var mode: ModalMode

    function Snapshot(): ModalSnapshot
      reads this
    {
      ModalSnapshot(isOpen, selectedDate, selectedHour, selectedMinute, editingEventId, mode)
    }

    constructor(now: int)
      ensures Snapshot() == Initial(now)
    {
      isOpen := false;
      selectedDate := now;
      selectedHour := InitialHour;
      selectedMinute := InitialMinute;
      editingEventId := None;
      mode := Create;
    }

    method OpenCreateModal(date: int, hour: int, minute: Option<int>)
      modifies this
      ensures Snapshot() == OpenedForCreate(old(Snapshot()), date, hour, minute)
    {
      isOpen := true;
      selectedDate := date;
      selectedHour := hour;
      selectedMinute := minute.GetOr(0);
      editingEventId := None;
      mode := Create;
    }

    method OpenEditModal(id: string)
      modifies this
      ensures Snapshot() == OpenedForEdit(old(Snapshot()), id)
    {
      isOpen := true;
      editingEventId := Some(id);
      mode := Edit;
    }

    method CloseModal()
      modifies this
      ensures Snapshot() == Closed(old(Snapshot()))
    {
      isOpen := false;
    }
  }

  /** Closing twice is closing once, and closing an open dialog and reopening it gives back that dialog. */
  lemma CloseIdempotent(s: ModalSnapshot)
    ensures Closed(Closed(s)) == Closed(s)
    ensures s.isOpen ==> Closed(s).(isOpen := true) == s
  {
  }

  /** Closing an edit dialog and opening it again on the same event restores the state before closing. */
  lemma ReopenEdit(s: ModalSnapshot, id: string)
    ensures OpenedForEdit(Closed(OpenedForEdit(s, id)), id) == OpenedForEdit(s, id)
  {
  }

  /** Whatever came before, opening to create gives the same state: nothing of an earlier edit survives. */
  lemma OpenCreateForgets(s1: ModalSnapshot, s2: ModalSnapshot, date: int, hour: int, minute: Option<int>)
    ensures OpenedForCreate(s1, date, hour, minute) == OpenedForCreate(s2, date, hour, minute)
  {
  }
}
