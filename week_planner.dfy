/** The full-week planner (component Planner): seven day columns, time-slot
    rows the user can only append, and an event list it persists. */
module WeekPlanner {
  import opened Sequences
  import opened Labels
  import opened Schedule

  /** The row the grid starts with. It is not in the `start - end` format
      addTimeSlot builds, and it is never persisted. */
  const InitialTimeSlots: seq<string> := ["6:00-7:30"]

  /** No slot addTimeSlot builds can equal the initial row: every built label
      has a blank where the separator starts, the initial row has none. */
  lemma InitialSlotIsNotALabel(start: string, end: string)
    ensures Label(start, end) !in InitialTimeSlots
  {
    var l := Label(start, end);
    assert l[|start|] == ' ';
    assert forall i :: 0 <= i < |InitialTimeSlots[0]| ==> InitialTimeSlots[0][i] != ' ';
  }

  /** The state of the component: the slot rows, the persisted events and the form fields. */
  class Planner {
    var timeSlots: seq<string>
    var events: seq<EventData>
    var selectedCell: Option<Cell>
    var eventText: string
    var customStartTime: string
    var customEndTime: string

    /** Initial state: the stored events (None when the key is absent or
        empty), else none; the slot rows are always the initial one. */
    constructor (storedEvents: Option<seq<EventData>>)
      ensures timeSlots == InitialTimeSlots
      ensures events == (if storedEvents.Some? then storedEvents.value else [])
      ensures selectedCell == None && eventText == ""
      ensures customStartTime == "" && customEndTime == ""
    {
      timeSlots := InitialTimeSlots;
      events := if storedEvents.Some? then storedEvents.value else [];
      selectedCell := None;
      eventText := "";
      customStartTime := "";
      customEndTime := "";
    }

    /** The start `<input type="time">` changed. */
    method SetCustomStartTime(value: string)
      modifies this`customStartTime
      ensures customStartTime == value
    {
      customStartTime := value;
    }

    /** The end `<input type="time">` changed. */
    method SetCustomEndTime(value: string)
      modifies this`customEndTime
      ensures customEndTime == value
    {
      customEndTime := value;
    }

    /** The event text input changed. */
    method SetEventText(value: string)
      modifies this`eventText
      ensures eventText == value
    {
      eventText := value;
    }

    /** Append a slot built from both inputs: no duplicate check, no sorting. */
    method AddTimeSlot()
      modifies this`timeSlots, this`customStartTime, this`customEndTime
      ensures old(customStartTime) == "" || old(customEndTime) == "" ==>
        && timeSlots == old(timeSlots)
        && customStartTime == old(customStartTime) && customEndTime == old(customEndTime)
      ensures old(customStartTime) != "" && old(customEndTime) != "" ==>
        && timeSlots == old(timeSlots) + [Label(old(customStartTime), old(customEndTime))]
        && customStartTime == "" && customEndTime == ""
      ensures |timeSlots| <= |old(timeSlots)| + 1 && timeSlots[..|old(timeSlots)|] == old(timeSlots)
    {
      if customStartTime != "" && customEndTime != "" {
        var newSlot := Label(customStartTime, customEndTime);
        timeSlots := timeSlots + [newSlot];
        customStartTime := "";
        customEndTime := "";
      }
    }

    /** Open a cell: select it and load its text. */
    method OpenModal(day: string, time: string)
      modifies this`selectedCell, this`eventText
      ensures selectedCell == Some(Cell(day, time))
      ensures eventText == Lookup(events, day, time)
    {
      selectedCell := Some(Cell(day, time));
      eventText := Lookup(events, day, time);
    }

    /** Save the open cell's text, empty or not: replace its record by a new last one. */
    method SaveEvent()
      modifies this`events, this`selectedCell, this`eventText
      ensures old(selectedCell).None? ==>
        events == old(events) && selectedCell == None && eventText == old(eventText)
      ensures old(selectedCell).Some? ==>
        && events == Upserted(old(events), old(selectedCell).value.day, old(selectedCell).value.time, old(eventText))
        && selectedCell == None && eventText == ""
      ensures UniqueKeys(old(events)) ==> UniqueKeys(events)
    {
      if selectedCell.Some? {
        var cell := selectedCell.value;
        if UniqueKeys(events) {
          UpsertKeepsUniqueKeys(events, cell.day, cell.time, eventText);
        }
        var updatedEvents := WithoutKey(events, cell.day, cell.time);
        updatedEvents := updatedEvents + [EventData(cell.day, cell.time, eventText)];
        events := updatedEvents;
        selectedCell := None;
        eventText := "";
      }
    }
  }
}
