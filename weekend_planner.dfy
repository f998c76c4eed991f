/** The weekend planner (component DayPlanner): Saturday and Sunday columns,
    time-slot rows the user adds, edits and deletes, kept sorted by start
    time, and an event list shared with the cells of the grid. */
module WeekendPlanner {
  import opened Sequences
  import opened Labels
  import opened Schedule
  import opened SlotOrder

  /** The slot list when nothing is stored. */
  const DefaultTimeSlots: seq<string> := ["06:00 - 07:30"]

  /** `if (selectedTimeSlot)`: a selected label that JavaScript treats as true. */
  predicate Editing(selected: Option<string>)
  {
    selected.Some? && selected.value != ""
  }

  /** `slots.map(slot => slot === target ? replacement : slot)`: position by
      position, the target becomes the replacement and nothing else moves. */
  function ReplaceAll(slots: seq<string>, target: string, replacement: string): (r: seq<string>)
    ensures |r| == |slots|
    ensures forall i :: 0 <= i < |slots| ==> r[i] == (if slots[i] == target then replacement else slots[i])
    ensures forall l :: l in r ==> l in slots || l == replacement
  {
    if slots == [] then []
    else [if slots[0] == target then replacement else slots[0]] + ReplaceAll(slots[1..], target, replacement)
  }

  lemma ReplaceAllHead(slots: seq<string>, target: string, replacement: string)
    requires slots != []
    ensures multiset(ReplaceAll(slots, target, replacement))
         == multiset{if slots[0] == target then replacement else slots[0]}
            + multiset(ReplaceAll(slots[1..], target, replacement))
  {
    var head := if slots[0] == target then replacement else slots[0];
    assert ReplaceAll(slots, target, replacement) == [head] + ReplaceAll(slots[1..], target, replacement);
  }

  /** The count of `l` after replacing in `ms`, the counts before. */
  function ReplacedCount(ms: multiset<string>, target: string, replacement: string, l: string): nat
  {
    if target == replacement then ms[l]
    else if l == target then 0
    else if l == replacement then ms[replacement] + ms[target]
    else ms[l]
  }

  /** One element more on both sides keeps the replaced counts in step. */
  lemma ReplacedCountStep(x: string, rest: multiset<string>, tail: multiset<string>,
                          target: string, replacement: string, l: string)
    requires rest[l] == ReplacedCount(tail, target, replacement, l)
    ensures (multiset{if x == target then replacement else x} + rest)[l]
         == ReplacedCount(multiset{x} + tail, target, replacement, l)
  {
  }

  /** How many copies of one label the edit leaves. */
  lemma {:induction false} ReplaceAllCount(slots: seq<string>, target: string, replacement: string, l: string)
    ensures multiset(ReplaceAll(slots, target, replacement))[l] == ReplacedCount(multiset(slots), target, replacement, l)
    decreases |slots|
  {
    if slots != [] {
      ReplaceAllCount(slots[1..], target, replacement, l);
      ReplaceAllHead(slots, target, replacement);
      assert multiset(slots) == multiset{slots[0]} + multiset(slots[1..]) by {
        assert slots == [slots[0]] + slots[1..];
      }
      ReplacedCountStep(slots[0], multiset(ReplaceAll(slots[1..], target, replacement)),
                        multiset(slots[1..]), target, replacement, l);
    }
  }

  /** How many copies of each label the edit leaves: all copies of the target
      become copies of the replacement. */
  lemma ReplaceAllCounts(slots: seq<string>, target: string, replacement: string)
    ensures target != replacement ==> multiset(ReplaceAll(slots, target, replacement))[target] == 0
    ensures target != replacement ==>
              multiset(ReplaceAll(slots, target, replacement))[replacement]
              == multiset(slots)[replacement] + multiset(slots)[target]
    ensures forall l :: l != target && l != replacement ==>
              multiset(ReplaceAll(slots, target, replacement))[l] == multiset(slots)[l]
  {
    ReplaceAllCount(slots, target, replacement, target);
    ReplaceAllCount(slots, target, replacement, replacement);
    forall l | l != target && l != replacement
      ensures multiset(ReplaceAll(slots, target, replacement))[l] == multiset(slots)[l]
    {
      ReplaceAllCount(slots, target, replacement, l);
    }
  }

  /** deleteTimeSlot's filter on the slot list. */
  function WithoutSlot(slots: seq<string>, time: string): (r: seq<string>)
    ensures time !in r
    ensures forall l :: l in r ==> l in slots
    ensures forall l :: l in slots && l != time ==> multiset(r)[l] == multiset(slots)[l]
    ensures Subsequence(r, slots)
  {
    Filter(slots, (l: string) => l != time)
  }

  /** The slot list saveTimeSlot stores when both inputs are filled: in edit
      mode every occurrence of the selected label becomes `newSlot`; in add
      mode `newSlot` is appended unless present; then the list is sorted. */
  function SavedSlots(slots: seq<string>, selected: Option<string>, newSlot: string): (r: seq<string>)
    requires AllClockStarts(slots) && HasClockStart(newSlot)
    ensures Sorted(r)
    ensures Editing(selected) ==> multiset(r) == multiset(ReplaceAll(slots, selected.value, newSlot))
    ensures !Editing(selected) && newSlot in slots ==> multiset(r) == multiset(slots)
    ensures !Editing(selected) && newSlot !in slots ==> multiset(r) == multiset(slots) + multiset{newSlot}
  {
    ReplaceAllCounts(slots, if selected.Some? then selected.value else "", newSlot);
    var updated :=
      if Editing(selected) then ReplaceAll(slots, selected.value, newSlot)
      else if newSlot in slots then slots
      else slots + [newSlot];
    SortByStart(updated)
  }

  /** Labels appear at most once. */
  ghost predicate Distinct(slots: seq<string>)
  {
    forall l :: multiset(slots)[l] <= 1
  }

  /** Adding the same slot twice leaves the list as the first add left it. */
  lemma AddTwice(slots: seq<string>, newSlot: string)
    requires AllClockStarts(slots) && HasClockStart(newSlot)
    ensures SavedSlots(SavedSlots(slots, None, newSlot), None, newSlot) == SavedSlots(slots, None, newSlot)
  {
    var once := SavedSlots(slots, None, newSlot);
    assert newSlot in multiset(once);
    SortByStartSorted(once);
  }

  /** Add mode never creates a duplicate label. */
  lemma AddKeepsDistinct(slots: seq<string>, newSlot: string)
    requires AllClockStarts(slots) && HasClockStart(newSlot)
    requires Distinct(slots)
    ensures Distinct(SavedSlots(slots, None, newSlot))
  {
    var r := SavedSlots(slots, None, newSlot);
    forall l ensures multiset(r)[l] <= 1 {
      if newSlot !in slots && l == newSlot {
        assert multiset(slots)[l] == 0;
      }
    }
  }

  /** Edit mode does not check for duplicates: renaming a slot to a label the
      list already holds leaves that label twice in the list. */
  lemma EditCanDuplicate(slots: seq<string>, target: string, newSlot: string)
    requires AllClockStarts(slots) && HasClockStart(newSlot)
    requires target != "" && target != newSlot && target in slots && newSlot in slots
    ensures !Distinct(SavedSlots(slots, Some(target), newSlot))
  {
    ReplaceAllCounts(slots, target, newSlot);
    var r := SavedSlots(slots, Some(target), newSlot);
    var m := ReplaceAll(slots, target, newSlot);
    assert multiset(slots)[target] >= 1 && multiset(slots)[newSlot] >= 1;
    assert multiset(m)[newSlot] >= 2;
    assert multiset(r)[newSlot] >= 2;
  }

  /** Edit mode renames in place: the list keeps its length and the old label is gone. */
  lemma EditReplaces(slots: seq<string>, target: string, newSlot: string)
    requires AllClockStarts(slots) && HasClockStart(newSlot)
    requires target != "" && target != newSlot
    ensures |SavedSlots(slots, Some(target), newSlot)| == |slots|
    ensures target !in SavedSlots(slots, Some(target), newSlot)
    ensures target in slots ==> newSlot in SavedSlots(slots, Some(target), newSlot)
  {
    var r := SavedSlots(slots, Some(target), newSlot);
    var m := ReplaceAll(slots, target, newSlot);
    assert |r| == |multiset(r)| == |multiset(m)| == |m|;
    assert target !in multiset(r);
    if target in slots {
      assert newSlot in multiset(m);
    }
  }

  /** Deleting a slot keeps a sorted list sorted. */
  lemma DeleteKeepsSorted(slots: seq<string>, time: string)
    requires Sorted(slots)
    ensures Sorted(WithoutSlot(slots, time))
  {
    FilterKeepsSorted(slots, (l: string) => l != time);
  }

  lemma DefaultHasClockStarts()
    ensures AllClockStarts(DefaultTimeSlots)
  {
    assert Label("06:00", "07:30") == "06:00 - 07:30";
    LabelStartMinutes("06:00", "07:30");
  }

  lemma ScenarioKeys()
    ensures HasClockStart("06:00 - 07:30") && StartMinutes("06:00 - 07:30") == 360
    ensures HasClockStart("07:30 - 09:00") && StartMinutes("07:30 - 09:00") == 450
    ensures HasClockStart("05:00 - 06:00") && StartMinutes("05:00 - 06:00") == 300
  {
    assert "06:00 - 07:30" == Label("06:00", "07:30");
    assert "07:30 - 09:00" == Label("07:30", "09:00");
    assert "05:00 - 06:00" == Label("05:00", "06:00");
    LabelStartMinutes("06:00", "07:30");
    LabelStartMinutes("07:30", "09:00");
    LabelStartMinutes("05:00", "06:00");
  }

  /** Adding a label that starts after the only row appends it. */
  lemma AddAfterOne(a: string, b: string)
    requires HasClockStart(a) && HasClockStart(b) && StartMinutes(a) < StartMinutes(b)
    ensures SavedSlots([a], None, b) == [a, b]
  {
    assert b !in [a];
    assert [a] + [b] == [a, b];
    assert Sorted([a, b]);
    SortByStartSorted([a, b]);
  }

  /** Adding a label that starts before two sorted rows puts it first. */
  lemma AddBeforeTwo(a: string, b: string, c: string)
    requires HasClockStart(a) && HasClockStart(b) && HasClockStart(c)
    requires StartMinutes(c) < StartMinutes(a) < StartMinutes(b)
    ensures SavedSlots([a, b], None, c) == [c, a, b]
  {
    assert c !in [a, b];
    assert [a, b] + [c] == [a, b, c];
    SortLastFirst(a, b, c);
  }

  /** Adding 07:30-09:00 to the default list puts it after 06:00-07:30. */
  lemma AddLaterScenario()
    ensures AllClockStarts(DefaultTimeSlots) && HasClockStart("07:30 - 09:00")
    ensures SavedSlots(DefaultTimeSlots, None, "07:30 - 09:00") == ["06:00 - 07:30", "07:30 - 09:00"]
  {
    ScenarioKeys();
    AddAfterOne("06:00 - 07:30", "07:30 - 09:00");
  }

  /** Adding 05:00-06:00 next re-sorts it to the front. */
  lemma AddEarlierScenario()
    ensures AllClockStarts(["06:00 - 07:30", "07:30 - 09:00"]) && HasClockStart("05:00 - 06:00")
    ensures SavedSlots(["06:00 - 07:30", "07:30 - 09:00"], None, "05:00 - 06:00")
         == ["05:00 - 06:00", "06:00 - 07:30", "07:30 - 09:00"]
  {
    ScenarioKeys();
    AddBeforeTwo("06:00 - 07:30", "07:30 - 09:00", "05:00 - 06:00");
  }

  lemma SortLastFirst(a: string, b: string, c: string)
    requires HasClockStart(a) && HasClockStart(b) && HasClockStart(c)
    requires StartMinutes(c) < StartMinutes(a) < StartMinutes(b)
    ensures SortByStart([a, b, c]) == [c, a, b]
  {
    SortSwapsTwo(b, c);
    InsertSecond(a, c, b);
    assert [a, b, c][1..] == [b, c];
  }

  lemma SortSwapsTwo(b: string, c: string)
    requires HasClockStart(b) && HasClockStart(c) && StartMinutes(c) < StartMinutes(b)
    ensures SortByStart([b, c]) == [c, b]
  {
    assert [c][1..] == [];
    assert SortByStart([c]) == [c];
    assert [b, c][1..] == [c];
    assert Insert(b, [c]) == [c] + Insert(b, []);
  }

  lemma InsertSecond(a: string, c: string, b: string)
    requires HasClockStart(a) && HasClockStart(b) && HasClockStart(c)
    requires StartMinutes(c) < StartMinutes(a) <= StartMinutes(b)
    ensures Insert(a, [c, b]) == [c, a, b]
  {
    assert [c, b][1..] == [b];
    assert Insert(a, [b]) == [a, b];
  }

  /** The state of the component: the two persisted lists and the form fields. */
  class DayPlanner {
    var timeSlots: seq<string>
    var events: seq<EventData>
    var selectedCell: Option<Cell>
    var eventText: string
    var customStartTime: string
    var customEndTime: string
    var selectedTimeSlot: Option<string>

    /** Every slot starts with an `HH:MM` time, and so does a filled start input. */
    ghost predicate Valid()
      reads this
    {
      AllClockStarts(timeSlots) && (customStartTime == "" || IsClock(customStartTime))
    }

    /** Initial state: the stored lists (None when the key is absent or
        empty, or before the window exists), else the defaults. */
    constructor (storedSlots: Option<seq<string>>, storedEvents: Option<seq<EventData>>)
      requires storedSlots.Some? ==> AllClockStarts(storedSlots.value)
      ensures Valid()
      ensures timeSlots == (if storedSlots.Some? then storedSlots.value else DefaultTimeSlots)
      ensures events == (if storedEvents.Some? then storedEvents.value else [])
      ensures selectedCell == None && eventText == ""
      ensures customStartTime == "" && customEndTime == "" && selectedTimeSlot == None
    {
      DefaultHasClockStarts();
      timeSlots := if storedSlots.Some? then storedSlots.value else DefaultTimeSlots;
      events := if storedEvents.Some? then storedEvents.value else [];
      selectedCell := None;
      eventText := "";
      customStartTime := "";
      customEndTime := "";
      selectedTimeSlot := None;
    }

    /** The start `<input type="time">` changed. */
    method SetCustomStartTime(value: string)
      requires Valid() && (value == "" || IsClock(value))
      modifies this`customStartTime
      ensures Valid() && customStartTime == value
    {
      customStartTime := value;
    }

    /** The end `<input type="time">` changed. */
    method SetCustomEndTime(value: string)
      requires Valid()
      modifies this`customEndTime
      ensures Valid() && customEndTime == value
    {
      customEndTime := value;
    }

    /** Add or edit a time slot from the two inputs, then sort the list. */
    method SaveTimeSlot()
      requires Valid()
      modifies this`timeSlots, this`selectedTimeSlot, this`customStartTime, this`customEndTime
      ensures Valid()
      ensures old(customStartTime) == "" || old(customEndTime) == "" ==>
        && timeSlots == old(timeSlots) && selectedTimeSlot == old(selectedTimeSlot)
        && customStartTime == old(customStartTime) && customEndTime == old(customEndTime)
      ensures old(customStartTime) != "" && old(customEndTime) != "" ==>
        && HasClockStart(Label(old(customStartTime), old(customEndTime)))
        && timeSlots == SavedSlots(old(timeSlots), old(selectedTimeSlot),
                                   Label(old(customStartTime), old(customEndTime)))
        && Sorted(timeSlots)
        && selectedTimeSlot == (if Editing(old(selectedTimeSlot)) then None else old(selectedTimeSlot))
        && customStartTime == "" && customEndTime == ""
    {
      if customStartTime != "" && customEndTime != "" {
        var newSlot := Label(customStartTime, customEndTime);
        LabelStartMinutes(customStartTime, customEndTime);
        var updatedSlots := timeSlots;
        if Editing(selectedTimeSlot) {
          updatedSlots := ReplaceAll(updatedSlots, selectedTimeSlot.value, newSlot);
          selectedTimeSlot := None;
        } else if newSlot !in timeSlots {
          updatedSlots := updatedSlots + [newSlot];
        }
        updatedSlots := SortByStart(updatedSlots);
        timeSlots := updatedSlots;
        customStartTime := "";
        customEndTime := "";
      }
    }

    /** Delete a row and, with it, every event in that row. */
    method DeleteTimeSlot(time: string)
      requires Valid()
      modifies this`timeSlots, this`events
      ensures Valid()
      ensures timeSlots == WithoutSlot(old(timeSlots), time)
      ensures events == WithoutTime(old(events), time)
      ensures UniqueKeys(old(events)) ==> UniqueKeys(events)
    {
      timeSlots := WithoutSlot(timeSlots, time);
      if UniqueKeys(events) {
        FilterKeepsUniqueKeys(events, (e: EventData) => e.time != time);
      }
      events := WithoutTime(events, time);
    }

    /** Open a cell: select it and load its text. */
    method OpenEventModal(day: string, time: string)
      requires Valid()
      modifies this`selectedCell, this`eventText
      ensures Valid()
      ensures selectedCell == Some(Cell(day, time))
      ensures eventText == Lookup(events, day, time)
    {
      selectedCell := Some(Cell(day, time));
      eventText := Lookup(events, day, time);
    }

    /** Click a row's label: select it and fill both inputs from it. */
    method OpenTimeEditModal(time: string)
      requires Valid() && time in timeSlots
      modifies this`selectedTimeSlot, this`customStartTime, this`customEndTime
      ensures Valid()
      ensures selectedTimeSlot == Some(time)
      ensures customStartTime == StartOf(time)
      ensures customEndTime == (var parts := Split(time, Separator); if |parts| >= 2 then parts[1] else "")
    {
      selectedTimeSlot := Some(time);
      var parts := Split(time, Separator);
      customStartTime := parts[0];
      customEndTime := if |parts| >= 2 then parts[1] else "";
    }

    /** Save the open cell's text: replace its record by a new last one. */
    method SaveEvent()
      requires Valid()
      modifies this`events, this`selectedCell, this`eventText
      ensures Valid()
      ensures old(selectedCell).None? ==>
        events == old(events) && selectedCell == None && eventText == old(eventText)
      ensures old(selectedCell).Some? ==>
        && events == Upserted(old(events), old(selectedCell).value.day, old(selectedCell).value.time, old(eventText))
        && selectedCell == None && eventText == ""
      ensures UniqueKeys(old(events)) ==> UniqueKeys(events)
    {
      if selectedCell.Some? {
        var cell := selectedCell.value;
        if UniqueKeys(events) {
          UpsertKeepsUniqueKeys(events, cell.day, cell.time, eventText);
        }
        var updatedEvents := WithoutKey(events, cell.day, cell.time);
        updatedEvents := updatedEvents + [EventData(cell.day, cell.time, eventText)];
        events := updatedEvents;
        selectedCell := None;
        eventText := "";
      }
    }

    /** Clear one cell. */
    method DeleteEvent(day: string, time: string)
      requires Valid()
      modifies this`events
      ensures Valid()
      ensures events == WithoutKey(old(events), day, time)
      ensures UniqueKeys(old(events)) ==> UniqueKeys(events)
    {
      if UniqueKeys(events) {
        FilterKeepsUniqueKeys(events, (e: EventData) => !HasKey(e, day, time));
      }
      events := WithoutKey(events, day, time);
    }
  }
}
