# Planner schedule store, modelled in Dafny

The planner is a browser grid of day columns against time-slot rows. Each
cell may hold one piece of text. Two React components keep the same kind of
state: an ordered list of time-slot labels and a list of event records
`{day, time, event}`. The full-week `Planner` (`app/components/planner.tsx`)
starts with one fixed row, appends rows without checking or sorting, and
persists only its events. The weekend `DayPlanner`
(`app/components/weekendplanner.tsx`) persists both lists, keeps the rows
sorted by start time, refuses duplicate rows on add, renames rows in place on
edit, and deletes a row's events together with the row.

This project models what those handlers do to the state, without the JSX
around them. Each handler is one atomic state transition of a class
(`WeekendPlanner.DayPlanner`, `WeekPlanner.Planner`). Its `modifies` clause
names the fields the handler sets, and its `ensures` clauses give the new
values of those fields. The array operations the handlers use are pure
functions with proved contracts:

- `Array.prototype.filter` is `Sequences.Filter`.
- `find` is `Schedule.Find`.
- `map` is `WeekendPlanner.ReplaceAll`.
- `String.prototype.split` is `Labels.Split`.
- `Array.prototype.sort` with the start-time comparator is `SlotOrder.SortByStart`.

Files:

- `sequences.dfy`: `Option`, `Filter` and the `Subsequence` relation. Subsequence means "same elements, same order, some removed".
- `schedule.dfy`: event records and the operations both components share. These are the `find` lookup, the filter-then-push upsert of `saveEvent`, the deleting filters, and the "one record per (day, time)" invariant.
- `labels.dfy`: the label format `start - end`, JavaScript's `split` and its inverse `join`, and the `HH:MM` parsing of `parseTime`.
- `slot_order.dfy`: the comparator's key and the stable sort, with its sortedness, permutation, stability and uniqueness lemmas.
- `weekend_planner.dfy`: the weekend component. It contains the slot-list specification `SavedSlots` and the class `DayPlanner`.
- `week_planner.dfy`: the full-week component, class `Planner`.

Observed behaviours the model states rather than hides:

- Editing a row does not touch the events. Records that name the old label stay in the list but no row shows them (`DayPlanner.SaveTimeSlot` leaves `events` out of its frame).
- Editing does not check for duplicates. Renaming a row to a label the list already holds leaves that label twice (`EditCanDuplicate`).
- `saveEvent` stores a record even when the text is empty.
- The full-week planner's initial row `6:00-7:30` is not in the `start - end` format that `addTimeSlot` builds (`InitialSlotIsNotALabel`).
- Splitting a built label on `" - "` returns the inputs only if the start also does not end in `" -"`. Keeping the separator out of both inputs is not enough: start `a -` with end `b` splits into `a` and `- b` (`SplitLabelNeedsSuffixCondition`). Time inputs only produce `HH:MM`, so the planner never meets this case.
- The weekend component never renders an event editor, so its `saveEvent` has no caller in its own markup. It is modelled anyway.

## Model

| member | source | states |
|---|---|---|
| Sequences.Filter | app/components/weekendplanner.tsx:86 | the result holds exactly the accepted elements, each with its full multiplicity, as a subsequence of the input (same relative order) |
| Labels.Label | app/components/weekendplanner.tsx:56 | the label `${start} - ${end}` (also planner.tsx:51) is as long as start and end together plus 3, begins with the start, ends with the end, and holds " - " between them |
| Labels.SplitFrom | app/components/weekendplanner.tsx:104 | the scan behind `String.prototype.split`: its contract says only that there is at least one part; the leftmost, non-overlapping field semantics lives in its body and is pinned down by JoinSplit, SplitLabel, SplitClock and SplitFromFirstField |
| Labels.Split | app/components/weekendplanner.tsx:104 | `s.split(sep)` (also at lines 49 and 73-74): its contract says only that there is at least one part, even for ""; the field semantics in its body is pinned down by JoinSplit, SplitLabel, SplitClock and SplitFirstIsPrefix |
| Labels.SplitFromFirstField | app/components/weekendplanner.tsx:73-74 | the first part of a split starts with the field already read and is a prefix of that field followed by the rest of the string |
| Labels.SplitFirstIsPrefix | app/components/weekendplanner.tsx:73-74 | the first field of any split, the one the comparator destructures, is a prefix of the string |
| Labels.JoinSplit | app/components/weekendplanner.tsx:104 | split is undone by join with the same separator, for every string |
| Labels.SplitLabel | app/components/weekendplanner.tsx:104-106 | splitting `start - end` on " - " gives exactly [start, end] when neither contains the separator and start does not end in " -" |
| Labels.SplitLabelNeedsSuffixCondition | app/components/weekendplanner.tsx:56 | without the suffix condition the round trip fails: "a -" and "b" build a label that splits into ["a", "- b"] |
| Labels.SplitLabelFromStart | app/components/weekendplanner.tsx:73-74 | the first field of a built label is its start, whatever the end is, when the start has no separator and no " -" suffix |
| Labels.SplitClockLabel | app/components/weekendplanner.tsx:102-106 | for two `HH:MM` inputs the edit form gets back exactly the start and end the label was built from |
| Labels.SplitClock | app/components/weekendplanner.tsx:49 | `"HH:MM".split(":")` is the hour digits and the minute digits |
| Labels.Decimal | app/components/weekendplanner.tsx:49 | `Number` of a digit string, as `map(Number)` applies it to each field; the value has at most as many digits as the string |
| Labels.DecimalLeadingZero | app/components/weekendplanner.tsx:49 | a leading zero does not change the number, so "06" and "6" give the same hour |
| Labels.ParseTime | app/components/weekendplanner.tsx:48-51 | parseTime of an `HH:MM` time, in minutes since midnight, equals 60·hours + minutes read from the digits and is below 1440 |
| Labels.ParseTimeInjective | app/components/weekendplanner.tsx:48-51 | two clock times with the same parsed value are the same text, so comparator ties come only from identical starts |
| SlotOrder.StartOf | app/components/weekendplanner.tsx:73-74 | `const [startA] = a.split(" - ")`: the first field of a slot; SplitFirstIsPrefix shows it is a prefix of the slot and LabelStartMinutes that it is the start a built label was made from |
| SlotOrder.StartMinutes | app/components/weekendplanner.tsx:72-75 | the comparator key of a label with a clock start is a minute of the day |
| SlotOrder.LabelStartMinutes | app/components/weekendplanner.tsx:56 | the comparator recovers the start a label was built from: its key is parseTime of that start |
| SlotOrder.Insert | app/components/weekendplanner.tsx:72-76 | inserting one label adds exactly that label to the multiset of labels |
| SlotOrder.InsertSorted | app/components/weekendplanner.tsx:72-76 | inserting into a list sorted by start keeps it sorted |
| SlotOrder.SortByStart | app/components/weekendplanner.tsx:72-76 | the sorted list is ascending by start minute and a permutation of the input |
| SlotOrder.InsertStable | app/components/weekendplanner.tsx:72-76 | an inserted label goes before every label with the same start |
| SlotOrder.SortByStartStable | app/components/weekendplanner.tsx:72-76 | labels with equal starts keep their relative order, as the stable Array.prototype.sort keeps them |
| SlotOrder.SortByStartSorted | app/components/weekendplanner.tsx:72-76 | re-sorting an already sorted list leaves it unchanged |
| SlotOrder.SortedStableUnique | app/components/weekendplanner.tsx:72-76 | two lists that are sorted and agree label-by-label within every start minute are equal, so any stable sort gives SortByStart's result |
| SlotOrder.FilterKeepsSorted | app/components/weekendplanner.tsx:86 | removing labels from a sorted list leaves it sorted |
| Schedule.Find | app/components/weekendplanner.tsx:97 | find returns nothing exactly when no record has the key, and otherwise the first record that has it |
| Schedule.Lookup | app/components/weekendplanner.tsx:97-98 | the editor text is the first matching record's text, or "" when no record matches (planner.tsx:61-62 is the same code) |
| Schedule.WithoutKey | app/components/weekendplanner.tsx:124 | no record with the key remains, every other record remains with its multiplicity, and the order is kept |
| Schedule.WithoutTime | app/components/weekendplanner.tsx:90 | no record of the deleted row remains, every record of another row remains, and the order is kept |
| Schedule.Upserted | app/components/weekendplanner.tsx:112-115 | the new record is last and it is the only record with its key; records with other keys remain, in order |
| Schedule.FindAppendOther | app/components/weekendplanner.tsx:115 | pushing a record of another key does not change what find returns |
| Schedule.FindFilter | app/components/weekendplanner.tsx:112-114 | a filter that keeps every record of a key does not change what find returns for that key |
| Schedule.LookupAfterUpsert | app/components/weekendplanner.tsx:110-119 | after saving a cell, looking it up returns the saved text |
| Schedule.LookupOtherAfterUpsert | app/components/weekendplanner.tsx:112-115 | saving one cell does not change what any other cell shows |
| Schedule.LookupAfterDelete | app/components/weekendplanner.tsx:123-126 | after deleting a cell's event the cell shows "" |
| Schedule.LookupOtherAfterDelete | app/components/weekendplanner.tsx:123-126 | deleting one cell's event does not change what any other cell shows |
| Schedule.LookupAfterTimeDelete | app/components/weekendplanner.tsx:89-91 | after a row is deleted every cell of that row is empty, and every cell of another row shows what it showed |
| Schedule.FilterKeepsUniqueKeys | app/components/weekendplanner.tsx:90 | any filter keeps "at most one record per (day, time)" |
| Schedule.UpsertKeepsUniqueKeys | app/components/planner.tsx:68-71 | saveEvent keeps "at most one record per (day, time)" |
| WeekendPlanner.ReplaceAll | app/components/weekendplanner.tsx:62 | the edit keeps the length and every position: occurrences of the selected label become the new label and nothing else changes |
| WeekendPlanner.ReplaceAllCount | app/components/weekendplanner.tsx:62 | the count of any one label after the `map`: unchanged when the new label equals the old, 0 for the old label, the two counts added for the new label, unchanged for every other label |
| WeekendPlanner.ReplaceAllCounts | app/components/weekendplanner.tsx:60-63 | after the edit the old label is gone, the new label has gained all of its copies, and other labels keep their counts |
| WeekendPlanner.WithoutSlot | app/components/weekendplanner.tsx:86 | the deleted label no longer occurs; every other label keeps its count and the order is kept |
| WeekendPlanner.Editing | app/components/weekendplanner.tsx:60 | `if (selectedTimeSlot)`: edit mode holds exactly when a label is selected and it is not the empty string, which JavaScript treats as false |
| WeekendPlanner.SavedSlots | app/components/weekendplanner.tsx:55-78 | the stored list is sorted by start; in edit mode it is a permutation of the edited list; in add mode it is a permutation of the old list, plus the new label only if that label was absent |
| WeekendPlanner.AddTwice | app/components/weekendplanner.tsx:64-76 | adding the same slot a second time changes nothing |
| WeekendPlanner.AddKeepsDistinct | app/components/weekendplanner.tsx:66-68 | add mode never creates a duplicate label |
| WeekendPlanner.EditCanDuplicate | app/components/weekendplanner.tsx:60-63 | renaming a row to a label already present leaves two copies of that label |
| WeekendPlanner.EditReplaces | app/components/weekendplanner.tsx:60-63 | edit mode keeps the number of rows, removes the old label, and holds the new one whenever the old one was present |
| WeekendPlanner.DeleteKeepsSorted | app/components/weekendplanner.tsx:85-87 | deleting a row keeps a sorted list sorted |
| WeekendPlanner.DefaultHasClockStarts | app/components/weekendplanner.tsx:15-17 | the default row "06:00 - 07:30" has an `HH:MM` start |
| WeekendPlanner.AddAfterOne | app/components/weekendplanner.tsx:64-76 | adding a label that starts after the only row gives exactly [row, label] |
| WeekendPlanner.AddBeforeTwo | app/components/weekendplanner.tsx:64-76 | adding a label that starts before two sorted rows puts it first and keeps the two rows in order |
| WeekendPlanner.AddLaterScenario | app/components/weekendplanner.tsx:54-81 | adding 07:30-09:00 to the default list gives ["06:00 - 07:30", "07:30 - 09:00"] |
| WeekendPlanner.AddEarlierScenario | app/components/weekendplanner.tsx:54-81 | adding 05:00-06:00 next re-sorts it to the front of the three rows |
| WeekendPlanner.DayPlanner.constructor | app/components/weekendplanner.tsx:12-37 | the stored lists when present, else ["06:00 - 07:30"] and []; no cell or slot selected and empty inputs |
| WeekendPlanner.DayPlanner.SetCustomStartTime | app/components/weekendplanner.tsx:137 | the start input takes the time input's value |
| WeekendPlanner.DayPlanner.SetCustomEndTime | app/components/weekendplanner.tsx:143 | the end input takes the time input's value |
| WeekendPlanner.DayPlanner.SaveTimeSlot | app/components/weekendplanner.tsx:54-82 | with an empty input nothing changes and the inputs are kept; otherwise the rows become SavedSlots of the old rows and are sorted, an edit clears the selection, both inputs are cleared, and the events are untouched |
| WeekendPlanner.DayPlanner.DeleteTimeSlot | app/components/weekendplanner.tsx:85-92 | the row and all of its events are removed together, everything else stays in order, and unique keys are kept |
| WeekendPlanner.DayPlanner.OpenEventModal | app/components/weekendplanner.tsx:95-99 | the cell is selected and the text is the cell's lookup |
| WeekendPlanner.DayPlanner.OpenTimeEditModal | app/components/weekendplanner.tsx:102-107 | the row is selected; the inputs get the first two fields of its split, and the end becomes "" when the label has no second field |
| WeekendPlanner.DayPlanner.SaveEvent | app/components/weekendplanner.tsx:110-120 | without a selected cell nothing changes; otherwise the events become the upsert of the cell with the current text, the selection and text are cleared, and unique keys are kept |
| WeekendPlanner.DayPlanner.DeleteEvent | app/components/weekendplanner.tsx:123-126 | the events lose every record of the cell and keep all others in order |
| WeekPlanner.InitialSlotIsNotALabel | app/components/planner.tsx:11 | no label built by addTimeSlot equals the initial row "6:00-7:30" |
| WeekPlanner.Planner.constructor | app/components/planner.tsx:11-31 | the rows are ["6:00-7:30"], the events are the stored ones or []; nothing selected and empty inputs |
| WeekPlanner.Planner.SetCustomStartTime | app/components/planner.tsx:87 | the start input takes the time input's value |
| WeekPlanner.Planner.SetCustomEndTime | app/components/planner.tsx:93 | the end input takes the time input's value |
| WeekPlanner.Planner.SetEventText | app/components/planner.tsx:148 | the event text takes the text input's value |
| WeekPlanner.Planner.AddTimeSlot | app/components/planner.tsx:49-56 | with an empty input nothing changes; otherwise `start - end` is appended at the end with no duplicate check and no sort, and the inputs are cleared; the old rows are always a prefix of the new ones |
| WeekPlanner.Planner.OpenModal | app/components/planner.tsx:59-63 | the cell is selected and the text is the cell's lookup |
| WeekPlanner.Planner.SaveEvent | app/components/planner.tsx:66-76 | without a selected cell nothing changes; otherwise the cell's record, even with empty text, replaces every earlier one as the last record, the selection and text are cleared, and unique keys are kept |

## Left out

- Browser storage is left out. This covers `localStorage` reads and writes and the hooks that write them back. The weekend planner's hook writes both lists after every change (weekendplanner.tsx:40-45). The full-week planner's hook writes only its events, and only once `isClient` is set (planner.tsx:41-45). The full-week planner's reload on mount (planner.tsx:34-40) is left out too. A stored value enters the model only as the `Option` argument of a constructor. `None` stands for a missing key or an empty string. For `DayPlanner` it also stands for a render without `window` (weekendplanner.tsx:13, 24).
- The full-week planner reads `localStorage` without checking for `window` (planner.tsx:22-24, called at planner.tsx:27). Without `window` it throws instead of starting with no events. `WeekPlanner.Planner.constructor` does not model that failure.
- `JSON.parse` and `JSON.stringify` are left out. The model receives the already-parsed lists. The source does not handle malformed JSON, and the model does not add a fallback for it.
- `parseTime` uses `Date`, which is left out. It is modelled as minutes since midnight, and only for `HH:MM` starts from 00:00 to 23:59, which is what `<input type="time">` produces. Other starts are not modelled. Some give a valid `Date`: `"6:00"` is 6:00, out-of-range fields such as `"24:00"` or `"10:75"` are carried into a normalised time, and `"06:00:30"` keeps its first two fields. A missing or non-numeric field, as in `"06"` or `"ab:cd"`, gives NaN.
- WeekendPlanner.DayPlanner.constructor: requires every stored label to have an `HH:MM` start. The source accepts any stored list. The model's comparator is defined only for such starts.
- WeekendPlanner.DayPlanner.SetCustomStartTime: requires the value to be "" or `HH:MM`, the only values a time input gives.
- WeekendPlanner.DayPlanner.OpenTimeEditModal: requires the label to be one of the rows, because the source only calls it from a rendered row. An `undefined` end, from a label without " - ", is modelled as "". Both values are falsy, and the end is read only through the truthiness test of saveTimeSlot.
- `Array.prototype.sort` sorts the local copy in place. The model gives the sorted copy as a value instead (`SortByStart`). The copy is local and unaliased, so this loses nothing. `SortedStableUnique` shows that every stable sort gives the same result.
- React's deferred and batched state updates are left out. Each handler is one atomic transition.
- JSX rendering, CSS, click wiring, `stopPropagation`, the modal's Cancel button (planner.tsx:156) and the `isClient` flag are left out. They are presentation.
- The day-column lists (weekendplanner.tsx:20, planner.tsx:13) are left out. They only choose which columns are rendered. A cell's day is any string in the model, as it is in the handlers.
- `app/page.tsx` is left out. It only holds a greeting string.
