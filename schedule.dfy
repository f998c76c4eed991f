/** The event records of a planner and the operations both planner
    components apply to their event list: the `find` lookup behind a cell,
    the filter-then-push upsert of saveEvent, and the deleting filters. */
module Schedule {
  import opened Sequences

  /** One filled cell of the grid: its day column, its time-slot label and its text. */
  datatype EventData = EventData(day: string, time: string, event: string)

  /** The cell a user opened: a (day, time-slot label) key. */
  datatype Cell = Cell(day: string, time: string)

  predicate HasKey(e: EventData, day: string, time: string)
  {
    e.day == day && e.time == time
  }

  predicate SameKey(a: EventData, b: EventData)
  {
    a.day == b.day && a.time == b.time
  }

  /** At most one record per (day, time) key: the list is a function from cells to text. */
  predicate UniqueKeys(events: seq<EventData>)
  {
    forall i, j :: 0 <= i < |events| && 0 <= j < |events| && i != j ==> !SameKey(events[i], events[j])
  }

  /** `i` is the position of the first record with key (day, time). */
  ghost predicate IsFirstMatch(events: seq<EventData>, i: int, day: string, time: string)
  {
    && 0 <= i < |events|
    && HasKey(events[i], day, time)
    && forall j :: 0 <= j < i ==> !HasKey(events[j], day, time)
  }

  /** `events.find(e => e.day === day && e.time === time)`. */
  function Find(events: seq<EventData>, day: string, time: string): (r: Option<EventData>)
    ensures r.None? <==> forall e :: e in events ==> !HasKey(e, day, time)
    ensures forall i :: IsFirstMatch(events, i, day, time) ==> r == Some(events[i])
  {
    if events == [] then None
    else if HasKey(events[0], day, time) then
      Some(events[0])
    else
      assert events == [events[0]] + events[1..];
      assert forall i :: IsFirstMatch(events, i, day, time) ==> IsFirstMatch(events[1..], i - 1, day, time);
      Find(events[1..], day, time)
  }

  /** The text a cell shows and its editor opens with: the first matching
      record's text, or "" when the cell is empty. */
  function Lookup(events: seq<EventData>, day: string, time: string): (text: string)
    ensures (forall e :: e in events ==> !HasKey(e, day, time)) ==> text == ""
    ensures forall i :: IsFirstMatch(events, i, day, time) ==> text == events[i].event
  {
    match Find(events, day, time)
    case Some(e) => e.event
    case None => ""
  }

  /** deleteEvent's filter: every record except those with key (day, time). */
  function WithoutKey(events: seq<EventData>, day: string, time: string): (r: seq<EventData>)
    ensures forall e :: e in r ==> e in events && !HasKey(e, day, time)
    ensures forall e :: e in events && !HasKey(e, day, time) ==> multiset(r)[e] == multiset(events)[e]
    ensures Subsequence(r, events)
  {
    Filter(events, e => !HasKey(e, day, time))
  }

  /** deleteTimeSlot's filter on events: every record not in the row `time`. */
  function WithoutTime(events: seq<EventData>, time: string): (r: seq<EventData>)
    ensures forall e :: e in r ==> e in events && e.time != time
    ensures forall e :: e in events && e.time != time ==> multiset(r)[e] == multiset(events)[e]
    ensures Subsequence(r, events)
  {
    Filter(events, (e: EventData) => e.time != time)
  }

  /** saveEvent: drop every record with the key, then push the new one. */
  function Upserted(events: seq<EventData>, day: string, time: string, text: string): (r: seq<EventData>)
    ensures |r| >= 1 && r[|r| - 1] == EventData(day, time, text)
    ensures forall i :: 0 <= i < |r| - 1 ==> !HasKey(r[i], day, time)
    ensures forall e :: e in events && !HasKey(e, day, time) ==> multiset(r)[e] == multiset(events)[e]
    ensures Subsequence(r[..|r| - 1], events)
  {
    var kept := WithoutKey(events, day, time);
    assert (kept + [EventData(day, time, text)])[..|kept|] == kept;
    forall i | 0 <= i < |kept| ensures !HasKey(kept[i], day, time) {
      assert kept[i] in kept;
    }
    kept + [EventData(day, time, text)]
  }

  /** Appending a record of another key does not change what `find` returns. */
  lemma {:induction false} FindAppendOther(events: seq<EventData>, e: EventData, day: string, time: string)
    requires !HasKey(e, day, time)
    ensures Find(events + [e], day, time) == Find(events, day, time)
    decreases |events|
  {
    if events == [] {
      assert [] + [e] == [e];
      assert [e][1..] == [];
    } else {
      assert (events + [e])[0] == events[0];
      assert (events + [e])[1..] == events[1..] + [e];
      FindAppendOther(events[1..], e, day, time);
    }
  }

  /** A filter that keeps every record with key (day, time) does not change
      what `find` returns for that key. */
  lemma {:induction false} FindFilter(events: seq<EventData>, keep: EventData -> bool, day: string, time: string)
    requires forall e :: e in events && HasKey(e, day, time) ==> keep(e)
    ensures Find(Filter(events, keep), day, time) == Find(events, day, time)
    decreases |events|
  {
    if events != [] {
      assert forall e :: e in events[1..] ==> e in events;
      FindFilter(events[1..], keep, day, time);
    }
  }

  /** After saveEvent the cell's lookup returns the saved text (the upserted
      record is the only one with that key). */
  lemma LookupAfterUpsert(events: seq<EventData>, day: string, time: string, text: string)
    ensures Lookup(Upserted(events, day, time, text), day, time) == text
  {
    var r := Upserted(events, day, time, text);
    assert IsFirstMatch(r, |r| - 1, day, time);
  }

  /** saveEvent does not change what any other cell shows. */
  lemma LookupOtherAfterUpsert(events: seq<EventData>, day: string, time: string, text: string,
                               day': string, time': string)
    requires day != day' || time != time'
    ensures Lookup(Upserted(events, day, time, text), day', time') == Lookup(events, day', time')
  {
    FindFilter(events, e => !HasKey(e, day, time), day', time');
    FindAppendOther(WithoutKey(events, day, time), EventData(day, time, text), day', time');
  }

  /** After deleteEvent the cell is empty. */
  lemma LookupAfterDelete(events: seq<EventData>, day: string, time: string)
    ensures Lookup(WithoutKey(events, day, time), day, time) == ""
  {
  }

  /** deleteEvent does not change what any other cell shows. */
  lemma LookupOtherAfterDelete(events: seq<EventData>, day: string, time: string, day': string, time': string)
    requires day != day' || time != time'
    ensures Lookup(WithoutKey(events, day, time), day', time') == Lookup(events, day', time')
  {
    FindFilter(events, e => !HasKey(e, day, time), day', time');
  }

  /** Cascade of deleteTimeSlot: no cell of the deleted row has text any more,
      and the cells of other rows show what they showed. */
  lemma LookupAfterTimeDelete(events: seq<EventData>, time: string, day': string, time': string)
    ensures time' == time ==> Lookup(WithoutTime(events, time), day', time') == ""
    ensures time' != time ==> Lookup(WithoutTime(events, time), day', time') == Lookup(events, day', time')
  {
    if time' != time {
      FindFilter(events, (e: EventData) => e.time != time, day', time');
    }
  }

  lemma UniqueKeysTail(events: seq<EventData>)
    requires events != [] && UniqueKeys(events)
    ensures UniqueKeys(events[1..])
    ensures forall e :: e in events[1..] ==> !SameKey(events[0], e)
  {
    var tail := events[1..];
    forall i, j | 0 <= i < |tail| && 0 <= j < |tail| && i != j
      ensures !SameKey(tail[i], tail[j])
    {
      assert tail[i] == events[i + 1] && tail[j] == events[j + 1];
    }
    forall e | e in tail ensures !SameKey(events[0], e) {
      var k :| 0 <= k < |tail| && tail[k] == e;
      assert events[k + 1] == e;
    }
  }

  lemma UniqueKeysCons(x: EventData, rest: seq<EventData>)
    requires UniqueKeys(rest)
    requires forall e :: e in rest ==> !SameKey(x, e)
    ensures UniqueKeys([x] + rest)
  {
    var r := [x] + rest;
    forall i, j | 0 <= i < |r| && 0 <= j < |r| && i != j
      ensures !SameKey(r[i], r[j])
    {
      if i == 0 {
        assert r[j] == rest[j - 1] && r[j] in rest;
      } else if j == 0 {
        assert r[i] == rest[i - 1] && r[i] in rest;
      } else {
        assert r[i] == rest[i - 1] && r[j] == rest[j - 1];
      }
    }
  }

  /** Filtering keeps keys unique. */
  lemma {:induction false} FilterKeepsUniqueKeys(events: seq<EventData>, keep: EventData -> bool)
    requires UniqueKeys(events)
    ensures UniqueKeys(Filter(events, keep))
    decreases |events|
  {
    if events != [] {
      UniqueKeysTail(events);
      FilterKeepsUniqueKeys(events[1..], keep);
      if keep(events[0]) {
        UniqueKeysCons(events[0], Filter(events[1..], keep));
      }
    }
  }

  /** saveEvent keeps "at most one record per (day, time)". */
  lemma UpsertKeepsUniqueKeys(events: seq<EventData>, day: string, time: string, text: string)
    requires UniqueKeys(events)
    ensures UniqueKeys(Upserted(events, day, time, text))
  {
    var kept := WithoutKey(events, day, time);
    FilterKeepsUniqueKeys(events, e => !HasKey(e, day, time));
    var r := Upserted(events, day, time, text);
    assert r[..|r| - 1] == kept;
    forall i, j | 0 <= i < |r| && 0 <= j < |r| && i != j
      ensures !SameKey(r[i], r[j])
    {
      if i < |kept| && j < |kept| {
        assert r[i] == kept[i] && r[j] == kept[j];
      }
    }
  }
}
