/** The order of the weekend planner's time slots: the sort key the
    comparator computes for a slot, and Array.prototype.sort with that
    comparator, which is stable, written out as a stable insertion sort. */
module SlotOrder {
  import opened Sequences
  import opened Labels

  /** `const [start] = slot.split(" - ")`: the first field of a slot. */
  function StartOf(slot: string): string
  {
    Split(slot, Separator)[0]
  }

  /** The slot's start is an `HH:MM` time, so the comparator gets a number for it. */
  predicate HasClockStart(slot: string)
  {
    IsClock(StartOf(slot))
  }

  predicate AllClockStarts(slots: seq<string>)
  {
    forall l :: l in slots ==> HasClockStart(l)
  }

  /** The comparator's key: the start of the slot in minutes since midnight. */
  function StartMinutes(slot: string): (minutes: nat)
    requires HasClockStart(slot)
    ensures minutes < 24 * 60
  {
    ParseTime(StartOf(slot))
  }

  /** The comparator recovers the start time the slot was built from. */
  lemma LabelStartMinutes(start: string, end: string)
    requires IsClock(start)
    ensures StartOf(Label(start, end)) == start
    ensures HasClockStart(Label(start, end))
    ensures StartMinutes(Label(start, end)) == ParseTime(start)
  {
    ClockHasNoSeparator(start);
    SplitLabelFromStart(start, end);
  }

  /** Ascending by start time. */
  ghost predicate Sorted(slots: seq<string>)
  {
    && AllClockStarts(slots)
    && forall i, j :: 0 <= i < j < |slots| ==> StartMinutes(slots[i]) <= StartMinutes(slots[j])
  }

  /** A sorted list without its first label is sorted, and that label
      starts no later than any other. */
  lemma SortedTail(slots: seq<string>)
    requires Sorted(slots) && slots != []
    ensures Sorted(slots[1..])
    ensures forall l :: l in slots[1..] ==> StartMinutes(slots[0]) <= StartMinutes(l)
  {
    assert forall l :: l in slots[1..] ==> l in slots;
    forall l | l in slots[1..] ensures StartMinutes(slots[0]) <= StartMinutes(l) {
      var j :| 0 <= j < |slots[1..]| && slots[1..][j] == l;
      assert slots[j + 1] == l;
    }
  }

  lemma SortedCons(x: string, rest: seq<string>)
    requires HasClockStart(x) && Sorted(rest)
    requires forall l :: l in rest ==> StartMinutes(x) <= StartMinutes(l)
    ensures Sorted([x] + rest)
  {
    var r := [x] + rest;
    assert forall l :: l in r ==> l == x || l in rest;
    forall i, j | 0 <= i < j < |r| ensures StartMinutes(r[i]) <= StartMinutes(r[j]) {
      assert r[j] == rest[j - 1] && r[j] in rest;
      if i > 0 {
        assert r[i] == rest[i - 1];
      }
    }
  }

  /** Places `x` before the first slot that does not start earlier. */
  function Insert(x: string, slots: seq<string>): (r: seq<string>)
    requires HasClockStart(x) && AllClockStarts(slots)
    ensures multiset(r) == multiset(slots) + multiset{x}
    ensures AllClockStarts(r)
  {
    if slots == [] || StartMinutes(x) <= StartMinutes(slots[0]) then
      [x] + slots
    else
      assert slots == [slots[0]] + slots[1..];
      [slots[0]] + Insert(x, slots[1..])
  }

  lemma {:induction false} InsertSorted(x: string, slots: seq<string>)
    requires HasClockStart(x) && Sorted(slots)
    ensures Sorted(Insert(x, slots))
    decreases |slots|
  {
    if slots == [] {
    } else if StartMinutes(x) <= StartMinutes(slots[0]) {
      SortedTail(slots);
      assert slots == [slots[0]] + slots[1..];
      SortedCons(x, slots);
    } else {
      SortedTail(slots);
      InsertSorted(x, slots[1..]);
      var rest := Insert(x, slots[1..]);
      forall l | l in rest ensures StartMinutes(slots[0]) <= StartMinutes(l) {
        assert l in multiset(rest);
      }
      SortedCons(slots[0], rest);
    }
  }

  /** `slots.sort((a, b) => parseTime(startA) - parseTime(startB))`. */
  function SortByStart(slots: seq<string>): (r: seq<string>)
    requires AllClockStarts(slots)
    ensures Sorted(r)
    ensures multiset(r) == multiset(slots)
  {
    if slots == [] then []
    else
      assert slots == [slots[0]] + slots[1..];
      var rest := SortByStart(slots[1..]);
      InsertSorted(slots[0], rest);
      Insert(slots[0], rest)
  }

  /** The labels whose start is at minute `m`. */
  function StartsAt(m: int): string -> bool
  {
    slot => HasClockStart(slot) && StartMinutes(slot) == m
  }

  /** One step of InsertStable: a label that starts before `x` stays in front of it. */
  lemma InsertStableStep(h: string, x: string, rest: seq<string>, tail: seq<string>, m: int)
    requires HasClockStart(h) && HasClockStart(x) && StartMinutes(h) < StartMinutes(x)
    requires Filter(rest, StartsAt(m)) == (if StartsAt(m)(x) then [x] else []) + Filter(tail, StartsAt(m))
    ensures Filter([h] + rest, StartsAt(m))
         == (if StartsAt(m)(x) then [x] else []) + Filter([h] + tail, StartsAt(m))
  {
    FilterCons(h, rest, StartsAt(m));
    FilterCons(h, tail, StartsAt(m));
    if StartsAt(m)(h) {
      assert !StartsAt(m)(x);
    }
  }

  /** Insert places `x` before every label of the same minute. */
  lemma {:induction false} InsertStable(x: string, slots: seq<string>, m: int)
    requires HasClockStart(x) && AllClockStarts(slots)
    ensures Filter(Insert(x, slots), StartsAt(m))
         == (if StartsAt(m)(x) then [x] else []) + Filter(slots, StartsAt(m))
    decreases |slots|
  {
    if slots == [] || StartMinutes(x) <= StartMinutes(slots[0]) {
      FilterCons(x, slots, StartsAt(m));
    } else {
      InsertStable(x, slots[1..], m);
      InsertStableStep(slots[0], x, Insert(x, slots[1..]), slots[1..], m);
      assert slots == [slots[0]] + slots[1..];
    }
  }

  /** The sort is stable: labels with the same start keep their relative order. */
  lemma {:induction false} SortByStartStable(slots: seq<string>, m: int)
    requires AllClockStarts(slots)
    ensures Filter(SortByStart(slots), StartsAt(m)) == Filter(slots, StartsAt(m))
  {
    if slots != [] {
      SortByStartStable(slots[1..], m);
      InsertStable(slots[0], SortByStart(slots[1..]), m);
    }
  }

  /** Sorting a sorted list changes nothing. */
  lemma {:induction false} SortByStartSorted(slots: seq<string>)
    requires Sorted(slots)
    ensures SortByStart(slots) == slots
  {
    if slots != [] {
      SortByStartSorted(slots[1..]);
      assert slots == [slots[0]] + slots[1..];
    }
  }

  lemma {:induction false} FilterNone(slots: seq<string>, keep: string -> bool)
    requires forall l :: l in slots ==> !keep(l)
    ensures Filter(slots, keep) == []
    decreases |slots|
  {
    if slots != [] {
      assert slots[0] in slots;
      assert forall l :: l in slots[1..] ==> l in slots;
      FilterNone(slots[1..], keep);
    }
  }

  /** No label of a sorted list starts before its first one. */
  lemma FilterBelowHead(slots: seq<string>, m: int)
    requires Sorted(slots) && slots != [] && m < StartMinutes(slots[0])
    ensures Filter(slots, StartsAt(m)) == []
  {
    SortedTail(slots);
    assert forall l :: l in slots ==> l == slots[0] || l in slots[1..];
    FilterNone(slots, StartsAt(m));
  }

  /** What the first label contributes to the per-minute filters. */
  lemma FilterHead(a: seq<string>, m: int)
    requires a != [] && AllClockStarts(a)
    ensures Filter(a, StartsAt(m))
         == (if StartMinutes(a[0]) == m then [a[0]] else []) + Filter(a[1..], StartsAt(m))
  {
  }

  lemma SameHead(a: seq<string>, b: seq<string>)
    requires Sorted(a) && Sorted(b) && a != [] && b != []
    requires forall m :: Filter(a, StartsAt(m)) == Filter(b, StartsAt(m))
    ensures a[0] == b[0]
  {
    var ka, kb := StartMinutes(a[0]), StartMinutes(b[0]);
    FilterHead(a, ka);
    FilterHead(b, kb);
    assert Filter(a, StartsAt(ka)) == Filter(b, StartsAt(ka));
    assert Filter(a, StartsAt(kb)) == Filter(b, StartsAt(kb));
    if ka < kb {
      FilterBelowHead(b, ka);
    } else if kb < ka {
      FilterBelowHead(a, kb);
    }
  }

  lemma TailsAgree(a: seq<string>, b: seq<string>, m: int)
    requires a != [] && b != [] && AllClockStarts(a) && AllClockStarts(b) && a[0] == b[0]
    requires Filter(a, StartsAt(m)) == Filter(b, StartsAt(m))
    ensures Filter(a[1..], StartsAt(m)) == Filter(b[1..], StartsAt(m))
  {
    FilterHead(a, m);
    FilterHead(b, m);
    if StartMinutes(a[0]) == m {
      assert Filter(a, StartsAt(m))[1..] == Filter(a[1..], StartsAt(m));
      assert Filter(b, StartsAt(m))[1..] == Filter(b[1..], StartsAt(m));
    }
  }

  /** Lists with the same per-minute filters are both empty or both non-empty. */
  lemma SameFiltersBothEmpty(a: seq<string>, b: seq<string>)
    requires AllClockStarts(a) && AllClockStarts(b)
    requires forall m :: Filter(a, StartsAt(m)) == Filter(b, StartsAt(m))
    ensures a == [] <==> b == []
  {
    if a != [] {
      FilterHead(a, StartMinutes(a[0]));
      assert Filter(b, StartsAt(StartMinutes(a[0]))) != [];
    }
    if b != [] {
      FilterHead(b, StartMinutes(b[0]));
      assert Filter(a, StartsAt(StartMinutes(b[0]))) != [];
    }
  }

  /** Two non-empty sorted lists with the same per-minute filters share
      their first label, and their tails are again sorted with the same filters. */
  lemma SortedStableStep(a: seq<string>, b: seq<string>)
    requires a != [] && b != [] && Sorted(a) && Sorted(b)
    requires forall m :: Filter(a, StartsAt(m)) == Filter(b, StartsAt(m))
    ensures a[0] == b[0] && Sorted(a[1..]) && Sorted(b[1..])
    ensures forall m :: Filter(a[1..], StartsAt(m)) == Filter(b[1..], StartsAt(m))
  {
    SameHead(a, b);
    SortedTail(a);
    SortedTail(b);
    forall m ensures Filter(a[1..], StartsAt(m)) == Filter(b[1..], StartsAt(m)) {
      TailsAgree(a, b, m);
    }
  }

  lemma SameHeadSameTail(a: seq<string>, b: seq<string>)
    requires a != [] && b != [] && a[0] == b[0] && a[1..] == b[1..]
    ensures a == b
  {
    assert a == [a[0]] + a[1..] && b == [b[0]] + b[1..];
  }

  /** Being sorted and stable determines the order: any permutation that is
      sorted by start and keeps equal starts in their original order is the
      result of SortByStart, whichever stable sort produced it. */
  lemma {:induction false} SortedStableUnique(a: seq<string>, b: seq<string>)
    requires Sorted(a) && Sorted(b)
    requires forall m :: Filter(a, StartsAt(m)) == Filter(b, StartsAt(m))
    ensures a == b
    decreases |a| + |b|
  {
    SameFiltersBothEmpty(a, b);
    if a != [] {
      SortedStableStep(a, b);
      SortedStableUnique(a[1..], b[1..]);
      SameHeadSameTail(a, b);
    }
  }

  /** Removing labels keeps the list sorted. */
  lemma {:induction false} FilterKeepsSorted(slots: seq<string>, keep: string -> bool)
    requires Sorted(slots)
    ensures Sorted(Filter(slots, keep))
    decreases |slots|
  {
    if slots != [] {
      SortedTail(slots);
      FilterKeepsSorted(slots[1..], keep);
      if keep(slots[0]) {
        SortedCons(slots[0], Filter(slots[1..], keep));
      }
    }
  }
}
