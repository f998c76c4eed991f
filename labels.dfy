/** Time-slot labels: how the weekend planner builds a label from the two
    time inputs, how it takes one apart again with String.prototype.split,
    and how it turns an `HH:MM` start into a number for sorting. */
module Labels {

  /** What stands between the start and the end of a label. */
  const Separator: string := " - "

  /** The label `${start} - ${end}` that both planners build. */
  function Label(start: string, end: string): (slot: string)
    ensures |slot| == |start| + |Separator| + |end|
    ensures StartsWith(slot, start) && EndsWith(slot, end)
    ensures slot[|start|..|start| + |Separator|] == Separator
  {
    start + Separator + end
  }

  predicate StartsWith(s: string, prefix: string)
  {
    |prefix| <= |s| && s[..|prefix|] == prefix
  }

  predicate EndsWith(s: string, suffix: string)
  {
    |suffix| <= |s| && s[|s| - |suffix|..] == suffix
  }

  /** `sep` occurs somewhere in `s`. */
  ghost predicate Occurs(s: string, sep: string)
  {
    exists i :: 0 <= i <= |s| && StartsWith(s[i..], sep)
  }

  /** String.prototype.split with a non-empty string separator, scanning `s`
      from left to right: `field` is the part of the current field already
      read. Occurrences are found left to right and do not overlap. */
  function SplitFrom(s: string, sep: string, field: string): (parts: seq<string>)
    requires sep != ""
    ensures |parts| >= 1
    decreases |s|
  {
    if s == "" then [field]
    else if StartsWith(s, sep) then [field] + SplitFrom(s[|sep|..], sep, "")
    else SplitFrom(s[1..], sep, field + [s[0]])
  }

  /** `s.split(sep)`: never empty, even for the empty string. */
  function Split(s: string, sep: string): (parts: seq<string>)
    requires sep != ""
    ensures |parts| >= 1
  {
    SplitFrom(s, sep, "")
  }

  /** The field being read is the start of the first part, and the first
      part is a prefix of what was read plus what is left. */
  lemma {:induction false} SplitFromFirstField(s: string, sep: string, field: string)
    requires sep != ""
    ensures StartsWith(SplitFrom(s, sep, field)[0], field)
    ensures StartsWith(field + s, SplitFrom(s, sep, field)[0])
    decreases |s|
  {
    if s != "" && !StartsWith(s, sep) {
      SplitFromFirstField(s[1..], sep, field + [s[0]]);
      assert field + [s[0]] + s[1..] == field + s;
      assert (field + [s[0]])[..|field|] == field;
    }
  }

  /** The first field of a split is a prefix of the string. */
  lemma SplitFirstIsPrefix(s: string, sep: string)
    requires sep != ""
    ensures StartsWith(s, Split(s, sep)[0])
  {
    SplitFromFirstField(s, sep, "");
    assert "" + s == s;
  }

  /** Array.prototype.join, the inverse of split. */
  function Join(parts: seq<string>, sep: string): string
    requires |parts| >= 1
  {
    if |parts| == 1 then parts[0] else parts[0] + sep + Join(parts[1..], sep)
  }

  lemma {:induction false} JoinSplitFrom(s: string, sep: string, field: string)
    requires sep != ""
    ensures Join(SplitFrom(s, sep, field), sep) == field + s
    decreases |s|
  {
    if s == "" {
    } else if StartsWith(s, sep) {
      var rest := SplitFrom(s[|sep|..], sep, "");
      JoinSplitFrom(s[|sep|..], sep, "");
      assert ([field] + rest)[1..] == rest;
      assert s == sep + s[|sep|..];
    } else {
      JoinSplitFrom(s[1..], sep, field + [s[0]]);
      assert field + [s[0]] + s[1..] == field + s;
    }
  }

  /** Joining the parts of a split with the same separator gives back the string. */
  lemma JoinSplit(s: string, sep: string)
    requires sep != ""
    ensures Join(Split(s, sep), sep) == s
  {
    JoinSplitFrom(s, sep, "");
    assert "" + s == s;
  }

  /** While no occurrence of `sep` begins inside `a`, split just reads `a`
      into the current field. */
  lemma {:induction false} SplitSkips(a: string, b: string, sep: string, field: string)
    requires sep != ""
    requires forall i :: 0 <= i < |a| ==> !StartsWith((a + b)[i..], sep)
    ensures SplitFrom(a + b, sep, field) == SplitFrom(b, sep, field + a)
    decreases |a|
  {
    if a == "" {
      assert a + b == b;
      assert field + a == field;
    } else {
      assert (a + b)[0..] == a + b;
      assert (a + b)[0] == a[0];
      assert (a + b)[1..] == a[1..] + b;
      forall i | 0 <= i < |a[1..]|
        ensures !StartsWith((a[1..] + b)[i..], sep)
      {
        assert (a[1..] + b)[i..] == (a + b)[i + 1..];
      }
      SplitSkips(a[1..], b, sep, field + [a[0]]);
      assert field + [a[0]] + a[1..] == field + a;
    }
  }

  /** A string without the separator splits into one field: itself. */
  lemma SplitWithoutSeparator(s: string, sep: string, field: string)
    requires sep != ""
    requires !Occurs(s, sep)
    ensures SplitFrom(s, sep, field) == [field + s]
  {
    forall i | 0 <= i < |s|
      ensures !StartsWith((s + "")[i..], sep)
    {
      assert s + "" == s;
    }
    SplitSkips(s, "", sep, field);
    assert s + "" == s;
  }

  /** No occurrence of the separator begins inside `start` when the label is
      built, so the first field of the label is `start`; this holds whenever
      `start` has no separator and does not end in " -". */
  lemma SplitLabelFromStart(start: string, end: string)
    requires !Occurs(start, Separator) && !EndsWith(start, " -")
    ensures Split(Label(start, end), Separator) == [start] + Split(end, Separator)
  {
    var s := Label(start, end);
    var b := Separator + end;
    assert s == start + b;
    forall i | 0 <= i < |start|
      ensures !StartsWith(s[i..], Separator)
    {
      if i + 3 <= |start| {
        assert s[i..][..3] == start[i..][..3];
        assert !StartsWith(start[i..], Separator) by {
          assert 0 <= i <= |start|;
        }
      } else if i + 1 == |start| {
        assert s[i..][1] == s[i + 1] == ' ';
      } else {
        assert start[|start| - 2..] == [start[i], start[i + 1]];
        assert s[i..][..3] == [start[i], start[i + 1], ' '];
      }
    }
    SplitSkips(start, b, Separator, "");
    assert StartsWith(b, Separator);
    assert b[|Separator|..] == end;
    assert "" + start == start;
  }

  /** Round trip of the label format: splitting `start - end` on " - " gives
      back both inputs, provided neither contains the separator and `start`
      does not end in " -". */
  lemma SplitLabel(start: string, end: string)
    requires !Occurs(start, Separator) && !EndsWith(start, " -")
    requires !Occurs(end, Separator)
    ensures Split(Label(start, end), Separator) == [start, end]
  {
    SplitLabelFromStart(start, end);
    SplitWithoutSeparator(end, Separator, "");
    assert "" + end == end;
  }

  /** Keeping the separator out of both inputs is not enough for the round
      trip: the start "a -" runs into the separator. */
  lemma SplitLabelNeedsSuffixCondition()
    ensures !Occurs("a -", Separator) && !Occurs("b", Separator)
    ensures Split(Label("a -", "b"), Separator) == ["a", "- b"]
  {
    assert "a -"[..3][0] == 'a' && Separator[0] == ' ';
    forall i | 0 <= i <= |"a -"| ensures !StartsWith("a -"[i..], Separator) {
      if i > 0 { assert |"a -"[i..]| < 3; }
    }
    forall i | 0 <= i <= |"b"| ensures !StartsWith("b"[i..], Separator) {
    }
    var s := Label("a -", "b");
    assert s == "a - - b";
    assert s[..3][0] == 'a';
    assert s[0] == 'a' && "" + [s[0]] == "a";
    assert s[1..] == " - - b";
    assert StartsWith(s[1..], Separator);
    assert s[1..][3..] == "- b";
    assert SplitFrom(s, Separator, "") == SplitFrom(s[1..], Separator, "a");
    assert SplitFrom(s[1..], Separator, "a") == ["a"] + SplitFrom("- b", Separator, "");
    forall i | 0 <= i <= |"- b"| ensures !StartsWith("- b"[i..], Separator) {
      if i > 0 { assert |"- b"[i..]| < 3; }
    }
    SplitWithoutSeparator("- b", Separator, "");
    assert "" + "- b" == "- b";
  }

  predicate IsDigit(c: char)
  {
    '0' <= c <= '9'
  }

  function DigitValue(c: char): nat
    requires IsDigit(c)
  {
    (c as int) - ('0' as int)
  }

  predicate AllDigits(s: string)
  {
    forall i :: 0 <= i < |s| ==> IsDigit(s[i])
  }

  function Pow10(n: nat): (p: nat)
    ensures p >= 1
  {
    if n == 0 then 1 else 10 * Pow10(n - 1)
  }

  /** Number(s) for a string of decimal digits: it has at most |s| digits. */
  function Decimal(s: string): (value: nat)
    requires AllDigits(s)
    ensures value < Pow10(|s|)
  {
    if s == "" then 0 else 10 * Decimal(s[..|s| - 1]) + DigitValue(s[|s| - 1])
  }

  /** Leading zeros do not change the number: Number("06") is Number("6"). */
  lemma {:induction false} DecimalLeadingZero(s: string)
    requires AllDigits(s)
    ensures AllDigits("0" + s) && Decimal("0" + s) == Decimal(s)
    decreases |s|
  {
    var z := "0" + s;
    assert forall i :: 0 < i < |z| ==> z[i] == s[i - 1];
    if s == "" {
      assert z[..0] == "";
    } else {
      var init := s[..|s| - 1];
      assert AllDigits(init);
      DecimalLeadingZero(init);
      assert z[..|z| - 1] == "0" + init;
      assert z[|z| - 1] == s[|s| - 1];
    }
  }

  /** The value of an `<input type="time">`: `HH:MM`, 24-hour clock. */
  predicate IsClock(t: string)
  {
    && |t| == 5
    && IsDigit(t[0]) && IsDigit(t[1]) && t[2] == ':' && IsDigit(t[3]) && IsDigit(t[4])
    && 10 * DigitValue(t[0]) + DigitValue(t[1]) <= 23
    && 10 * DigitValue(t[3]) + DigitValue(t[4]) <= 59
  }

  /** A clock time has no blank, so neither contains nor ends in the separator. */
  lemma ClockHasNoSeparator(t: string)
    requires IsClock(t)
    ensures !Occurs(t, Separator) && !EndsWith(t, " -")
  {
    forall i | 0 <= i <= |t| ensures !StartsWith(t[i..], Separator) {
      if i < |t| {
        assert t[i] != ' ';
        assert t[i..][0] == t[i];
      }
    }
    assert t[3] != ' ';
  }

  /** A label built from two clock times splits back into them, which is
      what the time-slot editor relies on to refill both inputs. */
  lemma SplitClockLabel(start: string, end: string)
    requires IsClock(start) && IsClock(end)
    ensures Split(Label(start, end), Separator) == [start, end]
  {
    ClockHasNoSeparator(start);
    ClockHasNoSeparator(end);
    SplitLabel(start, end);
  }

  /** `"HH:MM".split(":")` gives the hour digits and the minute digits. */
  lemma SplitClock(t: string)
    requires IsClock(t)
    ensures Split(t, ":") == [t[..2], t[3..]]
  {
    forall i | 0 <= i < 2 ensures !StartsWith((t[..2] + t[2..])[i..], ":") {
      assert (t[..2] + t[2..])[i..][0] == t[i];
    }
    assert t[..2] + t[2..] == t;
    SplitSkips(t[..2], t[2..], ":", "");
    assert StartsWith(t[2..], ":");
    assert t[2..][1..] == t[3..];
    forall i | 0 <= i <= |t[3..]| ensures !StartsWith(t[3..][i..], ":") {
      if i < 2 { assert t[3..][i..][0] == t[3 + i]; }
    }
    SplitWithoutSeparator(t[3..], ":", "");
    assert "" + t[..2] == t[..2];
    assert "" + t[3..] == t[3..];
  }

  /** parseTime: `time.split(":").map(Number)` taken as an hour and a minute,
      measured here in minutes since midnight. The weekend planner places
      both in a Date of one fixed day, so comparing Dates compares these. */
  function ParseTime(t: string): (minutes: nat)
    requires IsClock(t)
    ensures minutes == 60 * (10 * DigitValue(t[0]) + DigitValue(t[1]))
                       + 10 * DigitValue(t[3]) + DigitValue(t[4])
    ensures minutes < 24 * 60
  {
    SplitClock(t);
    var parts := Split(t, ":");
    assert parts[0] == t[..2] && parts[1] == t[3..];
    assert Decimal(t[..2]) == 10 * DigitValue(t[0]) + DigitValue(t[1]) by {
      assert t[..2][..1] == [t[0]];
      assert [t[0]][..0] == "";
      assert Decimal([t[0]]) == DigitValue(t[0]);
    }
    assert Decimal(t[3..]) == 10 * DigitValue(t[3]) + DigitValue(t[4]) by {
      assert t[3..][..1] == [t[3]];
      assert [t[3]][..0] == "";
      assert Decimal([t[3]]) == DigitValue(t[3]);
    }
    60 * Decimal(parts[0]) + Decimal(parts[1])
  }

  /** Two clock times parse to the same minute only if they are the same text,
      so sorting ties arise only between labels with identical starts. */
  lemma ParseTimeInjective(a: string, b: string)
    requires IsClock(a) && IsClock(b)
    requires ParseTime(a) == ParseTime(b)
    ensures a == b
  {
    var ha, ma := 10 * DigitValue(a[0]) + DigitValue(a[1]), 10 * DigitValue(a[3]) + DigitValue(a[4]);
    var hb, mb := 10 * DigitValue(b[0]) + DigitValue(b[1]), 10 * DigitValue(b[3]) + DigitValue(b[4]);
    assert ha == ParseTime(a) / 60 && ma == ParseTime(a) % 60;
    assert hb == ParseTime(b) / 60 && mb == ParseTime(b) % 60;
    assert DigitValue(a[0]) == DigitValue(b[0]) && DigitValue(a[1]) == DigitValue(b[1]);
    assert DigitValue(a[3]) == DigitValue(b[3]) && DigitValue(a[4]) == DigitValue(b[4]);
  }
}
