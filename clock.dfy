/** UTC time as the reports read it. A timestamp is a whole number of seconds
    since 1970-01-01T00:00:00Z; its calendar day, its minute of the day and its
    "HH:MM" text are derived from it, always in UTC. */
module Clock {
  import opened Text

  type Timestamp = int

  const SecondsPerDay: int := 86400
  const MinutesPerDay: int := 1440

  /** The UTC calendar day of a timestamp, counted in days since the epoch. */
  function DayOf(t: Timestamp): (d: int)
    ensures d * SecondsPerDay <= t < (d + 1) * SecondsPerDay
  {
    t / SecondsPerDay
  }

  /** The instant `YYYY-MM-DDT00:00:00Z` of a day. */
  function DayStart(day: int): Timestamp {
    day * SecondsPerDay
  }

  /** `getUTCHours() * 60 + getUTCMinutes()`: the minute of the UTC day. */
  function MinutesOfDay(t: Timestamp): (m: int)
    ensures 0 <= m < MinutesPerDay
  {
    (t % SecondsPerDay) / 60
  }

  /** The instant truncated to its minute, in minutes since the epoch. */
  function MinuteOf(t: Timestamp): int {
    t / 60
  }

  lemma MinuteDecomposition(t: Timestamp)
    ensures MinuteOf(t) == MinutesPerDay * DayOf(t) + MinutesOfDay(t)
  {
    var r := t % SecondsPerDay;
    assert t == SecondsPerDay * DayOf(t) + r;
    assert r == 60 * (r / 60) + r % 60;
    assert t == 60 * (MinutesPerDay * DayOf(t) + r / 60) + r % 60;
  }

  /** Two instants share a minute exactly when they share the UTC day and the minute of that day. */
  lemma SameMinute(t1: Timestamp, t2: Timestamp)
    ensures MinuteOf(t1) == MinuteOf(t2) <==> DayOf(t1) == DayOf(t2) && MinutesOfDay(t1) == MinutesOfDay(t2)
  {
    MinuteDecomposition(t1);
    MinuteDecomposition(t2);
  }

  /** Within one day, a later instant has a later or equal minute of the day. */
  lemma MinutesOfDayMonotone(t1: Timestamp, t2: Timestamp)
    requires t1 <= t2 && DayOf(t1) == DayOf(t2)
    ensures MinutesOfDay(t1) <= MinutesOfDay(t2)
  {
    MinuteDecomposition(t1);
    MinuteDecomposition(t2);
  }

  /** An earlier day starts at an earlier instant and a later one ends later. */
  lemma DayOfMonotone(t1: Timestamp, t2: Timestamp)
    requires t1 <= t2
    ensures DayOf(t1) <= DayOf(t2)
  {
  }

  /** `setUTCHours(m / 60, m % 60, 0, 0)` on a day's midnight lands on that
      day, at minute `m`. */
  lemma MinutesOfDayAt(day: int, m: int)
    requires 0 <= m < MinutesPerDay
    ensures DayOf(DayStart(day) + 60 * m) == day
    ensures MinutesOfDay(DayStart(day) + 60 * m) == m
  {
    var t := DayStart(day) + 60 * m;
    assert t == SecondsPerDay * day + 60 * m && 0 <= 60 * m < SecondsPerDay;
    assert t % SecondsPerDay == 60 * m;
  }

  /** "HH:MM" for a minute of the day: the hour and the minute, each padded
      to two digits. */
  function TimeText(m: int): (s: string)
    requires 0 <= m < MinutesPerDay
    ensures |s| == 5 && s[2] == ':'
  {
    Pad2(m / 60) + ":" + Pad2(m % 60)
  }

  /** Reading the two fields of "HH:MM" back gives the minute of the day. */
  lemma TimeTextFields(m: int)
    requires 0 <= m < MinutesPerDay
    ensures AllDigits(TimeText(m)[..2]) && AllDigits(TimeText(m)[3..])
    ensures DigitsValue(TimeText(m)[..2]) * 60 + DigitsValue(TimeText(m)[3..]) == m
  {
    var s := TimeText(m);
    assert s[..2] == Pad2(m / 60) && s[3..] == Pad2(m % 60);
    Pad2Digits(m / 60);
    Pad2Digits(m % 60);
  }

  /** Distinct minutes of the day have distinct "HH:MM" texts. */
  lemma TimeTextInjective(m1: int, m2: int)
    requires 0 <= m1 < MinutesPerDay && 0 <= m2 < MinutesPerDay
    ensures TimeText(m1) == TimeText(m2) <==> m1 == m2
  {
    TimeTextFields(m1);
    TimeTextFields(m2);
    if TimeText(m1) == TimeText(m2) {
      assert TimeText(m1)[..2] == TimeText(m2)[..2];
      assert TimeText(m1)[3..] == TimeText(m2)[3..];
    }
  }

  /** The ISO-8601 text of a timestamp, `YYYY-MM-DDTHH:MM:SS.000Z`, given the
      text of its date. The calendar rendering of the date itself is not
      modelled: `dateText` stands for it. */
  function IsoText(dateText: string, t: Timestamp): (s: string)
    ensures |s| == |dateText| + 14
    ensures s[..|dateText|] == dateText && s[|dateText|] == 'T'
    ensures s[|dateText| + 1..|dateText| + 6] == TimeText(MinutesOfDay(t))
    ensures s[|s| - 5..] == ".000Z"
  {
    dateText + "T" + TimeText(MinutesOfDay(t)) + ":" + Pad2(t % 60) + ".000Z"
  }

  /** The time portion after the `T`: "HH:MM:SS.000Z". */
  function IsoTimePart(t: Timestamp): (s: string)
    ensures |s| == 13 && 'T' !in s && s[..5] == TimeText(MinutesOfDay(t))
  {
    var s := TimeText(MinutesOfDay(t)) + ":" + Pad2(t % 60) + ".000Z";
    TimeTextFields(MinutesOfDay(t));
    assert forall i :: 0 <= i < 5 ==> s[i] == TimeText(MinutesOfDay(t))[i];
    assert forall i :: 6 <= i < 8 ==> IsDigit(s[i]);
    s
  }

  lemma IsoTextParts(dateText: string, t: Timestamp)
    ensures IsoText(dateText, t) == dateText + "T" + IsoTimePart(t)
  {
  }

  /** Characters 11 to 16 of the ISO text of an instant are its "HH:MM",
      and the first 16 are its date and "HH:MM". */
  lemma IsoTextSlices(dateText: string, t: Timestamp)
    requires |dateText| == 10
    ensures IsoText(dateText, t)[11..16] == TimeText(MinutesOfDay(t))
    ensures IsoText(dateText, t)[..16] == dateText + "T" + TimeText(MinutesOfDay(t))
  {
    IsoTextParts(dateText, t);
    var s := IsoText(dateText, t);
    var p := IsoTimePart(t);
    var hm := TimeText(MinutesOfDay(t));
    assert s == (dateText + "T") + p;
    assert s[11..16] == p[..5];
    assert s[..16] == (dateText + "T") + p[..5];
    assert p[..5] == hm;
  }

  /** Digits hold no separator. */
  lemma DigitsHaveNo(s: string, c: char)
    requires AllDigits(s) && !IsDigit(c)
    ensures c !in s
  {
    assert forall i :: 0 <= i < |s| ==> s[i] != c;
  }

  /** The time part of an ISO text splits on ':' into its hour, its minute
      and the rest, the first two being the fields of its "HH:MM". */
  lemma IsoTimeFields(t: Timestamp)
    ensures var m := MinutesOfDay(t);
      Split(IsoTimePart(t), ':') == [Pad2(m / 60), Pad2(m % 60), Pad2(t % 60) + ".000Z"]
  {
    var m := MinutesOfDay(t);
    var hh, mm, tail := Pad2(m / 60), Pad2(m % 60), Pad2(t % 60) + ".000Z";
    assert IsoTimePart(t) == hh + ":" + mm + ":" + tail;
    Pad2Digits(m / 60);
    Pad2Digits(m % 60);
    DigitsHaveNo(hh, ':');
    DigitsHaveNo(mm, ':');
    SecondsFieldHasNoColon(t % 60);
    SplitThree(hh, mm, tail, ':');
  }

  lemma SecondsFieldHasNoColon(sec: nat)
    requires sec < 100
    ensures ':' !in Pad2(sec) + ".000Z"
  {
    var tail := Pad2(sec) + ".000Z";
    assert forall i :: 0 <= i < |tail| ==> tail[i] != ':';
  }

  lemma SplitThree(a: string, b: string, c: string, sep: char)
    requires sep !in a && sep !in b && sep !in c
    ensures Split(a + [sep] + b + [sep] + c, sep) == [a, b, c]
  {
    var bc := b + [sep] + c;
    assert a + [sep] + b + [sep] + c == a + [sep] + bc;
    SplitWithoutSeparator(c, sep);
    SplitAtFirst(b, c, sep);
    assert Split(bc, sep) == [b, c];
    SplitAtFirst(a, bc, sep);
  }

  /** An ISO text splits on 'T' into its date text and its time part. */
  lemma IsoTextSplit(dateText: string, t: Timestamp)
    requires 'T' !in dateText
    ensures Split(IsoText(dateText, t), 'T') == [dateText, IsoTimePart(t)]
  {
    IsoTextParts(dateText, t);
    assert IsoText(dateText, t) == dateText + ['T'] + IsoTimePart(t);
    SplitAtFirst(dateText, IsoTimePart(t), 'T');
    SplitWithoutSeparator(IsoTimePart(t), 'T');
  }
}
