/** The attendant's daily report page (`buildDailyRows`, `formatFilterDate`):
    one row per UTC day of a chosen range that holds events, with the present
    and away totals of that day, its first and last "HH:MM", the status left by
    its last event and a label per away event; and the `DD/MM/YYYY` text of a
    filter date. */
module DailyReport {
  import opened Options
  import opened Text
  import opened Clock
  import opened Collections
  import opened Intercom
  import opened Calculations

  // ---------------------------------------------------------------------
  // formatFilterDate
  // ---------------------------------------------------------------------

  /** A destructured array element: missing ones are `undefined`, and a
      template literal renders them as that word. */
  function FieldOrUndefined(parts: seq<string>, i: nat): string {
    if i < |parts| then parts[i] else "undefined"
  }

  /** `formatFilterDate(dateStr)`: `"-"` for the empty text, otherwise the
      `-`-separated fields in reverse order joined by `/`. Only the empty text
      gives `"-"`. */
  function FormatFilterDate(dateStr: string): (r: string)
    ensures r == "-" <==> dateStr == ""
  {
    if dateStr == "" then "-"
    else
      var parts := Split(dateStr, '-');
      FieldOrUndefined(parts, 2) + "/" + FieldOrUndefined(parts, 1) + "/" + FieldOrUndefined(parts, 0)
  }

  /** `YYYY-MM-DD` becomes `DD/MM/YYYY`. */
  lemma FormatFilterDateOfIsoDate(y: string, m: string, d: string)
    requires '-' !in y && '-' !in m && '-' !in d
    ensures FormatFilterDate(y + "-" + m + "-" + d) == d + "/" + m + "/" + y
  {
    var s := y + "-" + m + "-" + d;
    assert s[|y|] == '-';
    SplitThree(y, m, d, '-');
  }

  /** The display text splits back on `/` into the day, month and year fields
      it was made from. */
  lemma FilterDateReadsBack(y: string, m: string, d: string)
    requires '-' !in y && '-' !in m && '-' !in d
    requires '/' !in y && '/' !in m && '/' !in d
    ensures Split(FormatFilterDate(y + "-" + m + "-" + d), '/') == [d, m, y]
  {
    FormatFilterDateOfIsoDate(y, m, d);
    SplitThree(d, m, y, '/');
  }

  // ---------------------------------------------------------------------
  // One day's row
  // ---------------------------------------------------------------------

  /** The row's `currentStatus`; `RowNone` is the type's third value, which
      no built row holds. */
  datatype RowStatus = RowOnline | RowAway | RowNone

  /** `DailyRow`, durations in seconds (the source's minutes, times 60). The
      `label` and `weekday` texts are locale renderings of `dateKey` and are
      not carried. */
  datatype DailyRow = DailyRow(
    dateKey: int,
    totalPresentSeconds: int,
    totalAwaySeconds: int,
    firstEventTime: Option<string>,
    lastEventTime: Option<string>,
    currentStatus: RowStatus,
    reasons: seq<string>)

  /** `date.substring(11, 16)`: the event's UTC "HH:MM" (IsoTextSlices shows
      these are characters 11 to 16 of the ISO text). */
  function HourMinute(r: Attendance): (s: string)
    ensures |s| == 5
  {
    TimeText(MinutesOfDay(r.date))
  }

  /** `away_status_reason || "Ausente"`. */
  function ReasonText(reason: Option<string>): (r: string)
    ensures r != ""
    ensures NonEmptyReason(reason).Some? ==> r == reason.value
    ensures NonEmptyReason(reason).None? ==> r == "Ausente"
  {
    NonEmptyReason(reason).GetOr("Ausente")
  }

  /** The label of away event `i` of the sorted day: its "HH:MM" and reason,
      then the formatted gap to the next event unless it is the day's last. */
  function AwayLabel(s: seq<Attendance>, i: int): string
    requires 0 <= i < |s|
  {
    var head := HourMinute(s[i]) + " " + ReasonText(s[i].reason);
    if i + 1 < |s| then head + " (" + FormatMinutes(Some(Gap(s, i) as real / 60.0)) + ")" else head
  }

  /** An away label opens with the event's "HH:MM", a space and the reason;
      it carries a parenthesised gap exactly when the event is not the
      day's last. */
  lemma AwayLabelShape(s: seq<Attendance>, i: int)
    requires 0 <= i < |s|
    ensures var r, n := AwayLabel(s, i), 6 + |ReasonText(s[i].reason)|;
      && |r| >= n
      && r[..5] == HourMinute(s[i]) && r[5] == ' ' && r[6..n] == ReasonText(s[i].reason)
      && (|r| == n <==> i + 1 == |s|)
      && (i + 1 < |s| ==> |r| > n + 2 && r[n..n + 2] == " (" && r[|r| - 1] == ')')
  {
    var hm, reason := HourMinute(s[i]), ReasonText(s[i].reason);
    var head := hm + " " + reason;
    assert head[..5] == hm && head[5] == ' ' && head[6..] == reason;
    if i + 1 < |s| {
      var gap := FormatMinutes(Some(Gap(s, i) as real / 60.0));
      var r := head + " (" + gap + ")";
      assert AwayLabel(s, i) == r;
      assert r[..|head|] == head && r[|head|..|head| + 2] == " (";
    }
  }

  /** The test "event `i` of `s` is an away event". */
  function AwayAt(s: seq<Attendance>): int -> bool {
    i => 0 <= i < |s| && s[i].away
  }

  function LabelAt(s: seq<Attendance>): int -> string {
    i => if 0 <= i < |s| then AwayLabel(s, i) else ""
  }

  lemma LabelAtIs(s: seq<Attendance>, i: int)
    requires 0 <= i < |s|
    ensures LabelAt(s)(i) == AwayLabel(s, i)
    ensures i + 1 == |s| ==> LabelAt(s)(i) == HourMinute(s[i]) + " " + ReasonText(s[i].reason)
  {
  }

  lemma LabelWithGapIs(s: seq<Attendance>, i: int, diff: int)
    requires 0 <= i && i + 1 < |s| && diff == Gap(s, i)
    ensures LabelAt(s)(i) ==
      HourMinute(s[i]) + " " + ReasonText(s[i].reason) + " (" + FormatMinutes(Some(diff as real / 60.0)) + ")"
  {
    assert LabelAt(s)(i) == AwayLabel(s, i);
    assert Gap(s, i) as real / 60.0 == diff as real / 60.0;
  }

  /** The labels pushed for the first `n` events of the sorted day. */
  function AwayLabels(s: seq<Attendance>, n: int): seq<string> {
    Collect(0, n, AwayAt(s), LabelAt(s))
  }

  /** The positions of the away events of the sorted day, ascending. */
  function AwayPositions(s: seq<Attendance>): seq<int> {
    Positions(0, |s|, AwayAt(s))
  }

  /** `reasons` holds one label per away event, each once and in
      chronological order: the `k`-th label is the label of the `k`-th away
      event, and the away events are exactly the listed positions. */
  lemma AwayLabelsPerAwayEvent(s: seq<Attendance>)
    ensures forall i :: i in AwayPositions(s) <==> 0 <= i < |s| && s[i].away
    ensures forall k, l :: 0 <= k < l < |AwayPositions(s)| ==> AwayPositions(s)[k] < AwayPositions(s)[l]
    ensures |AwayLabels(s, |s|)| == |AwayPositions(s)|
    ensures forall k :: 0 <= k < |AwayLabels(s, |s|)| ==>
      0 <= AwayPositions(s)[k] < |s| && AwayLabels(s, |s|)[k] == AwayLabel(s, AwayPositions(s)[k])
  {
    PositionsAreKept(0, |s|, AwayAt(s));
    CollectAtPositions(0, |s|, AwayAt(s), LabelAt(s));
    forall k | 0 <= k < |AwayLabels(s, |s|)|
      ensures 0 <= AwayPositions(s)[k] < |s| && AwayLabels(s, |s|)[k] == AwayLabel(s, AwayPositions(s)[k])
    {
      assert AwayPositions(s)[k] in AwayPositions(s);
    }
  }

  function StatusOf(r: Attendance): RowStatus {
    if r.away then RowAway else RowOnline
  }

  /** The row of UTC day `key` from its events in chronological order:
      presence and absence credited pair by pair, the first and last
      "HH:MM", the status of the last event and the away labels. */
  function SortedDayRow(key: int, sorted: seq<Attendance>): DailyRow
    requires sorted != []
  {
    DailyRow(key, PairSum(sorted, false), PairSum(sorted, true),
      Some(HourMinute(sorted[0])), Some(HourMinute(sorted[|sorted| - 1])),
      StatusOf(sorted[|sorted| - 1]), AwayLabels(sorted, |sorted|))
  }

  /** The row of UTC day `key` from its events in input order. */
  function DayRowOf(key: int, dayRecords: seq<Attendance>): (row: DailyRow)
    requires dayRecords != []
    ensures row.dateKey == key
  {
    SortedDayRow(key, SortBy(dayRecords, DateOf))
  }

  /** One day: the events sorted by time, then the loop over them. */
  method BuildDayRow(key: int, dayRecords: seq<Attendance>) returns (row: DailyRow)
    requires dayRecords != []
    ensures row == DayRowOf(key, dayRecords)
  {
    var sorted := SortBy(dayRecords, DateOf);
    row := AccumulateDay(key, sorted);
  }

  /** The loop over one day's sorted events. */
  method AccumulateDay(key: int, sorted: seq<Attendance>) returns (row: DailyRow)
    requires sorted != []
    ensures row == SortedDayRow(key, sorted)
  {
    var totalPresent := 0;
    var totalAway := 0;
    var firstEventTime: Option<string> := None;
    var lastEventTime: Option<string> := None;
    var awayEventLabels: seq<string> := [];
    for i := 0 to |sorted|
      invariant i < |sorted| ==> totalPresent == PairSum(sorted[..i + 1], false)
      invariant i < |sorted| ==> totalAway == PairSum(sorted[..i + 1], true)
      invariant i == |sorted| ==> totalPresent == PairSum(sorted, false) && totalAway == PairSum(sorted, true)
      invariant i == 0 ==> firstEventTime.None?
      invariant i > 0 ==> firstEventTime == Some(HourMinute(sorted[0]))
      invariant i > 0 ==> lastEventTime == Some(HourMinute(sorted[i - 1]))
      invariant awayEventLabels == AwayLabels(sorted, i)
    {
      var current := sorted[i];
      if firstEventTime.None? || firstEventTime.value == "" {
        firstEventTime := Some(HourMinute(current));
      }
      lastEventTime := Some(HourMinute(current));
      if i + 1 < |sorted| {
        totalPresent, totalAway, awayEventLabels := CreditGap(sorted, i, totalPresent, totalAway, awayEventLabels);
      } else {
        assert sorted[..i + 1] == sorted;
        awayEventLabels := LabelLastEvent(sorted, i, awayEventLabels);
      }
      assert sorted[(i + 1) - 1] == current;
    }
    var anyRecord := sorted[|sorted| - 1];
    row := DailyRow(key, totalPresent, totalAway, firstEventTime, lastEventTime, StatusOf(anyRecord), awayEventLabels);
  }

  /** The `if (next)` branch: the gap to the next event goes to presence or
      absence, and an away event gets its label with the gap's length. */
  method CreditGap(sorted: seq<Attendance>, i: int, present0: int, away0: int, labels0: seq<string>)
    returns (totalPresent: int, totalAway: int, awayEventLabels: seq<string>)
    requires 0 <= i && i + 1 < |sorted|
    requires present0 == PairSum(sorted[..i + 1], false) && away0 == PairSum(sorted[..i + 1], true)
    requires labels0 == AwayLabels(sorted, i)
    ensures totalPresent == PairSum(sorted[..i + 2], false) && totalAway == PairSum(sorted[..i + 2], true)
    ensures awayEventLabels == AwayLabels(sorted, i + 1)
  {
    var current := sorted[i];
    var next := sorted[i + 1];
    var diff := next.date - current.date;
    PairSumStep(sorted, i);
    totalPresent, totalAway := present0, away0;
    if current.away {
      totalAway := totalAway + diff;
    } else {
      totalPresent := totalPresent + diff;
    }
    awayEventLabels := LabelWithGap(sorted, i, diff, labels0);
  }

  /** An away event with a successor gets its label with the gap's length. */
  method LabelWithGap(sorted: seq<Attendance>, i: int, diff: int, labels0: seq<string>) returns (awayEventLabels: seq<string>)
    requires 0 <= i && i + 1 < |sorted| && diff == Gap(sorted, i)
    requires labels0 == AwayLabels(sorted, i)
    ensures awayEventLabels == AwayLabels(sorted, i + 1)
  {
    var current := sorted[i];
    CollectNext(0, i, AwayAt(sorted), LabelAt(sorted));
    awayEventLabels := labels0;
    if current.away {
      var reason := ReasonText(current.reason);
      var text := HourMinute(current) + " " + reason + " (" + FormatMinutes(Some(diff as real / 60.0)) + ")";
      LabelWithGapIs(sorted, i, diff);
      awayEventLabels := awayEventLabels + [text];
    }
  }

  /** The last event of the day: an away event gets its label without a gap. */
  method LabelLastEvent(sorted: seq<Attendance>, i: int, labels0: seq<string>) returns (awayEventLabels: seq<string>)
    requires 0 <= i && i + 1 == |sorted|
    requires labels0 == AwayLabels(sorted, i)
    ensures awayEventLabels == AwayLabels(sorted, |sorted|)
  {
    var current := sorted[i];
    CollectNext(0, i, AwayAt(sorted), LabelAt(sorted));
    awayEventLabels := labels0;
    if current.away {
      var reason := ReasonText(current.reason);
      var text := HourMinute(current) + " " + reason;
      LabelAtIs(sorted, i);
      awayEventLabels := awayEventLabels + [text];
    }
  }

  /** Crediting the gap after event `i` extends the totals to one more event. */
  lemma PairSumStep(s: seq<Attendance>, i: int)
    requires 0 <= i && i + 1 < |s|
    ensures PairSum(s[..i + 2], true) == PairSum(s[..i + 1], true) + (if s[i].away then Gap(s, i) else 0)
    ensures PairSum(s[..i + 2], false) == PairSum(s[..i + 1], false) + (if s[i].away then 0 else Gap(s, i))
  {
    var t := s[..i + 2];
    assert t[..i + 1] == s[..i + 1] && t[i] == s[i] && Gap(t, i) == Gap(s, i);
  }

  /** The sort puts a day's events in chronological order, its first event
      being the earliest of the day and its last the latest. */
  lemma SortedDayEnds(dayRecords: seq<Attendance>)
    requires dayRecords != []
    ensures Chronological(SortBy(dayRecords, DateOf))
    ensures SortBy(dayRecords, DateOf)[0] in dayRecords
    ensures SortBy(dayRecords, DateOf)[|dayRecords| - 1] in dayRecords
    ensures forall r :: r in dayRecords ==>
      SortBy(dayRecords, DateOf)[0].date <= r.date <= SortBy(dayRecords, DateOf)[|dayRecords| - 1].date
  {
    SortByIsSorted(dayRecords, DateOf);
    SortedPermutationEnds(dayRecords, SortBy(dayRecords, DateOf), DateOf);
  }

  /** Over events in chronological order the two totals are non-negative and
      add up to the time from the first event to the last. */
  lemma SortedDayRowTotals(key: int, sorted: seq<Attendance>)
    requires sorted != [] && Chronological(sorted)
    ensures SortedDayRow(key, sorted).totalPresentSeconds >= 0
    ensures SortedDayRow(key, sorted).totalAwaySeconds >= 0
    ensures SortedDayRow(key, sorted).totalPresentSeconds + SortedDayRow(key, sorted).totalAwaySeconds
      == sorted[|sorted| - 1].date - sorted[0].date
  {
    PairSumTelescopes(sorted);
    PairSumNonNegative(sorted, true);
    PairSumNonNegative(sorted, false);
  }

  /** A built row always has both times and a status, never `RowNone`; the
      status is away exactly when the day's last event is an away event. */
  lemma SortedDayRowStatus(key: int, sorted: seq<Attendance>)
    requires sorted != []
    ensures SortedDayRow(key, sorted).firstEventTime.Some? && SortedDayRow(key, sorted).lastEventTime.Some?
    ensures SortedDayRow(key, sorted).currentStatus != RowNone
    ensures SortedDayRow(key, sorted).currentStatus == RowAway <==> sorted[|sorted| - 1].away
  {
  }

  // ---------------------------------------------------------------------
  // The rows of a range of days
  // ---------------------------------------------------------------------

  /** The test "day `d` has events" (`dayRecords.length !== 0`). */
  function HasEvents(records: seq<Attendance>): int -> bool {
    d => DayGroup(records, d) != []
  }

  /** The row of day `d`; a day without events, which gets no row, gives the
      loop's starting values. */
  function RowOfDay(records: seq<Attendance>): int -> DailyRow {
    d => if DayGroup(records, d) == [] then DailyRow(d, 0, 0, None, None, RowNone, [])
         else DayRowOf(d, DayGroup(records, d))
  }

  /** The rows of the days `start` to `last`, ascending. */
  function RowsBetween(records: seq<Attendance>, start: int, last: int): seq<DailyRow> {
    Collect(start, last + 1, HasEvents(records), RowOfDay(records))
  }

  /** The days from `start` to `last` that have events, ascending. */
  function RecordedDays(records: seq<Attendance>, start: int, last: int): seq<int> {
    Positions(start, last + 1, HasEvents(records))
  }

  /** `buildDailyRows(records, startDate, endDate)` with the two dates given
      as UTC days; `None` stands for a text that makes an Invalid Date, whose
      comparison `d <= end` is false, so that no row is built. */
  function DailyRows(records: seq<Attendance>, startDay: Option<int>, endDay: Option<int>): seq<DailyRow> {
    if startDay.None? || endDay.None? then [] else RowsBetween(records, startDay.value, endDay.value)
  }

  /** The events of a day, looked up in the dictionary `byDay` (`?? []`). */
  lemma LookupDay(records: seq<Attendance>, order: seq<int>, byDay: map<int, seq<Attendance>>, d: int)
    requires order == KeysInOrder(records, DayKeyOf)
    requires forall k :: k in byDay <==> k in order
    requires forall k :: k in byDay ==> byDay[k] == DayGroup(records, k)
    ensures (if d in byDay then byDay[d] else []) == DayGroup(records, d)
  {
    if d !in byDay {
      FilterNone(records, Is(DayKeyOf, d));
    }
  }

  method BuildDailyRows(records: seq<Attendance>, startDay: Option<int>, endDay: Option<int>) returns (rows: seq<DailyRow>)
    ensures rows == DailyRows(records, startDay, endDay)
  {
    var order, byDay := GroupBy(records, DayKeyOf);
    rows := [];
    if startDay.None? || endDay.None? {
      return;
    }
    var start, end := startDay.value, endDay.value;
    var d := start;
    while d <= end
      invariant start <= d <= if end < start then start else end + 1
      invariant rows == Collect(start, d, HasEvents(records), RowOfDay(records))
      decreases end - d
    {
      LookupDay(records, order, byDay, d);
      CollectNext(start, d, HasEvents(records), RowOfDay(records));
      var dayRecords := if d in byDay then byDay[d] else [];
      if |dayRecords| != 0 {
        var row := BuildDayRow(d, dayRecords);
        assert RowOfDay(records)(d) == row;
        rows := rows + [row];
      }
      d := d + 1;
    }
    assert end < start ==> rows == [];
  }

  /** A row is produced for each day of the range that has events and for no
      other day, in strictly ascending day order, and each row is built from
      that day's events alone. */
  lemma RowsAreTheRecordedDays(records: seq<Attendance>, start: int, last: int)
    ensures forall d :: d in RecordedDays(records, start, last) <==> start <= d <= last && DayGroup(records, d) != []
    ensures |RowsBetween(records, start, last)| == |RecordedDays(records, start, last)|
    ensures forall k :: 0 <= k < |RowsBetween(records, start, last)| ==>
      DayGroup(records, RecordedDays(records, start, last)[k]) != []
      && RowsBetween(records, start, last)[k]
        == DayRowOf(RecordedDays(records, start, last)[k], DayGroup(records, RecordedDays(records, start, last)[k]))
    ensures forall i, j :: 0 <= i < j < |RowsBetween(records, start, last)| ==>
      RowsBetween(records, start, last)[i].dateKey < RowsBetween(records, start, last)[j].dateKey
  {
    var days, rows := RecordedDays(records, start, last), RowsBetween(records, start, last);
    PositionsAreKept(start, last + 1, HasEvents(records));
    CollectAtPositions(start, last + 1, HasEvents(records), RowOfDay(records));
    forall k | 0 <= k < |rows|
      ensures DayGroup(records, days[k]) != [] && rows[k] == DayRowOf(days[k], DayGroup(records, days[k]))
    {
      assert days[k] in days;
    }
    forall i, j | 0 <= i < j < |rows|
      ensures rows[i].dateKey < rows[j].dateKey
    {
      assert rows[i].dateKey == days[i] && rows[j].dateKey == days[j];
    }
  }

  /** A day has events exactly when some record falls on it. */
  lemma DayHasEvents(records: seq<Attendance>, d: int)
    ensures DayGroup(records, d) != [] <==> exists i :: 0 <= i < |records| && DayKeyOf(records[i]) == d
  {
    FilterMembers(records, Is(DayKeyOf, d));
    if DayGroup(records, d) != [] {
      var x := DayGroup(records, d)[0];
      assert x in records && Is(DayKeyOf, d)(x);
      var i :| 0 <= i < |records| && records[i] == x;
      assert DayKeyOf(records[i]) == d;
    }
    if exists i :: 0 <= i < |records| && DayKeyOf(records[i]) == d {
      var i :| 0 <= i < |records| && DayKeyOf(records[i]) == d;
      FilterKeeps(records, Is(DayKeyOf, d), i);
    }
  }

  lemma OtherDayUnchanged(records: seq<Attendance>, x: Attendance, d: int)
    requires DayKeyOf(x) != d
    ensures HasEvents(records + [x])(d) == HasEvents(records)(d)
    ensures RowOfDay(records + [x])(d) == RowOfDay(records)(d)
  {
    FilterAppend(records, [x], Is(DayKeyOf, d));
    FilterNone([x], Is(DayKeyOf, d));
    assert DayGroup(records + [x], d) == DayGroup(records, d);
  }

  lemma OtherDaysUnchanged(records: seq<Attendance>, x: Attendance, start: int, last: int)
    requires DayKeyOf(x) < start || last < DayKeyOf(x)
    ensures forall d :: start <= d < last + 1 ==> HasEvents(records + [x])(d) == HasEvents(records)(d)
    ensures forall d :: start <= d < last + 1 && HasEvents(records + [x])(d) ==>
      RowOfDay(records + [x])(d) == RowOfDay(records)(d)
  {
    forall d | start <= d < last + 1
      ensures HasEvents(records + [x])(d) == HasEvents(records)(d)
      ensures RowOfDay(records + [x])(d) == RowOfDay(records)(d)
    {
      OtherDayUnchanged(records, x, d);
    }
  }

  /** An event dated outside the range changes no row. */
  lemma OutOfRangeIgnored(records: seq<Attendance>, x: Attendance, start: int, last: int)
    requires DayKeyOf(x) < start || last < DayKeyOf(x)
    ensures RowsBetween(records + [x], start, last) == RowsBetween(records, start, last)
  {
    OtherDaysUnchanged(records, x, start, last);
    CollectAgrees(start, last + 1, HasEvents(records + [x]), RowOfDay(records + [x]), HasEvents(records), RowOfDay(records));
  }
}
