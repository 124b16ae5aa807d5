/** The per-shift report (`processAttendanceRecords`): each user's events of
    one UTC day are merged into alternating presence and absence intervals,
    the intervals are intersected, minute of the day by minute of the day,
    with three fixed shift windows (Manhã, Tarde, Noite), and every shift
    that received time becomes a record with its display times, rounded
    availability and a status; the shift records roll up into one summary
    per user and day. */
module AttendanceShifts {
  import opened Options
  import opened Text
  import opened Clock
  import opened Collections
  import opened Intercom
  import opened Calculations

  // ---------------------------------------------------------------------
  // The shift table
  // ---------------------------------------------------------------------

  datatype Shift = Manha | Tarde | Noite

  /** `shiftsOrder`: the order in which shifts are visited and reported. */
  const ShiftsOrder: seq<Shift> := [Manha, Tarde, Noite]

  function ShiftName(sh: Shift): string {
    match sh
    case Manha => "Manh\U{E3}"
    case Tarde => "Tarde"
    case Noite => "Noite"
  }

  /** One row of `SHIFTS`: the window's first and last minute of the day,
      the icon, and the minute after which an exit counts as overtime. */
  datatype ShiftConfig = ShiftConfig(start: int, end: int, icon: string, overtimeAfter: int)

  function Config(sh: Shift): (c: ShiftConfig)
    ensures 0 <= c.start < c.end < MinutesPerDay
    ensures c.start < c.overtimeAfter <= c.end + 1
    ensures c.icon != []
  {
    match sh
    case Manha => ShiftConfig(6 * 60, 11 * 60 + 59, "\U{1F305}", 12 * 60)
    case Tarde => ShiftConfig(12 * 60, 18 * 60, "\U{2600}\U{FE0F}", 18 * 60)
    case Noite => ShiftConfig(18 * 60 + 1, 23 * 60 + 59, "\U{1F319}", 22 * 60)
  }

  function ShiftIndex(sh: Shift): (k: nat)
    ensures k < |ShiftsOrder| && ShiftsOrder[k] == sh
  {
    match sh
    case Manha => 0
    case Tarde => 1
    case Noite => 2
  }

  /** Every shift is visited, once. */
  lemma ShiftsOrderLists()
    ensures forall sh :: sh in ShiftsOrder
    ensures forall i :: 0 <= i < |ShiftsOrder| ==> ShiftIndex(ShiftsOrder[i]) == i
  {
    forall sh: Shift ensures sh in ShiftsOrder {
      assert ShiftsOrder[ShiftIndex(sh)] == sh;
    }
  }

  // ---------------------------------------------------------------------
  // String helpers
  // ---------------------------------------------------------------------

  /** `formatMinutesLocal` on a whole number of minutes: `"0m"` when not
      positive, otherwise hours and minutes. It renders exactly as the global
      `formatMinutes` does. */
  function FormatMinutesLocal(minutes: int): (s: string)
    ensures s == FormatMinutes(Some(minutes as real))
  {
    RoundWhole(minutes);
    if minutes <= 0 then "0m" else HoursMinutesText(minutes)
  }

  /** `formatTime(dateStr)`: the hour and minute fields after the `T`, each
      padded to two digits; `"-"` for an empty text, one without `T`, or one
      whose time part lacks an hour or a minute field. */
  function FormatTime(dateStr: string): (s: string)
    ensures dateStr == [] || 'T' !in dateStr ==> s == "-"
    ensures s != "-" ==> ':' in s
  {
    if dateStr == [] then "-"
    else
      var parts := Split(dateStr, 'T');
      if 'T' !in dateStr then
        SplitWithoutSeparator(dateStr, 'T');
        "-"
      else if |parts| < 2 then "-"
      else
        var fields := Split(parts[1], ':');
        var hour := fields[0];
        if hour == [] || |fields| < 2 || fields[1] == [] then "-"
        else
          var s := PadStart2(hour) + ":" + PadStart2(fields[1]);
          assert s[|PadStart2(hour)|] == ':';
          s
  }

  /** `extractDateOnly(dateStr)`: everything before the first `T` (the whole
      text when there is none). */
  function ExtractDateOnly(dateStr: string): (r: string)
    ensures 'T' !in r && |r| <= |dateStr|
    ensures r == dateStr[..|r|]
    ensures r == dateStr || dateStr[|r|] == 'T'
  {
    var parts := Split(dateStr, 'T');
    assert parts[0] == dateStr[..IndexOf(dateStr, 'T')] by {
      FirstPartIsPrefix(dateStr, 'T');
    }
    parts[0]
  }

  lemma FirstPartIsPrefix(s: string, sep: char)
    ensures Split(s, sep)[0] == s[..IndexOf(s, sep)]
  {
  }

  /** `getMinutesOfDayFromString(dateStr)`: `parseInt` of the hour and the
      minute field after the `T`, as minutes of the day; 0 when there is no
      `T` or either field is not a number. A missing minute field reads as
      `"0"`. */
  function MinutesOfDayFromString(dateStr: string): (r: int)
    ensures 'T' !in dateStr ==> r == 0
  {
    var parts := Split(dateStr, 'T');
    if |parts| < 2 then 0
    else
      var fields := Split(parts[1], ':');
      var hour := ParseInt(fields[0]);
      var minute := ParseInt(if |fields| >= 2 then fields[1] else "0");
      if hour.None? || minute.None? then 0
      else hour.value * 60 + minute.value
  }

  /** parseInt skips white space before the hour, so a text such as
      "2026-01-06T 9:30" still reads its hour and minute. */
  lemma MinutesOfDayFromSpacedFields(date: string, ws: string, hs: string, ms: string)
    requires 'T' !in date
    requires forall i :: 0 <= i < |ws| ==> IsJsSpace(ws[i])
    requires |hs| >= 1 && AllDigits(hs) && |ms| >= 1 && AllDigits(ms)
    ensures MinutesOfDayFromString(date + "T" + ws + hs + ":" + ms) == DigitsValue(hs) * 60 + DigitsValue(ms)
  {
    var hour := ws + hs;
    var time := hour + [':'] + ms;
    DigitsHaveNo(hs, 'T');
    DigitsHaveNo(ms, 'T');
    DigitsHaveNo(hs, ':');
    DigitsHaveNo(ms, ':');
    assert forall i :: 0 <= i < |ws| ==> ws[i] != 'T' && ws[i] != ':';
    assert 'T' !in time && ':' !in hour;
    assert date + "T" + ws + hs + ":" + ms == date + ['T'] + time;
    SplitAtFirst(date, time, 'T');
    SplitWithoutSeparator(time, 'T');
    SplitAtFirst(hour, ms, ':');
    SplitWithoutSeparator(ms, ':');
    ParseIntOfSpacedDigits(ws, hs);
    ParseIntOfDigits(ms, []);
    assert ms + [] == ms;
    MinutesOfDayFromFields(date + "T" + ws + hs + ":" + ms, DigitsValue(hs), DigitsValue(ms));
  }

  lemma MinutesOfDayFromSpacedHour()
    ensures MinutesOfDayFromString("2026-01-06T 9:30") == 570
  {
    assert "2026-01-06T 9:30" == "2026-01-06" + "T" + " " + "9" + ":" + "30";
    assert DigitsValue("9") == 9 && DigitsValue("30") == 30 by {
      assert "30"[..1] == "3" && "9"[..0] == [] && "3"[..0] == [];
    }
    MinutesOfDayFromSpacedFields("2026-01-06", " ", "9", "30");
  }

  /** On an ISO-8601 UTC text, extractDateOnly gives back the date text. */
  lemma ExtractDateOnlyOfIso(dateText: string, t: Timestamp)
    requires 'T' !in dateText
    ensures ExtractDateOnly(IsoText(dateText, t)) == dateText
  {
    IsoTextSplit(dateText, t);
  }

  /** On an ISO-8601 UTC text, formatTime gives the instant's "HH:MM". */
  lemma FormatTimeOfIso(dateText: string, t: Timestamp)
    requires 'T' !in dateText
    ensures FormatTime(IsoText(dateText, t)) == TimeText(MinutesOfDay(t))
  {
    IsoTextSplit(dateText, t);
    IsoTimeFields(t);
    assert 'T' in IsoText(dateText, t) by {
      IsoTextParts(dateText, t);
      assert IsoText(dateText, t)[|dateText|] == 'T';
    }
  }

  /** On an ISO-8601 UTC text, getMinutesOfDayFromString reads the same
      minute of the day as getMinutesOfDay does on the instant. */
  lemma MinutesOfDayFromIso(dateText: string, t: Timestamp)
    requires 'T' !in dateText
    ensures MinutesOfDayFromString(IsoText(dateText, t)) == MinutesOfDay(t)
  {
    var m := MinutesOfDay(t);
    IsoTextSplit(dateText, t);
    IsoTimeFields(t);
    ParseIntOfPad2(m / 60);
    ParseIntOfPad2(m % 60);
    MinutesOfDayFromFields(IsoText(dateText, t), m / 60, m % 60);
    assert (m / 60) * 60 + m % 60 == m;
  }

  /** The minute of the day once the hour and the minute fields have been read. */
  lemma MinutesOfDayFromFields(dateStr: string, hour: int, minute: int)
    requires |Split(dateStr, 'T')| >= 2
    requires var fields := Split(Split(dateStr, 'T')[1], ':');
      |fields| >= 2 && ParseInt(fields[0]) == Some(hour) && ParseInt(fields[1]) == Some(minute)
    ensures MinutesOfDayFromString(dateStr) == hour * 60 + minute
  {
  }

  // ---------------------------------------------------------------------
  // Presence and absence intervals
  // ---------------------------------------------------------------------

  /** One entry of `rawPeriods`: from `entry` to `exit`, with the seconds spent
      present and away (the source's minutes, times 60). */
  datatype Interval = Interval(entry: Timestamp, exit: Timestamp, present: int, away: int)

  /** The intervals of a day's sorted events: every event with a successor
      contributes the gap to that successor, to `away` when its away flag is
      set and to `present` otherwise; it opens a new interval when it is the
      first event or its flag differs from the previous event's, and extends
      the last interval to its successor otherwise. */
  function Periods(s: seq<Attendance>): (ps: seq<Interval>)
    ensures |ps| == 0 <==> |s| < 2
    decreases |s|
  {
    if |s| < 2 then []
    else
      var ps := Periods(s[..|s| - 1]);
      var i := |s| - 2;
      var d := s[i + 1].date - s[i].date;
      var p := if s[i].away then 0 else d;
      var a := if s[i].away then d else 0;
      if ps == [] || s[i].away != s[i - 1].away then
        ps + [Interval(s[i].date, s[i + 1].date, p, a)]
      else
        var last := ps[|ps| - 1];
        ps[..|ps| - 1] + [last.(exit := s[i + 1].date, present := last.present + p, away := last.away + a)]
  }

  /** The away flag shared by the events of each interval. */
  function PeriodStates(s: seq<Attendance>): (st: seq<bool>)
    ensures |st| == |Periods(s)|
    decreases |s|
  {
    if |s| < 2 then []
    else
      var st := PeriodStates(s[..|s| - 1]);
      var i := |s| - 2;
      if Periods(s[..|s| - 1]) == [] || s[i].away != s[i - 1].away then st + [s[i].away] else st
  }

  /** The loop that builds `rawPeriods`, pushing a new interval or updating
      the last one in place. */
  method MergeIntervals(sorted: seq<Attendance>) returns (periods: seq<Interval>)
    ensures periods == Periods(sorted)
  {
    periods := [];
    if |sorted| == 0 {
      return;
    }
    for i := 0 to |sorted| - 1
      invariant periods == Periods(sorted[..i + 1])
    {
      var current := sorted[i];
      var next := sorted[i + 1];
      var duration := next.date - current.date;
      assert sorted[..i + 2][..i + 1] == sorted[..i + 1];
      if periods == [] || current.away != sorted[i - 1].away {
        periods := periods + [Interval(current.date, next.date,
          if current.away then 0 else duration, if current.away then duration else 0)];
      } else {
        var last := periods[|periods| - 1];
        last := last.(exit := next.date);
        if !current.away {
          last := last.(present := last.present + duration);
        } else {
          last := last.(away := last.away + duration);
        }
        periods := periods[..|periods| - 1] + [last];
      }
    }
    assert sorted[..|sorted|] == sorted;
  }

  /** The intervals are contiguous and cover the day: the first starts at the
      first event, each ends where the next begins, and the last ends at the
      last event. */
  lemma {:induction false} PeriodsContiguous(s: seq<Attendance>)
    ensures var ps := Periods(s);
      && (|s| >= 2 ==> ps[0].entry == s[0].date && ps[|ps| - 1].exit == s[|s| - 1].date)
      && (forall k :: 0 <= k < |ps| - 1 ==> ps[k].exit == ps[k + 1].entry)
    decreases |s|
  {
    if |s| > 2 {
      var s' := s[..|s| - 1];
      PeriodsContiguous(s');
      assert s'[0] == s[0];
    }
  }

  /** An interval in state `away` holds only away time (`!away`: only
      present time), and its time adds up to its length. */
  predicate SingleState(p: Interval, away: bool) {
    && (away ==> p.present == 0)
    && (!away ==> p.away == 0)
    && p.present + p.away == p.exit - p.entry
  }

  /** The last interval holds the state of the last event that has a successor. */
  lemma PeriodsLastState(s: seq<Attendance>)
    requires |s| >= 2
    ensures PeriodStates(s)[|PeriodStates(s)| - 1] == s[|s| - 2].away
  {
    if |s| > 2 && s[|s| - 2].away == s[|s| - 3].away {
      PeriodsLastState(s[..|s| - 1]);
    }
  }

  /** An event whose state differs from the previous one opens an interval. */
  lemma PeriodsOpen(s: seq<Attendance>)
    requires |s| > 2 && s[|s| - 2].away != s[|s| - 3].away
    ensures var i, d := |s| - 2, s[|s| - 1].date - s[|s| - 2].date;
      && Periods(s) == Periods(s[..|s| - 1]) + [Interval(s[i].date, s[i + 1].date, if s[i].away then 0 else d, if s[i].away then d else 0)]
      && PeriodStates(s) == PeriodStates(s[..|s| - 1]) + [s[i].away]
  {
  }

  /** An event in the same state as the previous one extends the last interval. */
  lemma PeriodsExtend(s: seq<Attendance>)
    requires |s| > 2 && s[|s| - 2].away == s[|s| - 3].away
    ensures var ps', i, d := Periods(s[..|s| - 1]), |s| - 2, s[|s| - 1].date - s[|s| - 2].date;
      && ps' != []
      && Periods(s) == ps'[..|ps'| - 1] + [ps'[|ps'| - 1].(exit := s[i + 1].date,
           present := ps'[|ps'| - 1].present + (if s[i].away then 0 else d),
           away := ps'[|ps'| - 1].away + (if s[i].away then d else 0))]
      && PeriodStates(s) == PeriodStates(s[..|s| - 1])
  {
  }

  /** Extending a single-state interval by time in the same state keeps it single-state. */
  lemma ExtendSingleState(last: Interval, away: bool, exit: Timestamp)
    requires SingleState(last, away)
    ensures var d := exit - last.exit;
      SingleState(last.(exit := exit, present := last.present + (if away then 0 else d),
        away := last.away + (if away then d else 0)), away)
  {
  }

  predicate AllSingleState(s: seq<Attendance>) {
    forall k :: 0 <= k < |Periods(s)| ==> SingleState(Periods(s)[k], PeriodStates(s)[k])
  }

  /** Each interval holds one state, and its time adds up to its length. */
  lemma {:induction false} PeriodsSingleState(s: seq<Attendance>)
    ensures forall k :: 0 <= k < |Periods(s)| ==> SingleState(Periods(s)[k], PeriodStates(s)[k])
    decreases |s|
  {
    if |s| > 2 {
      PeriodsSingleState(s[..|s| - 1]);
      if s[|s| - 2].away != s[|s| - 3].away {
        SingleStateAfterOpen(s);
      } else {
        SingleStateAfterExtend(s);
      }
    }
  }

  lemma SingleStateAfterOpen(s: seq<Attendance>)
    requires |s| > 2 && s[|s| - 2].away != s[|s| - 3].away
    requires AllSingleState(s[..|s| - 1])
    ensures AllSingleState(s)
  {
    var s' := s[..|s| - 1];
    var ps', st' := Periods(s'), PeriodStates(s');
    var ps, st := Periods(s), PeriodStates(s);
    PeriodsOpen(s);
    forall k | 0 <= k < |ps| ensures SingleState(ps[k], st[k]) {
      if k < |ps'| {
        assert ps[k] == ps'[k] && st[k] == st'[k];
      }
    }
  }

  lemma SingleStateAfterExtend(s: seq<Attendance>)
    requires |s| > 2 && s[|s| - 2].away == s[|s| - 3].away
    requires AllSingleState(s[..|s| - 1])
    ensures AllSingleState(s)
  {
    var s' := s[..|s| - 1];
    var i := |s| - 2;
    var ps', st' := Periods(s'), PeriodStates(s');
    var ps, st := Periods(s), PeriodStates(s);
    var n := |ps'|;
    PeriodsExtend(s);
    PeriodsContiguous(s');
    PeriodsLastState(s');
    var last := ps'[n - 1];
    assert last.exit == s[i].date && st'[n - 1] == s[i].away;
    var d := s[i + 1].date - s[i].date;
    var last' := last.(exit := s[i + 1].date, present := last.present + (if s[i].away then 0 else d),
      away := last.away + (if s[i].away then d else 0));
    ExtendSingleState(last, s[i].away, s[i + 1].date);
    assert ps == ps'[..n - 1] + [last'] && st == st';
    ReplaceLastSingleState(ps', st', last');
  }

  lemma ReplaceLastSingleState(ps: seq<Interval>, st: seq<bool>, last: Interval)
    requires |ps| == |st| > 0
    requires forall k :: 0 <= k < |ps| ==> SingleState(ps[k], st[k])
    requires SingleState(last, st[|st| - 1])
    ensures forall k :: 0 <= k < |ps| ==> SingleState((ps[..|ps| - 1] + [last])[k], st[k])
  {
  }

  /** Neighbouring intervals hold different states: a new interval opens
      exactly when the state changes. */
  lemma {:induction false} PeriodsAlternate(s: seq<Attendance>)
    ensures var ps, st := Periods(s), PeriodStates(s);
      forall k :: 0 <= k < |ps| - 1 ==> st[k] != st[k + 1]
    decreases |s|
  {
    if |s| > 2 {
      var s' := s[..|s| - 1];
      PeriodsAlternate(s');
      PeriodsLastState(s');
      var i := |s| - 2;
      var st', st := PeriodStates(s'), PeriodStates(s);
      if s[i].away != s[i - 1].away {
        assert st == st' + [s[i].away];
      }
    }
  }

  function SumPresent(ps: seq<Interval>): int {
    if ps == [] then 0 else SumPresent(ps[..|ps| - 1]) + ps[|ps| - 1].present
  }

  function SumAway(ps: seq<Interval>): int {
    if ps == [] then 0 else SumAway(ps[..|ps| - 1]) + ps[|ps| - 1].away
  }

  /** Merging keeps the totals: the intervals hold the same present and away
      time as the pairwise gaps, so together they span first to last event. */
  lemma {:induction false} PeriodsKeepTotals(s: seq<Attendance>)
    ensures SumPresent(Periods(s)) == PairSum(s, false)
    ensures SumAway(Periods(s)) == PairSum(s, true)
    ensures |s| >= 1 ==> SumPresent(Periods(s)) + SumAway(Periods(s)) == s[|s| - 1].date - s[0].date
    decreases |s|
  {
    if |s| >= 2 {
      var s' := s[..|s| - 1];
      PeriodsKeepTotals(s');
      var ps' := Periods(s');
      var ps := Periods(s);
      if !(ps' == [] || s[|s| - 2].away != s[|s| - 3].away) {
        var n := |ps'|;
        assert ps[..n - 1] == ps'[..n - 1];
        assert ps'[..n - 1][..n - 1] == ps'[..n - 1];
        assert SumPresent(ps') == SumPresent(ps'[..n - 1]) + ps'[n - 1].present;
        assert SumAway(ps') == SumAway(ps'[..n - 1]) + ps'[n - 1].away;
      } else {
        assert ps[..|ps| - 1] == ps';
      }
    }
    if |s| >= 1 {
      PairSumTelescopes(s);
    }
  }

  /** In chronological order no interval runs backwards, both amounts are
      non-negative, and an interval is present-only and of positive length
      exactly when its present time is positive (the `isPresent` test). */
  lemma PeriodsChronological(s: seq<Attendance>)
    requires Chronological(s)
    ensures var ps, st := Periods(s), PeriodStates(s);
      forall k :: 0 <= k < |ps| ==>
        && ps[k].entry <= ps[k].exit
        && ps[k].present >= 0 && ps[k].away >= 0
        && (ps[k].present > 0 <==> !st[k] && ps[k].entry < ps[k].exit)
  {
    PeriodsBounded(s);
    PeriodsSingleState(s);
  }

  /** Every interval lies between the first and the last event. */
  lemma {:induction false} PeriodsBounded(s: seq<Attendance>)
    requires Chronological(s)
    ensures var ps := Periods(s);
      forall k :: 0 <= k < |ps| ==> s[0].date <= ps[k].entry <= ps[k].exit <= s[|s| - 1].date
    decreases |s|
  {
    if |s| > 2 {
      var s' := s[..|s| - 1];
      assert Chronological(s');
      PeriodsBounded(s');
      PeriodsContiguous(s');
      assert DateOf(s[|s| - 2]) <= DateOf(s[|s| - 1]);
      assert DateOf(s[0]) <= DateOf(s[|s| - 2]);
    } else if |s| == 2 {
      assert DateOf(s[0]) <= DateOf(s[1]);
    }
  }

  // ---------------------------------------------------------------------
  // Shift windows
  // ---------------------------------------------------------------------

  /** `Math.max(startMin, shift.start)` .. `Math.min(endMin, shift.end)`: the
      minutes of the span from `startMin` to `endMin` that fall in a shift's
      window, counted only when positive. */
  function Overlap(startMin: int, endMin: int, sh: Shift): (r: int)
    ensures 0 <= r
  {
    var overlapStart := if startMin > Config(sh).start then startMin else Config(sh).start;
    var overlapEnd := if endMin < Config(sh).end then endMin else Config(sh).end;
    if overlapStart < overlapEnd then overlapEnd - overlapStart else 0
  }

  /** An overlap exceeds neither the span nor the window. */
  lemma OverlapBounds(startMin: int, endMin: int, sh: Shift)
    ensures Overlap(startMin, endMin, sh) <= Config(sh).end - Config(sh).start
    ensures Overlap(startMin, endMin, sh) <= if endMin > startMin then endMin - startMin else 0
  {
  }

  /** The minutes of the day a window credits: since the overlap is an end
      minus a start, a window acts as the half-open `[start, end)`. */
  predicate Credits(sh: Shift, m: int) {
    Config(sh).start <= m < Config(sh).end
  }

  /** How many minutes `m` with `startMin <= m < endMin` the window credits. */
  function CreditedMinutes(startMin: int, endMin: int, sh: Shift): nat
    decreases endMin - startMin
  {
    if endMin <= startMin then 0
    else CreditedMinutes(startMin, endMin - 1, sh) + (if Credits(sh, endMin - 1) then 1 else 0)
  }

  /** The overlap counts exactly the credited minutes of the span. */
  lemma {:induction false} OverlapCountsCreditedMinutes(startMin: int, endMin: int, sh: Shift)
    ensures Overlap(startMin, endMin, sh) == CreditedMinutes(startMin, endMin, sh)
    decreases endMin - startMin
  {
    if endMin > startMin {
      OverlapCountsCreditedMinutes(startMin, endMin - 1, sh);
    }
  }

  /** No minute is credited to two shifts. */
  lemma WindowsDisjoint(sh1: Shift, sh2: Shift, m: int)
    requires Credits(sh1, m) && Credits(sh2, m)
    ensures sh1 == sh2
  {
  }

  /** 11:59, 18:00, 23:59 and everything before 06:00 belong to no shift. */
  lemma UncreditedMinutes(sh: Shift)
    ensures !Credits(sh, 719) && !Credits(sh, 1080) && !Credits(sh, 1439)
    ensures forall m :: 0 <= m < 360 ==> !Credits(sh, m)
  {
  }

  /** The number of minutes of a span that some shift credits. */
  function CreditedByAny(startMin: int, endMin: int): nat
    decreases endMin - startMin
  {
    if endMin <= startMin then 0
    else
      CreditedByAny(startMin, endMin - 1)
        + (if Credits(Manha, endMin - 1) || Credits(Tarde, endMin - 1) || Credits(Noite, endMin - 1) then 1 else 0)
  }

  lemma {:induction false} CreditedMinutesAddUp(startMin: int, endMin: int)
    ensures CreditedMinutes(startMin, endMin, Manha) + CreditedMinutes(startMin, endMin, Tarde)
      + CreditedMinutes(startMin, endMin, Noite) == CreditedByAny(startMin, endMin)
    ensures CreditedByAny(startMin, endMin) <= if endMin > startMin then endMin - startMin else 0
    decreases endMin - startMin
  {
    if endMin > startMin {
      CreditedMinutesAddUp(startMin, endMin - 1);
    }
  }

  /** What one span credits, summed over the three shifts, never exceeds the
      span. */
  lemma OverlapsWithinSpan(startMin: int, endMin: int)
    ensures Overlap(startMin, endMin, Manha) + Overlap(startMin, endMin, Tarde)
      + Overlap(startMin, endMin, Noite) <= if endMin > startMin then endMin - startMin else 0
  {
    OverlapCountsCreditedMinutes(startMin, endMin, Manha);
    OverlapCountsCreditedMinutes(startMin, endMin, Tarde);
    OverlapCountsCreditedMinutes(startMin, endMin, Noite);
    CreditedMinutesAddUp(startMin, endMin);
  }

  // ---------------------------------------------------------------------
  // Per-shift accumulation
  // ---------------------------------------------------------------------

  /** What an interval credits to a shift: the overlap of its minutes of the
      day with the shift's window. */
  function Credit(p: Interval, sh: Shift): int {
    Overlap(MinutesOfDay(p.entry), MinutesOfDay(p.exit), sh)
  }

  /** `isPresent`: the interval holds present time. */
  predicate IsPresent(p: Interval) {
    p.present > 0
  }

  /** `shiftPresent[shift]`: the minutes credited to the shift by intervals
      that hold present time. */
  function ShiftPresent(ps: seq<Interval>, sh: Shift): (r: int)
    ensures r >= 0
  {
    if ps == [] then 0
    else ShiftPresent(ps[..|ps| - 1], sh) + (if IsPresent(ps[|ps| - 1]) then Credit(ps[|ps| - 1], sh) else 0)
  }

  /** `shiftAway[shift]`: the minutes credited to the shift by the other
      intervals. */
  function ShiftAway(ps: seq<Interval>, sh: Shift): (r: int)
    ensures r >= 0
  {
    if ps == [] then 0
    else ShiftAway(ps[..|ps| - 1], sh) + (if IsPresent(ps[|ps| - 1]) then 0 else Credit(ps[|ps| - 1], sh))
  }

  /** `activeShifts.has(shift)`: some interval overlaps the window positively. */
  predicate Active(ps: seq<Interval>, sh: Shift) {
    exists k :: 0 <= k < |ps| && Credit(ps[k], sh) > 0
  }

  /** A shift is active exactly when it was credited some time. */
  lemma {:induction false} ActiveIffCredited(ps: seq<Interval>, sh: Shift)
    ensures Active(ps, sh) <==> ShiftPresent(ps, sh) + ShiftAway(ps, sh) > 0
    decreases |ps|
  {
    if ps != [] {
      var ps' := ps[..|ps| - 1];
      ActiveIffCredited(ps', sh);
      ActiveStep(ps, sh);
    }
  }

  lemma ActiveStep(ps: seq<Interval>, sh: Shift)
    requires ps != []
    ensures Active(ps, sh) <==> Active(ps[..|ps| - 1], sh) || Credit(ps[|ps| - 1], sh) > 0
  {
    var ps' := ps[..|ps| - 1];
    if Active(ps, sh) && !(Credit(ps[|ps| - 1], sh) > 0) {
      var k :| 0 <= k < |ps| && Credit(ps[k], sh) > 0;
      assert ps'[k] == ps[k];
    }
    if Active(ps', sh) {
      var k :| 0 <= k < |ps'| && Credit(ps'[k], sh) > 0;
      assert ps[k] == ps'[k];
    }
  }

  /** The loops over the intervals and the shifts that fill `shiftPresent`,
      `shiftAway` and `activeShifts`. */
  method AccumulateShifts(periods: seq<Interval>)
    returns (shiftPresent: map<Shift, int>, shiftAway: map<Shift, int>, activeShifts: set<Shift>)
    ensures forall sh :: sh in shiftPresent && shiftPresent[sh] == ShiftPresent(periods, sh)
    ensures forall sh :: sh in shiftAway && shiftAway[sh] == ShiftAway(periods, sh)
    ensures forall sh :: sh in activeShifts <==> Active(periods, sh)
  {
    shiftPresent := map[Manha := 0, Tarde := 0, Noite := 0];
    shiftAway := map[Manha := 0, Tarde := 0, Noite := 0];
    activeShifts := {};
    forall sh: Shift ensures sh in shiftPresent && sh in shiftAway {
      assert sh == Manha || sh == Tarde || sh == Noite;
    }
    for k := 0 to |periods|
      invariant forall sh :: sh in shiftPresent && shiftPresent[sh] == ShiftPresent(periods[..k], sh)
      invariant forall sh :: sh in shiftAway && shiftAway[sh] == ShiftAway(periods[..k], sh)
      invariant forall sh :: sh in activeShifts <==> Active(periods[..k], sh)
    {
      ghost var done := periods[..k];
      var period := periods[k];
      assert periods[..k + 1][..k] == done && periods[..k + 1][k] == period;
      shiftPresent, shiftAway, activeShifts := CreditPeriod(period, shiftPresent, shiftAway, activeShifts);
      forall sh ensures Active(periods[..k + 1], sh) <==> Active(done, sh) || Credit(period, sh) > 0 {
        ActiveStep(periods[..k + 1], sh);
      }
    }
    assert periods[..|periods|] == periods;
  }

  /** The inner loop over `shiftsOrder` for one interval: every shift it
      overlaps positively becomes active and receives the overlap, as
      present time when the interval holds present time and as away time
      otherwise. */
  method CreditPeriod(period: Interval, present0: map<Shift, int>, away0: map<Shift, int>, active0: set<Shift>)
    returns (shiftPresent: map<Shift, int>, shiftAway: map<Shift, int>, activeShifts: set<Shift>)
    requires forall sh :: sh in present0 && sh in away0
    ensures forall sh :: sh in shiftPresent && sh in shiftAway
    ensures forall sh :: shiftPresent[sh] == present0[sh] + (if IsPresent(period) then Credit(period, sh) else 0)
    ensures forall sh :: shiftAway[sh] == away0[sh] + (if IsPresent(period) then 0 else Credit(period, sh))
    ensures forall sh :: sh in activeShifts <==> sh in active0 || Credit(period, sh) > 0
  {
    shiftPresent, shiftAway, activeShifts := present0, away0, active0;
    var periodStartMin := MinutesOfDay(period.entry);
    var periodEndMin := MinutesOfDay(period.exit);
    var isPresent := period.present > 0;
    for j := 0 to |ShiftsOrder|
      invariant shiftPresent == CreditedUpTo(present0, period, j, isPresent)
      invariant shiftAway == CreditedUpTo(away0, period, j, !isPresent)
      invariant activeShifts == ActiveUpTo(active0, period, j)
    {
      var shiftName := ShiftsOrder[j];
      var overlap := Overlap(periodStartMin, periodEndMin, shiftName);
      if overlap > 0 {
        activeShifts := activeShifts + {shiftName};
        if isPresent {
          shiftPresent := shiftPresent[shiftName := shiftPresent[shiftName] + overlap];
        } else {
          shiftAway := shiftAway[shiftName := shiftAway[shiftName] + overlap];
        }
      }
    }
    CreditedAll(present0, period, isPresent);
    CreditedAll(away0, period, !isPresent);
    ActiveAll(active0, period);
  }

  /** The counters after the first `j` shifts of the order have received
      the interval's credit (only when `counted`). */
  function CreditedUpTo(m0: map<Shift, int>, period: Interval, j: int, counted: bool): map<Shift, int>
    requires 0 <= j <= |ShiftsOrder|
  {
    if j == 0 then m0
    else
      var m := CreditedUpTo(m0, period, j - 1, counted);
      var sh := ShiftsOrder[j - 1];
      var c := Credit(period, sh);
      if c > 0 && counted then m[sh := (if sh in m then m[sh] else 0) + c] else m
  }

  /** The active set after the first `j` shifts of the order. */
  function ActiveUpTo(active0: set<Shift>, period: Interval, j: int): set<Shift>
    requires 0 <= j <= |ShiftsOrder|
  {
    if j == 0 then active0
    else
      var sh := ShiftsOrder[j - 1];
      ActiveUpTo(active0, period, j - 1) + (if Credit(period, sh) > 0 then {sh} else {})
  }

  lemma CreditedAll(m0: map<Shift, int>, period: Interval, counted: bool)
    requires forall sh :: sh in m0
    ensures var m := CreditedUpTo(m0, period, |ShiftsOrder|, counted);
      forall sh :: sh in m && m[sh] == m0[sh] + (if counted then Credit(period, sh) else 0)
  {
    assert CreditedUpTo(m0, period, 0, counted) == m0;
    var m1 := CreditedUpTo(m0, period, 1, counted);
    var m2 := CreditedUpTo(m0, period, 2, counted);
    var m3 := CreditedUpTo(m0, period, 3, counted);
    assert m1 == if Credit(period, Manha) > 0 && counted then m0[Manha := m0[Manha] + Credit(period, Manha)] else m0;
    assert m2 == if Credit(period, Tarde) > 0 && counted then m1[Tarde := m1[Tarde] + Credit(period, Tarde)] else m1;
    assert m3 == if Credit(period, Noite) > 0 && counted then m2[Noite := m2[Noite] + Credit(period, Noite)] else m2;
    forall sh ensures sh in m3 && m3[sh] == m0[sh] + (if counted then Credit(period, sh) else 0) {
      match sh
      case Manha =>
      case Tarde =>
      case Noite =>
    }
  }

  lemma ActiveAll(active0: set<Shift>, period: Interval)
    ensures forall sh :: sh in ActiveUpTo(active0, period, |ShiftsOrder|) <==> sh in active0 || Credit(period, sh) > 0
  {
    assert ActiveUpTo(active0, period, 0) == active0;
    var a1 := ActiveUpTo(active0, period, 1);
    var a2 := ActiveUpTo(active0, period, 2);
    var a3 := ActiveUpTo(active0, period, 3);
    assert a1 == active0 + if Credit(period, Manha) > 0 then {Manha} else {};
    assert a2 == a1 + if Credit(period, Tarde) > 0 then {Tarde} else {};
    assert a3 == a2 + if Credit(period, Noite) > 0 then {Noite} else {};
    forall sh ensures sh in a3 <==> sh in active0 || Credit(period, sh) > 0 {
      match sh
      case Manha =>
      case Tarde =>
      case Noite =>
    }
  }

  // ---------------------------------------------------------------------
  // Status of a shift record
  // ---------------------------------------------------------------------

  datatype ShiftStatus = Normal | Overtime | Suspicious | CheckinOnly | HighAbsence

  function StatusLabel(status: ShiftStatus): (s: string)
    ensures s != []
  {
    match status
    case CheckinOnly => "\U{1F504} Check-in"
    case Suspicious => "\U{26A0}\U{FE0F} Suspeito"
    case HighAbsence => "\U{274C} Alta aus\U{EA}ncia"
    case Overtime => "+HE"
    case Normal => "\U{2705}"
  }

  /** Each status has its own label: the label tells the status apart,
      already by its first character. */
  lemma StatusLabelInjective(a: ShiftStatus, b: ShiftStatus)
    ensures StatusLabel(a) == StatusLabel(b) <==> a == b
    ensures StatusLabel(a)[0] == StatusLabel(b)[0] <==> a == b
  {
    var first := (st: ShiftStatus) => StatusLabel(st)[0];
    assert first(CheckinOnly) == '\U{1F504}' && first(Suspicious) == '\U{26A0}';
    assert first(HighAbsence) == '\U{274C}' && first(Overtime) == '+' && first(Normal) == '\U{2705}';
    if StatusLabel(a) == StatusLabel(b) {
      assert first(a) == first(b);
    }
  }

  /** `(present / total) * 100 < 50`, for a positive total, is `2 * present < total`. */
  lemma BelowHalf(present: int, total: int)
    ensures total > 0 ==> ((present as real / total as real) * 100.0 < 50.0 <==> 2 * present < total)
  {
    if total > 0 {
      var t := total as real;
      var q := present as real / t;
      assert q * t == present as real;
      ScaleStrict(q, 0.5, t);
    }
  }

  /** Multiplying by a positive number keeps a strict order. */
  lemma ScaleStrict(a: real, b: real, c: real)
    requires c > 0.0
    ensures a < b <==> a * c < b * c
  {
    if a < b {
      assert (b - a) * c > 0.0;
    } else {
      assert (a - b) * c >= 0.0;
    }
  }

  /** `validateAndGetStatus`: the first rule that applies, in the order no
      time at all, under five minutes, availability under 50%, exit after the
      shift's overtime minute, and otherwise normal; with its label. The
      availability test `(present / total) * 100 < 50` is decided as
      `2 * present < total`, which BelowHalf shows to be the same test. */
  function ValidateAndGetStatus(presentMinutes: int, awayMinutes: int, sh: Shift, exitMinutes: int)
    : (r: (ShiftStatus, string))
    ensures r.1 == StatusLabel(r.0)
    ensures var total := presentMinutes + awayMinutes;
      && (r.0 == CheckinOnly <==> total == 0)
      && (r.0 == Suspicious <==> total != 0 && total < 5)
      && (r.0 == HighAbsence <==> total >= 5 && 2 * presentMinutes < total)
      && (r.0 == Overtime <==> total >= 5 && 2 * presentMinutes >= total && exitMinutes > Config(sh).overtimeAfter)
      && (r.0 == Normal <==> total >= 5 && 2 * presentMinutes >= total && exitMinutes <= Config(sh).overtimeAfter)
  {
    var total := presentMinutes + awayMinutes;
    var status :=
      if total == 0 then CheckinOnly
      else if total < 5 then Suspicious
      else if 2 * presentMinutes < total then HighAbsence
      else if exitMinutes > Config(sh).overtimeAfter then Overtime
      else Normal;
    (status, StatusLabel(status))
  }

  // ---------------------------------------------------------------------
  // Shift records
  // ---------------------------------------------------------------------

  /** One `ShiftPeriod`. `entry` and `exit` are the displayed instants, and
      the minutes are whole minutes of the day. */
  datatype ShiftPeriod = ShiftPeriod(
    idUser: string,
    name: string,
    email: string,
    day: int,
    shift: Shift,
    shiftIcon: string,
    entry: Timestamp,
    exit: Timestamp,
    entryFormatted: string,
    exitFormatted: string,
    presentMinutes: int,
    awayMinutes: int,
    presentFormatted: string,
    awayFormatted: string,
    availabilityPercent: int,
    status: ShiftStatus,
    statusLabel: string)

  /** The `eventsInShift` test: the event's minute of the day lies in the
      shift's window, both bounds included. */
  function InWindow(sh: Shift): Attendance -> bool {
    (rec: Attendance) => Config(sh).start <= MinutesOfDay(rec.date) <= Config(sh).end
  }

  /** The sorted events inside a shift's window, in order. */
  function EventsInShift(sorted: seq<Attendance>, sh: Shift): seq<Attendance> {
    Filter(sorted, InWindow(sh))
  }

  /** `total > 0 ? Math.round(present / total * 100) : 0`. */
  function ShiftAvailability(present: int, away: int): (r: int)
    requires present >= 0 && away >= 0
    ensures 0 <= r <= 100
    ensures present + away == 0 ==> r == 0
    ensures present + away > 0 ==>
      (2 * r - 1) * (present + away) <= 200 * present < (2 * r + 1) * (present + away)
  {
    if present + away > 0 then RoundPercent(present, present + away) else 0
  }

  /** `displayEntryRaw`: the first sorted event in the window or, when none
      is, the window's start on that day. It lies in the window. */
  function DisplayEntry(day: int, sorted: seq<Attendance>, sh: Shift): (t: Timestamp)
    ensures Config(sh).start <= MinutesOfDay(t) <= Config(sh).end
    ensures (exists i :: 0 <= i < |sorted| && InWindow(sh)(sorted[i])) ==>
      exists i :: 0 <= i < |sorted| && InWindow(sh)(sorted[i]) && t == sorted[i].date
        && forall j :: 0 <= j < i ==> !InWindow(sh)(sorted[j])
    ensures (forall i :: 0 <= i < |sorted| ==> !InWindow(sh)(sorted[i])) ==>
      t == DayStart(day) + 60 * Config(sh).start && DayOf(t) == day
  {
    var events := EventsInShift(sorted, sh);
    FilterEmpty(sorted, InWindow(sh));
    if |events| > 0 then
      FirstAndLastInWindow(sorted, sh);
      FilterFirst(sorted, InWindow(sh));
      events[0].date
    else
      MinutesOfDayAt(day, Config(sh).start);
      DayStart(day) + 60 * Config(sh).start
  }

  /** `displayExitRaw`: the last sorted event in the window or, when none is,
      the window's end on that day. It lies in the window. */
  function DisplayExit(day: int, sorted: seq<Attendance>, sh: Shift): (t: Timestamp)
    ensures Config(sh).start <= MinutesOfDay(t) <= Config(sh).end
    ensures (exists i :: 0 <= i < |sorted| && InWindow(sh)(sorted[i])) ==>
      exists i :: 0 <= i < |sorted| && InWindow(sh)(sorted[i]) && t == sorted[i].date
        && forall j :: i < j < |sorted| ==> !InWindow(sh)(sorted[j])
    ensures (forall i :: 0 <= i < |sorted| ==> !InWindow(sh)(sorted[i])) ==>
      t == DayStart(day) + 60 * Config(sh).end && DayOf(t) == day
  {
    var events := EventsInShift(sorted, sh);
    FilterEmpty(sorted, InWindow(sh));
    if |events| > 0 then
      FirstAndLastInWindow(sorted, sh);
      FilterLast(sorted, InWindow(sh));
      events[|events| - 1].date
    else
      MinutesOfDayAt(day, Config(sh).end);
      DayStart(day) + 60 * Config(sh).end
  }

  /** `exitMinutes`: the minute of the day of the last event in the window,
      or the window's end; it is the displayed exit's minute of the day. */
  function ExitMinutes(day: int, sorted: seq<Attendance>, sh: Shift): (m: int)
    ensures m == MinutesOfDay(DisplayExit(day, sorted, sh))
    ensures m <= Config(sh).end
  {
    var events := EventsInShift(sorted, sh);
    MinutesOfDayAt(day, Config(sh).end);
    if |events| > 0 then MinutesOfDay(events[|events| - 1].date) else Config(sh).end
  }

  lemma FirstAndLastInWindow(sorted: seq<Attendance>, sh: Shift)
    requires EventsInShift(sorted, sh) != []
    ensures var events := EventsInShift(sorted, sh);
      InWindow(sh)(events[0]) && InWindow(sh)(events[|events| - 1])
  {
    var events := EventsInShift(sorted, sh);
    FilterMembers(sorted, InWindow(sh));
    assert events[0] in events && events[|events| - 1] in events;
  }

  /** The record of one active shift: name and e-mail of the day's first
      event, the displayed entry and exit, the rounded availability, and the
      status of the minutes and of the exit's minute of the day. */
  function ShiftRecord(userId: string, day: int, sorted: seq<Attendance>, sh: Shift, present: int, away: int)
    : (r: ShiftPeriod)
    requires |sorted| > 0 && present >= 0 && away >= 0
    ensures r.idUser == userId && r.day == day && r.shift == sh
    ensures r.presentMinutes == present && r.awayMinutes == away
  {
    var cfg := Config(sh);
    var entry := DisplayEntry(day, sorted, sh);
    var exit := DisplayExit(day, sorted, sh);
    var validated := ValidateAndGetStatus(present, away, sh, ExitMinutes(day, sorted, sh));
    ShiftPeriod(
      userId, sorted[0].name, sorted[0].email, day, sh, cfg.icon,
      entry, exit, TimeText(MinutesOfDay(entry)), TimeText(MinutesOfDay(exit)),
      present, away, FormatMinutesLocal(present), FormatMinutesLocal(away),
      ShiftAvailability(present, away), validated.0, validated.1)
  }

  /** The status is decided on the displayed exit's minute of the day, which
      cannot pass the window's end: so only Noite, whose window ends after its
      overtime minute, can be overtime. */
  lemma ShiftRecordStatus(userId: string, day: int, sorted: seq<Attendance>, sh: Shift, present: int, away: int)
    requires |sorted| > 0 && present >= 0 && away >= 0
    ensures var r := ShiftRecord(userId, day, sorted, sh, present, away);
      && (r.status, r.statusLabel) == ValidateAndGetStatus(present, away, sh, MinutesOfDay(r.exit))
      && (r.status == Overtime ==> sh == Noite)
      && (r.status == CheckinOnly <==> present + away == 0)
  {
  }

  /** The shifts of `order` that had activity, in that order. */
  function ActiveShifts(ps: seq<Interval>, order: seq<Shift>): seq<Shift> {
    Filter(order, IsActive(ps))
  }

  /** The test `activeShifts.has(shiftName)`. */
  function IsActive(ps: seq<Interval>): Shift -> bool {
    sh => Active(ps, sh)
  }

  /** The record of each of `shifts`, with its accumulated minutes. */
  function RecordsOf(userId: string, day: int, sorted: seq<Attendance>, ps: seq<Interval>, shifts: seq<Shift>)
    : (rs: seq<ShiftPeriod>)
    requires |sorted| > 0
    ensures |rs| == |shifts|
    decreases |shifts|
  {
    if shifts == [] then []
    else
      var sh := shifts[|shifts| - 1];
      RecordsOf(userId, day, sorted, ps, shifts[..|shifts| - 1]) + [ShiftRecord(userId, day, sorted, sh, ShiftPresent(ps, sh), ShiftAway(ps, sh))]
  }

  /** The k-th record is the record of the k-th shift. */
  lemma {:induction false} RecordsOfAt(userId: string, day: int, sorted: seq<Attendance>, ps: seq<Interval>, shifts: seq<Shift>, k: int)
    requires |sorted| > 0 && 0 <= k < |shifts|
    ensures RecordsOf(userId, day, sorted, ps, shifts)[k] ==
      ShiftRecord(userId, day, sorted, shifts[k], ShiftPresent(ps, shifts[k]), ShiftAway(ps, shifts[k]))
    decreases |shifts|
  {
    if k < |shifts| - 1 {
      RecordsOfAt(userId, day, sorted, ps, shifts[..|shifts| - 1], k);
    }
  }

  /** Exactly the active shifts are listed, once each, in the order Manhã,
      Tarde, Noite. */
  lemma ActiveShiftsShape(ps: seq<Interval>)
    ensures forall sh :: sh in ActiveShifts(ps, ShiftsOrder) <==> Active(ps, sh)
    ensures forall k, l :: 0 <= k < l < |ActiveShifts(ps, ShiftsOrder)| ==>
      ShiftIndex(ActiveShifts(ps, ShiftsOrder)[k]) < ShiftIndex(ActiveShifts(ps, ShiftsOrder)[l])
  {
    var p := IsActive(ps);
    FilterMembers(ShiftsOrder, p);
    forall sh | Active(ps, sh) ensures sh in ActiveShifts(ps, ShiftsOrder) {
      FilterKeeps(ShiftsOrder, p, ShiftIndex(sh));
    }
    var key := (sh: Shift) => ShiftIndex(sh) as int;
    ShiftsOrderLists();
    FilterKeepsStrictOrder(ShiftsOrder, p, key);
  }

  /** A recorded shift carries its accumulated minutes, which are not both
      zero, so no record is `checkin_only`. */
  lemma RecordedShiftMinutes(userId: string, day: int, sorted: seq<Attendance>, ps: seq<Interval>, k: int)
    requires |sorted| > 0 && 0 <= k < |ActiveShifts(ps, ShiftsOrder)|
    ensures var sh := ActiveShifts(ps, ShiftsOrder)[k];
      var r := RecordsOf(userId, day, sorted, ps, ActiveShifts(ps, ShiftsOrder))[k];
      && r.shift == sh
      && r.presentMinutes == ShiftPresent(ps, sh) && r.awayMinutes == ShiftAway(ps, sh)
      && r.presentMinutes + r.awayMinutes > 0
      && r.status != CheckinOnly
  {
    var shs := ActiveShifts(ps, ShiftsOrder);
    var sh := shs[k];
    RecordsOfAt(userId, day, sorted, ps, shs, k);
    FilterMembers(ShiftsOrder, IsActive(ps));
    assert sh in shs;
    ActiveIffCredited(ps, sh);
    ShiftRecordStatus(userId, day, sorted, sh, ShiftPresent(ps, sh), ShiftAway(ps, sh));
  }

  // ---------------------------------------------------------------------
  // Daily summary
  // ---------------------------------------------------------------------

  /** One `DailySummary` of a user's day. */
  datatype DailySummary = DailySummary(
    idUser: string,
    name: string,
    email: string,
    day: int,
    shifts: seq<ShiftPeriod>,
    totalPresentMinutes: int,
    totalAwayMinutes: int,
    totalPresentFormatted: string,
    totalAwayFormatted: string,
    totalAvailabilityPercent: int)

  /** `shifts.reduce((sum, s) => sum + s.presentMinutes, 0)`. */
  function SumShiftPresent(rs: seq<ShiftPeriod>): int {
    if rs == [] then 0 else SumShiftPresent(rs[..|rs| - 1]) + rs[|rs| - 1].presentMinutes
  }

  /** `shifts.reduce((sum, s) => sum + s.awayMinutes, 0)`. */
  function SumShiftAway(rs: seq<ShiftPeriod>): int {
    if rs == [] then 0 else SumShiftAway(rs[..|rs| - 1]) + rs[|rs| - 1].awayMinutes
  }

  /** The shift records of a day, in the shift order. */
  function DayShifts(userId: string, day: int, sorted: seq<Attendance>): (rs: seq<ShiftPeriod>)
    requires |sorted| > 0
    ensures forall k :: 0 <= k < |rs| ==> rs[k].presentMinutes >= 0 && rs[k].awayMinutes >= 0
  {
    var ps := Periods(sorted);
    RecordsNonNegative(userId, day, sorted, ps, ActiveShifts(ps, ShiftsOrder));
    RecordsOf(userId, day, sorted, ps, ActiveShifts(ps, ShiftsOrder))
  }

  lemma RecordsNonNegative(userId: string, day: int, sorted: seq<Attendance>, ps: seq<Interval>, shifts: seq<Shift>)
    requires |sorted| > 0
    ensures forall k :: 0 <= k < |shifts| ==> RecordsOf(userId, day, sorted, ps, shifts)[k].presentMinutes >= 0
    ensures forall k :: 0 <= k < |shifts| ==> RecordsOf(userId, day, sorted, ps, shifts)[k].awayMinutes >= 0
  {
    forall k | 0 <= k < |shifts| ensures RecordsOf(userId, day, sorted, ps, shifts)[k].presentMinutes >= 0
      && RecordsOf(userId, day, sorted, ps, shifts)[k].awayMinutes >= 0
    {
      RecordsOfAt(userId, day, sorted, ps, shifts, k);
    }
  }

  /** The summary of one user's day, from the day's events in input order;
      `None` when the day has fewer than two events, so that no interval
      forms. */
  function DaySummaryOf(userId: string, day: int, dayRecords: seq<Attendance>): (r: Option<DailySummary>)
    ensures r.Some? <==> |dayRecords| >= 2
    ensures r.Some? ==> r.value.idUser == userId && r.value.day == day
  {
    var sorted := SortBy(dayRecords, DateOf);
    if |sorted| == 0 then None
    else if Periods(sorted) == [] then None
    else
      Some(DailyRollup(userId, day, sorted[0], DayShifts(userId, day, sorted)))
  }

  /** The day's summary over its shift records: name and e-mail of the first
      event, the records' minutes added up, formatted, and their rounded
      availability. */
  function DailyRollup(userId: string, day: int, first: Attendance, shifts: seq<ShiftPeriod>): (ds: DailySummary)
    requires forall k :: 0 <= k < |shifts| ==> shifts[k].presentMinutes >= 0 && shifts[k].awayMinutes >= 0
    ensures ds.idUser == userId && ds.day == day && ds.shifts == shifts
    ensures ds.totalPresentMinutes == SumShiftPresent(shifts) && ds.totalAwayMinutes == SumShiftAway(shifts)
  {
    var dailyPresent := SumShiftPresent(shifts);
    var dailyAway := SumShiftAway(shifts);
    SumsNonNegative(shifts);
    DailySummary(
      userId, first.name, first.email, day, shifts,
      dailyPresent, dailyAway, FormatMinutesLocal(dailyPresent), FormatMinutesLocal(dailyAway),
      ShiftAvailability(dailyPresent, dailyAway))
  }

  lemma {:induction false} SumsNonNegative(rs: seq<ShiftPeriod>)
    requires forall k :: 0 <= k < |rs| ==> rs[k].presentMinutes >= 0 && rs[k].awayMinutes >= 0
    ensures SumShiftPresent(rs) >= 0 && SumShiftAway(rs) >= 0
    decreases |rs|
  {
    if rs != [] {
      SumsNonNegative(rs[..|rs| - 1]);
    }
  }

  /** Visiting one more shift of the order adds it exactly when it is active. */
  lemma ActiveShiftsStep(ps: seq<Interval>, j: int)
    requires 0 <= j < |ShiftsOrder|
    ensures Active(ps, ShiftsOrder[j]) ==>
      ActiveShifts(ps, ShiftsOrder[..j + 1]) == ActiveShifts(ps, ShiftsOrder[..j]) + [ShiftsOrder[j]]
    ensures !Active(ps, ShiftsOrder[j]) ==>
      ActiveShifts(ps, ShiftsOrder[..j + 1]) == ActiveShifts(ps, ShiftsOrder[..j])
  {
    assert ShiftsOrder[..j + 1][..j] == ShiftsOrder[..j];
    var a := ActiveShifts(ps, ShiftsOrder[..j]);
    assert a + [] == a;
  }

  /** The records of a list of shifts, extended by one shift. */
  lemma RecordsOfAppend(userId: string, day: int, sorted: seq<Attendance>, ps: seq<Interval>, shs: seq<Shift>, sh: Shift)
    requires |sorted| > 0
    ensures RecordsOf(userId, day, sorted, ps, shs + [sh]) ==
      RecordsOf(userId, day, sorted, ps, shs) + [ShiftRecord(userId, day, sorted, sh, ShiftPresent(ps, sh), ShiftAway(ps, sh))]
  {
    assert (shs + [sh])[..|shs|] == shs;
  }

  /** The per-day body of `processAttendanceRecords`: sort the day's events,
      merge them into intervals, credit the shifts, emit one record per active
      shift in the order Manhã, Tarde, Noite, and roll them up. */
  method ProcessDay(userId: string, day: int, dayRecords: seq<Attendance>) returns (summary: Option<DailySummary>)
    ensures summary == DaySummaryOf(userId, day, dayRecords)
  {
    var sorted := SortBy(dayRecords, DateOf);
    if |sorted| == 0 {
      return None;
    }
    var rawPeriods := MergeIntervals(sorted);
    if |rawPeriods| == 0 {
      return None;
    }
    var shiftPresent, shiftAway, activeShifts := AccumulateShifts(rawPeriods);
    var shifts := BuildShiftPeriods(userId, day, sorted, rawPeriods, shiftPresent, shiftAway, activeShifts);
    assert shifts == DayShifts(userId, day, sorted);
    summary := Some(DailyRollup(userId, day, sorted[0], shifts));
  }

  /** Step 5 of `processAttendanceRecords`: one record per active shift, in
      the order Manhã, Tarde, Noite, from the accumulated minutes. */
  method BuildShiftPeriods(userId: string, day: int, sorted: seq<Attendance>, rawPeriods: seq<Interval>,
      shiftPresent: map<Shift, int>, shiftAway: map<Shift, int>, activeShifts: set<Shift>)
    returns (shifts: seq<ShiftPeriod>)
    requires |sorted| > 0
    requires forall sh :: sh in shiftPresent && shiftPresent[sh] == ShiftPresent(rawPeriods, sh)
    requires forall sh :: sh in shiftAway && shiftAway[sh] == ShiftAway(rawPeriods, sh)
    requires forall sh :: sh in activeShifts <==> Active(rawPeriods, sh)
    ensures shifts == RecordsOf(userId, day, sorted, rawPeriods, ActiveShifts(rawPeriods, ShiftsOrder))
  {
    shifts := [];
    for j := 0 to |ShiftsOrder|
      invariant shifts == RecordsOf(userId, day, sorted, rawPeriods, ActiveShifts(rawPeriods, ShiftsOrder[..j]))
    {
      var shiftName := ShiftsOrder[j];
      RecordsStep(userId, day, sorted, rawPeriods, j);
      if shiftName in activeShifts {
        shifts := shifts + [ShiftRecord(userId, day, sorted, shiftName, shiftPresent[shiftName], shiftAway[shiftName])];
      }
    }
    assert ShiftsOrder[..|ShiftsOrder|] == ShiftsOrder;
  }

  lemma RecordsStep(userId: string, day: int, sorted: seq<Attendance>, ps: seq<Interval>, j: int)
    requires |sorted| > 0 && 0 <= j < |ShiftsOrder|
    ensures var sh := ShiftsOrder[j];
      Active(ps, sh) ==>
        RecordsOf(userId, day, sorted, ps, ActiveShifts(ps, ShiftsOrder[..j + 1])) ==
          RecordsOf(userId, day, sorted, ps, ActiveShifts(ps, ShiftsOrder[..j]))
            + [ShiftRecord(userId, day, sorted, sh, ShiftPresent(ps, sh), ShiftAway(ps, sh))]
    ensures !Active(ps, ShiftsOrder[j]) ==>
      RecordsOf(userId, day, sorted, ps, ActiveShifts(ps, ShiftsOrder[..j + 1])) ==
        RecordsOf(userId, day, sorted, ps, ActiveShifts(ps, ShiftsOrder[..j]))
  {
    ActiveShiftsStep(ps, j);
    if Active(ps, ShiftsOrder[j]) {
      RecordsOfAppend(userId, day, sorted, ps, ActiveShifts(ps, ShiftsOrder[..j]), ShiftsOrder[j]);
    } else {
      assert ActiveShifts(ps, ShiftsOrder[..j + 1]) == ActiveShifts(ps, ShiftsOrder[..j]);
    }
  }

  /** The minutes (`present`) or away minutes (`!present`) accumulated for
      each of `shs`, added up. */
  function TotalOver(ps: seq<Interval>, shs: seq<Shift>, present: bool): int
    decreases |shs|
  {
    if shs == [] then 0
    else
      var sh := shs[|shs| - 1];
      TotalOver(ps, shs[..|shs| - 1], present) + if present then ShiftPresent(ps, sh) else ShiftAway(ps, sh)
  }

  /** The rolled-up sums of the records are the totals of their shifts. */
  lemma {:induction false} RecordsSum(userId: string, day: int, sorted: seq<Attendance>, ps: seq<Interval>, shs: seq<Shift>)
    requires |sorted| > 0
    ensures SumShiftPresent(RecordsOf(userId, day, sorted, ps, shs)) == TotalOver(ps, shs, true)
    ensures SumShiftAway(RecordsOf(userId, day, sorted, ps, shs)) == TotalOver(ps, shs, false)
    decreases |shs|
  {
    if shs != [] {
      var shs' := shs[..|shs| - 1];
      var sh := shs[|shs| - 1];
      RecordsSum(userId, day, sorted, ps, shs');
      var rec := ShiftRecord(userId, day, sorted, sh, ShiftPresent(ps, sh), ShiftAway(ps, sh));
      assert RecordsOf(userId, day, sorted, ps, shs) == RecordsOf(userId, day, sorted, ps, shs') + [rec];
      SumsAppend(RecordsOf(userId, day, sorted, ps, shs'), rec);
      assert rec.presentMinutes == ShiftPresent(ps, sh) && rec.awayMinutes == ShiftAway(ps, sh);
      assert TotalOver(ps, shs, true) == TotalOver(ps, shs', true) + ShiftPresent(ps, sh);
      assert TotalOver(ps, shs, false) == TotalOver(ps, shs', false) + ShiftAway(ps, sh);
    }
  }

  lemma SumsAppend(rs: seq<ShiftPeriod>, r: ShiftPeriod)
    ensures SumShiftPresent(rs + [r]) == SumShiftPresent(rs) + r.presentMinutes
    ensures SumShiftAway(rs + [r]) == SumShiftAway(rs) + r.awayMinutes
  {
    assert (rs + [r])[..|rs|] == rs;
  }

  /** Leaving out the inactive shifts leaves the totals as they are, since an
      inactive shift was credited nothing. */
  lemma {:induction false} InactiveAddNothing(ps: seq<Interval>, shs: seq<Shift>, present: bool)
    ensures TotalOver(ps, ActiveShifts(ps, shs), present) == TotalOver(ps, shs, present)
    decreases |shs|
  {
    if shs != [] {
      var shs' := shs[..|shs| - 1];
      var sh := shs[|shs| - 1];
      InactiveAddNothing(ps, shs', present);
      if Active(ps, sh) {
        var a := ActiveShifts(ps, shs);
        assert a[..|a| - 1] == ActiveShifts(ps, shs');
      } else {
        ActiveIffCredited(ps, sh);
        assert ActiveShifts(ps, shs) == ActiveShifts(ps, shs');
      }
    }
  }

  /** The day's totals are what the three shifts were credited, presence and
      absence apart; its availability rounds their ratio, or is 0 when nothing
      was credited. */
  lemma DailyTotals(userId: string, day: int, dayRecords: seq<Attendance>)
    requires |dayRecords| >= 2
    ensures var ps := Periods(SortBy(dayRecords, DateOf));
      var ds := DaySummaryOf(userId, day, dayRecords).value;
      && ds.totalPresentMinutes == ShiftPresent(ps, Manha) + ShiftPresent(ps, Tarde) + ShiftPresent(ps, Noite)
      && ds.totalAwayMinutes == ShiftAway(ps, Manha) + ShiftAway(ps, Tarde) + ShiftAway(ps, Noite)
      && ds.totalAvailabilityPercent == ShiftAvailability(ds.totalPresentMinutes, ds.totalAwayMinutes)
      && ds.shifts == DayShifts(userId, day, SortBy(dayRecords, DateOf))
  {
    var sorted := SortBy(dayRecords, DateOf);
    var ps := Periods(sorted);
    var shs := ActiveShifts(ps, ShiftsOrder);
    RecordsSum(userId, day, sorted, ps, shs);
    InactiveAddNothing(ps, ShiftsOrder, true);
    InactiveAddNothing(ps, ShiftsOrder, false);
    TotalOverAll(ps, true);
    TotalOverAll(ps, false);
  }

  lemma TotalOverAll(ps: seq<Interval>, present: bool)
    ensures TotalOver(ps, ShiftsOrder, present) == if present
      then ShiftPresent(ps, Manha) + ShiftPresent(ps, Tarde) + ShiftPresent(ps, Noite)
      else ShiftAway(ps, Manha) + ShiftAway(ps, Tarde) + ShiftAway(ps, Noite)
  {
    assert ShiftsOrder[..2] == [Manha, Tarde];
    assert [Manha, Tarde][..1] == [Manha];
    assert [Manha][..0] == [];
  }

  // ---------------------------------------------------------------------
  // All users and days
  // ---------------------------------------------------------------------

  /** The keys of `byDate`, in the order `Object.entries` lists them. */
  function Days(userRecords: seq<Attendance>): seq<int> {
    KeysInOrder(userRecords, DayKeyOf)
  }

  /** A day's summary as a list of none or one. */
  function Listed(o: Option<DailySummary>): seq<DailySummary> {
    if o.Some? then [o.value] else []
  }

  /** The summaries one user's `days` push, in that order. */
  function UserDailies(userId: string, userRecords: seq<Attendance>, days: seq<int>): seq<DailySummary>
    decreases |days|
  {
    if days == [] then []
    else
      var d := days[|days| - 1];
      UserDailies(userId, userRecords, days[..|days| - 1]) + Listed(DaySummaryOf(userId, d, DayGroup(userRecords, d)))
  }

  /** `allDailySummaries` once the users `users` have been processed. */
  function Dailies(records: seq<Attendance>, users: seq<string>): seq<DailySummary>
    decreases |users|
  {
    if users == [] then []
    else
      var u := users[|users| - 1];
      Dailies(records, users[..|users| - 1]) + UserDailies(u, Group(records, u), Days(Group(records, u)))
  }

  function SummaryDay(ds: DailySummary): int {
    ds.day
  }

  /** What `processAttendanceRecords(records)` returns. */
  function ProcessedRecords(records: seq<Attendance>): seq<DailySummary> {
    SortBy(Dailies(records, Users(records)), SummaryDay)
  }

  /** `processAttendanceRecords`: group by user and then by day, summarise
      every day, and sort the summaries by day. */
  method ProcessAttendanceRecords(records: seq<Attendance>) returns (result: seq<DailySummary>)
    ensures result == ProcessedRecords(records)
  {
    var userOrder, byUser := GroupBy(records, UserOf);
    var allDailySummaries: seq<DailySummary> := [];
    for i := 0 to |userOrder|
      invariant allDailySummaries == Dailies(records, userOrder[..i])
    {
      var userId := userOrder[i];
      assert userId in byUser;
      var userRecords := byUser[userId];
      assert userRecords == Group(records, userId);
      DailiesNext(records, userOrder, i);
      allDailySummaries := ProcessUser(userId, userRecords, allDailySummaries);
    }
    assert userOrder[..|userOrder|] == userOrder;
    result := SortBy(allDailySummaries, SummaryDay);
  }

  /** Visiting one more user appends that user's summaries. */
  lemma DailiesNext(records: seq<Attendance>, users: seq<string>, i: int)
    requires 0 <= i < |users|
    ensures Dailies(records, users[..i + 1]) ==
      Dailies(records, users[..i]) + UserDailies(users[i], Group(records, users[i]), Days(Group(records, users[i])))
  {
    assert users[..i + 1][..i] == users[..i];
  }

  /** The body of the loop over the users: group one user's events by day and
      push the summary of every day that has one. */
  method ProcessUser(userId: string, userRecords: seq<Attendance>, all0: seq<DailySummary>)
    returns (allDailySummaries: seq<DailySummary>)
    ensures allDailySummaries == all0 + UserDailies(userId, userRecords, Days(userRecords))
  {
    var dateOrder, byDate := GroupBy(userRecords, DayKeyOf);
    allDailySummaries := PushDays(userId, userRecords, dateOrder, byDate, all0);
  }

  /** The loop over `Object.entries(byDate)`. */
  method PushDays(userId: string, userRecords: seq<Attendance>, dateOrder: seq<int>, byDate: map<int, seq<Attendance>>,
      all0: seq<DailySummary>)
    returns (allDailySummaries: seq<DailySummary>)
    requires forall d :: d in dateOrder ==> d in byDate && byDate[d] == DayGroup(userRecords, d)
    ensures allDailySummaries == all0 + UserDailies(userId, userRecords, dateOrder)
  {
    allDailySummaries := all0;
    for j := 0 to |dateOrder|
      invariant allDailySummaries == all0 + UserDailies(userId, userRecords, dateOrder[..j])
    {
      var dateOnly := dateOrder[j];
      var summary := ProcessDay(userId, dateOnly, byDate[dateOnly]);
      PushDayStep(userId, userRecords, dateOrder, j, all0, summary);
      if summary.Some? {
        allDailySummaries := allDailySummaries + [summary.value];
      }
    }
    assert dateOrder[..|dateOrder|] == dateOrder;
  }

  /** Pushing the summary of day `j`, if it has one, extends the summaries to one more day. */
  lemma PushDayStep(userId: string, userRecords: seq<Attendance>, days: seq<int>, j: int,
      all0: seq<DailySummary>, summary: Option<DailySummary>)
    requires 0 <= j < |days|
    requires summary == DaySummaryOf(userId, days[j], DayGroup(userRecords, days[j]))
    ensures summary.Some? ==>
      all0 + UserDailies(userId, userRecords, days[..j + 1]) == (all0 + UserDailies(userId, userRecords, days[..j])) + [summary.value]
    ensures summary.None? ==>
      all0 + UserDailies(userId, userRecords, days[..j + 1]) == all0 + UserDailies(userId, userRecords, days[..j])
  {
    UserDailiesNext(userId, userRecords, days, j);
    ListedAppend(all0, UserDailies(userId, userRecords, days[..j]), summary);
  }

  /** Visiting one more day pushes that day's summary, if it has one. */
  lemma UserDailiesNext(userId: string, userRecords: seq<Attendance>, days: seq<int>, j: int)
    requires 0 <= j < |days|
    ensures UserDailies(userId, userRecords, days[..j + 1]) ==
      UserDailies(userId, userRecords, days[..j]) + Listed(DaySummaryOf(userId, days[j], DayGroup(userRecords, days[j])))
  {
    assert days[..j + 1][..j] == days[..j];
  }

  lemma ListedAppend(all0: seq<DailySummary>, x: seq<DailySummary>, o: Option<DailySummary>)
    ensures o.Some? ==> all0 + (x + Listed(o)) == (all0 + x) + [o.value]
    ensures o.None? ==> all0 + (x + Listed(o)) == all0 + x
  {
    assert x + [] == x;
  }

  /** The summaries come out sorted by day, as a permutation of those pushed,
      and the summaries of one day keep the order in which they were pushed
      (the sort is stable). */
  lemma ProcessedOrder(records: seq<Attendance>, d: int)
    ensures SortedBy(ProcessedRecords(records), SummaryDay)
    ensures multiset(ProcessedRecords(records)) == multiset(Dailies(records, Users(records)))
    ensures Filter(ProcessedRecords(records), Is(SummaryDay, d)) == Filter(Dailies(records, Users(records)), Is(SummaryDay, d))
  {
    SortByIsSorted(Dailies(records, Users(records)), SummaryDay);
    SortByIsStable(Dailies(records, Users(records)), SummaryDay, d);
  }

  /** Every summary a user's days push is the summary of its own day. */
  lemma {:induction false} UserDailiesMembers(userId: string, userRecords: seq<Attendance>, days: seq<int>)
    ensures forall ds :: ds in UserDailies(userId, userRecords, days) ==>
      ds.idUser == userId && ds.day in days && DaySummaryOf(userId, ds.day, DayGroup(userRecords, ds.day)) == Some(ds)
    decreases |days|
  {
    if days != [] {
      UserDailiesMembers(userId, userRecords, days[..|days| - 1]);
    }
  }

  lemma {:induction false} DailiesMembers(records: seq<Attendance>, users: seq<string>)
    ensures forall ds :: ds in Dailies(records, users) ==>
      ds.idUser in users && DaySummaryOf(ds.idUser, ds.day, DayGroup(Group(records, ds.idUser), ds.day)) == Some(ds)
    decreases |users|
  {
    if users != [] {
      var u := users[|users| - 1];
      DailiesMembers(records, users[..|users| - 1]);
      UserDailiesMembers(u, Group(records, u), Days(Group(records, u)));
    }
  }

  /** Every summary returned is the summary of its user's events on its day. */
  lemma ProcessedSummariesAreTheirDays(records: seq<Attendance>)
    ensures forall ds :: ds in ProcessedRecords(records) ==>
      DaySummaryOf(ds.idUser, ds.day, DayGroup(Group(records, ds.idUser), ds.day)) == Some(ds)
  {
    DailiesMembers(records, Users(records));
    forall ds | ds in ProcessedRecords(records)
      ensures DaySummaryOf(ds.idUser, ds.day, DayGroup(Group(records, ds.idUser), ds.day)) == Some(ds)
    {
      assert ds in multiset(ProcessedRecords(records));
    }
  }

  /** The test "the summary of user `u` on day `d`". */
  function UserDay(u: string, d: int): DailySummary -> bool {
    (ds: DailySummary) => ds.idUser == u && ds.day == d
  }

  lemma {:induction false} UserDailiesCount(userId: string, userRecords: seq<Attendance>, days: seq<int>, u: string, d: int)
    requires forall i, j :: 0 <= i < j < |days| ==> days[i] != days[j]
    ensures |Filter(UserDailies(userId, userRecords, days), UserDay(u, d))| ==
      if userId == u && d in days && |DayGroup(userRecords, d)| >= 2 then 1 else 0
    decreases |days|
  {
    if days != [] {
      var days' := days[..|days| - 1];
      var last := days[|days| - 1];
      UserDailiesCount(userId, userRecords, days', u, d);
      var o := DaySummaryOf(userId, last, DayGroup(userRecords, last));
      FilterAppend(UserDailies(userId, userRecords, days'), Listed(o), UserDay(u, d));
      DistinctLast(days);
    }
  }

  lemma {:induction false} DailiesCount(records: seq<Attendance>, users: seq<string>, u: string, d: int)
    requires forall i, j :: 0 <= i < j < |users| ==> users[i] != users[j]
    ensures |Filter(Dailies(records, users), UserDay(u, d))| ==
      if u in users && d in Days(Group(records, u)) && |DayGroup(Group(records, u), d)| >= 2 then 1 else 0
    decreases |users|
  {
    if users != [] {
      var users' := users[..|users| - 1];
      var last := users[|users| - 1];
      DailiesCount(records, users', u, d);
      UserDailiesCount(last, Group(records, last), Days(Group(records, last)), u, d);
      FilterAppend(Dailies(records, users'), UserDailies(last, Group(records, last), Days(Group(records, last))), UserDay(u, d));
      DistinctLast(users);
    }
  }

  /** A user and a day with at least one event are among the groups. */
  lemma GroupsOfAnEvent(records: seq<Attendance>, u: string, d: int)
    requires |DayGroup(Group(records, u), d)| > 0
    ensures u in Users(records) && d in Days(Group(records, u))
  {
    var g := Group(records, u);
    var x := DayGroup(g, d)[0];
    FilterMembers(g, Is(DayKeyOf, d));
    FilterMembers(records, Is(UserOf, u));
    assert x in g && x in records;
    var i :| 0 <= i < |g| && g[i] == x;
    var k :| 0 <= k < |records| && records[k] == x;
  }

  /** Exactly one summary per user and day that has at least two events, and
      none for any other user and day. */
  lemma OneSummaryPerUserDay(records: seq<Attendance>, u: string, d: int)
    ensures |Filter(ProcessedRecords(records), UserDay(u, d))| ==
      if |DayGroup(Group(records, u), d)| >= 2 then 1 else 0
  {
    SortByCount(Dailies(records, Users(records)), SummaryDay, UserDay(u, d));
    DailiesCount(records, Users(records), u, d);
    if |DayGroup(Group(records, u), d)| >= 2 {
      GroupsOfAnEvent(records, u, d);
    }
  }

  /** No returned shift record is `checkin_only`, and only Noite records can
      be overtime. */
  lemma ProcessedShiftStatuses(records: seq<Attendance>)
    ensures forall ds, r :: ds in ProcessedRecords(records) && r in ds.shifts ==>
      r.status != CheckinOnly && (r.status == Overtime ==> r.shift == Noite)
  {
    ProcessedSummariesAreTheirDays(records);
    forall ds, r | ds in ProcessedRecords(records) && r in ds.shifts
      ensures r.status != CheckinOnly && (r.status == Overtime ==> r.shift == Noite)
    {
      var dayRecords := DayGroup(Group(records, ds.idUser), ds.day);
      var sorted := SortBy(dayRecords, DateOf);
      var ps := Periods(sorted);
      DailyTotals(ds.idUser, ds.day, dayRecords);
      var k :| 0 <= k < |ds.shifts| && ds.shifts[k] == r;
      RecordedShiftMinutes(ds.idUser, ds.day, sorted, ps, k);
      RecordsOfAt(ds.idUser, ds.day, sorted, ps, ActiveShifts(ps, ShiftsOrder), k);
      ShiftRecordStatus(ds.idUser, ds.day, sorted, r.shift, ShiftPresent(ps, r.shift), ShiftAway(ps, r.shift));
    }
  }
}
