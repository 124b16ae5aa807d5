/** The global summary behind the overview dashboard (`calculateAttendance`):
    per user, the events in chronological order, compacted to one per minute,
    turned into a timeline of entries and exits with the gap to the next event,
    with present and away totals, the current status and an availability
    percentage; and the `formatMinutes` duration text. */
module Calculations {
  import opened Options
  import opened Text
  import opened Clock
  import opened Collections
  import opened Intercom

  // ---------------------------------------------------------------------
  // formatMinutes
  // ---------------------------------------------------------------------

  /** `Math.round(x)`: the nearest integer, halves rounded up. */
  function Round(x: real): (r: int)
    ensures r as real - 0.5 <= x < r as real + 0.5
  {
    (x + 0.5).Floor
  }

  /** A whole number rounds to itself. */
  lemma RoundWhole(n: int)
    ensures Round(n as real) == n
  {
  }

  /** `h > 0 ? "${h}h ${m}m" : "${m}m"` with `h = floor(total / 60)`, `m = total % 60`. */
  function HoursMinutesText(total: nat): (s: string)
    ensures |s| >= 2 && s[|s| - 1] == 'm'
    ensures 'h' in s <==> total >= 60
  {
    var h := total / 60;
    var m := total % 60;
    DigitsHaveNo(NatToString(h), 'h');
    DigitsHaveNo(NatToString(m), 'h');
    DigitsHaveNo(NatToString(m), 'm');
    if h > 0 then
      var s := NatToString(h) + "h " + NatToString(m) + "m";
      assert s[|NatToString(h)|] == 'h';
      s
    else
      var s := NatToString(m) + "m";
      assert forall i :: 0 <= i < |s| ==> s[i] != 'h';
      s
  }

  /** `formatMinutes(minutes)`: `"0m"` for `null`/`undefined` (`None`), zero
      or a negative number; otherwise the minutes rounded to a whole number
      first and then split into hours and minutes. */
  function FormatMinutes(minutes: Option<real>): (s: string)
    ensures minutes.None? || minutes.value <= 0.0 ==> s == "0m"
  {
    if minutes.None? || minutes.value <= 0.0 then "0m"
    else HoursMinutesText(Round(minutes.value))
  }

  /** Reads a duration text back: `"Hh Mm"` or `"Mm"`, digits only in the
      fields, into its hour and minute fields. */
  function ReadHoursMinutes(s: string): Option<(nat, nat)> {
    if |s| < 2 || s[|s| - 1] != 'm' then None
    else
      var body := s[..|s| - 1];
      var i := IndexOf(body, 'h');
      if i == |body| then
        (if AllDigits(body) && body != [] then Some((0, DigitsValue(body))) else None)
      else
        var hours := body[..i];
        var rest := body[i + 1..];
        if hours != [] && AllDigits(hours) && |rest| >= 2 && rest[0] == ' ' && AllDigits(rest[1..])
        then Some((DigitsValue(hours), DigitsValue(rest[1..])))
        else None
  }

  lemma ReadHoursMinutesText(total: nat)
    ensures ReadHoursMinutes(HoursMinutesText(total)) == Some((total / 60, total % 60))
  {
    var h := total / 60;
    var m := total % 60;
    DigitsValueOfNatToString(h);
    DigitsValueOfNatToString(m);
    if h > 0 {
      ReadHoursAndMinutes(NatToString(h), NatToString(m));
    } else {
      ReadMinutesOnly(NatToString(m));
    }
  }

  lemma ReadHoursAndMinutes(hs: string, ms: string)
    requires hs != [] && AllDigits(hs) && ms != [] && AllDigits(ms)
    ensures ReadHoursMinutes(hs + "h " + ms + "m") == Some((DigitsValue(hs), DigitsValue(ms)))
  {
    var s := hs + "h " + ms + "m";
    var body := hs + ['h'] + (" " + ms);
    assert s[..|s| - 1] == body;
    DigitsHaveNo(hs, 'h');
    IndexOfAfter(hs, " " + ms, 'h');
    assert (" " + ms)[1..] == ms;
  }

  lemma ReadMinutesOnly(ms: string)
    requires ms != [] && AllDigits(ms)
    ensures ReadHoursMinutes(ms + "m") == Some((0, DigitsValue(ms)))
  {
    var s := ms + "m";
    assert s[..|s| - 1] == ms;
    assert 'h' !in ms by {
      assert forall j :: 0 <= j < |ms| ==> IsDigit(ms[j]);
    }
  }

  /** The duration text reads back as whole hours and a minute field below 60
      that together make the rounded number of minutes ("7h 60m" cannot occur);
      `"0m"` reads back as zero. */
  lemma FormatMinutesReadsBack(minutes: Option<real>)
    ensures var total := if minutes.None? || minutes.value <= 0.0 then 0 else Round(minutes.value);
      exists h: nat, m: nat :: ReadHoursMinutes(FormatMinutes(minutes)) == Some((h, m))
        && m < 60 && h * 60 + m == total
  {
    if minutes.None? || minutes.value <= 0.0 {
      ReadHoursMinutesText(0);
      assert HoursMinutesText(0) == "0m";
    } else {
      var total := Round(minutes.value);
      ReadHoursMinutesText(total);
      assert ReadHoursMinutes(FormatMinutes(minutes)) == Some((total / 60, total % 60));
    }
  }

  // ---------------------------------------------------------------------
  // Minute compaction
  // ---------------------------------------------------------------------

  /** `a.date.slice(0, 16) === b.date.slice(0, 16)`: both fall in the same
      `YYYY-MM-DDTHH:MM` (MinuteKeyMatchesMinute ties the two readings). */
  predicate SameMinuteKey(a: Attendance, b: Attendance) {
    MinuteOf(a.date) == MinuteOf(b.date)
  }

  /** Position `j` survives compaction: it is the last event, or the next
      event falls in another minute. */
  predicate KeptAt(s: seq<Attendance>, j: int)
    requires 0 <= j < |s|
  {
    j == |s| - 1 || !SameMinuteKey(s[j], s[j + 1])
  }

  /** The events that survive compaction, read left to right: each one whose
      successor falls in another minute, and the last. */
  function LastOfEachMinute(s: seq<Attendance>): (c: seq<Attendance>)
    ensures |c| <= |s|
    ensures s != [] ==> c != [] && c[|c| - 1] == s[|s| - 1]
    decreases |s|
  {
    if |s| <= 1 then s
    else (if SameMinuteKey(s[0], s[1]) then [] else [s[0]]) + LastOfEachMinute(s[1..])
  }

  /** The minute key of the ISO texts agrees with MinuteOf whenever the date
      text tells days apart: two 16-character prefixes are equal exactly when
      the instants share a minute. */
  lemma MinuteKeyMatchesMinute(d1: string, t1: Timestamp, d2: string, t2: Timestamp)
    requires |d1| == 10 && |d2| == 10
    requires d1 == d2 <==> DayOf(t1) == DayOf(t2)
    ensures IsoText(d1, t1)[..16] == IsoText(d2, t2)[..16] <==> MinuteOf(t1) == MinuteOf(t2)
  {
    IsoTextSlices(d1, t1);
    IsoTextSlices(d2, t2);
    SameMinute(t1, t2);
    TimeTextInjective(MinutesOfDay(t1), MinutesOfDay(t2));
    if IsoText(d1, t1)[..16] == IsoText(d2, t2)[..16] {
      assert IsoText(d1, t1)[..16][..10] == d1;
      assert IsoText(d2, t2)[..16][..10] == d2;
      assert IsoText(d1, t1)[..16][11..] == TimeText(MinutesOfDay(t1));
      assert IsoText(d2, t2)[..16][11..] == TimeText(MinutesOfDay(t2));
    }
  }

  /** Appending an event to the input: it replaces the last kept event when
      both share a minute, and is added after it otherwise. */
  lemma LastOfEachMinuteAppend(p: seq<Attendance>, x: Attendance)
    ensures p == [] ==> LastOfEachMinute(p + [x]) == [x]
    ensures p != [] && SameMinuteKey(p[|p| - 1], x) ==>
      LastOfEachMinute(p + [x]) == LastOfEachMinute(p)[..|LastOfEachMinute(p)| - 1] + [x]
    ensures p != [] && !SameMinuteKey(p[|p| - 1], x) ==> LastOfEachMinute(p + [x]) == LastOfEachMinute(p) + [x]
  {
    if p == [] {
      assert p + [x] == [x];
    } else if SameMinuteKey(p[|p| - 1], x) {
      AppendSameMinute(p, x);
    } else {
      AppendOtherMinute(p, x);
    }
  }

  /** An event in the minute of the last one replaces it. */
  lemma {:induction false} AppendSameMinute(p: seq<Attendance>, x: Attendance)
    requires p != [] && SameMinuteKey(p[|p| - 1], x)
    ensures LastOfEachMinute(p + [x]) == LastOfEachMinute(p)[..|LastOfEachMinute(p)| - 1] + [x]
    decreases |p|
  {
    if |p| == 1 {
      assert (p + [x])[1..] == [x];
    } else {
      var q := (p + [x])[1..];
      assert q == p[1..] + [x];
      assert p[1..][|p[1..]| - 1] == p[|p| - 1];
      AppendSameMinute(p[1..], x);
      var head := if SameMinuteKey(p[0], p[1]) then [] else [p[0]];
      var rest := LastOfEachMinute(p[1..]);
      assert LastOfEachMinute(p + [x]) == head + LastOfEachMinute(q);
      assert LastOfEachMinute(p) == head + rest;
      ReplaceLastAfterPrefix(head, rest, x);
    }
  }

  lemma ReplaceLastAfterPrefix<T>(head: seq<T>, rest: seq<T>, x: T)
    requires rest != []
    ensures (head + rest)[..|head + rest| - 1] + [x] == head + (rest[..|rest| - 1] + [x])
  {
    assert (head + rest)[..|head + rest| - 1] == head + rest[..|rest| - 1];
  }

  /** An event in another minute than the last one is kept after it. */
  lemma {:induction false} AppendOtherMinute(p: seq<Attendance>, x: Attendance)
    requires p != [] && !SameMinuteKey(p[|p| - 1], x)
    ensures LastOfEachMinute(p + [x]) == LastOfEachMinute(p) + [x]
    decreases |p|
  {
    if |p| == 1 {
      assert (p + [x])[1..] == [x];
    } else {
      var q := (p + [x])[1..];
      assert q == p[1..] + [x];
      assert p[1..][|p[1..]| - 1] == p[|p| - 1];
      AppendOtherMinute(p[1..], x);
      var head := if SameMinuteKey(p[0], p[1]) then [] else [p[0]];
      var rest := LastOfEachMinute(p[1..]);
      assert LastOfEachMinute(p + [x]) == head + LastOfEachMinute(q);
      assert LastOfEachMinute(p) == head + rest;
      assert (head + rest) + [x] == head + (rest + [x]);
    }
  }

  /** The loop over the sorted events: push each one, or overwrite the last
      slot when it falls in the same minute as the event already there. */
  method CompactByMinute(sorted: seq<Attendance>) returns (compacted: seq<Attendance>)
    ensures compacted == LastOfEachMinute(sorted)
  {
    compacted := [];
    for i := 0 to |sorted|
      invariant compacted == LastOfEachMinute(sorted[..i])
    {
      var rec := sorted[i];
      ghost var p := sorted[..i];
      assert sorted[..i + 1] == p + [rec];
      LastOfEachMinuteAppend(p, rec);
      if |compacted| > 0 && SameMinuteKey(compacted[|compacted| - 1], rec) {
        assert p != [] && compacted[|compacted| - 1] == p[|p| - 1];
        compacted := compacted[..|compacted| - 1] + [rec];
      } else {
        assert p != [] ==> compacted[|compacted| - 1] == p[|p| - 1];
        compacted := compacted + [rec];
      }
    }
    assert sorted[..|sorted|] == sorted;
  }

  /** Compaction only leaves events out; it never reorders or invents them. */
  lemma {:induction false} LastOfEachMinuteIsSubsequence(s: seq<Attendance>)
    ensures IsSubsequence(LastOfEachMinute(s), s)
    decreases |s|
  {
    if |s| <= 1 {
      IsSubsequenceReflexive(s);
    } else {
      LastOfEachMinuteIsSubsequence(s[1..]);
      var c := LastOfEachMinute(s);
      var r := LastOfEachMinute(s[1..]);
      assert r != [];
      if !SameMinuteKey(s[0], s[1]) {
        assert c[0] == s[0] && c[1..] == r;
      } else {
        assert c == r && c != [];
        assert IsSubsequence(c, s[1..]);
      }
    }
  }

  /** An event is kept exactly when KeptAt says so. */
  lemma {:induction false} LastOfEachMinuteMembers(s: seq<Attendance>)
    ensures forall j :: 0 <= j < |s| && KeptAt(s, j) ==> s[j] in LastOfEachMinute(s)
    ensures forall x :: x in LastOfEachMinute(s) ==> exists j :: 0 <= j < |s| && s[j] == x && KeptAt(s, j)
    decreases |s|
  {
    if |s| > 1 {
      var t := s[1..];
      LastOfEachMinuteMembers(t);
      var c := LastOfEachMinute(s);
      var head := if SameMinuteKey(s[0], s[1]) then [] else [s[0]];
      assert c == head + LastOfEachMinute(t);
      forall j | 0 <= j < |s| && KeptAt(s, j) ensures s[j] in c {
        if j > 0 {
          assert t[j - 1] == s[j];
          assert KeptAt(t, j - 1);
        }
      }
      forall x | x in c ensures exists j :: 0 <= j < |s| && s[j] == x && KeptAt(s, j) {
        if x in LastOfEachMinute(t) {
          var j :| 0 <= j < |t| && t[j] == x && KeptAt(t, j);
          assert s[j + 1] == x && KeptAt(s, j + 1);
        } else {
          assert x == s[0] && KeptAt(s, 0);
        }
      }
    }
  }

  /** In chronological order, an event is kept exactly when no later event
      shares its minute: for each minute the kept event is the last one. */
  lemma KeptIsLastOfItsMinute(s: seq<Attendance>, j: int)
    requires Chronological(s) && 0 <= j < |s|
    ensures KeptAt(s, j) <==> forall k :: j < k < |s| ==> !SameMinuteKey(s[k], s[j])
  {
    if KeptAt(s, j) && j < |s| - 1 {
      forall k | j < k < |s| ensures !SameMinuteKey(s[k], s[j]) {
        assert DateOf(s[j + 1]) <= DateOf(s[k]);
        assert MinuteOf(s[j].date) < MinuteOf(s[j + 1].date);
      }
    }
  }

  /** In chronological order the kept events fall in strictly increasing
      minutes, so no two neighbours share a minute key. */
  lemma {:induction false} LastOfEachMinuteIncreasing(s: seq<Attendance>)
    requires Chronological(s)
    ensures StrictlyByMinute(LastOfEachMinute(s))
    ensures LastOfEachMinute(s) != [] ==> MinuteOf(LastOfEachMinute(s)[0].date) >= MinuteOf(s[0].date)
    decreases |s|
  {
    if |s| > 1 {
      var t := s[1..];
      SortedByTail(s, DateOf);
      LastOfEachMinuteIncreasing(t);
      var r := LastOfEachMinute(t);
      assert DateOf(s[0]) <= DateOf(s[1]);
      if !SameMinuteKey(s[0], s[1]) {
        assert LastOfEachMinute(s) == [s[0]] + r;
        assert MinuteOf(s[0].date) < MinuteOf(t[0].date);
        StrictlyByMinuteCons(s[0], r);
      } else {
        assert LastOfEachMinute(s) == r;
      }
    }
  }

  /** Consecutive events lie in strictly increasing minutes. */
  predicate StrictlyByMinute(c: seq<Attendance>) {
    forall i :: 0 <= i < |c| - 1 ==> MinuteOf(c[i].date) < MinuteOf(c[i + 1].date)
  }

  lemma StrictlyByMinuteCons(x: Attendance, r: seq<Attendance>)
    requires StrictlyByMinute(r) && (r != [] ==> MinuteOf(x.date) < MinuteOf(r[0].date))
    ensures StrictlyByMinute([x] + r)
  {
    var c := [x] + r;
    forall i | 0 <= i < |c| - 1 ensures MinuteOf(c[i].date) < MinuteOf(c[i + 1].date) {
      if i > 0 {
        assert c[i] == r[i - 1] && c[i + 1] == r[i];
      }
    }
  }

  /** Every minute that occurs in the input is still represented. */
  lemma {:induction false} LastOfEachMinuteCoversMinutes(s: seq<Attendance>, j: int)
    requires 0 <= j < |s|
    ensures exists i :: 0 <= i < |LastOfEachMinute(s)| && SameMinuteKey(LastOfEachMinute(s)[i], s[j])
    decreases |s|
  {
    var c := LastOfEachMinute(s);
    if |s| > 1 {
      var head := if SameMinuteKey(s[0], s[1]) then [] else [s[0]];
      var r := LastOfEachMinute(s[1..]);
      assert c == head + r;
      if j == 0 && head != [] {
        assert c[0] == s[0];
      } else {
        var j' := if j == 0 then 0 else j - 1;
        LastOfEachMinuteCoversMinutes(s[1..], j');
        var i :| 0 <= i < |r| && SameMinuteKey(r[i], s[1..][j']);
        assert c[|head| + i] == r[i];
      }
    } else {
      assert c[0] == s[0];
    }
  }

  // ---------------------------------------------------------------------
  // Timeline and totals
  // ---------------------------------------------------------------------

  /** Timeline entry `i`: the event's time, `exit` for an away event and
      `entry` otherwise, its reason, and the gap to the next event when there
      is one. */
  function EventAt(c: seq<Attendance>, i: int): TimelineEvent
    requires 0 <= i < |c|
  {
    TimelineEvent(
      c[i].date,
      if c[i].away then Exit else Entry,
      c[i].reason,
      if i + 1 < |c| then Some(Gap(c, i)) else None)
  }

  /** One timeline entry per compacted event, carrying its time and reason;
      an `exit` exactly for an away event; a duration, the gap to the next
      event, on every entry but the last. */
  function Timeline(c: seq<Attendance>): (r: seq<TimelineEvent>)
    ensures |r| == |c|
    ensures forall i :: 0 <= i < |r| ==> r[i].timestamp == c[i].date && r[i].reason == c[i].reason
    ensures forall i :: 0 <= i < |r| ==> (r[i].kind == Exit <==> c[i].away)
    ensures forall i :: 0 <= i < |r| ==> (r[i].durationSeconds.Some? <==> i + 1 < |c|)
    ensures forall i :: 0 <= i < |r| - 1 ==> r[i].durationSeconds == Some(Gap(c, i))
  {
    seq(|c|, i requires 0 <= i < |c| => EventAt(c, i))
  }

  /** The timeline and the two totals: the loop over the compacted events
      that adds each gap to the away or the present total, by the earlier
      event's flag. */
  method BuildTimeline(c: seq<Attendance>) returns (timeline: seq<TimelineEvent>, totalPresent: int, totalAway: int)
    ensures timeline == Timeline(c)
    ensures totalPresent == PairSum(c, false) && totalAway == PairSum(c, true)
  {
    totalPresent, totalAway := 0, 0;
    timeline := [];
    for i := 0 to |c|
      invariant |timeline| == i
      invariant forall k :: 0 <= k < i ==> timeline[k] == EventAt(c, k)
      invariant totalPresent == PairSum(c[..if i < |c| then i + 1 else |c|], false)
      invariant totalAway == PairSum(c[..if i < |c| then i + 1 else |c|], true)
    {
      var current := c[i];
      var event := TimelineEvent(current.date, if current.away then Exit else Entry, current.reason, None);
      if i + 1 < |c| {
        var next := c[i + 1];
        var duration := next.date - current.date;
        event := event.(durationSeconds := Some(duration));
        assert c[..i + 2][..i + 1] == c[..i + 1];
        if current.away {
          totalAway := totalAway + duration;
        } else {
          totalPresent := totalPresent + duration;
        }
      }
      timeline := timeline + [event];
    }
    assert c[..|c|] == c;
  }

  // ---------------------------------------------------------------------
  // Per-user summary
  // ---------------------------------------------------------------------

  /** A user's events, sorted and compacted. */
  function Compacted(userRecords: seq<Attendance>): seq<Attendance> {
    LastOfEachMinute(SortBy(userRecords, DateOf))
  }

  /** `total > 0 ? Math.round(present / total * 100) : 100`. */
  function SummaryAvailability(present: int, away: int): (r: int)
    requires present >= 0 && away >= 0
    ensures present + away == 0 ==> r == 100
    ensures present + away > 0 ==> r == RoundPercent(present, present + away)
    ensures 0 <= r <= 100
  {
    if present + away > 0 then RoundPercent(present, present + away) else 100
  }

  /** `reason || null`: an empty reason counts as no reason. */
  function NonEmptyReason(reason: Option<string>): (r: Option<string>)
    ensures r.Some? <==> reason.Some? && reason.value != ""
    ensures r.Some? ==> r == reason
  {
    if reason == Some("") then None else reason
  }

  /** One user's AttendanceSummary, from that user's events in input order. */
  function SummaryOf(userId: string, userRecords: seq<Attendance>): (r: AttendanceSummary)
    requires |userRecords| > 0
    ensures r.idUser == userId
    ensures r.name == userRecords[0].name && r.email == userRecords[0].email
    ensures var c := Compacted(userRecords);
      && c != []
      && r.totalPresentSeconds + r.totalAwaySeconds == c[|c| - 1].date - c[0].date
      && (|c| == 1 ==> r.totalPresentSeconds == 0 && r.totalAwaySeconds == 0)
      && (r.currentStatus == Away <==> c[|c| - 1].away)
      && r.currentReason == NonEmptyReason(c[|c| - 1].reason)
      && |r.timeline| == |c|
    ensures r.totalPresentSeconds >= 0 && r.totalAwaySeconds >= 0
    ensures 0 <= r.availabilityPercent <= 100
    ensures r.totalPresentSeconds + r.totalAwaySeconds == 0 ==> r.availabilityPercent == 100
  {
    var sorted := SortBy(userRecords, DateOf);
    var c := LastOfEachMinute(sorted);
    SortByIsSorted(userRecords, DateOf);
    CompactedIsChronological(sorted);
    PairSumTelescopes(c);
    PairSumNonNegative(c, true);
    PairSumNonNegative(c, false);
    var present := PairSum(c, false);
    var away := PairSum(c, true);
    var last := c[|c| - 1];
    AttendanceSummary(
      userId,
      userRecords[0].name,
      userRecords[0].email,
      present,
      away,
      if last.away then Away else Online,
      NonEmptyReason(last.reason),
      SummaryAvailability(present, away),
      Timeline(c))
  }

  lemma CompactedIsChronological(s: seq<Attendance>)
    requires Chronological(s)
    ensures Chronological(LastOfEachMinute(s))
  {
    var c := LastOfEachMinute(s);
    LastOfEachMinuteIncreasing(s);
    forall i, j | 0 <= i < j < |c| ensures DateOf(c[i]) <= DateOf(c[j]) {
      MinutesIncreaseAlong(c, i, j);
    }
  }

  lemma {:induction false} MinutesIncreaseAlong(c: seq<Attendance>, i: int, j: int)
    requires forall k :: 0 <= k < |c| - 1 ==> MinuteOf(c[k].date) < MinuteOf(c[k + 1].date)
    requires 0 <= i < j < |c|
    ensures DateOf(c[i]) <= DateOf(c[j])
    ensures MinuteOf(c[i].date) < MinuteOf(c[j].date)
    decreases j - i
  {
    if j > i + 1 {
      MinutesIncreaseAlong(c, i + 1, j);
    }
  }

  /** The events of one user, in input order. */
  function Group(records: seq<Attendance>, userId: string): seq<Attendance> {
    Filter(records, Is(UserOf, userId))
  }

  /** The distinct users, in the order of their first event. */
  function Users(records: seq<Attendance>): seq<string> {
    KeysInOrder(records, UserOf)
  }

  lemma GroupOfUserIsNonEmpty(records: seq<Attendance>, userId: string)
    requires userId in Users(records)
    ensures |Group(records, userId)| > 0
    ensures Group(records, userId)[0] == records[FirstWithKey(records, UserOf, userId)]
  {
    FilterStartsWithFirst(records, UserOf, userId);
  }

  /** What `calculateAttendance` returns: the summary of each user, users in
      the order of their first event. */
  function AllSummaries(records: seq<Attendance>): (r: seq<AttendanceSummary>)
    ensures |r| == |Users(records)|
  {
    var users := Users(records);
    seq(|users|, i requires 0 <= i < |users| =>
      GroupOfUserIsNonEmpty(records, users[i]);
      SummaryOf(users[i], Group(records, users[i])))
  }

  /** Entry `i` of AllSummaries is the summary of the `i`-th user. */
  lemma AllSummariesAt(records: seq<Attendance>, i: int)
    requires 0 <= i < |Users(records)|
    ensures |Group(records, Users(records)[i])| > 0
    ensures AllSummaries(records)[i] == SummaryOf(Users(records)[i], Group(records, Users(records)[i]))
  {
    GroupOfUserIsNonEmpty(records, Users(records)[i]);
  }

  lemma AllSummariesNext(records: seq<Attendance>, i: int, s: AttendanceSummary)
    requires 0 <= i < |Users(records)| && |Group(records, Users(records)[i])| > 0
    requires s == SummaryOf(Users(records)[i], Group(records, Users(records)[i]))
    ensures AllSummaries(records)[..i + 1] == AllSummaries(records)[..i] + [s]
  {
    AllSummariesAt(records, i);
    PrefixNext(AllSummaries(records), i);
  }

  /** Summary `i` is about user `i`, and it takes its name and e-mail from
      that user's first event in input order. */
  lemma AllSummariesIdentify(records: seq<Attendance>, i: int)
    requires 0 <= i < |Users(records)|
    ensures Users(records)[i] in Users(records)
    ensures AllSummaries(records)[i].idUser == Users(records)[i]
    ensures var first := records[FirstWithKey(records, UserOf, Users(records)[i])];
      AllSummaries(records)[i].name == first.name && AllSummaries(records)[i].email == first.email
  {
    AllSummariesAt(records, i);
    GroupOfUserIsNonEmpty(records, Users(records)[i]);
  }

  lemma SummaryUsersDistinct(records: seq<Attendance>)
    ensures var r := AllSummaries(records);
      forall i, j :: 0 <= i < j < |r| ==> r[i].idUser != r[j].idUser
  {
    var r := AllSummaries(records);
    forall i, j | 0 <= i < j < |r| ensures r[i].idUser != r[j].idUser {
      AllSummariesIdentify(records, i);
      AllSummariesIdentify(records, j);
    }
  }

  lemma SummaryUsersCover(records: seq<Attendance>)
    ensures var r := AllSummaries(records);
      forall k :: 0 <= k < |records| ==> exists i :: 0 <= i < |r| && r[i].idUser == records[k].idUser
  {
    var r := AllSummaries(records);
    var users := Users(records);
    forall k | 0 <= k < |records| ensures exists i :: 0 <= i < |r| && r[i].idUser == records[k].idUser {
      assert UserOf(records[k]) in users;
      var i :| 0 <= i < |users| && users[i] == UserOf(records[k]);
      AllSummariesIdentify(records, i);
    }
  }

  lemma SummaryUsersOccur(records: seq<Attendance>)
    ensures var r := AllSummaries(records);
      forall i :: 0 <= i < |r| ==> exists k :: 0 <= k < |records| && records[k].idUser == r[i].idUser
  {
    var r := AllSummaries(records);
    var users := Users(records);
    forall i | 0 <= i < |r| ensures exists k :: 0 <= k < |records| && records[k].idUser == r[i].idUser {
      AllSummariesIdentify(records, i);
      var k :| 0 <= k < |records| && UserOf(records[k]) == users[i];
      assert records[k].idUser == r[i].idUser;
    }
  }

  lemma SummaryNamesFromFirst(records: seq<Attendance>)
    ensures var r := AllSummaries(records);
      forall i :: 0 <= i < |r| ==>
        r[i].idUser in Users(records) &&
        var first := records[FirstWithKey(records, UserOf, r[i].idUser)];
        r[i].name == first.name && r[i].email == first.email
  {
    var r := AllSummaries(records);
    forall i | 0 <= i < |r| ensures r[i].idUser in Users(records) &&
      var first := records[FirstWithKey(records, UserOf, r[i].idUser)];
      r[i].name == first.name && r[i].email == first.email
    {
      AllSummariesIdentify(records, i);
    }
  }

  /** One user's summary: sort, compact, walk the timeline. */
  method SummarizeUser(userId: string, userRecords: seq<Attendance>) returns (summary: AttendanceSummary)
    requires |userRecords| > 0
    ensures summary == SummaryOf(userId, userRecords)
  {
    var sorted := SortBy(userRecords, DateOf);
    var minuteCompacted := CompactByMinute(sorted);
    var timeline, totalPresent, totalAway := BuildTimeline(minuteCompacted);
    SortByIsSorted(userRecords, DateOf);
    CompactedIsChronological(sorted);
    PairSumNonNegative(minuteCompacted, true);
    PairSumNonNegative(minuteCompacted, false);
    var lastRecord := minuteCompacted[|minuteCompacted| - 1];
    var total := totalPresent + totalAway;
    summary := AttendanceSummary(
      userId,
      userRecords[0].name,
      userRecords[0].email,
      totalPresent,
      totalAway,
      if lastRecord.away then Away else Online,
      NonEmptyReason(lastRecord.reason),
      if total > 0 then RoundPercent(totalPresent, total) else 100,
      timeline);
  }

  /** `calculateAttendance(records)`: group by user, then summarize each
      group in the order the users first appear. */
  method CalculateAttendance(records: seq<Attendance>) returns (summaries: seq<AttendanceSummary>)
    ensures summaries == AllSummaries(records)
  {
    var order, grouped := GroupBy(records, UserOf);
    ghost var expected := AllSummaries(records);
    summaries := [];
    for i := 0 to |order|
      invariant summaries == expected[..i]
    {
      var userId := order[i];
      assert userId in grouped;
      var userRecords := grouped[userId];
      assert userRecords == Group(records, userId);
      GroupOfUserIsNonEmpty(records, userId);
      var s := SummarizeUser(userId, userRecords);
      AllSummariesNext(records, i, s);
      summaries := summaries + [s];
    }
    assert expected[..|order|] == expected;
  }
}
