/** The record shapes the reports read and produce (`IntercomAttendance`,
    `TimelineEvent`, `AttendanceSummary`), and the one computation every report
    shares: crediting the gap between consecutive events to presence or to
    absence according to the earlier event's away flag. */
module Intercom {
  import opened Options
  import opened Clock
  import opened Collections

  /** One presence event: user `idUser` switched away mode on (`away`, the
      column `away_mode_enabled == 1`) or off (`away_mode_enabled == 0`) at
      `date`, with an optional `away_status_reason`. The row's remaining
      columns (its ids, `away_mode_reassign`, `away_time_minutes`,
      `created_at`) are read by no report and are not carried. */
  datatype Attendance = Attendance(
    idUser: string,
    name: string,
    email: string,
    date: Timestamp,
    away: bool,
    reason: Option<string>)

  function DateOf(r: Attendance): int {
    r.date
  }

  function UserOf(r: Attendance): string {
    r.idUser
  }

  /** The `YYYY-MM-DD` UTC date of an event, as a day number. */
  function DayKeyOf(r: Attendance): int {
    DayOf(r.date)
  }

  /** The events of `s` on UTC day `d`, in their order in `s`: what a
      dictionary keyed by `toISOString().slice(0, 10)` holds under that day. */
  function DayGroup(s: seq<Attendance>, d: int): seq<Attendance> {
    Filter(s, Is(DayKeyOf, d))
  }

  /** Events in chronological order. */
  predicate Chronological(s: seq<Attendance>) {
    SortedBy(s, DateOf)
  }

  datatype EventType = Entry | Exit

  /** One step of a user's timeline; `durationSeconds` is the gap to the next
      event (the source's `durationMinutes`, times 60), absent on the last. */
  datatype TimelineEvent = TimelineEvent(
    timestamp: Timestamp,
    kind: EventType,
    reason: Option<string>,
    durationSeconds: Option<int>)

  datatype PresenceStatus = Online | Away

  /** A user's totals over the whole queried range. Durations are in seconds
      (the source's minutes, times 60). */
  datatype AttendanceSummary = AttendanceSummary(
    idUser: string,
    name: string,
    email: string,
    totalPresentSeconds: int,
    totalAwaySeconds: int,
    currentStatus: PresenceStatus,
    currentReason: Option<string>,
    availabilityPercent: int,
    timeline: seq<TimelineEvent>)

  /** The gap from event `i` to event `i + 1`. */
  function Gap(s: seq<Attendance>, i: int): int
    requires 0 <= i < |s| - 1
  {
    s[i + 1].date - s[i].date
  }

  /** The seconds credited to the away state (`away`) or to presence
      (`!away`): over every event that has a successor, the gap to the
      successor when the event's away flag equals `away`; the last event
      contributes nothing. */
  function PairSum(s: seq<Attendance>, away: bool): int
    decreases |s|
  {
    if |s| < 2 then 0
    else PairSum(s[..|s| - 1], away) + (if s[|s| - 2].away == away then Gap(s, |s| - 2) else 0)
  }

  /** Exactly one of the two states accrues over every gap, so presence and
      absence together cover the time from the first event to the last. */
  lemma {:induction false} PairSumTelescopes(s: seq<Attendance>)
    requires |s| >= 1
    ensures PairSum(s, true) + PairSum(s, false) == s[|s| - 1].date - s[0].date
    decreases |s|
  {
    if |s| >= 2 {
      var s' := s[..|s| - 1];
      PairSumTelescopes(s');
    }
  }

  /** In chronological order every gap is non-negative, and so is each total. */
  lemma {:induction false} PairSumNonNegative(s: seq<Attendance>, away: bool)
    requires Chronological(s)
    ensures PairSum(s, away) >= 0
    decreases |s|
  {
    if |s| >= 2 {
      var s' := s[..|s| - 1];
      assert Chronological(s');
      PairSumNonNegative(s', away);
      assert DateOf(s[|s| - 2]) <= DateOf(s[|s| - 1]);
    }
  }

  /** `Math.round(p / t * 100)` for `0 <= p <= t`, `t > 0`: the nearest whole
      percentage, halves rounded up, and it lies within 0..100. */
  function RoundPercent(p: int, t: int): (r: int)
    requires 0 <= p <= t && 0 < t
    ensures (2 * r - 1) * t <= 200 * p < (2 * r + 1) * t
    ensures 0 <= r <= 100
  {
    var r := (200 * p + t) / (2 * t);
    assert 2 * t * r <= 200 * p + t < 2 * t * r + 2 * t;
    assert (2 * r - 1) * t == 2 * t * r - t;
    assert (2 * r + 1) * t == 2 * t * r + t;
    PercentRange(p, t, r);
    r
  }

  lemma PercentRange(p: int, t: int, r: int)
    requires 0 <= p <= t && 0 < t
    requires (2 * r - 1) * t <= 200 * p < (2 * r + 1) * t
    ensures 0 <= r <= 100
  {
    FactorBound(2 * r + 1, t, 0);
    FactorBound(201, t, 2 * r - 1);
  }

  /** From `a * t > b * t` with `t > 0`, `a > b`. */
  lemma FactorBound(a: int, t: int, b: int)
    requires t > 0 && a * t > b * t
    ensures a > b
  {
    if a <= b {
      MultiplyMonotone(a, b, t);
    }
  }

  lemma MultiplyMonotone(a: int, b: int, t: int)
    requires t > 0 && a <= b
    ensures a * t <= b * t
  {
  }
}
