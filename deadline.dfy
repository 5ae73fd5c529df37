/**
 * The course-selection deadline check
 * (frontend/src/api/func_for_access_to_courses_by_deadline.js): the split of a
 * remaining time in milliseconds into days, hours, minutes and seconds, its
 * human-readable form, and the record `checkCourseDeadline` builds from the
 * group's deadline. Instants are integer milliseconds since the epoch.
 */
module Deadline {
  import opened Wrappers
  import opened Text

  const MsPerSecond := 1000
  const MsPerMinute := 60000
  const MsPerHour := 3600000
  const MsPerDay := 86400000

  datatype TimeRemaining = TimeRemaining(total: int, days: int, hours: int, minutes: int, seconds: int)

  /**
   * `calculateTimeRemaining` with `total` = deadline - now: all zero when the
   * deadline is not in the future; otherwise `Math.floor` of the
   * (positive) quotients, which on integers is integer division.
   */
  function CalculateTimeRemaining(total: int): (t: TimeRemaining)
    ensures total <= 0 ==> t == TimeRemaining(0, 0, 0, 0, 0)
    ensures total > 0 ==> t.total == total
    ensures 0 <= t.seconds < 60 && 0 <= t.minutes < 60 && 0 <= t.hours < 24 && 0 <= t.days
    ensures total > 0 ==>
      var shown := t.days * MsPerDay + t.hours * MsPerHour + t.minutes * MsPerMinute + t.seconds * MsPerSecond;
      shown <= total < shown + MsPerSecond
  {
    if total <= 0 then TimeRemaining(0, 0, 0, 0, 0)
    else
      var t := TimeRemaining(total, total / MsPerDay, (total / MsPerHour) % 24, (total / MsPerMinute) % 60, (total / MsPerSecond) % 60);
      Reconstruct(total);
      t
  }

  /** The four units together account for `total` down to the millisecond remainder. */
  lemma Reconstruct(total: nat)
    ensures var shown := (total / MsPerDay) * MsPerDay + ((total / MsPerHour) % 24) * MsPerHour
                         + ((total / MsPerMinute) % 60) * MsPerMinute + ((total / MsPerSecond) % 60) * MsPerSecond;
      shown <= total < shown + MsPerSecond
  {
    var q := total / 1000;
    var m1 := q / 60;
    var h1 := m1 / 60;
    assert total / MsPerMinute == m1;
    assert total / MsPerHour == h1;
    assert total / MsPerDay == h1 / 24;
    assert total == 1000 * q + total % 1000;
    assert q == 60 * m1 + q % 60;
    assert m1 == 60 * h1 + m1 % 60;
    assert h1 == 24 * (h1 / 24) + h1 % 24;
  }

  /** `${n} word` with an 's' unless n is exactly 1. */
  function Unit(n: int, word: string): string {
    (if n >= 0 then NatToString(n) else "-" + NatToString(-n)) + " " + word + (if n != 1 then "s" else "")
  }

  const DeadlinePassed := "Deadline passed"

  /** `formatTimeRemaining`. */
  function FormatTimeRemaining(t: Option<TimeRemaining>): (r: string)
    ensures r == DeadlinePassed <==> t.None? || t.value.total <= 0
  {
    if t.None? || t.value.total <= 0 then DeadlinePassed
    else
      var r :=
        if t.value.days > 0 then Unit(t.value.days, "day") + " " + Unit(t.value.hours, "hour")
        else if t.value.hours > 0 then Unit(t.value.hours, "hour") + " " + Unit(t.value.minutes, "minute")
        else if t.value.minutes > 0 then Unit(t.value.minutes, "minute") + " " + Unit(t.value.seconds, "second")
        else Unit(t.value.seconds, "second");
      assert r[0] != DeadlinePassed[0];
      r
  }

  /** A unit word takes the plural 's' exactly when its count is not 1. */
  lemma UnitPlural(n: nat, word: string)
    requires word != [] && word[|word| - 1] != 's'
    ensures var u := Unit(n, word); u[|u| - 1] == 's' <==> n != 1
  {
  }

  /**
   * On a computed remaining time the text names the two largest leading
   * units: days and hours from one day on, hours and minutes from one hour,
   * minutes and seconds from one minute, and seconds alone below that.
   */
  lemma FormatShowsLeadingUnits(total: int)
    requires total > 0
    ensures var t := CalculateTimeRemaining(total);
      FormatTimeRemaining(Some(t)) ==
        if total >= MsPerDay then Unit(total / MsPerDay, "day") + " " + Unit(t.hours, "hour")
        else if total >= MsPerHour then Unit(total / MsPerHour, "hour") + " " + Unit(t.minutes, "minute")
        else if total >= MsPerMinute then Unit(total / MsPerMinute, "minute") + " " + Unit(t.seconds, "second")
        else Unit(total / MsPerSecond, "second")
  {
    var t := CalculateTimeRemaining(total);
    if total < MsPerDay {
      assert t.days == 0;
      if total < MsPerHour {
        assert t.hours == 0;
        if total < MsPerMinute {
          assert t.minutes == 0;
        } else {
          assert t.minutes == total / MsPerMinute;
        }
      } else {
        assert t.hours == total / MsPerHour;
      }
    }
  }

  /** The outcome of the `groups_electives` query for the student's group. */
  datatype Query =
    | QueryFailed(message: string)                // `error`, or an exception
    | NoRow                                       // `data` is null
    | Found(deadline: string, instant: int)       // `data.deadline` and the instant it denotes

  /** The record `checkCourseDeadline` resolves to. */
  datatype Status = Status(isDeadlinePassed: bool, currentDeadline: Option<string>,
                           timeRemaining: Option<TimeRemaining>, error: Option<string>)

  const DeadlineNotFound := "Deadline not found"

  /**
   * `checkCourseDeadline`: `now` is the clock read at the start of the check
   * and `later` the one `calculateTimeRemaining` reads. A failed query or a
   * missing deadline fails closed.
   */
  function CheckCourseDeadline(query: Query, now: int, later: int): (s: Status)
    ensures (query.QueryFailed? || query.NoRow? || (query.Found? && query.deadline == "")) ==>
      s.isDeadlinePassed && s.currentDeadline.None? && s.timeRemaining.None? && s.error.Some?
    ensures query.Found? && query.deadline != "" ==>
      && s.isDeadlinePassed == (now >= query.instant)
      && s.currentDeadline == Some(query.deadline)
      && s.error.None?
      && (s.timeRemaining.Some? <==> query.instant - later > 0)
      && (s.timeRemaining.Some? ==> s.timeRemaining.value.total == query.instant - later)
  {
    match query
    case QueryFailed(message) => Status(true, None, None, Some(message))
    case NoRow => Status(true, None, None, Some(DeadlineNotFound))
    case Found(deadline, instant) =>
      if deadline == "" then Status(true, None, None, Some(DeadlineNotFound))
      else
        var t := CalculateTimeRemaining(instant - later);
        Status(now >= instant, Some(deadline), if t.total > 0 then Some(t) else None, None)
  }

  /**
   * With a single clock reading, time is shown exactly when the deadline has
   * not passed. Both tests use the same instant here. In the source the
   * remaining time comes from `Date.parse` of a `Date`'s string form, which
   * drops the milliseconds, while the passed test compares the full
   * instants; for a deadline with a fraction of a second the two can still
   * disagree within that second.
   */
  lemma OneClockConsistent(deadline: string, instant: int, now: int)
    requires deadline != ""
    ensures var s := CheckCourseDeadline(Found(deadline, instant), now, now);
      s.timeRemaining.Some? <==> !s.isDeadlinePassed
  {
  }

  /** Every status the check produces formats as "Deadline passed" exactly when no time is shown. */
  lemma PassedWhenNoTimeShown(query: Query, now: int, later: int)
    ensures var s := CheckCourseDeadline(query, now, later);
      FormatTimeRemaining(s.timeRemaining) == DeadlinePassed <==> s.timeRemaining.None?
  {
  }
}
