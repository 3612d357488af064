/**
 The past-date lock of the habit screen. A calendar date is a whole day
 number in the device's local time; an instant is a count of milliseconds on
 the same local time line. Day `d` covers the instants
 `[d * MillisPerDay, (d + 1) * MillisPerDay)`, and its end of day is the
 last millisecond of that range (23:59:59.999).
 */
module Calendar {

  const MillisPerDay: int := 86_400_000

  /** The day an instant falls in (flooring, also before the epoch). */
  function DayOf(now: int): int {
    now / MillisPerDay
  }

  /** The last millisecond of a day: `endOf("day")`. */
  function EndOfDay(day: int): (t: int)
    ensures DayOf(t) == day
    ensures DayOf(t + 1) == day + 1
  {
    var t := (day + 1) * MillisPerDay - 1;
    assert t == day * MillisPerDay + (MillisPerDay - 1);
    assert t + 1 == (day + 1) * MillisPerDay + 0;
    t
  }

  /** A date is in the past when its end of day is strictly before now; that
      is exactly when it is a day before the day of `now`, so today and future
      dates are never locked. */
  predicate IsDateInPast(day: int, now: int)
    ensures IsDateInPast(day, now) <==> day < DayOf(now)
  {
    EndOfDay(day) < now
  }

  /** Once a date is locked it stays locked as time passes, and so do all earlier dates. */
  lemma LockIsMonotonic(day: int, now: int, earlierDay: int, laterNow: int)
    requires IsDateInPast(day, now)
    requires earlierDay <= day && now <= laterNow
    ensures IsDateInPast(earlierDay, laterNow)
  {
  }
}
