/**
  The weekly reset arithmetic. Instants are milliseconds since the epoch; a local time is an instant plus
  the zone's offset, read as if it were UTC.
 */
module ResetPeriod {
  const HOUR := 3_600_000
  const DAY := 86_400_000
  const WEEK := 604_800_000

  /** A reset day from 1 (Monday) to 7 (Sunday) and a full hour of that day, in a zone. */
  datatype Schedule = Schedule(day: int, hour: int, offset: int) {
    predicate Valid() { 1 <= day <= 7 && 0 <= hour <= 23 }
  }

  function Local(s: Schedule, now: int): int { now + s.offset }

  /** 1 to 7; the epoch fell on a Thursday. */
  function Weekday(local: int): int {
    var sundayFirst := (local / DAY + 4) % 7;
    if sundayFirst == 0 then 7 else sundayFirst
  }

  function HourOf(local: int): int { local % DAY / HOUR }

  /** Midnight of the day `days` away, moved to the reset hour. */
  function AtResetHour(s: Schedule, local: int, days: int): int {
    (local / DAY + days) * DAY + s.hour * HOUR
  }

  function DaysSinceReset(s: Schedule, local: int): int {
    var days := (Weekday(local) - s.day + 7) % 7;
    if days == 0 && HourOf(local) < s.hour then 7 else days
  }

  function DaysUntilReset(s: Schedule, local: int): int {
    var days := (s.day - Weekday(local) + 7) % 7;
    if days == 0 && HourOf(local) >= s.hour then 7 else days
  }

  /** The start of the current period, as a local time. */
  function PeriodStart(s: Schedule, now: int): int {
    AtResetHour(s, Local(s, now), -DaysSinceReset(s, Local(s, now)))
  }

  /** The next reset, as an instant. */
  function NextReset(s: Schedule, now: int): int {
    AtResetHour(s, Local(s, now), DaysUntilReset(s, Local(s, now))) - s.offset
  }

  /** The reference: a reset is an instant whose local time is the reset hour, sharp, on the reset day. */
  predicate IsReset(s: Schedule, instant: int) {
    Weekday(Local(s, instant)) == s.day && Local(s, instant) % DAY == s.hour * HOUR
  }

  lemma DayParts(day: int, hour: int)
    requires 0 <= hour <= 23
    ensures (day * DAY + hour * HOUR) / DAY == day && (day * DAY + hour * HOUR) % DAY == hour * HOUR
  {
  }

  lemma WeekdayOf(day: int, weekday: int)
    requires 1 <= weekday <= 7
    ensures (day + 4 - weekday) % 7 == 0 <==> weekday == if (day + 4) % 7 == 0 then 7 else (day + 4) % 7
  {
  }

  /**
    The weekday is the calendar's: day 0 of the epoch, the first of January 1970, is a Thursday, all hours of a
    day share their weekday, and each day is followed by the next weekday, Sunday by Monday.
   */
  lemma WeekdayFollowsCalendar(day: int, time: int)
    requires 0 <= time < DAY
    ensures Weekday(0) == 4 && Weekday(day * DAY + time) == Weekday(day * DAY)
    ensures Weekday((day + 1) * DAY) == if Weekday(day * DAY) == 7 then 1 else Weekday(day * DAY) + 1
  {
    hide Weekday;
    DayOf(day, time);
    DayOf(day, 0);
    DayOf(day + 1, 0);
    WeekdayIs(day * DAY + time);
    WeekdayIs(day * DAY);
    WeekdayIs((day + 1) * DAY);
    WeekdayIs(0);
    OneWeekday(day, Weekday(day * DAY + time), Weekday(day * DAY));
    OneWeekday(day, Weekday((day + 1) * DAY) - 1, Weekday(day * DAY));
  }

  lemma DayOf(day: int, time: int)
    requires 0 <= time < DAY
    ensures (day * DAY + time) / DAY == day
  {
  }

  lemma OneWeekday(day: int, a: int, b: int)
    requires (day + 4 - a) % 7 == 0 && (day + 4 - b) % 7 == 0 && 0 <= a <= 7 && 1 <= b <= 7
    ensures a == b || (a == 0 && b == 7)
  {
  }

  lemma WeekdayIs(local: int)
    ensures 1 <= Weekday(local) <= 7 && (local / DAY + 4 - Weekday(local)) % 7 == 0
  {
    hide HourOf;
    WeekdayOf(local / DAY, Weekday(local));
  }

  /** The hour of a local time is before a full hour exactly when the time of day is. */
  lemma WithinDay(local: int, hour: int)
    requires 0 <= hour <= 23
    ensures local == local / DAY * DAY + local % DAY && 0 <= local % DAY < DAY
    ensures HourOf(local) < hour <==> local % DAY < hour * HOUR
  {
  }

  /** Moving to the reset hour of a day with the reset's weekday gives a reset. */
  lemma ResetOn(s: Schedule, local: int, days: int)
    requires s.Valid() && (local / DAY + days + 4 - s.day) % 7 == 0
    ensures IsReset(s, AtResetHour(s, local, days) - s.offset)
  {
    DayParts(local / DAY + days, s.hour);
    WeekdayOf(local / DAY + days, s.day);
    hide HourOf, DaysSinceReset, DaysUntilReset;
  }

  lemma WeekdayGap(day: int, weekday: int, target: int)
    requires (day + 4 - weekday) % 7 == 0
    ensures (day - (weekday - target + 7) % 7 + 4 - target) % 7 == 0
    ensures (day + (target - weekday + 7) % 7 + 4 - target) % 7 == 0
  {
  }

  lemma WeekMore(day: int)
    ensures day % 7 == 0 ==> (day + 7) % 7 == 0 && (day - 7) % 7 == 0
  {
  }

  lemma DaysBack(s: Schedule, local: int)
    requires s.Valid()
    ensures var days := DaysSinceReset(s, local);
            && 0 <= days <= 7 && (local / DAY - days + 4 - s.day) % 7 == 0
            && (days == 0 ==> HourOf(local) >= s.hour) && (days == 7 ==> HourOf(local) < s.hour)
  {
    hide Weekday, HourOf;
    WeekdayIs(local);
    WeekdayGap(local / DAY, Weekday(local), s.day);
    WeekMore(local / DAY + 4 - s.day);
  }

  lemma DaysAhead(s: Schedule, local: int)
    requires s.Valid()
    ensures var days := DaysUntilReset(s, local);
            && 0 <= days <= 7 && (local / DAY + days + 4 - s.day) % 7 == 0
            && (days == 0 ==> HourOf(local) < s.hour) && (days == 7 ==> HourOf(local) >= s.hour)
  {
    hide Weekday, HourOf;
    WeekdayIs(local);
    WeekdayGap(local / DAY, Weekday(local), s.day);
    WeekMore(local / DAY + 4 - s.day);
  }

  lemma WeeksApart(x: int, y: int, weekday: int, time: int)
    requires (x + 4 - weekday) % 7 == 0 && (y + 4 - weekday) % 7 == 0 && x * DAY + time < y * DAY + time
    ensures x * DAY + WEEK <= y * DAY
  {
    assert (y - x) % 7 == 0 && y > x;
  }

  lemma LocalOrder(s: Schedule, a: int, b: int)
    ensures Local(s, b) - Local(s, a) == b - a
  {
  }

  /** Any two resets are a whole number of weeks apart. */
  lemma ResetsApart(s: Schedule, a: int, b: int)
    requires s.Valid() && IsReset(s, a) && IsReset(s, b) && a < b
    ensures a + WEEK <= b
  {
    hide Weekday, Local;
    WeekdayIs(Local(s, a));
    WeekdayIs(Local(s, b));
    LocalOrder(s, a, b);
    WeeksApart(Local(s, a) / DAY, Local(s, b) / DAY, s.day, s.hour * HOUR);
  }

  lemma StartIsReset(s: Schedule, now: int)
    requires s.Valid()
    ensures IsReset(s, PeriodStart(s, now) - s.offset)
    ensures PeriodStart(s, now) <= Local(s, now) < PeriodStart(s, now) + WEEK
  {
    hide DaysSinceReset, HourOf, IsReset;
    DaysBack(s, Local(s, now));
    ResetOn(s, Local(s, now), -DaysSinceReset(s, Local(s, now)));
    WithinDay(Local(s, now), s.hour);
  }

  lemma NextIsReset(s: Schedule, now: int)
    requires s.Valid()
    ensures IsReset(s, NextReset(s, now)) && now < NextReset(s, now) <= now + WEEK
  {
    hide DaysUntilReset, HourOf, IsReset;
    DaysAhead(s, Local(s, now));
    ResetOn(s, Local(s, now), DaysUntilReset(s, Local(s, now)));
    WithinDay(Local(s, now), s.hour);
  }

  lemma WeekLater(s: Schedule, reset: int)
    requires IsReset(s, reset)
    ensures IsReset(s, reset + WEEK)
  {
    hide HourOf;
    assert Local(s, reset + WEEK) == Local(s, reset) + 7 * DAY;
  }

  /**
    The period start is the latest reset that is not after now, the next reset is the first one after it,
    and the two are one week apart, the start being given in local time.
   */
  lemma PeriodBounds(s: Schedule, now: int, reset: int)
    requires s.Valid() && IsReset(s, reset)
    ensures reset <= now <==> reset <= PeriodStart(s, now) - s.offset
    ensures reset > now <==> reset >= NextReset(s, now)
    ensures PeriodStart(s, now) - s.offset <= now < NextReset(s, now) == PeriodStart(s, now) + WEEK - s.offset
  {
    hide PeriodStart, NextReset, IsReset;
    StartIsReset(s, now);
    NextIsReset(s, now);
    var start, next := PeriodStart(s, now) - s.offset, NextReset(s, now);
    WeekLater(s, start);
    if start + WEEK < next { ResetsApart(s, start + WEEK, next); }
    ResetsApart(s, start, next);
    if reset > start { ResetsApart(s, start, reset); }
    if reset < next { ResetsApart(s, reset, next); }
  }

  /** Two instants share a period exactly when no reset lies between them. */
  lemma SamePeriod(s: Schedule, a: int, b: int)
    requires s.Valid() && a <= b
    ensures PeriodStart(s, a) == PeriodStart(s, b) <==> !exists reset :: a < reset <= b && IsReset(s, reset)
  {
    hide *;
    StartIsReset(s, a);
    StartIsReset(s, b);
    var from, to := PeriodStart(s, a) - s.offset, PeriodStart(s, b) - s.offset;
    PeriodBounds(s, a, to);
    PeriodBounds(s, b, from);
    if reset :| a < reset <= b && IsReset(s, reset) {
      PeriodBounds(s, a, reset);
      PeriodBounds(s, b, reset);
    }
    assert a < to <= b ==> IsReset(s, to);
  }
}
