/** UTC weeks, Monday 00:00 to Sunday: rust/genesis-core/src/utc_week.rs. */
module UtcWeek {
  import opened CivilCalendar

  const DAY_MS := 86_400_000
  const DAYS_PER_WEEK := 7
  const WEEK_MS := DAYS_PER_WEEK * DAY_MS
  const SUNDAY := 0
  const MONDAY := 1
  const DAYS_FROM_SUNDAY_TO_MONDAY := 6
  const EPOCH_THURSDAY := 4

  function WeekStartMs(now: int): int {
    var midnight := now / DAY_MS * DAY_MS;
    var days := midnight / DAY_MS;
    var weekday := (days + EPOCH_THURSDAY) % DAYS_PER_WEEK;
    var diff := if weekday == SUNDAY then DAYS_FROM_SUNDAY_TO_MONDAY else weekday - MONDAY;
    midnight - diff * DAY_MS
  }

  function PreviousWeekStartMs(now: int): int {
    WeekStartMs(now) - DAYS_PER_WEEK * DAY_MS
  }

  // ----- Weekdays, counted day by day from Thursday 1970-01-01 -----

  /** Weekday of the n-th day of the calendar walk, Sunday being 0. */
  function Weekday(n: int): (w: int)
    ensures SUNDAY <= w < DAYS_PER_WEEK
    decreases if n >= 0 then n else -n
  {
    if n == 0 then EPOCH_THURSDAY
    else if n > 0 then (if Weekday(n - 1) == 6 then SUNDAY else Weekday(n - 1) + 1)
    else (if Weekday(n + 1) == SUNDAY then 6 else Weekday(n + 1) - 1)
  }

  lemma NextRemainder(x: int)
    ensures (x + 1) % 7 == if x % 7 == 6 then 0 else x % 7 + 1
  {
  }

  lemma {:induction false} WeekdayIsRemainder(n: int)
    ensures Weekday(n) == (n + EPOCH_THURSDAY) % DAYS_PER_WEEK
    decreases if n >= 0 then n else -n
  {
    if n > 0 {
      WeekdayIsRemainder(n - 1);
      NextRemainder(n - 1 + EPOCH_THURSDAY);
    } else if n < 0 {
      WeekdayIsRemainder(n + 1);
      NextRemainder(n + EPOCH_THURSDAY);
    }
  }

  /** Midnight UTC at the start of a Monday. */
  ghost predicate MondayMidnight(ms: int) {
    ms % DAY_MS == 0 && Weekday(ms / DAY_MS) == MONDAY
  }

  /** The weekday of midnight as a Monday test on whole days. */
  lemma MondayDay(d: int)
    ensures MondayMidnight(d * DAY_MS) <==> (d + 3) % 7 == 0
  {
    assert d * DAY_MS / DAY_MS == d;
    WeekdayIsRemainder(d);
  }

  /** WeekStartMs on whole days: back to the last day d with (d + 3) % 7 == 0. */
  lemma WeekStartDay(now: int)
    ensures WeekStartMs(now) == (now / DAY_MS - (now / DAY_MS + 3) % 7) * DAY_MS
  {
    var d := now / DAY_MS;
    assert d * DAY_MS / DAY_MS == d;
  }

  /** The week start is a Monday midnight at or before now, less than a week ago. */
  lemma WeekStartHolds(now: int)
    ensures MondayMidnight(WeekStartMs(now))
    ensures WeekStartMs(now) <= now < WeekStartMs(now) + WEEK_MS
  {
    WeekStartDay(now);
    MondayDay(now / DAY_MS - (now / DAY_MS + 3) % 7);
  }

  /** ... and it is the only one, for every integer now. */
  lemma WeekStartUnique(now: int, w: int)
    ensures w == WeekStartMs(now) <==> MondayMidnight(w) && w <= now < w + WEEK_MS
  {
    WeekStartHolds(now);
    if MondayMidnight(w) && w <= now < w + WEEK_MS {
      var a, b := w / DAY_MS, WeekStartMs(now) / DAY_MS;
      assert w == a * DAY_MS && WeekStartMs(now) == b * DAY_MS;
      MondayDay(a);
      MondayDay(b);
      assert -7 < a - b < 7;
    }
  }

  /** Weeks tile the time line: two instants share a week start exactly when no Monday
      midnight separates them. */
  lemma WeeksTile(a: int, b: int)
    requires a <= b
    ensures WeekStartMs(a) == WeekStartMs(b) <==> forall w :: MondayMidnight(w) ==> !(a < w <= b)
  {
    WeekStartHolds(a);
    WeekStartHolds(b);
    if WeekStartMs(a) == WeekStartMs(b) {
      forall w | MondayMidnight(w)
        ensures !(a < w <= b)
      {
        WeekStartUnique(w, w);
        if a < w <= b {
          WeekStartUnique(b, WeekStartMs(a));
          WeekStartUnique(w, WeekStartMs(a));
        }
      }
    } else if WeekStartMs(b) <= a {
      WeekStartUnique(a, WeekStartMs(b));
    }
  }

  /** The start of a week starts its own week, and the week before ends where it starts. */
  lemma WeekStartIdempotent(now: int)
    ensures WeekStartMs(WeekStartMs(now)) == WeekStartMs(now)
    ensures WeekStartMs(WeekStartMs(now) - 1) == PreviousWeekStartMs(now)
    ensures WeekStartMs(now - WEEK_MS) == PreviousWeekStartMs(now)
  {
    var w := WeekStartMs(now);
    WeekStartHolds(now);
    WeekStartUnique(w, w);
    var a := w / DAY_MS;
    assert w == a * DAY_MS;
    MondayDay(a);
    MondayDay(a - 7);
    assert w - WEEK_MS == (a - 7) * DAY_MS;
    WeekStartUnique(w - 1, w - WEEK_MS);
    WeekStartUnique(now - WEEK_MS, w - WEEK_MS);
  }

  lemma WholeWeeks(x: int, weeks: int)
    ensures (x + 7 * weeks) % 7 == x % 7
  {
  }

  /** Weekdays of calendar dates repeat every 400 years. */
  lemma WeekdaysRepeat(y: int, m: int, d: int)
    requires Valid(Date(y, m, d))
    ensures Weekday(DaysFromCivil(y + 400, m, d)) == Weekday(DaysFromCivil(y, m, d))
  {
    hide DaysFromCivil, Weekday;
    FourCenturies(y, m, d);
    WeekdayIsRemainder(DaysFromCivil(y, m, d));
    WeekdayIsRemainder(DaysFromCivil(y + 400, m, d));
    WholeWeeks(DaysFromCivil(y, m, d) + EPOCH_THURSDAY, 20_871);
  }
}
