/** The proleptic Gregorian calendar as a day-by-day walk from 1970-01-01, and the
    closed-form day count of rust/genesis-api/src/admin_mining_dist.rs (a second copy
    lives in rust/genesis-api/src/admin_referral.rs) proved to be its exact inverse. */
module CivilCalendar {

  datatype Date = Date(year: int, month: int, day: int)

  const EPOCH := Date(1970, 1, 1)

  // ----- The calendar, one day at a time (RFC 3339, section 5.7 and Appendix C) -----

  predicate IsLeap(y: int) {
    y % 4 == 0 && (y % 100 != 0 || y % 400 == 0)
  }

  function DaysInMonth(y: int, m: int): int {
    if m == 2 then (if IsLeap(y) then 29 else 28)
    else if m in {4, 6, 9, 11} then 30
    else 31
  }

  predicate Valid(d: Date) {
    1 <= d.month <= 12 && 1 <= d.day <= DaysInMonth(d.year, d.month)
  }

  function NextDay(d: Date): (r: Date)
    requires Valid(d)
    ensures Valid(r)
  {
    if d.day < DaysInMonth(d.year, d.month) then Date(d.year, d.month, d.day + 1)
    else if d.month < 12 then Date(d.year, d.month + 1, 1)
    else Date(d.year + 1, 1, 1)
  }

  function PrevDay(d: Date): (r: Date)
    requires Valid(d)
    ensures Valid(r) && NextDay(r) == d
  {
    if d.day > 1 then Date(d.year, d.month, d.day - 1)
    else if d.month > 1 then Date(d.year, d.month - 1, DaysInMonth(d.year, d.month - 1))
    else Date(d.year - 1, 12, 31)
  }

  /** The date reached by walking n days from the epoch, forwards or backwards. */
  function CivilFromDay(n: int): (d: Date)
    ensures Valid(d)
    decreases if n >= 0 then n else -n
  {
    if n == 0 then EPOCH
    else if n > 0 then NextDay(CivilFromDay(n - 1))
    else PrevDay(CivilFromDay(n + 1))
  }

  /** Calendar order: year first, then month, then day. */
  predicate Before(a: Date, b: Date) {
    a.year < b.year
    || (a.year == b.year && (a.month < b.month || (a.month == b.month && a.day < b.day)))
  }

  predicate NotAfter(a: Date, b: Date) {
    a == b || Before(a, b)
  }

  // ----- The closed form, as the code computes it -----

  /** Division that drops the fraction, also below zero. */
  function TruncDiv(a: int, b: int): int
    requires b > 0
  {
    if a >= 0 then a / b else -((-a) / b)
  }

  function DaysFromCivil(y0: int, m: int, d: int): int {
    var y := if m <= 2 then y0 - 1 else y0;
    var era := TruncDiv(if y >= 0 then y else y - 399, 400);
    var yoe := y - era * 400;
    var doy := TruncDiv(153 * (if m > 2 then m - 3 else m + 9) + 2, 5) + d - 1;
    var doe := yoe * 365 + TruncDiv(yoe, 4) - TruncDiv(yoe, 100) + doy;
    era * 146_097 + doe - 719_468
  }

  function DayCount(d: Date): int {
    DaysFromCivil(d.year, d.month, d.day)
  }

  // ----- Eras fold away -----

  /** Days before 1 March of year z, counted without eras. */
  ghost function MarchStart(z: int): int {
    365 * z + z / 4 - z / 100 + z / 400 - 719_468
  }

  /** Days from 1 March to day d of month m, in the March-based year. */
  ghost function DayOfMarchYear(m: int, d: int): int {
    (153 * (if m > 2 then m - 3 else m + 9) + 2) / 5 + d - 1
  }

  ghost function Flat(y: int, m: int, d: int): int {
    MarchStart(if m <= 2 then y - 1 else y) + DayOfMarchYear(m, d)
  }

  lemma EraIsFloor(y: int)
    ensures TruncDiv(if y >= 0 then y else y - 399, 400) == y / 400
  {
    var q := y / 400;
    if y < 0 {
      assert (399 - y) / 400 == -q;
    }
  }

  lemma FloorSplit(y: int, yoe: int)
    requires yoe == y - (y / 400) * 400
    ensures 0 <= yoe < 400
    ensures y / 4 == 100 * (y / 400) + yoe / 4
    ensures y / 100 == 4 * (y / 400) + yoe / 100
  {
  }

  /** Eras, years of era and truncating divisions amount to plain floors. */
  lemma FastIsFlat(y0: int, m: int, d: int)
    requires m >= 0
    ensures DaysFromCivil(y0, m, d) == Flat(y0, m, d)
  {
    var y := if m <= 2 then y0 - 1 else y0;
    EraIsFloor(y);
    FloorSplit(y, y - (y / 400) * 400);
  }

  lemma MarchStep(z: int)
    ensures MarchStart(z) - MarchStart(z - 1) == if IsLeap(z) then 366 else 365
  {
    assert z / 4 - (z - 1) / 4 == if z % 4 == 0 then 1 else 0;
    assert z / 100 - (z - 1) / 100 == if z % 100 == 0 then 1 else 0;
    assert z / 400 - (z - 1) / 400 == if z % 400 == 0 then 1 else 0;
  }

  // ----- One day later is one more -----

  /** NextDay in March-based terms, for any year starts `prev` and `cur` that differ by
      the length of the year between them. */
  lemma NextDayShifts(d: Date, n: Date, prev: int, cur: int)
    requires Valid(d) && n == NextDay(d)
    requires cur - prev == if IsLeap(d.year) then 366 else 365
    ensures (if n.month <= 2 && n.year == d.year then prev else cur) + DayOfMarchYear(n.month, n.day)
         == (if d.month <= 2 then prev else cur) + DayOfMarchYear(d.month, d.day) + 1
  {
  }

  lemma NextDayFlat(d: Date, n: Date)
    requires Valid(d) && n == NextDay(d)
    ensures Flat(n.year, n.month, n.day) == Flat(d.year, d.month, d.day) + 1
  {
    hide MarchStart, DayOfMarchYear;
    MarchStep(d.year);
    NextDayShifts(d, n, MarchStart(d.year - 1), MarchStart(d.year));
  }

  lemma {:induction false} FlatOfWalk(n: int, d: Date)
    requires d == CivilFromDay(n)
    ensures Flat(d.year, d.month, d.day) == n
    decreases if n >= 0 then n else -n
  {
    if n == 0 {
    } else if n > 0 {
      FlatOfWalk(n - 1, CivilFromDay(n - 1));
      NextDayFlat(CivilFromDay(n - 1), d);
    } else {
      FlatOfWalk(n + 1, CivilFromDay(n + 1));
      NextDayFlat(d, CivilFromDay(n + 1));
    }
  }

  /** The closed form undoes the walk: every integer is the count of some valid date. */
  lemma CountOfWalk(n: int)
    ensures DayCount(CivilFromDay(n)) == n
  {
    var d := CivilFromDay(n);
    FlatOfWalk(n, d);
    FastIsFlat(d.year, d.month, d.day);
  }

  // ----- Order -----

  lemma {:induction false} MarchMonotone(a: int, b: int)
    requires a <= b
    ensures MarchStart(b) >= MarchStart(a) + 365 * (b - a)
    decreases b - a
  {
    if a < b {
      MarchMonotone(a, b - 1);
      MarchStep(b);
    }
  }

  /** Within the year that starts on 1 January of year y, given the two March starts around it. */
  lemma YearSpan(d: Date, prev: int, cur: int)
    requires Valid(d) && cur - prev == if IsLeap(d.year) then 366 else 365
    ensures prev + 306 <= (if d.month <= 2 then prev else cur) + DayOfMarchYear(d.month, d.day) < cur + 306
  {
  }

  lemma SameYearOrder(a: Date, b: Date, prev: int, cur: int)
    requires Valid(a) && Valid(b) && a.year == b.year && Before(a, b)
    requires cur - prev == if IsLeap(a.year) then 366 else 365
    ensures (if a.month <= 2 then prev else cur) + DayOfMarchYear(a.month, a.day)
          < (if b.month <= 2 then prev else cur) + DayOfMarchYear(b.month, b.day)
  {
  }

  lemma BeforeIsLess(a: Date, b: Date)
    requires Valid(a) && Valid(b) && Before(a, b)
    ensures Flat(a.year, a.month, a.day) < Flat(b.year, b.month, b.day)
  {
    hide MarchStart, DayOfMarchYear, DaysInMonth;
    MarchStep(a.year);
    MarchStep(b.year);
    if a.year < b.year {
      YearSpan(a, MarchStart(a.year - 1), MarchStart(a.year));
      YearSpan(b, MarchStart(b.year - 1), MarchStart(b.year));
      MarchMonotone(a.year, b.year - 1);
    } else {
      SameYearOrder(a, b, MarchStart(a.year - 1), MarchStart(a.year));
    }
  }

  lemma BeforeCountsLess(a: Date, b: Date)
    requires Valid(a) && Valid(b) && Before(a, b)
    ensures DayCount(a) < DayCount(b)
  {
    BeforeIsLess(a, b);
    FastIsFlat(a.year, a.month, a.day);
    FastIsFlat(b.year, b.month, b.day);
  }

  /** Counting keeps calendar order in both directions. */
  lemma OrderPreserved(a: Date, b: Date)
    requires Valid(a) && Valid(b)
    ensures Before(a, b) <==> DayCount(a) < DayCount(b)
    ensures NotAfter(a, b) <==> DayCount(a) <= DayCount(b)
    ensures a == b <==> DayCount(a) == DayCount(b)
  {
    if Before(a, b) {
      BeforeCountsLess(a, b);
    } else if Before(b, a) {
      BeforeCountsLess(b, a);
    }
  }

  /** The walk undoes the closed form: with CountOfWalk, a bijection between the
      valid dates and the integers, for every year, past and future. */
  lemma WalkOfCount(d: Date)
    requires Valid(d)
    ensures CivilFromDay(DayCount(d)) == d
  {
    CountOfWalk(DayCount(d));
    OrderPreserved(CivilFromDay(DayCount(d)), d);
  }

  // ----- Dates the parser lets through that no calendar has -----

  /** The code never checks month or day. A day number past the month's end rolls over
      into the following months, one calendar day for each day of excess. */
  lemma DayOverflowRolls(y: int, m: int, d: int)
    requires 1 <= m <= 12
    ensures CivilFromDay(DaysFromCivil(y, m, 1)) == Date(y, m, 1)
    ensures DaysFromCivil(y, m, d + 1) == DaysFromCivil(y, m, d) + 1
  {
    WalkOfCount(Date(y, m, 1));
  }

  /** Months 0, 13 and 14 read as the neighbouring year's December, January and February. */
  lemma MonthOverflow(y: int, d: int)
    ensures DaysFromCivil(y, 0, d) == DaysFromCivil(y - 1, 12, d)
    ensures DaysFromCivil(y, 13, d) == DaysFromCivil(y + 1, 1, d)
    ensures DaysFromCivil(y, 14, d) == DaysFromCivil(y + 1, 2, d)
  {
    assert DaysFromCivil(y, 0, d) == DaysFromCivil(y - 1, 12, d);
    assert DaysFromCivil(y, 13, d) == DaysFromCivil(y + 1, 1, d);
  }

  /** From March on every five months of the formula are 153 days, also past December. */
  lemma FiveMonths(y: int, m: int, d: int)
    requires m >= 3
    ensures DaysFromCivil(y, m + 5, d) == DaysFromCivil(y, m, d) + 153
  {
    FastIsFlat(y, m, d);
    FastIsFlat(y, m + 5, d);
    hide DaysFromCivil, MarchStart;
  }

  /** Year and month that a calendar means by month m of year y, months past December
      counting on into the following years and month 0 being the December before. */
  function RollMonth(y: int, m: int): (int, int) {
    (y + (m - 1) / 12, (m - 1) % 12 + 1)
  }

  lemma {:induction false} MarchAtMost(z: int, a: nat)
    ensures MarchStart(z + a) <= MarchStart(z) + 366 * a
    decreases a
  {
    if a > 0 {
      MarchAtMost(z, a - 1);
      MarchStep(z + a);
      hide MarchStart;
    }
  }

  /** Months since March, years of twelve of them taken off: each such year is 367 days or
      more of the formula. */
  lemma LateMonths(a: nat, b: int)
    requires 0 <= b < 12
    ensures (153 * (12 * a + b) + 2) / 5 >= (153 * b + 2) / 5 + 367 * a
  {
    assert 153 * (12 * a + b) + 2 == (153 * b + 2) + 5 * (367 * a) + a;
  }

  /** A month number counted from March, against the month a calendar means by it. */
  lemma RolledFlat(y: int, m: int, d: int)
    requires m >= 3
    ensures var a, b := (m - 3) / 12, (m - 3) % 12;
            var (ry, rm) := RollMonth(y, m);
            Flat(ry, rm, d) == MarchStart(y + a) + (153 * b + 2) / 5 + d - 1
  {
    hide MarchStart;
    var a, b := (m - 3) / 12, (m - 3) % 12;
    if b < 10 {
      assert (m - 1) / 12 == a && (m - 1) % 12 == b + 2;
    } else {
      assert (m - 1) / 12 == a + 1 && (m - 1) % 12 == b - 10;
    }
  }

  lemma EarlyRoll(y: int, m: int, d: int)
    requires 0 <= m < 3
    ensures var (ry, rm) := RollMonth(y, m); DaysFromCivil(y, m, d) == DaysFromCivil(ry, rm, d)
  {
    MonthOverflow(y, d);
    hide DaysFromCivil;
  }

  lemma LateFlat(y: int, m: int, d: int)
    requires m >= 3
    ensures var a, b := (m - 3) / 12, (m - 3) % 12;
            && 0 <= b < 12 && (a >= 1 <==> m >= 15)
            && Flat(y, m, d) == MarchStart(y) + (153 * (12 * a + b) + 2) / 5 + d - 1
  {
    hide MarchStart;
    assert m - 3 == 12 * ((m - 3) / 12) + (m - 3) % 12;
  }

  /** How far the formula is ahead of the calendar, from the two counts and the days in a years. */
  lemma Ahead(a: nat, b: int, start: int, later: int, count: int, rolled: int, d: int)
    requires 0 <= b < 12 && later <= start + 366 * a && (a == 0 ==> later == start)
    requires count == start + (153 * (12 * a + b) + 2) / 5 + d - 1
    requires rolled == later + (153 * b + 2) / 5 + d - 1
    ensures count >= rolled + a && (a == 0 ==> count == rolled)
  {
    LateMonths(a, b);
  }

  /** The months that read as a calendar reads them are exactly those up to 14, whatever
      the year and day. Each full year of months past the next February puts the date at
      least one more day too far. */
  lemma MonthRollsExactly(y: int, m: int, d: int)
    requires m >= 0
    ensures var (ry, rm) := RollMonth(y, m);
            && (DaysFromCivil(y, m, d) == DaysFromCivil(ry, rm, d) <==> m <= 14)
            && (m >= 3 ==> DaysFromCivil(y, m, d) >= DaysFromCivil(ry, rm, d) + (m - 3) / 12)
  {
    var (ry, rm) := RollMonth(y, m);
    if m < 3 {
      EarlyRoll(y, m, d);
      hide DaysFromCivil, RollMonth;
    } else {
      FastIsFlat(y, m, d);
      FastIsFlat(ry, rm, d);
      RolledFlat(y, m, d);
      LateFlat(y, m, d);
      hide DaysFromCivil, MarchStart, Flat, RollMonth;
      var a, b := (m - 3) / 12, (m - 3) % 12;
      MarchAtMost(y, a);
      Ahead(a, b, MarchStart(y), MarchStart(y + a), DaysFromCivil(y, m, d), DaysFromCivil(ry, rm, d), d);
    }
  }

  lemma MarchCycle(z: int)
    ensures MarchStart(z + 400) == MarchStart(z) + 146_097
  {
    assert (z + 400) / 4 == z / 4 + 100;
    assert (z + 400) / 100 == z / 100 + 4;
    assert (z + 400) / 400 == z / 400 + 1;
  }

  lemma FlatCycle(y: int, m: int, d: int)
    ensures Flat(y + 400, m, d) == Flat(y, m, d) + 146_097
  {
    MarchCycle(if m <= 2 then y - 1 else y);
  }

  /** The calendar repeats every 400 years, a whole number of weeks. */
  lemma FourCenturies(y: int, m: int, d: int)
    requires Valid(Date(y, m, d))
    ensures Valid(Date(y + 400, m, d))
    ensures DaysFromCivil(y + 400, m, d) == DaysFromCivil(y, m, d) + 7 * 20_871
  {
    FastIsFlat(y, m, d);
    FastIsFlat(y + 400, m, d);
    FlatCycle(y, m, d);
  }
}
