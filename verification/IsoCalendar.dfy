/**
 * ISO week keys of dates. A date is its proleptic Gregorian ordinal: day 1 is Monday, 1 January of year 1.
 */
module IsoCalendar {

  type Day = int

  datatype WeekKey = WeekKey(year: int, week: int)

  /** The ordinal of 1 January. */
  function YearStart(y: int): int {
    365 * (y - 1) + (y - 1) / 4 - (y - 1) / 100 + (y - 1) / 400 + 1
  }

  lemma YearLength(y: int)
    ensures 365 <= YearStart(y + 1) - YearStart(y) <= 366
  {
    var n := y - 1;
    assert n / 4 <= (n + 1) / 4 <= n / 4 + 1;
    assert n / 100 <= (n + 1) / 100 <= n / 100 + 1;
    assert n / 400 <= (n + 1) / 400 <= n / 400 + 1;
    assert (n + 1) / 100 == n / 100 + 1 ==> (n + 1) / 4 == n / 4 + 1;
    assert (n + 1) / 400 == n / 400 + 1 ==> (n + 1) / 100 == n / 100 + 1;
  }

  /** Year 1 starts on day 1, and years are 366 days long exactly in the leap years of the Gregorian calendar. */
  lemma GregorianYears(y: int)
    ensures YearStart(1) == 1
    ensures YearStart(y + 1) - YearStart(y) == if y % 4 == 0 && (y % 100 != 0 || y % 400 == 0) then 366 else 365
  {
    var n := y - 1;
    assert (n + 1) / 4 == n / 4 + if (n + 1) % 4 == 0 then 1 else 0;
    assert (n + 1) / 100 == n / 100 + if (n + 1) % 100 == 0 then 1 else 0;
    assert (n + 1) / 400 == n / 400 + if (n + 1) % 400 == 0 then 1 else 0;
    assert y % 100 == 0 ==> y % 4 == 0;
    assert y % 400 == 0 ==> y % 100 == 0;
  }

  /** The year a day lies in, found by stepping from a guess. */
  function YearFrom(d: Day, guess: int): (y: int)
    ensures YearStart(y) <= d < YearStart(y + 1)
    decreases if d < YearStart(guess) then 1 else 0,
              if d < YearStart(guess) then YearStart(guess) - d else d - YearStart(guess)
  {
    YearLength(guess);
    YearLength(guess - 1);
    if d < YearStart(guess) then YearFrom(d, guess - 1)
    else if d >= YearStart(guess + 1) then YearFrom(d, guess + 1)
    else guess
  }

  function YearOf(d: Day): (y: int)
    ensures YearStart(y) <= d < YearStart(y + 1)
  {
    YearFrom(d, 1)
  }

  lemma {:induction false} YearsApart(a: int, b: int)
    requires a <= b
    ensures YearStart(b) - YearStart(a) >= 365 * (b - a)
    decreases b - a
  {
    if a < b {
      YearsApart(a, b - 1);
      YearLength(b - 1);
    }
  }

  lemma YearIs(d: Day, y: int)
    requires YearStart(y) <= d < YearStart(y + 1)
    ensures YearOf(d) == y
  {
    var z := YearOf(d);
    if z < y {
      YearsApart(z + 1, y);
    } else if y < z {
      YearsApart(y + 1, z);
    }
  }

  /** Monday is 0. */
  function Weekday(d: Day): int {
    (d + 6) % 7
  }

  function Monday(d: Day): Day {
    d - Weekday(d)
  }

  /** The Monday that starts week 1 of a year whose first day is `first`, as the calendar module computes it. */
  function WeekOneFrom(first: Day): Day {
    if Weekday(first) > 3 then Monday(first) + 7 else Monday(first)
  }

  function WeekOne(y: int): Day {
    WeekOneFrom(YearStart(y))
  }

  /** `date.isocalendar()`, branch for branch. */
  function WeekOf(d: Day): WeekKey {
    var y := YearOf(d);
    if d < WeekOne(y) then WeekKey(y - 1, (d - WeekOne(y - 1)) / 7 + 1)
    else if (d - WeekOne(y)) / 7 >= 52 && d >= WeekOne(y + 1) then WeekKey(y + 1, 1)
    else WeekKey(y, (d - WeekOne(y)) / 7 + 1)
  }

  // ---------------------------------------------------------------- the meaning of a week date

  /**
   * The week date of section 4.1.4 of ISO 8601:2004: weeks start on Monday and belong to the year of their Thursday.
   */
  function WeekDate(d: Day): WeekKey {
    WeekStarting(Monday(d))
  }

  function WeekStarting(monday: Day): WeekKey {
    var y := YearOf(monday + 3);
    WeekKey(y, (monday + 3 - YearStart(y)) / 7 + 1)
  }

  lemma Quotient(x: int, q: int)
    requires 7 * q <= x < 7 * q + 7
    ensures x / 7 == q
  {
  }

  /** The Monday of a day, without remainders. */
  lemma MondayIndex(d: Day) returns (q: int)
    ensures Monday(d) == 7 * q + 1 && 7 * q + 1 <= d <= 7 * q + 7
  {
    q := (d - 1) / 7;
    assert (d + 6) == 7 * ((d - 1) / 7) + (d - 1) % 7 + 7;
  }

  /** Week 1 starts on the Monday of the week that holds the year's first Thursday. */
  lemma WeekOneIndex(first: Day) returns (q: int)
    ensures WeekOneFrom(first) == 7 * q + 1 && first - 3 <= 7 * q + 1 <= first + 3
  {
    q := MondayIndex(first);
    if Weekday(first) > 3 {
      q := q + 1;
    }
  }

  /** A day from the Monday of week 1 to the Sunday before the next week 1 has its Thursday in that year. */
  lemma ThursdayWithin(d: Day, first: Day, next: Day)
    requires WeekOneFrom(first) <= d < WeekOneFrom(next)
    ensures first <= Monday(d) + 3 < next
    ensures (Monday(d) + 3 - first) / 7 == (d - WeekOneFrom(first)) / 7
  {
    var a := WeekOneIndex(first);
    var b := MondayIndex(d);
    var c := WeekOneIndex(next);
    Quotient(d - WeekOneFrom(first), b - a);
    Quotient(Monday(d) + 3 - first, b - a);
  }

  lemma WithinIsoYear(d: Day, y: int)
    requires WeekOne(y) <= d < WeekOne(y + 1)
    ensures WeekDate(d) == WeekKey(y, (d - WeekOne(y)) / 7 + 1)
  {
    ThursdayWithin(d, YearStart(y), YearStart(y + 1));
    YearIs(Monday(d) + 3, y);
  }

  /** Where a day can lie, given the first days of its own year and of the years around it. */
  lemma WeekOneBounds(d: Day, before: Day, first: Day, next: Day, after: Day)
    requires first <= d < next && before + 365 <= first && first + 365 <= next && next + 365 <= after
    ensures WeekOneFrom(before) <= d < WeekOneFrom(after)
    ensures WeekOneFrom(next) <= d ==> (d - WeekOneFrom(first)) / 7 >= 52
    ensures WeekOneFrom(next) <= d ==> d < WeekOneFrom(next) + 7
  {
    var p := WeekOneIndex(before);
    var q := WeekOneIndex(first);
    var r := WeekOneIndex(next);
    var t := WeekOneIndex(after);
    if WeekOneFrom(next) <= d {
      var b := MondayIndex(d);
      Quotient(d - WeekOneFrom(first), b - q);
    }
  }

  lemma YearBounds(d: Day)
    ensures var y := YearOf(d);
            && WeekOne(y - 1) <= d < WeekOne(y + 2)
            && (WeekOne(y + 1) <= d ==> (d - WeekOne(y)) / 7 >= 52 && d < WeekOne(y + 1) + 7)
  {
    var y := YearOf(d);
    YearLength(y - 1);
    YearLength(y);
    YearLength(y + 1);
    WeekOneBounds(d, YearStart(y - 1), YearStart(y), YearStart(y + 1), YearStart(y + 2));
  }

  lemma LastYearsWeek(d: Day, y: int)
    requires y == YearOf(d) && WeekOne(y - 1) <= d < WeekOne(y)
    ensures WeekOf(d) == WeekDate(d)
  {
    WithinIsoYear(d, y - 1);
  }

  lemma ThisYearsWeek(d: Day, y: int)
    requires y == YearOf(d) && WeekOne(y) <= d < WeekOne(y + 1)
    ensures WeekOf(d) == WeekDate(d)
  {
    WithinIsoYear(d, y);
  }

  lemma NextYearsWeek(d: Day, y: int)
    requires y == YearOf(d) && WeekOne(y) <= d && WeekOne(y + 1) <= d < WeekOne(y + 2)
    requires (d - WeekOne(y)) / 7 >= 52 && d < WeekOne(y + 1) + 7
    ensures WeekOf(d) == WeekDate(d)
  {
    WithinIsoYear(d, y + 1);
    Quotient(d - WeekOne(y + 1), 0);
  }

  /** The computed week key is the week date of the standard. */
  lemma WeekOfIsWeekDate(d: Day)
    ensures WeekOf(d) == WeekDate(d)
  {
    var y := YearOf(d);
    YearBounds(d);
    if d < WeekOne(y) {
      LastYearsWeek(d, y);
    } else if d < WeekOne(y + 1) {
      ThisYearsWeek(d, y);
    } else {
      NextYearsWeek(d, y);
    }
  }

  lemma SameWeekDate(k: WeekKey, l: WeekKey, a: Day, b: Day)
    requires k == WeekDate(a) && l == WeekDate(b)
    ensures k == l <==> Monday(a) == Monday(b)
  {
    if k == l {
      SameMonday(a, b, YearStart(k.year));
    }
  }

  /** Two dates share a week key exactly when they share their Monday. */
  lemma SameWeekIff(a: Day, b: Day)
    ensures WeekOf(a) == WeekOf(b) <==> Monday(a) == Monday(b)
  {
    WeekOfIsWeekDate(a);
    WeekOfIsWeekDate(b);
    SameWeekDate(WeekOf(a), WeekOf(b), a, b);
  }

  lemma SameMonday(a: Day, b: Day, first: Day)
    requires (Monday(a) + 3 - first) / 7 == (Monday(b) + 3 - first) / 7
    ensures Monday(a) == Monday(b)
  {
    var p := MondayIndex(a);
    var q := MondayIndex(b);
  }

  lemma MondaysApart(a: Day, b: Day, n: int)
    requires a == b + 7 * n
    ensures Monday(a) == Monday(b) + 7 * n
  {
    var p := MondayIndex(b);
    var q := MondayIndex(a);
  }

  /** A key that tells calendar weeks apart and nothing else. */
  ghost predicate TellsWeeks(weekKey: Day -> WeekKey) {
    forall a: Day, b: Day :: weekKey(a) == weekKey(b) <==> Monday(a) == Monday(b)
  }

  lemma IsoKeysTellWeeks()
    ensures TellsWeeks(WeekOf)
  {
    forall a: Day, b: Day
      ensures WeekOf(a) == WeekOf(b) <==> Monday(a) == Monday(b)
    {
      SameWeekIff(a, b);
    }
  }
}
