/**
 * Period keys of the digest: the local calendar date, and the week date of section
 * 4.1.4 of ISO 8601:2004. Days are numbered from 1970-01-01, as `Date.UTC` does.
 */
module WeekKeys {
  import opened Prelude
  import Decimal

  // ---- the proleptic Gregorian calendar ------------------------------------

  predicate IsLeap(y: int) {
    y % 4 == 0 && (y % 100 != 0 || y % 400 == 0)
  }

  function YearLength(y: int): int {
    if IsLeap(y) then 366 else 365
  }

  /** Day number of January 1st of year `y`. */
  function YearStart(y: int): int {
    365 * (y - 1970) + (y - 1) / 4 - (y - 1) / 100 + (y - 1) / 400 - 477
  }

  lemma {:induction false} YearStartStep(y: int)
    ensures YearStart(y + 1) == YearStart(y) + YearLength(y)
    ensures YearStart(1970) == 0
  {
    QuotientStep(y, 4);
    QuotientStep(y, 100);
    QuotientStep(y, 400);
    LeapRules(y);
  }

  lemma {:induction false} LeapRules(y: int)
    ensures y % 400 == 0 ==> y % 100 == 0
    ensures y % 100 == 0 ==> y % 4 == 0
  {
    if y % 400 == 0 {
      QuotientUnique(y, 100, 4 * (y / 400), 0);
    }
    if y % 100 == 0 {
      QuotientUnique(y, 4, 25 * (y / 100), 0);
    }
  }

  lemma {:induction false} QuotientStep(y: int, k: nat)
    requires k in {4, 100, 400}
    ensures y / k == (y - 1) / k + if y % k == 0 then 1 else 0
  {
  }

  function MonthDays(y: int, m: int): int {
    if m == 2 then (if IsLeap(y) then 29 else 28)
    else if m in {4, 6, 9, 11} then 30
    else 31
  }

  function DaysBeforeMonth(y: int, m: int): int
    requires 1 <= m <= 13
  {
    if m == 1 then 0 else DaysBeforeMonth(y, m - 1) + MonthDays(y, m - 1)
  }

  datatype Date = Date(year: int, month: int, day: int)

  predicate ValidDate(d: Date) {
    1 <= d.month <= 12 && 1 <= d.day <= MonthDays(d.year, d.month)
  }

  function DayNumber(d: Date): int
    requires ValidDate(d)
  {
    YearStart(d.year) + DaysBeforeMonth(d.year, d.month) + d.day - 1
  }

  lemma {:induction false} MonthTable(y: int)
    ensures DaysBeforeMonth(y, 7) == YearLength(y) - 184
    ensures DaysBeforeMonth(y, 13) == YearLength(y)
  {
    assert DaysBeforeMonth(y, 1) == 0;
    assert DaysBeforeMonth(y, 2) == 31;
    assert DaysBeforeMonth(y, 3) == 31 + MonthDays(y, 2);
    assert DaysBeforeMonth(y, 5) == DaysBeforeMonth(y, 3) + 61;
    assert DaysBeforeMonth(y, 7) == DaysBeforeMonth(y, 5) + 61;
    assert DaysBeforeMonth(y, 9) == DaysBeforeMonth(y, 7) + 62;
    assert DaysBeforeMonth(y, 11) == DaysBeforeMonth(y, 9) + 61;
    assert DaysBeforeMonth(y, 13) == DaysBeforeMonth(y, 11) + 61;
  }

  lemma {:induction false} MonthsAdd(y: int, m: int, m': int)
    requires 1 <= m < m' <= 13
    ensures DaysBeforeMonth(y, m) + MonthDays(y, m) <= DaysBeforeMonth(y, m')
    decreases m'
  {
    if m < m' - 1 {
      MonthsAdd(y, m, m' - 1);
    }
  }

  lemma {:induction false} DayInsideYear(d: Date)
    requires ValidDate(d)
    ensures YearStart(d.year) <= DayNumber(d) < YearStart(d.year + 1)
  {
    MonthsAdd(d.year, d.month, 13);
    MonthTable(d.year);
    YearStartStep(d.year);
    BeforeMonthNonNegative(d.year, d.month);
  }

  lemma {:induction false} BeforeMonthNonNegative(y: int, m: int)
    requires 1 <= m <= 13
    ensures DaysBeforeMonth(y, m) >= 0
  {
    if m > 1 {
      BeforeMonthNonNegative(y, m - 1);
    }
  }

  lemma {:induction false} YearStartGrows(y: int, y': int)
    requires y < y'
    ensures YearStart(y + 1) <= YearStart(y')
    decreases y' - y
  {
    if y + 1 < y' {
      YearStartGrows(y, y' - 1);
      YearStartStep(y' - 1);
    }
  }

  predicate Earlier(a: Date, b: Date) {
    a.year < b.year || (a.year == b.year && (a.month < b.month || (a.month == b.month && a.day < b.day)))
  }

  /** Day numbers follow the calendar order, so distinct dates have distinct numbers. */
  lemma {:induction false} DayNumberFollowsCalendar(a: Date, b: Date)
    requires ValidDate(a) && ValidDate(b)
    ensures DayNumber(a) < DayNumber(b) <==> Earlier(a, b)
    ensures DayNumber(a) == DayNumber(b) <==> a == b
  {
    EarlierIsSmaller(a, b);
    EarlierIsSmaller(b, a);
  }

  lemma {:induction false} EarlierIsSmaller(a: Date, b: Date)
    requires ValidDate(a) && ValidDate(b)
    ensures Earlier(a, b) ==> DayNumber(a) < DayNumber(b)
  {
    if a.year < b.year {
      DayInsideYear(a);
      DayInsideYear(b);
      YearStartGrows(a.year, b.year);
    } else if a.year == b.year && a.month < b.month {
      MonthsAdd(a.year, a.month, b.month);
    }
  }

  /** `getUTCFullYear` of a day, counted up from a year known to start no later. */
  function YearFrom(y: int, n: int): (r: int)
    requires YearStart(y) <= n
    ensures r >= y && YearStart(r) <= n < YearStart(r + 1)
    decreases n - YearStart(y)
  {
    YearStartStep(y);
    if n < YearStart(y + 1) then y else YearFrom(y + 1, n)
  }

  function YearOf(n: int): (r: int)
    requires YearStart(1) <= n
    ensures r >= 1 && YearStart(r) <= n < YearStart(r + 1)
  {
    YearFrom(1, n)
  }

  // ---- weekdays and weeks --------------------------------------------------

  /** `getUTCDay`: 0 = Sunday .. 6 = Saturday; day 0 was a Thursday. */
  function Weekday(n: int): int {
    (n + 4) % 7
  }

  /** Some Monday starts a seven-day week that holds both days. */
  ghost predicate SameWeek(a: int, b: int) {
    exists monday :: Weekday(monday) == 1 && monday <= a < monday + 7 && monday <= b < monday + 7
  }

  /** Weeks numbered on end; week 0 runs from Monday 1969-12-29. */
  function WeekIndex(n: int): int {
    (n + 3) / 7
  }

  lemma {:induction false} SameWeekIff(a: int, b: int)
    ensures SameWeek(a, b) <==> WeekIndex(a) == WeekIndex(b)
  {
    if WeekIndex(a) == WeekIndex(b) {
      var monday := 7 * WeekIndex(a) - 3;
      assert Weekday(monday) == 1;
    }
    if SameWeek(a, b) {
      var monday :| Weekday(monday) == 1 && monday <= a < monday + 7 && monday <= b < monday + 7;
      MondayStartsWeek(monday, a);
      MondayStartsWeek(monday, b);
    }
  }

  lemma MondayStartsWeek(monday: int, n: int)
    requires Weekday(monday) == 1 && monday <= n < monday + 7
    ensures WeekIndex(n) == WeekIndex(monday)
  {
    assert monday + 3 == 7 * WeekIndex(monday);
  }

  // ---- the keys ------------------------------------------------------------

  /** `Date.UTC` reads the years 0 to 99 as 1900 to 1999. */
  function UtcYear(y: int): int {
    if 0 <= y <= 99 then 1900 + y else y
  }

  /** The Thursday of the week of day `n`: `d.setUTCDate(d.getUTCDate() + 4 - isoDay)`. */
  function ThursdayOf(n: int): int {
    var isoDay := if Weekday(n) == 0 then 7 else Weekday(n);
    n + 4 - isoDay
  }

  datatype WeekDate = WeekDate(year: int, week: int)

  /** Year and week number as the key computes them. */
  function WeekDateOf(d: Date): WeekDate
    requires ValidDate(d) && d.year >= 101
  {
    var n := DayNumber(d.(year := UtcYear(d.year)));
    var thursday := ThursdayOf(n);
    ThursdayInRange(d);
    var year := YearOf(thursday);
    var sinceYearStart := thursday - YearStart(UtcYear(year));
    WeekDate(year, (sinceYearStart + 1 + 6) / 7)
  }

  lemma {:induction false} ThursdayInRange(d: Date)
    requires ValidDate(d) && d.year >= 101
    ensures ThursdayOf(DayNumber(d)) == 7 * WeekIndex(DayNumber(d))
    ensures YearStart(1) <= YearStart(100) <= ThursdayOf(DayNumber(d))
    ensures YearOf(ThursdayOf(DayNumber(d))) >= 100
  {
    ThursdayIsMultiple(DayNumber(d));
    ThursdayAfterYear100(d);
    YearOfAtLeast(ThursdayOf(DayNumber(d)), 100);
  }

  lemma {:induction false} ThursdayIsMultiple(n: int)
    ensures ThursdayOf(n) == 7 * WeekIndex(n)
  {
  }

  lemma {:induction false} ThursdayAfterYear100(d: Date)
    requires ValidDate(d) && d.year >= 101
    ensures YearStart(100) <= ThursdayOf(DayNumber(d))
  {
    DayInsideYear(d);
    YearStartGrows(100, d.year);
    YearStartStep(100);
    assert ThursdayOf(DayNumber(d)) >= DayNumber(d) - 3;
  }

  lemma {:induction false} YearOfAtLeast(n: int, y: int)
    requires y > 1 && YearStart(y) <= n
    ensures YearStart(1) <= YearStart(y) && YearOf(n) >= y
  {
    YearStartGrows(1, y);
    YearStartStep(1);
    if YearOf(n) < y {
      YearStartGrows(YearOf(n), y);
    }
  }

  /** Where the week's Thursday lies in the key's year: at most 52 whole weeks after its start. */
  lemma {:induction false} WeekDateFacts(d: Date)
    requires ValidDate(d) && d.year >= 101
    ensures
      var w, thursday := WeekDateOf(d), 7 * WeekIndex(DayNumber(d));
      && w.year >= 100 && 1 <= w.week <= 53
      && YearStart(w.year) <= thursday < YearStart(w.year + 1)
      && YearStart(w.year) + 7 * (w.week - 1) <= thursday < YearStart(w.year) + 7 * w.week
  {
    ThursdayInRange(d);
    YearStartStep(WeekDateOf(d).year);
  }

  predicate Before(a: WeekDate, b: WeekDate) {
    a.year < b.year || (a.year == b.year && a.week < b.week)
  }

  /** Later weeks get strictly later (year, week) pairs. */
  lemma {:induction false} WeekDatesIncrease(a: Date, b: Date)
    requires ValidDate(a) && ValidDate(b) && a.year >= 101 && b.year >= 101
    requires WeekIndex(DayNumber(a)) < WeekIndex(DayNumber(b))
    ensures Before(WeekDateOf(a), WeekDateOf(b))
  {
    WeekDateFacts(a);
    WeekDateFacts(b);
    var ya, yb := WeekDateOf(a).year, WeekDateOf(b).year;
    if yb < ya {
      YearStartGrows(yb, ya);
    }
  }

  /** Days of one week get the same pair. */
  lemma {:induction false} WeekDateOfWeek(a: Date, b: Date)
    requires ValidDate(a) && ValidDate(b) && a.year >= 101 && b.year >= 101
    requires WeekIndex(DayNumber(a)) == WeekIndex(DayNumber(b))
    ensures WeekDateOf(a) == WeekDateOf(b)
  {
    ThursdayInRange(a);
    ThursdayInRange(b);
  }

  /** `${d.getUTCFullYear()}-W${String(week).padStart(2, '0')}` */
  function WeeklyKey(d: Date): string
    requires ValidDate(d) && d.year >= 101
  {
    WeekDateFacts(d);
    var w := WeekDateOf(d);
    KeyText(w.year, w.week)
  }

  /** `${year}-${month}-${day}`, the last two padded to two digits. */
  function DailyKey(d: Date): string
    requires ValidDate(d) && d.year >= 0
  {
    Decimal.Render(d.year) + "-" + (Decimal.PadLeft(Decimal.Render(d.month), 2) + "-" +
    Decimal.PadLeft(Decimal.Render(d.day), 2))
  }

  /** The digits before the first dash of a key are the same in equal keys. */
  lemma {:induction false} DigitsBeforeDash(a: string, b: string, x: string, y: string)
    requires Decimal.AllDigits(a) && Decimal.AllDigits(b)
    requires a + ("-" + x) == b + ("-" + y)
    ensures a == b && x == y
  {
    DigitsNoLonger(a, b, x, y);
    DigitsNoLonger(b, a, y, x);
    assert a == (a + ("-" + x))[..|a|] == (b + ("-" + y))[..|a|] == b;
    assert x == (a + ("-" + x))[|a| + 1..] == (b + ("-" + y))[|a| + 1..] == y;
  }

  lemma {:induction false} DigitsNoLonger(a: string, b: string, x: string, y: string)
    requires Decimal.AllDigits(a) && Decimal.AllDigits(b)
    requires a + ("-" + x) == b + ("-" + y)
    ensures |b| <= |a|
  {
    var key := a + ("-" + x);
    assert key[|a|] == '-';
  }

  lemma {:induction false} PaddedInjective(m: nat, n: nat)
    requires Decimal.PadLeft(Decimal.Render(m), 2) == Decimal.PadLeft(Decimal.Render(n), 2)
    ensures m == n
  {
    Decimal.PadKeepsValue(Decimal.Render(m), 2);
    Decimal.PadKeepsValue(Decimal.Render(n), 2);
    Decimal.RenderParses(m);
    Decimal.RenderParses(n);
  }

  lemma {:induction false} WeeklyKeyInjective(a: Date, b: Date)
    requires ValidDate(a) && ValidDate(b) && a.year >= 101 && b.year >= 101
    ensures WeeklyKey(a) == WeeklyKey(b) <==> WeekDateOf(a) == WeekDateOf(b)
  {
    WeekDateFacts(a);
    WeekDateFacts(b);
    var wa, wb := WeekDateOf(a), WeekDateOf(b);
    if WeeklyKey(a) == WeeklyKey(b) {
      KeyTextInjective(wa.year, wa.week, wb.year, wb.week);
    }
  }

  function KeyText(year: nat, week: nat): string {
    Decimal.Render(year) + "-W" + Decimal.PadLeft(Decimal.Render(week), 2)
  }

  lemma {:induction false} KeyTextInjective(y: nat, w: nat, y': nat, w': nat)
    requires KeyText(y, w) == KeyText(y', w')
    ensures y == y' && w == w'
  {
    var r, r' := Decimal.Render(y), Decimal.Render(y');
    var p, p' := Decimal.PadLeft(Decimal.Render(w), 2), Decimal.PadLeft(Decimal.Render(w'), 2);
    assert r + "-W" + p == r + ("-" + ("W" + p)) && r' + "-W" + p' == r' + ("-" + ("W" + p'));
    DigitsBeforeDash(r, r', "W" + p, "W" + p');
    assert p == ("W" + p)[1..] == ("W" + p')[1..] == p';
    PaddedInjective(w, w');
    Decimal.RenderInjective(y, y');
  }

  /** Two dates get the same weekly key exactly when they fall in the same Monday-to-Sunday week. */
  lemma {:induction false} SameWeeklyKeyIff(a: Date, b: Date)
    requires ValidDate(a) && ValidDate(b) && a.year >= 101 && b.year >= 101
    ensures WeeklyKey(a) == WeeklyKey(b) <==> SameWeek(DayNumber(a), DayNumber(b))
  {
    WeeklyKeyInjective(a, b);
    SameWeekIff(DayNumber(a), DayNumber(b));
    var i, j := WeekIndex(DayNumber(a)), WeekIndex(DayNumber(b));
    if i < j {
      WeekDatesIncrease(a, b);
    } else if j < i {
      WeekDatesIncrease(b, a);
    } else {
      WeekDateOfWeek(a, b);
    }
  }

  /** Two dates get the same daily key exactly when they are the same date. */
  lemma {:induction false} SameDailyKeyIff(a: Date, b: Date)
    requires ValidDate(a) && ValidDate(b) && a.year >= 0 && b.year >= 0
    ensures DailyKey(a) == DailyKey(b) <==> a == b
  {
    hide Decimal.Render, Decimal.PadLeft, MonthDays;
    if DailyKey(a) == DailyKey(b) {
      var ma, mb := Decimal.PadLeft(Decimal.Render(a.month), 2), Decimal.PadLeft(Decimal.Render(b.month), 2);
      var da, db := Decimal.PadLeft(Decimal.Render(a.day), 2), Decimal.PadLeft(Decimal.Render(b.day), 2);
      assert DailyKey(a) == Decimal.Render(a.year) + ("-" + (ma + "-" + da));
      assert DailyKey(b) == Decimal.Render(b.year) + ("-" + (mb + "-" + db));
      DigitsBeforeDash(Decimal.Render(a.year), Decimal.Render(b.year), ma + "-" + da, mb + "-" + db);
      assert ma + "-" + da == ma + ("-" + da) && mb + "-" + db == mb + ("-" + db);
      DigitsBeforeDash(ma, mb, da, db);
      PaddedInjective(a.month, b.month);
      PaddedInjective(a.day, b.day);
      Decimal.RenderInjective(a.year, b.year);
    }
  }

  // ---- reading a key back ----------------------------------------------------

  function FirstDash(s: string): (i: nat)
    ensures i <= |s|
  {
    if s == "" || s[0] == '-' then 0 else 1 + FirstDash(s[1..])
  }

  function ReadNumber(s: string): Option<nat> {
    if s != "" && Decimal.AllDigits(s) then Some(Decimal.Parse(s)) else None
  }

  /** year-month-day */
  function ReadDailyKey(s: string): Option<Date> {
    var i := FirstDash(s);
    if i == |s| then None
    else
      var rest := s[i + 1..];
      var j := FirstDash(rest);
      if j == |rest| then None
      else
        var year, month, day := ReadNumber(s[..i]), ReadNumber(rest[..j]), ReadNumber(rest[j + 1..]);
        if year.Some? && month.Some? && day.Some? then Some(Date(year.value, month.value, day.value)) else None
  }

  /** year-Wweek */
  function ReadWeeklyKey(s: string): Option<WeekDate> {
    var i := FirstDash(s);
    if i + 1 >= |s| || s[i + 1] != 'W' then None
    else
      var year, week := ReadNumber(s[..i]), ReadNumber(s[i + 2..]);
      if year.Some? && week.Some? then Some(WeekDate(year.value, week.value)) else None
  }

  lemma {:induction false} DashAfterDigits(a: string, x: string)
    requires Decimal.AllDigits(a)
    ensures FirstDash(a + ("-" + x)) == |a|
    ensures (a + ("-" + x))[..|a|] == a && (a + ("-" + x))[|a| + 1..] == x
  {
    var s := a + ("-" + x);
    if a != "" {
      assert Decimal.IsDigit(a[0]) && s[0] == a[0];
      assert s[1..] == a[1..] + ("-" + x);
      assert Decimal.AllDigits(a[1..]) by {
        forall i | 0 <= i < |a[1..]| ensures Decimal.IsDigit(a[1..][i]) {
          assert a[1..][i] == a[i + 1];
        }
      }
      DashAfterDigits(a[1..], x);
    }
  }

  lemma {:induction false} NumberReadsBack(n: nat, width: nat)
    ensures ReadNumber(Decimal.Render(n)) == Some(n)
    ensures ReadNumber(Decimal.PadLeft(Decimal.Render(n), width)) == Some(n)
  {
    Decimal.RenderParses(n);
    Decimal.PadKeepsValue(Decimal.Render(n), width);
  }

  /** A daily key reads back as its date. */
  lemma {:induction false} DailyKeyReadsBack(d: Date)
    requires ValidDate(d) && d.year >= 0
    ensures ReadDailyKey(DailyKey(d)) == Some(d)
  {
    hide Decimal.Render, Decimal.PadLeft, Decimal.Parse, FirstDash, MonthDays;
    var y, m, n := Decimal.Render(d.year), Decimal.PadLeft(Decimal.Render(d.month), 2), Decimal.PadLeft(Decimal.Render(d.day), 2);
    var rest := m + ("-" + n);
    assert DailyKey(d) == y + ("-" + rest) by {
      assert m + "-" + n == rest;
      assert y + "-" + rest == y + ("-" + rest);
    }
    DashAfterDigits(y, rest);
    DashAfterDigits(m, n);
    NumberReadsBack(d.year, 2);
    NumberReadsBack(d.month, 2);
    NumberReadsBack(d.day, 2);
  }

  /** A weekly key reads back as its year and week. */
  lemma {:induction false} WeeklyKeyReadsBack(d: Date)
    requires ValidDate(d) && d.year >= 101
    ensures ReadWeeklyKey(WeeklyKey(d)) == Some(WeekDateOf(d))
  {
    WeekDateFacts(d);
    var w := WeekDateOf(d);
    hide Decimal.Render, Decimal.PadLeft, Decimal.Parse, FirstDash, WeekDateOf, MonthDays;
    var y, p := Decimal.Render(w.year), Decimal.PadLeft(Decimal.Render(w.week), 2);
    var s := y + ("-" + ("W" + p));
    assert WeeklyKey(d) == s by {
      assert y + "-W" + p == s;
    }
    DashAfterDigits(y, "W" + p);
    assert s[|y| + 1] == 'W' && s[|y| + 2..] == p;
    NumberReadsBack(w.year, 2);
    NumberReadsBack(w.week, 2);
  }
}
