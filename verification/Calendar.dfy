/**
The proleptic Gregorian calendar with Python's day ordinals (1 January of year 1 is day 1), and ISO week
dates as defined in section 4.1.4 of ISO 8601:2004, in the form Python computes them.
*/
module Calendar {
  import opened Options

  datatype Date = Date(year: nat, month: nat, day: nat)

  predicate IsLeap(y: nat) {
    y % 4 == 0 && (y % 100 != 0 || y % 400 == 0)
  }

  function DaysInMonth(y: nat, m: nat): (n: nat)
    ensures 28 <= n <= 31
  {
    if m == 2 then (if IsLeap(y) then 29 else 28)
    else if m == 4 || m == 6 || m == 9 || m == 11 then 30
    else 31
  }

  predicate IsDate(d: Date) {
    d.year >= 1 && 1 <= d.month <= 12 && 1 <= d.day <= DaysInMonth(d.year, d.month)
  }

  function DaysBeforeYear(y: nat): nat
    requires y >= 1
  {
    if y == 1 then 0 else DaysBeforeYear(y - 1) + YearLength(y - 1)
  }

  function DaysBeforeMonth(y: nat, m: nat): nat
    requires 1 <= m <= 13
  {
    if m == 1 then 0 else DaysBeforeMonth(y, m - 1) + DaysInMonth(y, m - 1)
  }

  function YearLength(y: nat): nat {
    if IsLeap(y) then 366 else 365
  }

  /** `date.toordinal()`. */
  function ToOrdinal(d: Date): nat
    requires IsDate(d)
  {
    DaysBeforeYear(d.year) + DaysBeforeMonth(d.year, d.month) + d.day
  }

  function FirstDay(y: nat): nat
    requires y >= 1
  {
    DaysBeforeYear(y) + 1
  }

  lemma Div4(x: nat)
    ensures (x + 1) / 4 == x / 4 + (if (x + 1) % 4 == 0 then 1 else 0)
  {
  }

  lemma Div100(x: nat)
    ensures (x + 1) / 100 == x / 100 + (if (x + 1) % 100 == 0 then 1 else 0)
  {
  }

  lemma Div400(x: nat)
    ensures (x + 1) / 400 == x / 400 + (if (x + 1) % 400 == 0 then 1 else 0)
  {
  }

  lemma MultipleOf4(k: nat)
    ensures (4 * k) % 4 == 0
  {
  }

  lemma MultipleOf100(k: nat)
    ensures (100 * k) % 100 == 0
  {
  }

  lemma LeapDivisors(y: nat)
    ensures y % 100 == 0 ==> y % 4 == 0
    ensures y % 400 == 0 ==> y % 100 == 0
  {
    if y % 100 == 0 {
      assert y == 4 * (25 * (y / 100));
      MultipleOf4(25 * (y / 100));
    }
    if y % 400 == 0 {
      assert y == 100 * (4 * (y / 400));
      MultipleOf100(4 * (y / 400));
    }
  }

  /** The closed form that the library computes. */
  lemma {:induction false} DaysBeforeYearFormula(y: nat)
    requires y >= 1
    ensures DaysBeforeYear(y) == (y - 1) * 365 + (y - 1) / 4 - (y - 1) / 100 + (y - 1) / 400
  {
    if y > 1 {
      DaysBeforeYearFormula(y - 1);
      Div4(y - 2);
      Div100(y - 2);
      Div400(y - 2);
      LeapDivisors(y - 1);
    }
  }

  lemma NextYear(y: nat)
    requires y >= 1
    ensures DaysBeforeYear(y + 1) == DaysBeforeYear(y) + YearLength(y)
  {
  }

  lemma MonthsFillYear(y: nat)
    ensures DaysBeforeMonth(y, 13) == YearLength(y)
  {
    assert DaysBeforeMonth(y, 1) == 0;
    assert DaysBeforeMonth(y, 2) == 31;
    assert DaysBeforeMonth(y, 3) == 31 + DaysInMonth(y, 2);
    assert DaysBeforeMonth(y, 4) == 62 + DaysInMonth(y, 2);
    assert DaysBeforeMonth(y, 5) == 92 + DaysInMonth(y, 2);
    assert DaysBeforeMonth(y, 6) == 123 + DaysInMonth(y, 2);
    assert DaysBeforeMonth(y, 7) == 153 + DaysInMonth(y, 2);
    assert DaysBeforeMonth(y, 8) == 184 + DaysInMonth(y, 2);
    assert DaysBeforeMonth(y, 9) == 215 + DaysInMonth(y, 2);
    assert DaysBeforeMonth(y, 10) == 245 + DaysInMonth(y, 2);
    assert DaysBeforeMonth(y, 11) == 276 + DaysInMonth(y, 2);
    assert DaysBeforeMonth(y, 12) == 306 + DaysInMonth(y, 2);
  }

  lemma {:induction false} YearsAscend(a: nat, b: nat)
    requires 1 <= a <= b
    ensures DaysBeforeYear(a) + 365 * (b - a) <= DaysBeforeYear(b)
    decreases b - a
  {
    if a < b {
      YearsAscend(a, b - 1);
      NextYear(b - 1);
    }
  }

  lemma {:induction false} MonthsAscend(y: nat, a: nat, b: nat)
    requires 1 <= a <= b <= 13
    ensures DaysBeforeMonth(y, a) + 28 * (b - a) <= DaysBeforeMonth(y, b)
    decreases b - a
  {
    if a < b {
      MonthsAscend(y, a, b - 1);
    }
  }

  function YearFrom(n: nat, y: nat): (r: nat)
    requires y >= 1 && DaysBeforeYear(y) < n
    ensures r >= y && DaysBeforeYear(r) < n <= DaysBeforeYear(r + 1)
    decreases n - DaysBeforeYear(y)
  {
    NextYear(y);
    if n <= DaysBeforeYear(y + 1) then y else YearFrom(n, y + 1)
  }

  /** The year that holds day `n`. */
  function YearOf(n: nat): (y: nat)
    requires n >= 1
    ensures y >= 1 && DaysBeforeYear(y) < n <= DaysBeforeYear(y + 1)
  {
    YearFrom(n, 1)
  }

  lemma YearOfUnique(n: nat, y: nat)
    requires y >= 1 && DaysBeforeYear(y) < n <= DaysBeforeYear(y + 1)
    ensures YearOf(n) == y
  {
    var r := YearOf(n);
    if r < y { YearsAscend(r + 1, y); }
    if y < r { YearsAscend(y + 1, r); }
  }

  function MonthFrom(y: nat, n: nat, m: nat): (r: nat)
    requires 1 <= m <= 12 && DaysBeforeMonth(y, m) < n <= DaysBeforeMonth(y, 13)
    ensures m <= r <= 12 && DaysBeforeMonth(y, r) < n <= DaysBeforeMonth(y, r + 1)
    decreases 12 - m
  {
    if n <= DaysBeforeMonth(y, m + 1) then m else MonthFrom(y, n, m + 1)
  }

  /** `date.fromordinal(n)`. */
  function FromOrdinal(n: nat): (d: Date)
    requires n >= 1
    ensures IsDate(d) && ToOrdinal(d) == n
  {
    var y := YearOf(n);
    NextYear(y);
    MonthsFillYear(y);
    var m := MonthFrom(y, n - DaysBeforeYear(y), 1);
    Date(y, m, n - DaysBeforeYear(y) - DaysBeforeMonth(y, m))
  }

  lemma OrdinalInYear(d: Date)
    requires IsDate(d)
    ensures DaysBeforeYear(d.year) < ToOrdinal(d) <= DaysBeforeYear(d.year + 1)
    ensures DaysBeforeMonth(d.year, d.month) + d.day <= DaysBeforeMonth(d.year, d.month + 1)
  {
    NextYear(d.year);
    MonthsFillYear(d.year);
    MonthsAscend(d.year, d.month + 1, 13);
  }

  lemma MonthUnique(y: nat, n: nat, m: nat, k: nat)
    requires 1 <= m <= 12 && DaysBeforeMonth(y, m) < n <= DaysBeforeMonth(y, m + 1)
    requires 1 <= k <= 12 && DaysBeforeMonth(y, k) < n <= DaysBeforeMonth(y, k + 1)
    ensures m == k
  {
    if m < k { MonthsAscend(y, m + 1, k); }
    if k < m { MonthsAscend(y, k + 1, m); }
  }

  /** A date is determined by its ordinal. */
  lemma OrdinalUnique(d: Date, e: Date)
    requires IsDate(d) && IsDate(e) && ToOrdinal(d) == ToOrdinal(e)
    ensures d == e
  {
    OrdinalInYear(d);
    OrdinalInYear(e);
    YearOfUnique(ToOrdinal(d), d.year);
    YearOfUnique(ToOrdinal(e), e.year);
    MonthUnique(d.year, ToOrdinal(d) - DaysBeforeYear(d.year), d.month, e.month);
  }

  lemma FromToOrdinal(d: Date)
    requires IsDate(d)
    ensures FromOrdinal(ToOrdinal(d)) == d
  {
    OrdinalUnique(FromOrdinal(ToOrdinal(d)), d);
  }

  /** Long and short months alternate, with July and August both long; February makes up the difference. */
  lemma MonthLengths(y: nat, m: nat)
    requires 1 <= m <= 12
    ensures DaysInMonth(y, m) == if m == 2 then YearLength(y) - 337 else 30 + (m + m / 8) % 2
  {
  }

  // ---------- Weeks ----------

  /** Monday is 0. */
  function Weekday(n: int): nat {
    (n + 6) % 7
  }

  function MondayOf(n: int): int {
    n - Weekday(n)
  }

  /** The Monday of ISO week 1: the week with the year's first Thursday. */
  function IsoWeek1Monday(y: nat): int
    requires y >= 1
  {
    var first := FirstDay(y);
    var monday := first - Weekday(first);
    if Weekday(first) > 3 then monday + 7 else monday
  }

  lemma AfterYearOne(n: nat)
    requires n >= 366
    ensures YearOf(n) >= 2 && (n >= 731 ==> YearOf(n) >= 3)
  {
    NextYear(1);
    NextYear(2);
  }

  /** `date.isocalendar()`, year and week. */
  function IsoCalendar(n: nat): (nat, nat)
    requires n >= 366
  {
    AfterYearOne(n);
    var y := YearOf(n);
    var week := (n - IsoWeek1Monday(y)) / 7;
    if week < 0 then
      (y - 1, ClampNat((n - IsoWeek1Monday(y - 1)) / 7) + 1)
    else if week >= 52 && n >= IsoWeek1Monday(y + 1) then (y + 1, 1)
    else (y, week + 1)
  }

  function ClampNat(n: int): nat {
    if n < 0 then 0 else n
  }

  predicate HasWeek(y: nat, week: nat)
    requires y >= 1
  {
    || 0 < week < 53
    || (week == 53 && (FirstDay(y) % 7 == 4 || (FirstDay(y) % 7 == 3 && IsLeap(y))))
  }

  /** `date.fromisocalendar(y, week, 1)`; `None` stands for `ValueError`. */
  function FromIsoCalendar(y: nat, week: nat): Option<int> {
    if y >= 1 && HasWeek(y, week) then Some(IsoWeek1Monday(y) + (week - 1) * 7) else None
  }

  /** What the script of the admin page computes from the Thursday of a week. */
  function WeekOfThursday(thursday: nat): (nat, nat)
    requires thursday >= 1
  {
    var y := YearOf(thursday);
    (y, (thursday - FirstDay(y) + 1 + 6) / 7)
  }

  lemma MondayIsMonday(n: int)
    ensures Weekday(MondayOf(n)) == 0
  {
    var q := (n + 6) / 7;
    assert MondayOf(n) + 6 == 7 * q;
  }

  /** Two Mondays are whole weeks apart. */
  lemma MondaysApart(a: int, b: int) returns (k: int)
    requires Weekday(a) == 0 && Weekday(b) == 0
    ensures b == a + 7 * k
  {
    k := (b + 6) / 7 - (a + 6) / 7;
  }

  lemma WeekOneHoldsFirstThursday(y: nat)
    requires y >= 1
    ensures var m := IsoWeek1Monday(y); Weekday(m) == 0 && FirstDay(y) <= m + 3 <= FirstDay(y) + 6
  {
    var first := FirstDay(y);
    MondayIsMonday(first);
    assert Weekday(MondayOf(first) + 7) == 0;
  }

  /** The script's week of a Thursday, counted in weeks from the first one of the year. */
  lemma ThursdayCount(monday: nat) returns (k: nat)
    requires monday >= 1 && Weekday(monday) == 0
    ensures var y := YearOf(monday + 3);
            WeekOfThursday(monday + 3) == (y, k + 1) && monday == IsoWeek1Monday(y) + 7 * k && HasWeek(y, k + 1)
  {
    var thursday := monday + 3;
    var y := YearOf(thursday);
    var w1 := IsoWeek1Monday(y);
    WeekOneHoldsFirstThursday(y);
    NextYear(y);
    var n := MondaysApart(w1, monday);
    k := n;
    var r := w1 + 3 - FirstDay(y);
    assert (7 * k + r + 7) / 7 == k + 1;
    if k == 52 {
      FiftyThree(FirstDay(y), w1);
    }
  }

  /** The first Thursday is the first or second day of the year, as its weekday says. */
  lemma FiftyThree(first: int, w1: int)
    requires Weekday(w1) == 0 && 0 <= w1 + 3 - first <= 1
    ensures first % 7 == if w1 + 3 == first then 4 else 3
  {
    var q := (w1 + 6) / 7;
    assert w1 + 6 == 7 * q;
    assert first == 7 * (q - 1) + (if w1 + 3 == first then 4 else 3);
  }

  /** A year has a week exactly when the Thursday of that week lies in it. */
  lemma HasWeekExact(y: nat, week: nat)
    requires y >= 1 && 1 <= week <= 53
    ensures var thursday := IsoWeek1Monday(y) + (week - 1) * 7 + 3;
            thursday >= 1 && (HasWeek(y, week) <==> YearOf(thursday) == y)
  {
    var w1, first := IsoWeek1Monday(y), FirstDay(y);
    var thursday := w1 + (week - 1) * 7 + 3;
    WeekOneHoldsFirstThursday(y);
    NextYear(y);
    if thursday <= DaysBeforeYear(y + 1) {
      YearOfUnique(thursday, y);
    }
    if week == 53 {
      FirstThursday(first, w1);
    }
  }

  /** Where the first Thursday falls, by the weekday of the first day. */
  lemma FirstThursday(first: int, w1: int)
    requires Weekday(w1) == 0 && first <= w1 + 3 <= first + 6
    ensures first % 7 == (4 + 7 - (w1 + 3 - first)) % 7
  {
    var q := (w1 + 6) / 7;
    assert w1 + 6 == 7 * q;
    assert first == 7 * (q - 2) + (11 - (w1 + 3 - first));
  }

  /** The week numbers of the script, counted from the Thursday, name the right Monday. */
  lemma ThursdayWeek(monday: nat)
    requires monday >= 1 && Weekday(monday) == 0
    ensures var (y, week) := WeekOfThursday(monday + 3); FromIsoCalendar(y, week) == Some(monday)
  {
    var k := ThursdayCount(monday);
  }

  /** The Monday lies in the same year as its Thursday. */
  lemma SameYearWeek(monday: nat, y: nat, k: nat)
    requires y >= 2 && Weekday(monday) == 0 && YearOf(monday) == y && monday == IsoWeek1Monday(y) + 7 * k
    requires monday + 3 <= DaysBeforeYear(y + 1) && monday >= 366
    ensures IsoCalendar(monday) == (y, k + 1)
  {
    WeekOneHoldsFirstThursday(y + 1);
    assert (7 * k) / 7 == k;
    assert monday < IsoWeek1Monday(y + 1);
  }

  /** The Monday lies in the last days of December, its Thursday in January. */
  lemma NewYearWeek(monday: nat, y: nat)
    requires y >= 3 && Weekday(monday) == 0 && YearOf(monday) == y - 1 && monday == IsoWeek1Monday(y)
    requires monday >= 366
    ensures IsoCalendar(monday) == (y, 1)
  {
    WeekOneHoldsFirstThursday(y - 1);
    WeekOneHoldsFirstThursday(y);
    NextYear(y - 1);
    var n := MondaysApart(IsoWeek1Monday(y - 1), monday);
    assert (7 * n) / 7 == n;
    assert 7 * n >= 359;
  }

  /** Python's week date of a Monday is the week of its Thursday. */
  lemma MondayIsoCalendar(monday: nat)
    requires Weekday(monday) == 0 && monday >= 731
    ensures IsoCalendar(monday) == WeekOfThursday(monday + 3)
  {
    var y := YearOf(monday + 3);
    var k := ThursdayCount(monday);
    AfterYearOne(monday);
    AfterYearOne(monday + 3);
    if monday > DaysBeforeYear(y) {
      YearOfUnique(monday, y);
      SameYearWeek(monday, y, k);
    } else {
      DecemberMonday(monday, y, k);
      NewYearWeek(monday, y);
    }
  }

  /** A Monday before the year of its Thursday is that year's first. */
  lemma DecemberMonday(monday: nat, y: nat, k: nat)
    requires y >= 2 && 1 <= monday <= DaysBeforeYear(y) < monday + 3 && monday == IsoWeek1Monday(y) + 7 * k
    ensures YearOf(monday) == y - 1 && k == 0
  {
    NextYear(y - 1);
    YearOfUnique(monday, y - 1);
    WeekOneHoldsFirstThursday(y);
  }
}
