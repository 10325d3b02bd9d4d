/**
Report periods: the last complete day, week or month before a moment, its label, and the period a label
names. Instants are microseconds since 1970-01-01T00:00Z; the local zone is fixed at eight hours ahead.
*/
module ReportPeriods {
  import opened Options
  import opened Calendar
  import opened Text

  const DAY := 86_400_000_000
  const OFFSET := 28_800_000_000
  const EPOCH_ORDINAL := 719163

  datatype Kind = Daily | Weekly | Monthly

  datatype Period = Period(kind: Kind, start: int, end: int, name: string)

  /** The local date of an instant, as an ordinal. */
  function LocalDay(instant: int): int {
    (instant + OFFSET) / DAY + EPOCH_ORDINAL
  }

  /** The instant at which a local date begins. */
  function Midnight(day: int): int {
    (day - EPOCH_ORDINAL) * DAY - OFFSET
  }

  /** 1993-01-01 to 9998-12-31: the fixed offset is right, and the years around have four digits. */
  predicate InRange(day: int) {
    727564 <= day < 3651695
  }

  lemma NewYear(first: Date)
    requires first.year >= 1 && first.month == 1 && first.day == 1
    ensures var y := first.year - 1; IsDate(first) && ToOrdinal(first) == y * 365 + y / 4 - y / 100 + y / 400 + 1
  {
    DaysBeforeYearFormula(first.year);
  }

  /** Instants and dates are anchored: instant 0 is eight o'clock, local time, on Thursday, 1 January 1970. */
  lemma Anchored(epoch: Date)
    requires epoch == Date(1970, 1, 1)
    ensures IsDate(epoch) && ToOrdinal(epoch) == EPOCH_ORDINAL == LocalDay(0) && Weekday(LocalDay(0)) == 3
    ensures 0 - Midnight(LocalDay(0)) == DAY / 3
  {
    NewYear(epoch);
  }

  /** The dates in range are those of whole years. */
  lemma RangeAnchored(first: Date, end: Date, day: int)
    requires first == Date(1993, 1, 1) && end == Date(9999, 1, 1)
    ensures IsDate(first) && IsDate(end) && (InRange(day) <==> ToOrdinal(first) <= day < ToOrdinal(end))
  {
    NewYear(first);
    NewYear(end);
  }

  // ---------- Labels ----------

  function Pad2(n: nat): (s: string)
    requires n < 100
    ensures |s| == 2 && AllDigits(s)
  {
    [DigitChar(n / 10), DigitChar(n % 10)]
  }

  function Pad4(n: nat): (s: string)
    requires n < 10000
    ensures |s| == 4 && AllDigits(s)
  {
    Pad2(n / 100) + Pad2(n % 100)
  }

  /** `date.isoformat()`. */
  function IsoDate(d: Date): string
    requires IsDate(d) && d.year < 10000
  {
    Pad4(d.year) + "-" + Pad2(d.month) + "-" + Pad2(d.day)
  }

  function WeekLabel(y: nat, week: nat): string
    requires week < 100
  {
    NatText(y) + "-W" + Pad2(week)
  }

  function MonthLabel(y: nat, m: nat): string
    requires m < 100
  {
    NatText(y) + "-" + Pad2(m)
  }

  // ---------- The period before a moment ----------

  lemma InRangeYear(day: int)
    requires InRange(day)
    ensures 1993 <= YearOf(day) < 9999
  {
    YearBetween(day, 1993, 9999);
  }

  lemma YearBetween(day: nat, low: nat, high: nat)
    requires 1 <= low <= high && 1 <= day
    requires (low - 1) * 365 + (low - 1) / 4 - (low - 1) / 100 + (low - 1) / 400 < day
             <= (high - 1) * 365 + (high - 1) / 4 - (high - 1) / 100 + (high - 1) / 400
    ensures low <= YearOf(day) < high
  {
    var y := YearOf(day);
    DaysBeforeYearFormula(low);
    DaysBeforeYearFormula(high);
    if y < low { YearsAscend(y + 1, low); }
    if y >= high { YearsAscend(high, y); }
  }

  /** The first of the month before the one that holds `d`. */
  function PreviousMonth(d: Date): Date {
    if d.month > 1 then Date(d.year, d.month - 1, 1) else Date(if d.year > 0 then d.year - 1 else 0, 12, 1)
  }

  function DayPeriodFor(day: int): Period
    requires InRange(day)
  {
    InRangeDate(day - 1);
    Period(Daily, Midnight(day - 1), Midnight(day), IsoDate(FromOrdinal(day - 1)))
  }

  function WeekPeriodFor(day: int): Period
    requires InRange(day)
  {
    var monday := day - (Weekday(day) + 7);
    var (y, week) := IsoCalendar(monday);
    Period(Weekly, Midnight(monday), Midnight(monday + 7), if week < 100 then WeekLabel(y, week) else "")
  }

  function MonthPeriodFor(day: int): Period
    requires InRange(day)
  {
    InRangeYear(day);
    var today := FromOrdinal(day);
    OrdinalInYear(today);
    YearOfUnique(day, today.year);
    var first := Date(today.year, today.month, 1);
    var before := PreviousMonth(first);
    Period(Monthly, Midnight(ToOrdinal(before)), Midnight(ToOrdinal(first)), MonthLabel(before.year, before.month))
  }

  /** `period_for`. */
  function PeriodFor(kind: Kind, ref: int): Period
    requires InRange(LocalDay(ref))
  {
    match kind
    case Daily => DayPeriodFor(LocalDay(ref))
    case Weekly => WeekPeriodFor(LocalDay(ref))
    case Monthly => MonthPeriodFor(LocalDay(ref))
  }

  lemma InRangeDate(day: int)
    requires InRange(day + 1)
    ensures 1992 <= FromOrdinal(day).year < 9999
  {
    YearBetween(day, 1992, 9999);
    var d := FromOrdinal(day);
    OrdinalInYear(d);
    YearOfUnique(day, d.year);
  }

  // ---------- The period a value names ----------

  /** `int(text)` of a digit string; `None` when the text is not in that canonical form. */
  function ParseInt(s: string): Option<nat> {
    if s != "" && AllDigits(s) then Some(NatValue(s)) else None
  }

  /** `datetime.fromisoformat` of a calendar date; `None` when the text is not in that canonical form. */
  function ParseDate(s: string): Option<Date> {
    if |s| == 10 && s[4] == '-' && s[7] == '-' then
      match (ParseInt(s[..4]), ParseInt(s[5..7]), ParseInt(s[8..]))
      case (Some(y), Some(m), Some(d)) => if IsDate(Date(y, m, d)) then Some(Date(y, m, d)) else None
      case _ => None
    else None
  }

  /** Position of the first `sep`, the length when there is none. */
  function Find(s: string, sep: string): (i: nat)
    ensures i <= |s|
    ensures i < |s| ==> sep <= s[i..]
  {
    if s == "" then 0 else if sep <= s then 0 else 1 + Find(s[1..], sep)
  }

  /** `split(sep, 1)` into two integers. */
  function ParsePair(s: string, sep: string): Option<(nat, nat)>
    requires sep != ""
  {
    var i := Find(s, sep);
    if i == |s| then None
    else
      match (ParseInt(s[..i]), ParseInt(s[i + |sep|..]))
      case (Some(a), Some(b)) => Some((a, b))
      case _ => None
  }

  /** `period_from_values`; `None` stands for `ValueError`, and for a value that is not in canonical form. */
  function PeriodFromValues(kind: Kind, value: string): Option<Period> {
    match kind
    case Daily => (
      match ParseDate(value)
      case None => None
      case Some(d) =>
        var day := ToOrdinal(d);
        if d.year < 10000 then Some(Period(kind, Midnight(day), Midnight(day + 1), IsoDate(d))) else None)
    case Weekly => (
      match ParsePair(value, "-W")
      case None => None
      case Some((y, week)) =>
        match FromIsoCalendar(y, week)
        case None => None
        case Some(monday) => Some(Period(kind, Midnight(monday), Midnight(monday + 7), WeekLabel(y, week))))
    case Monthly => (
      match ParsePair(value, "-")
      case None => None
      case Some((y, m)) =>
        if 1 <= y < 10000 && 1 <= m <= 12 then
          var first := Date(y, m, 1);
          var next := NextMonth(first);
          Some(Period(kind, Midnight(ToOrdinal(first)), Midnight(ToOrdinal(next)), MonthLabel(y, m)))
        else None)
  }

  // ---------- Labels read back ----------

  lemma Pad2Value(n: nat)
    requires n < 100
    ensures ParseInt(Pad2(n)) == Some(n)
  {
    var s := Pad2(n);
    assert s[..1] == [s[0]] && s[..1][..0] == "";
    assert NatValue(s[..1]) == n / 10;
  }

  lemma Pad4Value(n: nat)
    requires n < 10000
    ensures ParseInt(Pad4(n)) == Some(n)
  {
    var s := Pad4(n);
    assert s[..3][..2] == Pad2(n / 100) && s[..3] == s[..2] + [s[2]];
    Pad2Value(n / 100);
    assert NatValue(s[..3]) == n / 100 * 10 + DigitValue(s[2]);
    assert s[..|s| - 1] == s[..3];
    assert DigitValue(s[2]) == n % 100 / 10 && DigitValue(s[3]) == n % 100 % 10;
  }

  lemma DateReadsBack(d: Date)
    requires IsDate(d) && d.year < 10000
    ensures ParseDate(IsoDate(d)) == Some(d)
  {
    var s := IsoDate(d);
    assert s[..4] == Pad4(d.year) && s[5..7] == Pad2(d.month) && s[8..] == Pad2(d.day);
    Pad4Value(d.year);
    Pad2Value(d.month);
    Pad2Value(d.day);
  }

  lemma {:induction false} FindAfterDigits(digits: string, sep: string, rest: string)
    requires AllDigits(digits) && sep != "" && !IsAsciiDigit(sep[0])
    ensures Find(digits + (sep + rest), sep) == |digits|
  {
    var s := digits + (sep + rest);
    if digits == "" {
      assert s == sep + rest;
    } else {
      assert s[0] == digits[0];
      assert s[1..] == digits[1..] + (sep + rest);
      FindAfterDigits(digits[1..], sep, rest);
    }
  }

  lemma PairReadsBack(y: nat, sep: string, n: nat)
    requires n < 100 && sep != "" && !IsAsciiDigit(sep[0])
    ensures ParsePair(NatText(y) + sep + Pad2(n), sep) == Some((y, n))
  {
    var s := NatText(y) + sep + Pad2(n);
    assert s == NatText(y) + (sep + Pad2(n));
    FindAfterDigits(NatText(y), sep, Pad2(n));
    assert s[..|NatText(y)|] == NatText(y) && s[|NatText(y)| + |sep|..] == Pad2(n);
    NatTextValue(y);
    Pad2Value(n);
  }

  // ---------- The same periods, from the day on which the current one began ----------

  function WeekName(monday: nat): string
    requires monday >= 1 && Weekday(monday) == 0
  {
    var (y, week) := WeekOfThursday(monday + 3);
    if week < 100 then WeekLabel(y, week) else ""
  }

  /** The week from a Monday on, named by its Thursday. */
  function WeekPeriod(monday: nat): Period
    requires monday >= 1 && Weekday(monday) == 0
  {
    Period(Weekly, Midnight(monday), Midnight(monday + 7), WeekName(monday))
  }

  /** The month before the first of a month. */
  function MonthPeriod(first: Date): Period
    requires IsDate(first) && first.day == 1 && first.year >= 2
  {
    var p := PreviousMonth(first);
    Period(Monthly, Midnight(ToOrdinal(p)), Midnight(ToOrdinal(first)), MonthLabel(p.year, p.month))
  }

  lemma PeriodForWeek(ref: int)
    requires InRange(LocalDay(ref))
    ensures var monday := MondayOf(LocalDay(ref)) - 7;
            monday >= 1 && Weekday(monday) == 0 && PeriodFor(Weekly, ref) == WeekPeriod(monday)
  {
    var monday := LastMonday(LocalDay(ref));
    MondayIsoCalendar(monday);
  }

  lemma PeriodForMonth(ref: int)
    requires InRange(LocalDay(ref))
    ensures LocalDay(ref) >= 1
    ensures var today := FromOrdinal(LocalDay(ref));
            today.year >= 2 && today.year < 9999 && PeriodFor(Monthly, ref) == MonthPeriod(Date(today.year, today.month, 1))
  {
    var day := LocalDay(ref);
    InRangeYear(day);
    var today := FromOrdinal(day);
    OrdinalInYear(today);
    YearOfUnique(day, today.year);
  }

  // ---------- Names read back ----------

  lemma WeekLabelReads(y: nat, week: nat)
    requires week < 100
    ensures ParsePair(WeekLabel(y, week), "-W") == Some((y, week))
  {
    PairReadsBack(y, "-W", week);
  }

  lemma WeekNameReadsBack(monday: nat)
    requires monday >= 1 && Weekday(monday) == 0
    ensures var (y, week) := WeekOfThursday(monday + 3);
            && week <= 53 && WeekName(monday) == WeekLabel(y, week)
            && ParsePair(WeekName(monday), "-W") == Some((y, week)) && FromIsoCalendar(y, week) == Some(monday)
  {
    ThursdayWeek(monday);
    WeekLabelReads(WeekOfThursday(monday + 3).0, WeekOfThursday(monday + 3).1);
  }

  /** A week's name names it. */
  lemma WeekReadsBack(monday: nat)
    requires monday >= 1 && Weekday(monday) == 0
    ensures PeriodFromValues(Weekly, WeekName(monday)) == Some(WeekPeriod(monday))
  {
    WeekNameReadsBack(monday);
  }

  /** The first of the month after. */
  function NextMonth(first: Date): Date {
    if first.month == 12 then Date(first.year + 1, 1, 1) else Date(first.year, first.month + 1, 1)
  }

  lemma MonthLabelReads(y: nat, m: nat)
    requires 1 <= y < 10000 && 1 <= m <= 12
    ensures var first := Date(y, m, 1);
            PeriodFromValues(Monthly, MonthLabel(y, m))
            == Some(Period(Monthly, Midnight(ToOrdinal(first)), Midnight(ToOrdinal(NextMonth(first))), MonthLabel(y, m)))
  {
    PairReadsBack(y, "-", m);
  }

  lemma MonthReadsBack(first: Date)
    requires IsDate(first) && first.day == 1 && 2 <= first.year < 10000
    ensures PeriodFromValues(Monthly, MonthPeriod(first).name) == Some(MonthPeriod(first))
  {
    var p := PreviousMonth(first);
    assert NextMonth(p) == first;
    MonthLabelReads(p.year, p.month);
  }

  lemma DayReadsBack(ref: int)
    requires InRange(LocalDay(ref))
    ensures PeriodFromValues(Daily, PeriodFor(Daily, ref).name) == Some(PeriodFor(Daily, ref))
  {
    InRangeDate(LocalDay(ref) - 1);
    DateReadsBack(FromOrdinal(LocalDay(ref) - 1));
  }

  /** Every period is named by its own label. */
  lemma PeriodReadsBack(kind: Kind, ref: int)
    requires InRange(LocalDay(ref))
    ensures PeriodFromValues(kind, PeriodFor(kind, ref).name) == Some(PeriodFor(kind, ref))
  {
    match kind
    case Daily =>
      DayReadsBack(ref);
    case Weekly =>
      PeriodForWeek(ref);
      WeekReadsBack(MondayOf(LocalDay(ref)) - 7);
    case Monthly =>
      PeriodForMonth(ref);
      var today := FromOrdinal(LocalDay(ref));
      MonthReadsBack(Date(today.year, today.month, 1));
  }

  lemma WeekBefore(monday: int)
    requires Weekday(monday) == 0
    ensures Weekday(monday - 7) == 0
  {
    var q := (monday + 6) / 7;
    assert monday + 6 == 7 * q;
    assert monday - 7 + 6 == 7 * (q - 1);
    SevenTimes(q - 1);
  }

  lemma SevenTimes(k: int)
    ensures (7 * k) % 7 == 0
  {
  }

  lemma LastMonday(day: int) returns (monday: nat)
    requires InRange(day)
    ensures monday == day - (Weekday(day) + 7) == MondayOf(day) - 7 && Weekday(monday) == 0 && monday >= 731
  {
    MondayIsMonday(day);
    WeekBefore(MondayOf(day));
    monday := day - (Weekday(day) + 7);
  }

  // ---------- The week value of the admin page ----------

  /** `isoWeekValue`: moves the date to the Thursday of its week, in place, and counts weeks from there. */
  method IsoWeekValue(dateValue: nat) returns (name: string)
    requires MondayOf(dateValue) >= 1
    ensures Weekday(MondayOf(dateValue)) == 0 && MondayOf(dateValue) <= dateValue < MondayOf(dateValue) + 7
    ensures name == WeekName(MondayOf(dateValue))
    ensures PeriodFromValues(Weekly, name) == Some(WeekPeriod(MondayOf(dateValue)))
  {
    var date := dateValue;
    var day := if date % 7 == 0 then 7 else date % 7;
    ThursdayOf(dateValue, day);
    date := date + 4 - day;
    MondayNamed(MondayOf(dateValue));
    name := WeekText(date);
  }

  lemma ThursdayOf(date: nat, day: nat)
    requires day == if date % 7 == 0 then 7 else date % 7
    ensures date + 4 - day == MondayOf(date) + 3 && Weekday(MondayOf(date)) == 0 && MondayOf(date) <= date < MondayOf(date) + 7
  {
    MondayIsMonday(date);
    JsWeekday(date, day);
  }

  lemma MondayNamed(monday: nat)
    requires monday >= 1 && Weekday(monday) == 0
    ensures var (y, week) := WeekOfThursday(monday + 3); week < 100 && WeekName(monday) == WeekLabel(y, week)
    ensures PeriodFromValues(Weekly, WeekName(monday)) == Some(WeekPeriod(monday))
  {
    WeekNameReadsBack(monday);
    WeekReadsBack(monday);
  }

  /** The rest of the script's function, once the date is a Thursday. */
  method WeekText(thursday: nat) returns (name: string)
    requires thursday >= 1 && WeekOfThursday(thursday).1 < 100
    ensures var (y, week) := WeekOfThursday(thursday); name == WeekLabel(y, week)
  {
    var yearStart := FirstDay(YearOf(thursday));
    var week := (thursday - yearStart + 1 + 6) / 7;
    name := WeekLabel(YearOf(thursday), week);
  }

  /** Sunday is 7 in the script and 6 in Python. */
  lemma JsWeekday(n: nat, day: nat)
    requires day == if n % 7 == 0 then 7 else n % 7
    ensures day == Weekday(n) + 1
  {
    var q := n / 7;
    assert n == 7 * q + n % 7;
  }

  // ---------- Periods tile time ----------

  /** The local date of the first instant of a date is that date, and instants of a date lie within it. */
  lemma LocalDayOfMidnight(day: int)
    ensures LocalDay(Midnight(day)) == day
  {
    assert (Midnight(day) + OFFSET) == (day - EPOCH_ORDINAL) * DAY;
  }

  lemma WithinLocalDay(ref: int)
    ensures Midnight(LocalDay(ref)) <= ref < Midnight(LocalDay(ref) + 1)
  {
  }

  lemma LocalDayMonotone(a: int, b: int)
    requires a <= b
    ensures LocalDay(a) <= LocalDay(b)
  {
  }

  /** The date on which the period that holds day `day` began. */
  function PeriodStart(kind: Kind, day: int): int
    requires day >= 1
  {
    match kind
    case Daily => day
    case Weekly => MondayOf(day)
    case Monthly => day - FromOrdinal(day).day + 1
  }

  lemma PeriodForEnd(kind: Kind, ref: int)
    requires InRange(LocalDay(ref))
    ensures LocalDay(ref) >= 1 && PeriodFor(kind, ref).end == Midnight(PeriodStart(kind, LocalDay(ref)))
    ensures PeriodFor(kind, ref).start < PeriodFor(kind, ref).end <= ref
  {
    WithinLocalDay(ref);
    match kind
    case Daily =>
    case Weekly => PeriodForWeek(ref);
    case Monthly =>
      PeriodForMonth(ref);
      var today := FromOrdinal(LocalDay(ref));
      PreviousMonthEnds(Date(today.year, today.month, 1));
  }

  lemma PreviousMonthEnds(first: Date)
    requires IsDate(first) && first.day == 1 && first.year >= 2
    ensures var p := PreviousMonth(first); IsDate(p) && ToOrdinal(p) + DaysInMonth(p.year, p.month) == ToOrdinal(first)
  {
    var p := PreviousMonth(first);
    NextYear(p.year);
    MonthsFillYear(p.year);
  }

  /** The days of a month up to `b` are dates of that month. */
  lemma SameMonth(a: nat, b: nat)
    requires 1 <= a <= b && PeriodStart(Monthly, b) <= a
    ensures var d, e := FromOrdinal(a), FromOrdinal(b); d.year == e.year && d.month == e.month
  {
    var d := FromOrdinal(b);
    var e := Date(d.year, d.month, d.day - (b - a));
    assert IsDate(e) && ToOrdinal(e) == a;
    FromToOrdinal(e);
  }

  lemma SameWeek(a: int, b: int)
    requires a <= b && MondayOf(b) <= a
    ensures MondayOf(a) == MondayOf(b)
  {
    var q := (b + 6) / 7;
    assert b + 6 == 7 * q + Weekday(b);
    assert a + 6 == 7 * q + (Weekday(b) - (b - a));
  }

  lemma SameWeekPeriod(ref: int, other: int)
    requires InRange(LocalDay(ref)) && InRange(LocalDay(other))
    requires MondayOf(LocalDay(ref)) <= LocalDay(other) <= LocalDay(ref)
    ensures PeriodFor(Weekly, other) == PeriodFor(Weekly, ref)
  {
    PeriodForWeek(ref);
    PeriodForWeek(other);
    SameWeek(LocalDay(other), LocalDay(ref));
  }

  lemma SameMonthPeriod(ref: int, other: int)
    requires InRange(LocalDay(ref)) && InRange(LocalDay(other))
    requires PeriodStart(Monthly, LocalDay(ref)) <= LocalDay(other) <= LocalDay(ref)
    ensures PeriodFor(Monthly, other) == PeriodFor(Monthly, ref)
  {
    PeriodForMonth(ref);
    PeriodForMonth(other);
    SameMonth(LocalDay(other), LocalDay(ref));
  }

  /** Two days of one period have the same report. */
  lemma SamePeriod(kind: Kind, ref: int, other: int)
    requires InRange(LocalDay(ref)) && InRange(LocalDay(other))
    requires PeriodStart(kind, LocalDay(ref)) <= LocalDay(other) <= LocalDay(ref)
    ensures PeriodFor(kind, other) == PeriodFor(kind, ref)
  {
    var day, earlier := LocalDay(ref), LocalDay(other);
    if kind == Daily {
      assert earlier == day;
    } else if kind == Weekly {
      assert PeriodStart(kind, day) == MondayOf(day);
      SameWeekPeriod(ref, other);
    } else {
      SameMonthPeriod(ref, other);
    }
  }

  /**
  A report covers the last complete period: it ends where the current one began, no later than the moment
  of reference, and it is the same report for every moment of the current period. So the reports of two
  moments are the same one, or the later begins where or after the earlier ends.
  */
  lemma LastCompletePeriod(kind: Kind, other: int, ref: int)
    requires InRange(LocalDay(ref)) && InRange(LocalDay(other)) && other <= ref
    ensures PeriodFor(kind, ref).start < PeriodFor(kind, ref).end <= ref
    ensures PeriodFor(kind, ref).end <= other ==> PeriodFor(kind, other) == PeriodFor(kind, ref)
  {
    PeriodForEnd(kind, ref);
    LocalDayMonotone(other, ref);
    if PeriodFor(kind, ref).end <= other {
      LocalDayMonotone(PeriodFor(kind, ref).end, other);
      LocalDayOfMidnight(PeriodStart(kind, LocalDay(ref)));
      SamePeriod(kind, ref, other);
    }
  }

  lemma DaysMeet(ref: int)
    requires InRange(LocalDay(ref)) && InRange(LocalDay(PeriodFor(Daily, ref).start))
    ensures PeriodFor(Daily, PeriodFor(Daily, ref).start).end == PeriodFor(Daily, ref).start
  {
    DayBefore(ref);
    LocalDayOfMidnight(LocalDay(ref) - 1);
    DayBefore(PeriodFor(Daily, ref).start);
  }

  lemma DayBefore(ref: int)
    requires InRange(LocalDay(ref))
    ensures PeriodFor(Daily, ref).start == Midnight(LocalDay(ref) - 1) && PeriodFor(Daily, ref).end == Midnight(LocalDay(ref))
  {
  }

  lemma WeeksMeet(ref: int)
    requires InRange(LocalDay(ref)) && InRange(LocalDay(PeriodFor(Weekly, ref).start))
    ensures PeriodFor(Weekly, PeriodFor(Weekly, ref).start).end == PeriodFor(Weekly, ref).start
  {
    PeriodForWeek(ref);
    var monday := MondayOf(LocalDay(ref)) - 7;
    LocalDayOfMidnight(monday);
    PeriodForEnd(Weekly, PeriodFor(Weekly, ref).start);
  }

  lemma MonthsMeet(ref: int)
    requires InRange(LocalDay(ref)) && InRange(LocalDay(PeriodFor(Monthly, ref).start))
    ensures PeriodFor(Monthly, PeriodFor(Monthly, ref).start).end == PeriodFor(Monthly, ref).start
  {
    PeriodForMonth(ref);
    var today := FromOrdinal(LocalDay(ref));
    var before := PreviousMonth(Date(today.year, today.month, 1));
    LocalDayOfMidnight(ToOrdinal(before));
    PeriodForEnd(Monthly, PeriodFor(Monthly, ref).start);
    FromToOrdinal(before);
  }

  /** Consecutive periods meet: the report made during the period that a report covers ends where that one starts. */
  lemma PeriodsMeet(kind: Kind, ref: int)
    requires InRange(LocalDay(ref)) && InRange(LocalDay(PeriodFor(kind, ref).start))
    ensures PeriodFor(kind, PeriodFor(kind, ref).start).end == PeriodFor(kind, ref).start
  {
    match kind
    case Daily => DaysMeet(ref);
    case Weekly => WeeksMeet(ref);
    case Monthly => MonthsMeet(ref);
  }
}
