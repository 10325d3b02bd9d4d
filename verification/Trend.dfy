/** The trend rows of a report: audits and runtime samples gathered into labelled time buckets. */
module Trend {
  import opened Text
  import opened Calendar
  import opened ReportPeriods

  const HOUR := 3_600_000_000
  const MINUTE := 60_000_000

  datatype Audit = Audit(at: int, action: string)

  datatype Sample = Sample(at: int, cpu: real, queued: real, archive: real)

  /** Microseconds since local midnight. */
  function TimeOfDay(instant: int): nat {
    (instant + OFFSET) % DAY
  }

  function HourOf(instant: int): (h: nat)
    ensures h < 24
  {
    TimeOfDay(instant) / HOUR
  }

  function MinuteOf(instant: int): (m: nat)
    ensures m < 60
  {
    TimeOfDay(instant) % HOUR / MINUTE
  }

  /** The dates that labels spell. */
  predicate Labelled(instant: int) {
    InRange(LocalDay(instant))
  }

  function DateLabel(instant: int): string
    requires Labelled(instant)
  {
    DateInRange(LocalDay(instant));
    IsoDate(FromOrdinal(LocalDay(instant)))
  }

  lemma DateInRange(day: int)
    requires InRange(day)
    ensures FromOrdinal(day).year < 9999
  {
    InRangeYear(day);
    var d := FromOrdinal(day);
    OrdinalInYear(d);
    YearOfUnique(day, d.year);
  }

  /** A date and its even hour. */
  function HourText(date: string, h: nat): string
    requires h < 24
  {
    date + " " + Pad2(h - h % 2) + ":00"
  }

  /** `_bucket_label`: ten minutes of a day, two hours of a week, a day of a month. */
  function BucketLabel(kind: Kind, instant: int): string
    requires Labelled(instant)
  {
    match kind
    case Daily => Pad2(HourOf(instant)) + ":" + Pad2(MinuteOf(instant) - MinuteOf(instant) % 10)
    case Weekly => HourText(DateLabel(instant), HourOf(instant))
    case Monthly => DateLabel(instant)
  }

  /** The bucket's position in time: its number within the day for daily reports, since the epoch otherwise. */
  function BucketIndex(kind: Kind, instant: int): int {
    match kind
    case Daily => HourOf(instant) * 6 + MinuteOf(instant) / 10
    case Weekly => LocalDay(instant) * 12 + HourOf(instant) / 2
    case Monthly => LocalDay(instant)
  }

  // ---------- Label order is time order ----------

  lemma Pad2Order(m: nat, n: nat)
    requires m < 100 && n < 100
    ensures Before(Pad2(m), Pad2(n)) <==> m < n
    ensures Pad2(m) == Pad2(n) <==> m == n
  {
    var a, b := Pad2(m), Pad2(n);
    assert DigitValue(a[0]) == m / 10 && DigitValue(a[1]) == m % 10;
    assert DigitValue(b[0]) == n / 10 && DigitValue(b[1]) == n % 10;
    assert a[1..] == [a[1]] && b[1..] == [b[1]] && [a[1]][1..] == "" && [b[1]][1..] == "";
    assert Before([a[1]], [b[1]]) <==> m % 10 < n % 10;
    assert a[0] < b[0] <==> m / 10 < n / 10;
    assert a[0] == b[0] <==> m / 10 == n / 10;
  }

  lemma Pad4Order(m: nat, n: nat)
    requires m < 10000 && n < 10000
    ensures Before(Pad4(m), Pad4(n)) <==> m < n
    ensures Pad4(m) == Pad4(n) <==> m == n
  {
    Pad2Order(m / 100, n / 100);
    Pad2Order(m % 100, n % 100);
    BeforeConcat(Pad2(m / 100), Pad2(m % 100), Pad2(n / 100), Pad2(n % 100));
    assert Pad4(m)[..2] == Pad2(m / 100) && Pad4(m)[2..] == Pad2(m % 100);
    assert Pad4(n)[..2] == Pad2(n / 100) && Pad4(n)[2..] == Pad2(n % 100);
  }

  /** Texts in front of equal separators: the fronts decide, then what follows. */
  lemma FieldOrder(a: string, x: string, b: string, y: string, sep: string)
    requires |a| == |b|
    ensures Before(a + sep + x, b + sep + y) <==> Before(a, b) || (a == b && Before(x, y))
    ensures a + sep + x == b + sep + y <==> a == b && x == y
  {
    BeforeConcat(a, sep + x, b, sep + y);
    BeforeConcat(sep, x, sep, y);
    NotBeforeSelf(sep);
    assert a + sep + x == a + (sep + x) && b + sep + y == b + (sep + y);
    assert (a + sep + x)[..|a|] == a && (b + sep + y)[..|b|] == b;
    assert (a + sep + x)[|a| + |sep|..] == x && (b + sep + y)[|b| + |sep|..] == y;
  }

  lemma NotBeforeSelf(a: string)
    ensures !Before(a, a)
  {
    if Before(a, a) {
      BeforeAsymmetric(a, a);
    }
  }

  predicate Earlier(a: Date, b: Date) {
    a.year < b.year || (a.year == b.year && (a.month < b.month || (a.month == b.month && a.day < b.day)))
  }

  lemma EarlierOrdinal(a: Date, b: Date)
    requires IsDate(a) && IsDate(b) && Earlier(a, b)
    ensures ToOrdinal(a) < ToOrdinal(b)
  {
    OrdinalInYear(a);
    OrdinalInYear(b);
    if a.year < b.year {
      YearsAscend(a.year + 1, b.year);
    } else if a.month < b.month {
      MonthsAscend(a.year, a.month + 1, b.month);
    }
  }

  /** Two dates compare as their ordinals do. */
  lemma DateOrder(a: Date, b: Date)
    requires IsDate(a) && IsDate(b)
    ensures ToOrdinal(a) < ToOrdinal(b) <==> Earlier(a, b)
  {
    if Earlier(a, b) {
      EarlierOrdinal(a, b);
    } else if Earlier(b, a) {
      EarlierOrdinal(b, a);
    } else {
      assert a == b;
    }
  }

  lemma IsoDateOrder(a: Date, b: Date)
    requires IsDate(a) && IsDate(b) && a.year < 10000 && b.year < 10000
    ensures Before(IsoDate(a), IsoDate(b)) <==> ToOrdinal(a) < ToOrdinal(b)
    ensures IsoDate(a) == IsoDate(b) <==> ToOrdinal(a) == ToOrdinal(b)
    ensures |IsoDate(a)| == 10
  {
    DateOrder(a, b);
    DateOrder(b, a);
    Pad4Order(a.year, b.year);
    Pad2Order(a.month, b.month);
    Pad2Order(a.day, b.day);
    FieldOrder(Pad4(a.year), Pad2(a.month), Pad4(b.year), Pad2(b.month), "-");
    FieldOrder(Pad4(a.year) + "-" + Pad2(a.month), Pad2(a.day), Pad4(b.year) + "-" + Pad2(b.month), Pad2(b.day), "-");
  }

  lemma DateLabelOrder(a: int, b: int)
    requires Labelled(a) && Labelled(b)
    ensures Before(DateLabel(a), DateLabel(b)) <==> LocalDay(a) < LocalDay(b)
    ensures DateLabel(a) == DateLabel(b) <==> LocalDay(a) == LocalDay(b)
    ensures |DateLabel(a)| == |DateLabel(b)| == 10
  {
    DateInRange(LocalDay(a));
    DateInRange(LocalDay(b));
    IsoDateOrder(FromOrdinal(LocalDay(a)), FromOrdinal(LocalDay(b)));
    assert |DateLabel(b)| == 10 by { IsoDateOrder(FromOrdinal(LocalDay(b)), FromOrdinal(LocalDay(a))); }
  }

  lemma DailyLabelOrder(a: int, b: int)
    requires Labelled(a) && Labelled(b)
    ensures Before(BucketLabel(Daily, a), BucketLabel(Daily, b)) <==> BucketIndex(Daily, a) < BucketIndex(Daily, b)
    ensures BucketLabel(Daily, a) == BucketLabel(Daily, b) <==> BucketIndex(Daily, a) == BucketIndex(Daily, b)
  {
    TimeTextOrder(HourOf(a), MinuteOf(a), HourOf(b), MinuteOf(b));
  }

  lemma TimeTextOrder(h: nat, m: nat, k: nat, n: nat)
    requires h < 24 && k < 24 && m < 60 && n < 60
    ensures var a, b := Pad2(h) + ":" + Pad2(m - m % 10), Pad2(k) + ":" + Pad2(n - n % 10);
            (Before(a, b) <==> h * 6 + m / 10 < k * 6 + n / 10) && (a == b <==> h * 6 + m / 10 == k * 6 + n / 10)
  {
    Pad2Order(h, k);
    Pad2Order(m - m % 10, n - n % 10);
    FieldOrder(Pad2(h), Pad2(m - m % 10), Pad2(k), Pad2(n - n % 10), ":");
    assert m - m % 10 == 10 * (m / 10) && n - n % 10 == 10 * (n / 10);
  }

  /** A date text, an hour and a fixed end. */
  lemma HourTextOrder(d: string, h: nat, e: string, k: nat)
    requires |d| == |e| && h < 24 && k < 24
    ensures Before(HourText(d, h), HourText(e, k)) <==> Before(d, e) || (d == e && h / 2 < k / 2)
    ensures HourText(d, h) == HourText(e, k) <==> d == e && h / 2 == k / 2
  {
    var x, y := d + " " + Pad2(h - h % 2), e + " " + Pad2(k - k % 2);
    Pad2Order(h - h % 2, k - k % 2);
    FieldOrder(d, Pad2(h - h % 2), e, Pad2(k - k % 2), " ");
    SameEnd(x, y, ":00");
    assert h - h % 2 == 2 * (h / 2) && k - k % 2 == 2 * (k / 2);
  }

  lemma SameEnd(x: string, y: string, end: string)
    requires |x| == |y|
    ensures (Before(x + end, y + end) <==> Before(x, y)) && (x + end == y + end <==> x == y)
  {
    BeforeConcat(x, end, y, end);
    NotBeforeSelf(end);
    assert (x + end)[..|x|] == x && (y + end)[..|y|] == y;
  }

  lemma HourIndexOrder(d: string, m: int, h: nat, e: string, n: int, k: nat)
    requires |d| == |e| && h < 24 && k < 24
    requires (Before(d, e) <==> m < n) && (d == e <==> m == n)
    ensures Before(HourText(d, h), HourText(e, k)) <==> m * 12 + h / 2 < n * 12 + k / 2
    ensures HourText(d, h) == HourText(e, k) <==> m * 12 + h / 2 == n * 12 + k / 2
  {
    HourTextOrder(d, h, e, k);
    TwelveADay(m, h / 2, n, k / 2);
  }

  lemma WeeklyLabelOrder(a: int, b: int)
    requires Labelled(a) && Labelled(b)
    ensures Before(BucketLabel(Weekly, a), BucketLabel(Weekly, b)) <==> BucketIndex(Weekly, a) < BucketIndex(Weekly, b)
    ensures BucketLabel(Weekly, a) == BucketLabel(Weekly, b) <==> BucketIndex(Weekly, a) == BucketIndex(Weekly, b)
  {
    DateLabelOrder(a, b);
    HourIndexOrder(DateLabel(a), LocalDay(a), HourOf(a), DateLabel(b), LocalDay(b), HourOf(b));
  }

  lemma TwelveADay(d: int, x: nat, e: int, y: nat)
    requires x < 12 && y < 12
    ensures d * 12 + x < e * 12 + y <==> d < e || (d == e && x < y)
    ensures d * 12 + x == e * 12 + y <==> d == e && x == y
  {
  }

  /** Labels sort as strings exactly as their buckets follow each other in time. */
  lemma LabelOrderIsTimeOrder(kind: Kind, a: int, b: int)
    requires Labelled(a) && Labelled(b)
    ensures Before(BucketLabel(kind, a), BucketLabel(kind, b)) <==> BucketIndex(kind, a) < BucketIndex(kind, b)
    ensures BucketLabel(kind, a) == BucketLabel(kind, b) <==> BucketIndex(kind, a) == BucketIndex(kind, b)
  {
    match kind
    case Daily => DailyLabelOrder(a, b);
    case Weekly => WeeklyLabelOrder(a, b);
    case Monthly => DateLabelOrder(a, b);
  }

  /** Buckets follow time, within one day for daily reports. */
  lemma BucketsFollowTime(kind: Kind, a: int, b: int)
    requires a <= b && (kind == Daily ==> LocalDay(a) == LocalDay(b))
    ensures BucketIndex(kind, a) <= BucketIndex(kind, b)
  {
    assert LocalDay(a) <= LocalDay(b);
    if LocalDay(a) == LocalDay(b) {
      assert TimeOfDay(a) <= TimeOfDay(b);
    }
  }

  // ---------- What a row should hold ----------

  /** An audit with its label, and whether it was blocked. */
  datatype Tagged = Tagged(name: string, blocked: bool)

  /** A sample with its label. */
  datatype Placed = Placed(name: string, sample: Sample)

  predicate AllLabelled(audits: seq<Audit>, samples: seq<Sample>) {
    && (forall i :: 0 <= i < |audits| ==> Labelled(audits[i].at))
    && (forall i :: 0 <= i < |samples| ==> Labelled(samples[i].at))
  }

  function Tag(kind: Kind, audit: Audit): Tagged
    requires Labelled(audit.at)
  {
    Tagged(BucketLabel(kind, audit.at), audit.action == "blocked")
  }

  function Tags(kind: Kind, audits: seq<Audit>): (r: seq<Tagged>)
    requires AllLabelled(audits, [])
    ensures |r| == |audits| && forall i :: 0 <= i < |audits| ==> r[i] == Tag(kind, audits[i])
  {
    seq(|audits|, i requires 0 <= i < |audits| => Tag(kind, audits[i]))
  }

  function Places(kind: Kind, samples: seq<Sample>): (r: seq<Placed>)
    requires AllLabelled([], samples)
    ensures |r| == |samples| && forall i :: 0 <= i < |samples| ==> r[i] == Placed(BucketLabel(kind, samples[i].at), samples[i])
  {
    seq(|samples|, i requires 0 <= i < |samples| => Placed(BucketLabel(kind, samples[i].at), samples[i]))
  }

  function EventsAt(tags: seq<Tagged>, name: string): nat {
    if tags == [] then 0
    else EventsAt(tags[..|tags| - 1], name) + if tags[|tags| - 1].name == name then 1 else 0
  }

  function BlockedAt(tags: seq<Tagged>, name: string): nat {
    if tags == [] then 0
    else BlockedAt(tags[..|tags| - 1], name) + if tags[|tags| - 1] == Tagged(name, true) then 1 else 0
  }

  function SamplesAt(places: seq<Placed>, name: string): seq<Sample> {
    if places == [] then []
    else
      var last := places[|places| - 1];
      SamplesAt(places[..|places| - 1], name) + if last.name == name then [last.sample] else []
  }

  datatype Bucket = Bucket(events: nat, blocked: nat, samples: seq<Sample>)

  datatype Stats = Stats(avg: real, min: real, peak: real)

  datatype Row = Row(name: string, events: nat, blocked: nat, cpu: Stats, queue: Stats, archive: Stats)

  // ---------- Series ----------

  function Sum(values: seq<real>): real {
    if values == [] then 0.0 else values[0] + Sum(values[1..])
  }

  function Least(values: seq<real>): real
    requires values != []
  {
    if |values| == 1 then values[0]
    else
      var m := Least(values[1..]);
      if values[0] < m then values[0] else m
  }

  function Greatest(values: seq<real>): real
    requires values != []
  {
    if |values| == 1 then values[0]
    else
      var m := Greatest(values[1..]);
      if values[0] > m then values[0] else m
  }

  /** `_series_stats`; `round` stands for `round(_, 2)`. */
  function SeriesStats(values: seq<real>, round: real -> real): Stats {
    if values == [] then Stats(0.0, 0.0, 0.0)
    else Stats(round(Sum(values) / |values| as real), round(Least(values)), round(Greatest(values)))
  }

  ghost predicate Monotone(round: real -> real) {
    forall x, y :: x <= y ==> round(x) <= round(y)
  }

  lemma {:induction false} SumBetween(values: seq<real>)
    requires values != []
    ensures |values| as real * Least(values) <= Sum(values) <= |values| as real * Greatest(values)
  {
    if |values| == 1 {
      assert values[1..] == [];
    } else {
      var rest := values[1..];
      SumBetween(rest);
      var n := |rest| as real;
      Scale(n, Least(values), Least(rest));
      Scale(n, Greatest(rest), Greatest(values));
      assert |values| as real == n + 1.0;
    }
  }

  lemma Scale(n: real, a: real, b: real)
    requires 0.0 <= n && a <= b
    ensures n * a <= n * b
  {
  }

  lemma MeanBetween(sum: real, n: real, low: real, high: real)
    requires n > 0.0 && n * low <= sum <= n * high
    ensures low <= sum / n <= high
  {
    var q := sum / n;
    assert q * n == sum;
    if q < low { Strictly(n, q, low); }
    if q > high { Strictly(n, high, q); }
  }

  lemma Strictly(n: real, a: real, b: real)
    requires n > 0.0 && a < b
    ensures n * a < n * b
  {
  }

  /** The reported minimum, average and peak are in order, whatever monotone rounding is used. */
  lemma StatsInOrder(values: seq<real>, round: real -> real)
    requires Monotone(round)
    ensures var s := SeriesStats(values, round); s.min <= s.avg <= s.peak
  {
    if values != [] {
      SumBetween(values);
      MeanBetween(Sum(values), |values| as real, Least(values), Greatest(values));
    }
  }

  // ---------- Building the rows ----------

  function CpuValues(samples: seq<Sample>): (values: seq<real>)
    ensures |values| == |samples| && forall i :: 0 <= i < |samples| ==> values[i] == samples[i].cpu
  {
    seq(|samples|, i requires 0 <= i < |samples| => samples[i].cpu)
  }

  function QueueValues(samples: seq<Sample>): (values: seq<real>)
    ensures |values| == |samples| && forall i :: 0 <= i < |samples| ==> values[i] == samples[i].queued
  {
    seq(|samples|, i requires 0 <= i < |samples| => samples[i].queued)
  }

  function ArchiveValues(samples: seq<Sample>): (values: seq<real>)
    ensures |values| == |samples| && forall i :: 0 <= i < |samples| ==> values[i] == samples[i].archive
  {
    seq(|samples|, i requires 0 <= i < |samples| => samples[i].archive)
  }

  function RowOf(name: string, b: Bucket, round: real -> real): Row {
    Row(name, b.events, b.blocked,
        SeriesStats(CpuValues(b.samples), round),
        SeriesStats(QueueValues(b.samples), round),
        SeriesStats(ArchiveValues(b.samples), round))
  }

  /** What the bucket of a label should hold. */
  function BucketOf(tags: seq<Tagged>, places: seq<Placed>, name: string): Bucket {
    Bucket(EventsAt(tags, name), BlockedAt(tags, name), SamplesAt(places, name))
  }

  function At(buckets: map<string, Bucket>, name: string): Bucket {
    if name in buckets then buckets[name] else Bucket(0, 0, [])
  }

  function WithAudit(b: Bucket, blocked: bool): Bucket {
    b.(events := b.events + 1, blocked := b.blocked + if blocked then 1 else 0)
  }

  lemma NextAudit(tags: seq<Tagged>, k: nat, name: string)
    requires k < |tags|
    ensures BucketOf(tags[..k + 1], [], name) ==
            var b := BucketOf(tags[..k], [], name);
            if tags[k].name == name then WithAudit(b, tags[k].blocked) else b
  {
    assert tags[..k + 1][..k] == tags[..k];
  }

  lemma NextSample(tags: seq<Tagged>, places: seq<Placed>, k: nat, name: string)
    requires k < |places|
    ensures BucketOf(tags, places[..k + 1], name) ==
            var b := BucketOf(tags, places[..k], name);
            if places[k].name == name then b.(samples := b.samples + [places[k].sample]) else b
  {
    assert places[..k + 1][..k] == places[..k];
  }

  /** A label that some audit or sample has. */
  function Used(tags: seq<Tagged>, places: seq<Placed>): (names: set<string>)
    ensures forall n :: n in names <==> n in (set t | t in tags :: t.name) || n in (set p | p in places :: p.name)
  {
    (set t | t in tags :: t.name) + (set p | p in places :: p.name)
  }

  lemma UsedNext(tags: seq<Tagged>, places: seq<Placed>, k: nat)
    ensures k < |tags| ==> Used(tags[..k + 1], []) == Used(tags[..k], []) + {tags[k].name}
    ensures k < |places| ==> Used(tags, places[..k + 1]) == Used(tags, places[..k]) + {places[k].name}
  {
    if k < |tags| {
      assert tags[..k + 1] == tags[..k] + [tags[k]];
    }
    if k < |places| {
      assert places[..k + 1] == places[..k] + [places[k]];
    }
  }

  /** The buckets hold what they should, for the labels in use. */
  ghost predicate Gathered(buckets: map<string, Bucket>, tags: seq<Tagged>, places: seq<Placed>) {
    buckets.Keys == Used(tags, places) && forall name :: At(buckets, name) == BucketOf(tags, places, name)
  }

  lemma GatherAudit(buckets: map<string, Bucket>, tags: seq<Tagged>, k: nat)
    requires k < |tags| && Gathered(buckets, tags[..k], [])
    ensures Gathered(buckets[tags[k].name := WithAudit(At(buckets, tags[k].name), tags[k].blocked)], tags[..k + 1], [])
  {
    var after := buckets[tags[k].name := WithAudit(At(buckets, tags[k].name), tags[k].blocked)];
    UsedNext(tags, [], k);
    forall name
      ensures At(after, name) == BucketOf(tags[..k + 1], [], name)
    {
      assert At(buckets, name) == BucketOf(tags[..k], [], name);
      NextAudit(tags, k, name);
    }
  }

  lemma GatherSample(buckets: map<string, Bucket>, tags: seq<Tagged>, places: seq<Placed>, k: nat)
    requires k < |places| && Gathered(buckets, tags, places[..k])
    ensures var b := At(buckets, places[k].name);
            Gathered(buckets[places[k].name := b.(samples := b.samples + [places[k].sample])], tags, places[..k + 1])
  {
    var b := At(buckets, places[k].name);
    var after := buckets[places[k].name := b.(samples := b.samples + [places[k].sample])];
    UsedNext(tags, places, k);
    forall name
      ensures At(after, name) == BucketOf(tags, places[..k + 1], name)
    {
      assert At(buckets, name) == BucketOf(tags, places[..k], name);
      NextSample(tags, places, k, name);
    }
  }

  /** The two loops of `_build_trend` that fill the dictionary of buckets. */
  method Gather(kind: Kind, audits: seq<Audit>, samples: seq<Sample>) returns (buckets: map<string, Bucket>)
    requires AllLabelled(audits, samples)
    ensures Gathered(buckets, Tags(kind, audits), Places(kind, samples))
  {
    buckets := map[];
    ghost var tags, places := Tags(kind, audits), Places(kind, samples);
    for k := 0 to |audits|
      invariant Gathered(buckets, tags[..k], [])
    {
      GatherAudit(buckets, tags, k);
      var name := BucketLabel(kind, audits[k].at);
      buckets := buckets[name := WithAudit(At(buckets, name), audits[k].action == "blocked")];
    }
    assert tags[..|tags|] == tags && places[..0] == [];
    for k := 0 to |samples|
      invariant Gathered(buckets, tags, places[..k])
    {
      GatherSample(buckets, tags, places, k);
      var name := BucketLabel(kind, samples[k].at);
      var b := At(buckets, name);
      buckets := buckets[name := b.(samples := b.samples + [samples[k]])];
    }
    assert places[..|places|] == places;
  }

  predicate Increasing(names: seq<string>) {
    forall i, j :: 0 <= i < j < |names| ==> Before(names[i], names[j])
  }

  /** `name` put in its place in an increasing list that does not hold it. */
  function InsertName(name: string, names: seq<string>): (r: seq<string>)
    ensures forall n :: n in r <==> n == name || n in names
  {
    if names == [] || !Before(names[0], name) then [name] + names
    else [names[0]] + InsertName(name, names[1..])
  }

  lemma {:induction false} InsertIncreasing(name: string, names: seq<string>)
    requires Increasing(names) && name !in names
    ensures Increasing(InsertName(name, names))
  {
    if names != [] {
      BeforeTotal(names[0], name);
      if Before(names[0], name) {
        InsertIncreasing(name, names[1..]);
        var rest := InsertName(name, names[1..]);
        forall j | 0 <= j < |rest|
          ensures Before(names[0], rest[j])
        {
          assert rest[j] in rest;
        }
      } else {
        forall j | 0 <= j < |names|
          ensures Before(name, names[j])
        {
          if j > 0 { BeforeTransitive(name, names[0], names[j]); }
        }
      }
    }
  }

  /** The labels in string order. */
  method SortedNames(keys: set<string>) returns (names: seq<string>)
    ensures Increasing(names) && forall n :: n in names <==> n in keys
  {
    names := [];
    var rest := keys;
    while rest != {}
      invariant rest <= keys && Increasing(names) && forall n :: n in names <==> n in keys - rest
      decreases rest
    {
      var name :| name in rest;
      InsertIncreasing(name, names);
      names := InsertName(name, names);
      rest := rest - {name};
    }
  }

  /** The rows of a trend: one per label in use, in label order, each holding exactly what falls under its label. */
  ghost predicate IsTrend(tags: seq<Tagged>, places: seq<Placed>, round: real -> real, names: seq<string>, rows: seq<Row>) {
    && |rows| == |names| && Increasing(names)
    && (forall name :: name in names <==> name in Used(tags, places))
    && (forall i :: 0 <= i < |rows| ==> rows[i] == RowOf(names[i], BucketOf(tags, places, names[i]), round))
  }

  /** The rows of the labels in their order. `make` names what one row is. */
  method MakeRows(buckets: map<string, Bucket>, names: seq<string>, make: (string, Bucket) -> Row) returns (rows: seq<Row>)
    requires forall name :: name in names ==> name in buckets
    ensures |rows| == |names| && forall i :: 0 <= i < |rows| ==> rows[i] == make(names[i], buckets[names[i]])
  {
    rows := [];
    for k := 0 to |names|
      invariant |rows| == k && forall i :: 0 <= i < k ==> rows[i] == make(names[i], buckets[names[i]])
    {
      rows := rows + [make(names[k], buckets[names[k]])];
    }
  }

  /** `_build_trend`. */
  method BuildTrend(kind: Kind, audits: seq<Audit>, samples: seq<Sample>, round: real -> real) returns (rows: seq<Row>, names: seq<string>)
    requires AllLabelled(audits, samples)
    ensures IsTrend(Tags(kind, audits), Places(kind, samples), round, names, rows)
  {
    var buckets := Gather(kind, audits, samples);
    names := SortedNames(buckets.Keys);
    var make := (name: string, b: Bucket) => RowOf(name, b, round);
    rows := MakeRows(buckets, names, make);
    RowsAreTrend(buckets, Tags(kind, audits), Places(kind, samples), round, names, rows);
  }

  lemma RowsAreTrend(buckets: map<string, Bucket>, tags: seq<Tagged>, places: seq<Placed>, round: real -> real,
                     names: seq<string>, rows: seq<Row>)
    requires Gathered(buckets, tags, places) && Increasing(names) && forall name :: name in names <==> name in buckets.Keys
    requires |rows| == |names| && forall i :: 0 <= i < |rows| ==> rows[i] == RowOf(names[i], buckets[names[i]], round)
    ensures IsTrend(tags, places, round, names, rows)
  {
    forall i | 0 <= i < |rows|
      ensures rows[i] == RowOf(names[i], BucketOf(tags, places, names[i]), round)
    {
      assert names[i] in names;
      assert At(buckets, names[i]) == BucketOf(tags, places, names[i]);
    }
  }

  // ---------- Conservation ----------

  function TotalEvents(tags: seq<Tagged>, names: seq<string>): nat {
    if names == [] then 0 else EventsAt(tags, names[0]) + TotalEvents(tags, names[1..])
  }

  function TotalBlocked(tags: seq<Tagged>, names: seq<string>): nat {
    if names == [] then 0 else BlockedAt(tags, names[0]) + TotalBlocked(tags, names[1..])
  }

  function Hits(name: string, names: seq<string>): nat {
    if names == [] then 0 else (if names[0] == name then 1 else 0) + Hits(name, names[1..])
  }

  lemma {:induction false} HitOnce(name: string, names: seq<string>)
    requires Increasing(names)
    ensures Hits(name, names) == if name in names then 1 else 0
  {
    if names != [] {
      HitOnce(name, names[1..]);
      NotBeforeSelf(names[0]);
      assert forall j :: 0 <= j < |names[1..]| ==> Before(names[0], names[j + 1]) && names[1..][j] == names[j + 1];
    }
  }

  lemma {:induction false} TotalsNext(tags: seq<Tagged>, n: nat, names: seq<string>)
    requires n == |tags| - 1
    ensures TotalEvents(tags, names) == TotalEvents(tags[..n], names) + Hits(tags[n].name, names)
    ensures TotalBlocked(tags, names) == TotalBlocked(tags[..n], names) + if tags[n].blocked then Hits(tags[n].name, names) else 0
  {
    if names != [] {
      TotalsNext(tags, n, names[1..]);
    }
  }

  lemma {:induction false} TotalsOfNothing(names: seq<string>)
    ensures TotalEvents([], names) == 0 && TotalBlocked([], names) == 0
  {
    if names != [] {
      TotalsOfNothing(names[1..]);
    }
  }

  function BlockedCount(tags: seq<Tagged>): nat {
    if tags == [] then 0 else BlockedCount(tags[..|tags| - 1]) + if tags[|tags| - 1].blocked then 1 else 0
  }

  /** Over increasing labels that cover all audits, the counts add up. */
  lemma {:induction false} TotalsConserve(tags: seq<Tagged>, names: seq<string>)
    requires Increasing(names) && forall i :: 0 <= i < |tags| ==> tags[i].name in names
    ensures TotalEvents(tags, names) == |tags| && TotalBlocked(tags, names) == BlockedCount(tags)
  {
    if tags == [] {
      TotalsOfNothing(names);
    } else {
      var n := |tags| - 1;
      TotalsConserve(tags[..n], names);
      TotalsNext(tags, n, names);
      HitOnce(tags[n].name, names);
    }
  }

  function SumEvents(rows: seq<Row>): nat {
    if rows == [] then 0 else rows[0].events + SumEvents(rows[1..])
  }

  function SumBlocked(rows: seq<Row>): nat {
    if rows == [] then 0 else rows[0].blocked + SumBlocked(rows[1..])
  }

  lemma {:induction false} RowsTotal(tags: seq<Tagged>, places: seq<Placed>, round: real -> real, rows: seq<Row>, names: seq<string>)
    requires |rows| == |names|
    requires forall i :: 0 <= i < |rows| ==> rows[i] == RowOf(names[i], BucketOf(tags, places, names[i]), round)
    ensures SumEvents(rows) == TotalEvents(tags, names) && SumBlocked(rows) == TotalBlocked(tags, names)
  {
    if rows != [] {
      RowsTotal(tags, places, round, rows[1..], names[1..]);
    }
  }

  /** No audit is lost or counted twice: the rows add up to the audits, and their blocked counts to the blocked ones. */
  lemma TrendConserves(tags: seq<Tagged>, places: seq<Placed>, round: real -> real, names: seq<string>, rows: seq<Row>)
    requires IsTrend(tags, places, round, names, rows)
    ensures SumEvents(rows) == |tags| && SumBlocked(rows) == BlockedCount(tags)
  {
    RowsTotal(tags, places, round, rows, names);
    forall i | 0 <= i < |tags|
      ensures tags[i].name in names
    {
      assert tags[i] in tags;
    }
    TotalsConserve(tags, names);
  }
}
