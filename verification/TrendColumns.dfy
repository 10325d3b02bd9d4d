/**
What the rows of a trend say about the audits and samples themselves: which moments a label stands for, how
many audits it counts, and which sample fields its columns summarize.
*/
module TrendColumns {
  import opened Text
  import opened Calendar
  import opened ReportPeriods
  import opened Trend

  // ---------- Labels ----------

  /** How long a bucket lasts: ten minutes, two hours or a day. */
  function BucketLength(kind: Kind): int {
    match kind
    case Daily => 10 * MINUTE
    case Weekly => 2 * HOUR
    case Monthly => 24 * HOUR
  }

  /** The first moment of the bucket that holds an instant. */
  function BucketStart(kind: Kind, instant: int): int {
    instant - (instant + OFFSET) % BucketLength(kind)
  }

  /** What a wall clock shows. */
  function Clock(instant: int): string {
    Pad2(HourOf(instant)) + ":" + Pad2(MinuteOf(instant))
  }

  /** An instant is its date and the time of day, and that is hours, minutes and a rest. */
  lemma DayAndRest(instant: int)
    ensures instant + OFFSET == (LocalDay(instant) - EPOCH_ORDINAL) * DAY + TimeOfDay(instant)
    ensures TimeOfDay(instant) == HourOf(instant) * HOUR + MinuteOf(instant) * MINUTE + TimeOfDay(instant) % MINUTE
  {
    TimeParts(TimeOfDay(instant));
  }

  lemma TimeParts(t: nat)
    ensures t == t / HOUR * HOUR + t % HOUR / MINUTE * MINUTE + t % MINUTE
  {
    assert t % HOUR % MINUTE == t % MINUTE by {
      assert t == t / HOUR * 60 * MINUTE + t % HOUR;
      WholeMinutes(t / HOUR * 60, t % HOUR);
    }
  }

  lemma WholeMinutes(k: int, r: int)
    ensures (k * MINUTE + r) % MINUTE == r % MINUTE
  {
  }

  /** An instant is its day's begin, so many whole stretches of time and a rest. */
  lemma StretchOf(day: int, per: int, length: int, k: int, rest: int)
    requires length > 0 && 0 <= k < per && 0 <= rest < length && DAY == per * length
    ensures (day * DAY + k * length + rest) % length == rest
    ensures (day * DAY + k * length) / DAY == day && (day * DAY + k * length) % DAY == k * length
  {
    Whole(day * per + k, length, rest);
    assert day * DAY + k * length + rest == (day * per + k) * length + rest;
    Below(k, per, length);
    Whole(day, DAY, k * length);
  }

  lemma Below(k: int, per: int, length: int)
    requires length > 0 && 0 <= k < per
    ensures 0 <= k * length < per * length
  {
  }

  lemma Whole(q: int, n: int, r: int)
    requires n > 0 && 0 <= r < n
    ensures (q * n + r) % n == r && (q * n + r) / n == q
  {
    var x := q * n + r;
    assert (x / n - q) * n == r - x % n;
    NoMultipleBetween(x / n - q, n);
  }

  lemma NoMultipleBetween(k: int, n: int)
    requires n > 0 && -n < k * n < n
    ensures k == 0
  {
    assert k >= 1 ==> k * n >= n;
    assert k <= -1 ==> k * n <= -n;
  }

  lemma StartOf(kind: Kind, instant: int, per: int, k: int, rest: int)
    requires BucketLength(kind) * per == DAY && 0 <= k < per && 0 <= rest < BucketLength(kind)
    requires TimeOfDay(instant) == k * BucketLength(kind) + rest
    ensures var s := BucketStart(kind, instant);
            s <= instant < s + BucketLength(kind) && LocalDay(s) == LocalDay(instant) && TimeOfDay(s) == k * BucketLength(kind)
  {
    DayAndRest(instant);
    StretchOf(LocalDay(instant) - EPOCH_ORDINAL, per, BucketLength(kind), k, rest);
  }

  /** The label of an instant spells the first moment of the bucket that holds it: the clock, the date, or both. */
  lemma LabelSpellsStart(kind: Kind, instant: int)
    requires Labelled(instant)
    ensures var s := BucketStart(kind, instant);
            && s <= instant < s + BucketLength(kind) && LocalDay(s) == LocalDay(instant) && Labelled(s)
            && BucketLabel(kind, instant) ==
               match kind
               case Daily => Clock(s)
               case Weekly => DateLabel(s) + " " + Clock(s)
               case Monthly => DateLabel(s)
  {
    DayAndRest(instant);
    var h, m := HourOf(instant), MinuteOf(instant);
    var seconds := TimeOfDay(instant) % MINUTE;
    match kind
    case Daily =>
      StartOf(kind, instant, 144, h * 6 + m / 10, m % 10 * MINUTE + seconds);
      ClockAt(BucketStart(kind, instant), h, m - m % 10);
    case Weekly =>
      StartOf(kind, instant, 12, h / 2, h % 2 * HOUR + m * MINUTE + seconds);
      ClockAt(BucketStart(kind, instant), h - h % 2, 0);
      Hours(DateLabel(instant), h);
    case Monthly =>
      StartOf(kind, instant, 1, 0, TimeOfDay(instant));
  }

  lemma ClockAt(s: int, h: nat, m: nat)
    requires h < 24 && m < 60 && TimeOfDay(s) == h * HOUR + m * MINUTE
    ensures Clock(s) == Pad2(h) + ":" + Pad2(m)
  {
    Whole(h, HOUR, m * MINUTE);
    Whole(m, MINUTE, 0);
  }

  lemma Hours(date: string, h: nat)
    requires h < 24
    ensures HourText(date, h) == date + " " + (Pad2(h - h % 2) + ":" + Pad2(0))
  {
    assert Pad2(0) == "00";
    assert ":" + "00" == ":00";
  }

  // ---------- Counts ----------

  /** The audits under a label. */
  function AuditsAt(kind: Kind, audits: seq<Audit>, name: string): set<int>
    requires AllLabelled(audits, [])
  {
    set i | 0 <= i < |audits| && BucketLabel(kind, audits[i].at) == name
  }

  function BlockedAudits(kind: Kind, audits: seq<Audit>, name: string): set<int>
    requires AllLabelled(audits, [])
  {
    set i | 0 <= i < |audits| && BucketLabel(kind, audits[i].at) == name && audits[i].action == "blocked"
  }

  function TagsNamed(tags: seq<Tagged>, name: string): set<int> {
    set i | 0 <= i < |tags| && tags[i].name == name
  }

  function TagsBlocked(tags: seq<Tagged>, name: string): set<int> {
    set i | 0 <= i < |tags| && tags[i] == Tagged(name, true)
  }

  lemma NamedNext(tags: seq<Tagged>, n: nat, name: string)
    requires |tags| == n + 1
    ensures TagsNamed(tags, name) == TagsNamed(tags[..n], name) + if tags[n].name == name then {n} else {}
  {
  }

  lemma BlockedNext(tags: seq<Tagged>, n: nat, name: string)
    requires |tags| == n + 1
    ensures TagsBlocked(tags, name) == TagsBlocked(tags[..n], name) + if tags[n] == Tagged(name, true) then {n} else {}
  {
  }

  lemma {:induction false} NamedCount(tags: seq<Tagged>, name: string)
    ensures EventsAt(tags, name) == |TagsNamed(tags, name)|
  {
    if tags != [] {
      var n := |tags| - 1;
      NamedCount(tags[..n], name);
      NamedNext(tags, n, name);
    }
  }

  lemma {:induction false} BlockedCounted(tags: seq<Tagged>, name: string)
    ensures BlockedAt(tags, name) == |TagsBlocked(tags, name)|
  {
    if tags != [] {
      var n := |tags| - 1;
      BlockedCounted(tags[..n], name);
      BlockedNext(tags, n, name);
    }
  }

  lemma TagAt(kind: Kind, audits: seq<Audit>, i: nat)
    requires AllLabelled(audits, []) && i < |audits|
    ensures Tags(kind, audits)[i] == Tagged(BucketLabel(kind, audits[i].at), audits[i].action == "blocked")
  {
  }

  /** A row counts the audits whose moment has its label, and among them those that were blocked. */
  lemma RowCounts(kind: Kind, audits: seq<Audit>, name: string)
    requires AllLabelled(audits, [])
    ensures EventsAt(Tags(kind, audits), name) == |AuditsAt(kind, audits, name)|
    ensures BlockedAt(Tags(kind, audits), name) == |BlockedAudits(kind, audits, name)|
  {
    var tags := Tags(kind, audits);
    NamedCount(tags, name);
    BlockedCounted(tags, name);
    forall i | 0 <= i < |audits|
      ensures i in TagsNamed(tags, name) <==> i in AuditsAt(kind, audits, name)
      ensures i in TagsBlocked(tags, name) <==> i in BlockedAudits(kind, audits, name)
    {
      TagAt(kind, audits, i);
    }
    assert TagsNamed(tags, name) == AuditsAt(kind, audits, name);
    assert TagsBlocked(tags, name) == BlockedAudits(kind, audits, name);
  }

  // ---------- Columns ----------

  lemma {:induction false} LeastAttained(values: seq<real>)
    requires values != []
    ensures Least(values) in values && forall i :: 0 <= i < |values| ==> Least(values) <= values[i]
  {
    if |values| > 1 {
      LeastAttained(values[1..]);
      assert forall i :: 0 < i < |values| ==> values[i] == values[1..][i - 1];
    }
  }

  lemma {:induction false} GreatestAttained(values: seq<real>)
    requires values != []
    ensures Greatest(values) in values && forall i :: 0 <= i < |values| ==> values[i] <= Greatest(values)
  {
    if |values| > 1 {
      GreatestAttained(values[1..]);
      assert forall i :: 0 < i < |values| ==> values[i] == values[1..][i - 1];
    }
  }

  /**
  Three numbers summarize a series: the rounded least and greatest value, both attained, and the rounded
  mean, which times the number of values is their sum; zeros when there are none.
  */
  ghost predicate Summarizes(s: Stats, values: seq<real>, round: real -> real) {
    if values == [] then s == Stats(0.0, 0.0, 0.0)
    else
      exists low, high, mean ::
        && s == Stats(round(mean), round(low), round(high))
        && AttainedLeast(values, low) && AttainedGreatest(values, high)
        && mean * |values| as real == Sum(values)
  }

  predicate AttainedLeast(values: seq<real>, x: real) {
    x in values && forall i :: 0 <= i < |values| ==> x <= values[i]
  }

  predicate AttainedGreatest(values: seq<real>, x: real) {
    x in values && forall i :: 0 <= i < |values| ==> values[i] <= x
  }

  lemma MeanTimes(sum: real, n: real)
    requires n > 0.0
    ensures sum / n * n == sum
  {
  }

  lemma StatsSummarize(values: seq<real>, round: real -> real)
    ensures Summarizes(SeriesStats(values, round), values, round)
  {
    if values != [] {
      LeastAttained(values);
      GreatestAttained(values);
      MeanTimes(Sum(values), |values| as real);
      var mean := Sum(values) / |values| as real;
      assert SeriesStats(values, round) == Stats(round(mean), round(Least(values)), round(Greatest(values)));
      assert AttainedLeast(values, Least(values)) && AttainedGreatest(values, Greatest(values));
    }
  }

  /** Sums of parts add up to the sum of the whole. */
  lemma {:induction false} SumConcat(a: seq<real>, b: seq<real>)
    ensures Sum(a + b) == Sum(a) + Sum(b) && (|a| == 1 ==> Sum(a) == a[0])
  {
    if a == [] {
      assert a + b == b;
    } else {
      assert (a + b)[1..] == a[1..] + b;
      SumConcat(a[1..], b);
    }
  }

  predicate PlacedUnder(places: seq<Placed>, i: int, name: string) {
    0 <= i < |places| && places[i].name == name
  }

  /** The samples of a row are those that were placed under its label, each in its turn. */
  lemma {:induction false} PlacedSamples(places: seq<Placed>, name: string) returns (at: seq<int>)
    ensures var found := SamplesAt(places, name);
            |at| == |found| && forall k :: 0 <= k < |at| ==> 0 <= at[k] < |places| && found[k] == places[at[k]].sample
    ensures forall j, k :: 0 <= j < k < |at| ==> at[j] < at[k]
    ensures forall i :: i in at <==> PlacedUnder(places, i, name)
  {
    at := [];
    if places != [] {
      var n := |places| - 1;
      var front := PlacedSamples(places[..n], name);
      at := front + if places[n].name == name then [n] else [];
      forall i
        ensures i in at <==> PlacedUnder(places, i, name)
      {
        assert i in front <==> PlacedUnder(places[..n], i, name);
      }
    }
  }

  predicate SampleUnder(kind: Kind, samples: seq<Sample>, i: int, name: string)
    requires AllLabelled([], samples)
  {
    0 <= i < |samples| && BucketLabel(kind, samples[i].at) == name
  }

  lemma PlaceAt(kind: Kind, samples: seq<Sample>, i: nat)
    requires AllLabelled([], samples) && i < |samples|
    ensures Places(kind, samples)[i] == Placed(BucketLabel(kind, samples[i].at), samples[i])
  {
  }

  /** Those are the samples whose moment has that label. */
  lemma RowSamples(kind: Kind, samples: seq<Sample>, name: string) returns (at: seq<int>)
    requires AllLabelled([], samples)
    ensures var found := SamplesAt(Places(kind, samples), name);
            |at| == |found| && forall k :: 0 <= k < |at| ==> 0 <= at[k] < |samples| && found[k] == samples[at[k]]
    ensures forall j, k :: 0 <= j < k < |at| ==> at[j] < at[k]
    ensures forall i :: i in at <==> SampleUnder(kind, samples, i, name)
  {
    var places := Places(kind, samples);
    at := PlacedSamples(places, name);
    forall i | 0 <= i < |samples|
      ensures places[i].sample == samples[i]
      ensures PlacedUnder(places, i, name) <==> SampleUnder(kind, samples, i, name)
    {
      PlaceAt(kind, samples, i);
    }
  }

  /** Each row of a trend: its counts, and its three columns over the CPU, queue and archive fields of its samples. */
  lemma RowSummarizes(kind: Kind, audits: seq<Audit>, samples: seq<Sample>, round: real -> real, names: seq<string>,
                      rows: seq<Row>, i: nat)
    requires AllLabelled(audits, samples) && i < |rows|
    requires IsTrend(Tags(kind, audits), Places(kind, samples), round, names, rows)
    ensures rows[i].name == names[i]
    ensures rows[i].events == |AuditsAt(kind, audits, names[i])| && rows[i].blocked == |BlockedAudits(kind, audits, names[i])|
    ensures var under := SamplesAt(Places(kind, samples), names[i]);
            && Summarizes(rows[i].cpu, CpuValues(under), round)
            && Summarizes(rows[i].queue, QueueValues(under), round)
            && Summarizes(rows[i].archive, ArchiveValues(under), round)
  {
    var under := SamplesAt(Places(kind, samples), names[i]);
    RowCounts(kind, audits, names[i]);
    StatsSummarize(CpuValues(under), round);
    StatsSummarize(QueueValues(under), round);
    StatsSummarize(ArchiveValues(under), round);
  }
}
