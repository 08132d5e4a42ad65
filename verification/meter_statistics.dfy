/** The statistics the HBase driver computes itself, period by period, from the samples of one meter. */
module MeterStatistics {
  import opened Wrappers
  import opened GroupBy

  /** Times are in microseconds. */
  datatype Sample = Sample(volume: real, time: int, unit: string)

  const MICROS := 1000000

  datatype Summary = Summary(periodStart: int, periodEnd: int, unit: string, count: nat,
                             min: real, max: real, sum: real, avg: real,
                             durationStart: Option<int>, durationEnd: Option<int>, duration: int)

  function Fresh(periodStart: int, periodEnd: int): Summary {
    Summary(periodStart, periodEnd, "", 0, 0.0, 0.0, 0.0, 0.0, None, None, 0)
  }

  function MinReal(a: real, b: real): real {
    if a <= b then a else b
  }

  function MaxReal(a: real, b: real): real {
    if a >= b then a else b
  }

  function MinInt(a: int, b: int): int {
    if a <= b then a else b
  }

  function MaxInt(a: int, b: int): int {
    if a >= b then a else b
  }

  /** `_update_meter_stats`; a minimum of zero counts as not set yet. */
  function Updated(stat: Summary, s: Sample): Summary {
    var sum := s.volume + stat.sum;
    var start := MinInt(s.time, stat.durationStart.GetOr(s.time));
    var end := MaxInt(s.time, stat.durationEnd.GetOr(s.time));
    stat.(unit := s.unit,
          min := MinReal(s.volume, if stat.min == 0.0 then s.volume else stat.min),
          max := MaxReal(s.volume, stat.max),
          sum := sum,
          count := stat.count + 1,
          avg := sum / (stat.count + 1) as real,
          durationStart := Some(start),
          durationEnd := Some(end),
          duration := end - start)
  }

  function Folded(stat: Summary, group: seq<Sample>): Summary {
    if group == [] then stat else Updated(Folded(stat, group[..|group| - 1]), group[|group| - 1])
  }

  // ---------------------------------------------------------------- what one record says

  function Total(group: seq<Sample>): real {
    if group == [] then 0.0 else Total(group[..|group| - 1]) + group[|group| - 1].volume
  }

  ghost predicate IsMin(group: seq<Sample>, m: real) {
    (exists i :: 0 <= i < |group| && group[i].volume == m) && forall i :: 0 <= i < |group| ==> m <= group[i].volume
  }

  ghost predicate IsMax(group: seq<Sample>, m: real) {
    (exists i :: 0 <= i < |group| && group[i].volume == m) && forall i :: 0 <= i < |group| ==> group[i].volume <= m
  }

  predicate Ordered(group: seq<Sample>) {
    forall i, j :: 0 <= i < j < |group| ==> group[i].time <= group[j].time
  }

  /** Count, sum, average and duration are right for every group. */
  lemma {:induction false} RecordAddsUp(a: int, b: int, group: seq<Sample>)
    requires group != [] && Ordered(group)
    ensures var r, n := Folded(Fresh(a, b), group), |group|;
            && r.periodStart == a && r.periodEnd == b && r.unit == group[n - 1].unit
            && r.count == n && r.sum == Total(group) && r.avg == Total(group) / n as real
            && r.durationStart == Some(group[0].time) && r.durationEnd == Some(group[n - 1].time)
            && r.duration == group[n - 1].time - group[0].time
  {
    var n := |group| - 1;
    if n > 0 {
      RecordAddsUp(a, b, group[..n]);
    } else {
      assert group[..0] == [];
    }
  }

  /** The recorded maximum is the true one, or zero if that is greater. */
  lemma {:induction false} RecordedMax(a: int, b: int, group: seq<Sample>, m: real)
    requires IsMax(group, m)
    ensures Folded(Fresh(a, b), group).max == MaxReal(m, 0.0)
  {
    var n := |group| - 1;
    var last := group[n].volume;
    if n == 0 {
      assert group[..0] == [];
    } else {
      var k := HasMax(group[..n]);
      RecordedMax(a, b, group[..n], k);
      assert m == MaxReal(k, last);
    }
  }

  lemma {:induction false} HasMax(group: seq<Sample>) returns (m: real)
    requires group != []
    ensures IsMax(group, m)
  {
    var n := |group| - 1;
    m := group[n].volume;
    if n > 0 {
      var k := HasMax(group[..n]);
      var i :| 0 <= i < n && group[..n][i].volume == k;
      assert group[i].volume == k;
      m := MaxReal(k, m);
    }
  }

  /** The recorded minimum is wrong exactly when the true one is zero and the last volume is not: after
      a zero the minimum counts as not set, and the next volume takes its place. */
  lemma {:induction false} RecordedMin(a: int, b: int, group: seq<Sample>, m: real)
    requires IsMin(group, m)
    ensures var recorded := Folded(Fresh(a, b), group).min;
            && (recorded == m <==> !(m == 0.0 && group[|group| - 1].volume != 0.0))
            && (m == 0.0 ==> recorded >= 0.0) && (m != 0.0 ==> recorded == m)
  {
    var n := |group| - 1;
    var last := group[n].volume;
    if n == 0 {
      assert group[..0] == [];
    } else {
      var k := HasMin(group[..n]);
      RecordedMin(a, b, group[..n], k);
      assert m == MinReal(k, last);
    }
  }

  lemma {:induction false} HasMin(group: seq<Sample>) returns (m: real)
    requires group != []
    ensures IsMin(group, m)
  {
    var n := |group| - 1;
    m := group[n].volume;
    if n > 0 {
      var k := HasMin(group[..n]);
      var i :| 0 <= i < n && group[..n][i].volume == k;
      assert group[i].volume == k;
      m := MinReal(k, m);
    }
  }

  /** Everything a record says about its period and its samples. The two extremes are right up to the
      special treatment of zero. */
  ghost predicate SumsUp(r: Summary, a: int, b: int, group: seq<Sample>) {
    && group != [] && r.periodStart == a && r.periodEnd == b && r.unit == group[|group| - 1].unit
    && r.count == |group| && r.sum == Total(group) && r.avg == Total(group) / |group| as real
    && r.durationStart == Some(group[0].time) && r.durationEnd == Some(group[|group| - 1].time)
    && r.duration == group[|group| - 1].time - group[0].time
    && (forall m :: IsMax(group, m) ==> r.max == MaxReal(m, 0.0))
    && (forall m :: IsMin(group, m) ==> (r.min == m <==> !(m == 0.0 && group[|group| - 1].volume != 0.0)))
  }

  lemma RecordSumsUp(a: int, b: int, group: seq<Sample>)
    requires group != [] && Ordered(group)
    ensures SumsUp(Folded(Fresh(a, b), group), a, b, group)
  {
    RecordAddsUp(a, b, group);
    forall m | IsMax(group, m) ensures Folded(Fresh(a, b), group).max == MaxReal(m, 0.0) {
      RecordedMax(a, b, group, m);
    }
    forall m | IsMin(group, m)
      ensures Folded(Fresh(a, b), group).min == m <==> !(m == 0.0 && group[|group| - 1].volume != 0.0)
    {
      RecordedMin(a, b, group, m);
    }
  }

  // ---------------------------------------------------------------- periods

  /** Python's `int(a / b)`: rounds towards zero. */
  function Truncated(a: int, b: int): int
    requires b > 0
  {
    if a >= 0 then a / b else -((-a) / b)
  }

  lemma TruncatedTowardsZero(a: int, b: int)
    requires b > 0
    ensures a >= 0 ==> Truncated(a, b) * b <= a < (Truncated(a, b) + 1) * b
    ensures a <= 0 ==> (Truncated(a, b) - 1) * b < a <= Truncated(a, b) * b
  {
    if a >= 0 {
      QuotientIsUnique(a, b, a / b);
    } else {
      QuotientIsUnique(-a, b, (-a) / b);
    }
  }

  /** The number of the period a time falls into; without periods there is only one. */
  function PeriodOf(start: int, period: nat, time: int): int {
    if period == 0 then 0 else Truncated(time - start, period * MICROS)
  }

  function PeriodStart(start: int, period: nat, time: int): int {
    if period == 0 then start else start + PeriodOf(start, period, time) * (period * MICROS)
  }

  /** Tells which period a sample belongs to. */
  type Bucket = Sample -> int

  function PeriodBucket(start: int, period: nat): Bucket {
    (s: Sample) => PeriodOf(start, period, s.time)
  }

  predicate InPeriod(start: int, period: nat, p: int, s: Sample) {
    start + p * (period * MICROS) <= s.time < start + (p + 1) * (period * MICROS)
  }

  lemma ScaledOrder(x: int, y: int, w: int)
    requires w > 0 && x <= y
    ensures x * w <= y * w
  {
  }

  lemma QuotientIsUnique(d: int, w: int, p: int)
    requires w > 0
    ensures p * w <= d < (p + 1) * w <==> p == d / w
  {
    var q := d / w;
    assert d == q * w + d % w && (q + 1) * w == q * w + w;
    if p < q {
      ScaledOrder(p + 1, q, w);
    } else if p > q {
      ScaledOrder(q + 1, p, w);
    }
  }

  lemma PeriodOfBounds(start: int, period: nat, s: Sample, p: int)
    requires period > 0 && s.time >= start
    ensures InPeriod(start, period, p, s) <==> p == PeriodOf(start, period, s.time)
  {
    QuotientIsUnique(s.time - start, period * MICROS, p);
  }

  lemma QuotientsAreMonotone(a: int, b: int, w: int)
    requires w > 0 && a <= b
    ensures a / w <= b / w
  {
    assert a == (a / w) * w + a % w && b == (b / w) * w + b % w;
    if a / w > b / w {
      ScaledOrder(b / w + 1, a / w, w);
    }
  }

  lemma PeriodOfIsMonotone(start: int, period: nat, a: int, b: int)
    requires start <= a <= b
    ensures PeriodOf(start, period, a) <= PeriodOf(start, period, b)
  {
    if period > 0 {
      QuotientsAreMonotone(a - start, b - start, period * MICROS);
    }
  }

  /** All samples of the group are in the period. */
  predicate AllIn(bucket: Bucket, group: seq<Sample>, p: int) {
    forall j :: 0 <= j < |group| ==> bucket(group[j]) == p
  }

  /** Every group lies in one period, and the periods increase. */
  ghost predicate Periodic(bucket: Bucket, groups: seq<seq<Sample>>, periods: seq<int>) {
    && |periods| == |groups|
    && (forall i :: 0 <= i < |groups| ==> groups[i] != [] && AllIn(bucket, groups[i], periods[i]))
    && (forall i, j :: 0 <= i < j < |groups| ==> periods[i] < periods[j])
  }

  lemma ExtendedIsPeriodic(bucket: Bucket, groups: seq<seq<Sample>>, periods: seq<int>, s: Sample)
    returns (periods': seq<int>)
    requires Periodic(bucket, groups, periods)
    requires periods != [] ==> periods[|periods| - 1] <= bucket(s)
    ensures Periodic(bucket, Extended(bucket, groups, s), periods')
    ensures periods' != [] && periods'[|periods'| - 1] == bucket(s)
  {
    var m, p := |groups| - 1, bucket(s);
    periods' := if m >= 0 && periods[m] == p then periods else periods + [p];
    assert m >= 0 ==> bucket(groups[m][0]) == periods[m];
    assert AllIn(bucket, [s], p);
    assert m >= 0 && periods[m] == p ==> AllIn(bucket, groups[m] + [s], p);
  }

  predicate Monotone(bucket: Bucket, samples: seq<Sample>) {
    forall i, j :: 0 <= i < j < |samples| ==> bucket(samples[i]) <= bucket(samples[j])
  }

  lemma {:induction false} GroupsArePeriodic(bucket: Bucket, samples: seq<Sample>) returns (periods: seq<int>)
    requires Monotone(bucket, samples)
    ensures Periodic(bucket, Runs(bucket, samples), periods)
    ensures samples != [] ==> periods != [] && periods[|periods| - 1] == bucket(samples[|samples| - 1])
  {
    periods := [];
    if samples != [] {
      var n := |samples| - 1;
      periods := GroupsArePeriodic(bucket, samples[..n]);
      periods := ExtendedIsPeriodic(bucket, Runs(bucket, samples[..n]), periods, samples[n]);
    }
  }

  /** The group's record starts with the given period, and all its samples lie in that period. */
  ghost predicate FillsPeriod(start: int, period: nat, group: seq<Sample>, p: int) {
    && group != [] && PeriodStart(start, period, group[0].time) == start + p * (period * MICROS)
    && forall j :: 0 <= j < |group| ==> InPeriod(start, period, p, group[j])
  }

  lemma UniformGroupFillsPeriod(start: int, period: nat, group: seq<Sample>, p: int)
    requires period > 0 && group != [] && forall j :: 0 <= j < |group| ==> group[j].time >= start
    requires AllIn(PeriodBucket(start, period), group, p)
    ensures FillsPeriod(start, period, group, p)
  {
    var bucket := PeriodBucket(start, period);
    forall j | 0 <= j < |group|
      ensures InPeriod(start, period, p, group[j])
    {
      assert bucket(group[j]) == p;
      PeriodOfBounds(start, period, group[j], p);
    }
    assert bucket(group[0]) == p;
  }

  /** For time-ordered samples from the start on: one group for every period that has samples, in order
      of time, and every sample in the group of its period. */
  lemma GroupsArePeriods(start: int, period: nat, samples: seq<Sample>) returns (periods: seq<int>)
    requires period > 0 && Ordered(samples) && forall i :: 0 <= i < |samples| ==> samples[i].time >= start
    ensures var groups := Runs(PeriodBucket(start, period), samples);
            && Concat(groups) == samples && |periods| == |groups|
            && (forall i, j :: 0 <= i < j < |groups| ==> periods[i] < periods[j])
            && (forall i :: 0 <= i < |groups| ==> FillsPeriod(start, period, groups[i], periods[i]))
  {
    var bucket := PeriodBucket(start, period);
    forall i, j | 0 <= i < j < |samples|
      ensures bucket(samples[i]) <= bucket(samples[j])
    {
      PeriodOfIsMonotone(start, period, samples[i].time, samples[j].time);
    }
    periods := GroupsArePeriodic(bucket, samples);
    RunsPartition(bucket, samples);
    var groups: seq<seq<Sample>> := Runs(bucket, samples);
    forall i | 0 <= i < |groups|
      ensures FillsPeriod(start, period, groups[i], periods[i])
    {
      forall j | 0 <= j < |groups[i]|
        ensures groups[i][j].time >= start
      {
        ConcatMember(groups, i, groups[i][j]);
      }
      UniformGroupFillsPeriod(start, period, groups[i], periods[i]);
    }
  }

  // ---------------------------------------------------------------- the loop

  class Statistics {
    var summary: Summary

    constructor (periodStart: int, periodEnd: int)
      ensures summary == Fresh(periodStart, periodEnd)
    {
      summary := Fresh(periodStart, periodEnd);
    }

    method Update(s: Sample)
      modifies this
      ensures summary == Updated(old(summary), s)
    {
      var sum := s.volume + summary.sum;
      var count := summary.count + 1;
      var start := MinInt(s.time, summary.durationStart.GetOr(s.time));
      var end := MaxInt(s.time, summary.durationEnd.GetOr(s.time));
      summary := Summary(summary.periodStart, summary.periodEnd, s.unit, count,
                         MinReal(s.volume, if summary.min == 0.0 then s.volume else summary.min),
                         MaxReal(s.volume, summary.max),
                         sum, sum / count as real, Some(start), Some(end), end - start);
    }
  }

  function NewestFirst(samples: seq<Sample>): (r: seq<Sample>)
    ensures |r| == |samples| && forall i :: 0 <= i < |r| ==> r[i] == samples[|samples| - 1 - i]
  {
    seq(|samples|, i requires 0 <= i < |samples| => samples[|samples| - 1 - i])
  }

  /** The empty record of the period of a time. */
  function RecordAt(start: int, end: int, period: nat, time: int): Summary {
    var from := PeriodStart(start, period, time);
    Fresh(from, if period == 0 then end else from + period * MICROS)
  }

  /** The record of one group of samples, which are in order of time. */
  function Record(start: int, end: int, period: nat, group: seq<Sample>): Summary
    requires group != []
  {
    Folded(RecordAt(start, end, period, group[0].time), group)
  }

  lemma SamePeriodStart(start: int, period: nat, a: int, b: int)
    ensures PeriodStart(start, period, a) == PeriodStart(start, period, b)
       <==> PeriodOf(start, period, a) == PeriodOf(start, period, b)
  {
    if period > 0 {
      var p, q, w := PeriodOf(start, period, a), PeriodOf(start, period, b), period * MICROS;
      if p < q {
        ScaledOrder(p + 1, q, w);
      } else if q < p {
        ScaledOrder(q + 1, p, w);
      }
    }
  }

  lemma {:induction false} FoldedKeepsPeriod(stat: Summary, group: seq<Sample>)
    ensures Folded(stat, group).periodStart == stat.periodStart && Folded(stat, group).periodEnd == stat.periodEnd
  {
    if group != [] {
      FoldedKeepsPeriod(stat, group[..|group| - 1]);
    }
  }

  lemma FoldedJoined(stat: Summary, group: seq<Sample>, s: Sample)
    ensures Folded(stat, group + [s]) == Updated(Folded(stat, group), s)
  {
    assert (group + [s])[..|group|] == group;
  }

  /** Whether the sample goes into the last record, as the loop decides it. */
  lemma JoinsLastRecord(start: int, end: int, period: nat, group: seq<Sample>, s: Sample)
    requires group != []
    ensures Record(start, end, period, group).periodStart == PeriodStart(start, period, s.time)
       <==> PeriodBucket(start, period)(group[0]) == PeriodBucket(start, period)(s)
    ensures Record(start, end, period, group + [s]) == Updated(Record(start, end, period, group), s)
  {
    FoldedKeepsPeriod(RecordAt(start, end, period, group[0].time), group);
    SamePeriodStart(start, period, group[0].time, s.time);
    FoldedJoined(RecordAt(start, end, period, group[0].time), group, s);
  }

  /** The summaries of the records. */
  ghost function Summaries(results: seq<Statistics>): (r: seq<Summary>)
    reads results
    ensures |r| == |results| && forall i :: 0 <= i < |r| ==> r[i] == results[i].summary
  {
    seq(|results|, i requires 0 <= i < |results| reads results => results[i].summary)
  }

  function RecordsOf(start: int, end: int, period: nat, groups: seq<seq<Sample>>): (r: seq<Summary>)
    requires forall i :: 0 <= i < |groups| ==> groups[i] != []
    ensures |r| == |groups|
  {
    if groups == [] then [] else
    RecordsOf(start, end, period, groups[..|groups| - 1]) + [Record(start, end, period, groups[|groups| - 1])]
  }

  /** What a sample does to the records so far. */
  function Step(start: int, end: int, period: nat, before: seq<Summary>, s: Sample): seq<Summary> {
    var m := |before| - 1;
    if m >= 0 && before[m].periodStart == PeriodStart(start, period, s.time)
    then before[..m] + [Updated(before[m], s)]
    else before + [Updated(RecordAt(start, end, period, s.time), s)]
  }

  lemma RecordsOfSnoc(start: int, end: int, period: nat, front: seq<seq<Sample>>, group: seq<Sample>)
    requires group != [] && forall i :: 0 <= i < |front| ==> front[i] != []
    ensures RecordsOf(start, end, period, front + [group])
         == RecordsOf(start, end, period, front) + [Record(start, end, period, group)]
  {
    assert (front + [group])[..|front|] == front;
  }

  lemma RecordOfOne(start: int, end: int, period: nat, s: Sample)
    ensures Record(start, end, period, [s]) == Updated(RecordAt(start, end, period, s.time), s)
  {
    FoldedJoined(RecordAt(start, end, period, s.time), [], s);
    assert [] + [s] == [s];
  }

  /** A further sample updates the last record, or a new one. */
  lemma RecordsOfExtended(start: int, end: int, period: nat, groups: seq<seq<Sample>>, s: Sample)
    requires forall i :: 0 <= i < |groups| ==> groups[i] != []
    ensures RecordsOf(start, end, period, Extended(PeriodBucket(start, period), groups, s))
         == Step(start, end, period, RecordsOf(start, end, period, groups), s)
  {
    var m := |groups| - 1;
    if m >= 0 {
      var front, last := groups[..m], groups[m];
      assert groups == front + [last];
      RecordsOfSnoc(start, end, period, front, last);
      RecordsOfSnoc(start, end, period, front, last + [s]);
      JoinsLastRecord(start, end, period, last, s);
      var before := RecordsOf(start, end, period, front);
      assert (before + [Record(start, end, period, last)])[..m] == before;
    }
    RecordsOfSnoc(start, end, period, groups, [s]);
    RecordOfOne(start, end, period, s);
  }

  /** The records of time-ordered samples. */
  function Expected(start: int, end: int, period: nat, samples: seq<Sample>): seq<Summary> {
    RecordsOf(start, end, period, Runs(PeriodBucket(start, period), samples))
  }

  lemma {:induction false} RecordsOfAt(start: int, end: int, period: nat, groups: seq<seq<Sample>>, i: nat)
    requires i < |groups| && forall j :: 0 <= j < |groups| ==> groups[j] != []
    ensures RecordsOf(start, end, period, groups)[i] == Record(start, end, period, groups[i])
  {
    if i < |groups| - 1 {
      RecordsOfAt(start, end, period, groups[..|groups| - 1], i);
    }
  }

  lemma {:induction false} OrderedGroup(groups: seq<seq<Sample>>, i: nat)
    requires i < |groups| && Ordered(Concat(groups))
    ensures Ordered(groups[i])
  {
    var n := |groups| - 1;
    var front := Concat(groups[..n]);
    assert forall j :: 0 <= j < |front| ==> front[j] == Concat(groups)[j];
    if i < n {
      OrderedGroup(groups[..n], i);
    } else {
      assert forall j :: 0 <= j < |groups[n]| ==> groups[n][j] == Concat(groups)[|front| + j];
    }
  }

  /** The record is about the period with the number p, and sums up the samples of the group, which are in it. */
  ghost predicate AboutPeriod(r: Summary, start: int, period: nat, p: int, group: seq<Sample>) {
    && SumsUp(r, start + p * (period * MICROS), start + (p + 1) * (period * MICROS), group)
    && forall j :: 0 <= j < |group| ==> InPeriod(start, period, p, group[j])
  }

  lemma RecordAboutPeriod(start: int, end: int, period: nat, p: int, group: seq<Sample>)
    requires period > 0 && Ordered(group) && FillsPeriod(start, period, group, p)
    ensures AboutPeriod(Record(start, end, period, group), start, period, p, group)
  {
    var w := period * MICROS;
    assert (p + 1) * w == p * w + w;
    RecordSumsUp(start + p * w, start + (p + 1) * w, group);
  }

  /** The statistics of time-ordered samples from the start on: one record for every period that has
      samples, in order of time, each about its own samples; every sample counts once. */
  lemma StatisticsArePeriods(start: int, end: int, period: nat, samples: seq<Sample>)
    returns (periods: seq<int>, groups: seq<seq<Sample>>)
    requires period > 0 && Ordered(samples) && forall i :: 0 <= i < |samples| ==> samples[i].time >= start
    ensures Concat(groups) == samples && |Expected(start, end, period, samples)| == |groups| == |periods|
    ensures forall i, j :: 0 <= i < j < |periods| ==> periods[i] < periods[j]
    ensures forall i :: 0 <= i < |groups| ==>
              AboutPeriod(Expected(start, end, period, samples)[i], start, period, periods[i], groups[i])
  {
    periods := GroupsArePeriods(start, period, samples);
    groups := Runs(PeriodBucket(start, period), samples);
    forall i | 0 <= i < |groups|
      ensures AboutPeriod(Expected(start, end, period, samples)[i], start, period, periods[i], groups[i])
    {
      OrderedGroup(groups, i);
      RecordAboutPeriod(start, end, period, periods[i], groups[i]);
      RecordsOfAt(start, end, period, groups, i);
    }
  }

  lemma {:induction false} OneRun(start: int, samples: seq<Sample>)
    requires samples != []
    ensures Runs(PeriodBucket(start, 0), samples) == [samples]
  {
    var n := |samples| - 1;
    if n > 0 {
      OneRun(start, samples[..n]);
      assert samples[..n] + [samples[n]] == samples;
    } else {
      assert samples[..0] == [] && samples == [samples[0]];
    }
  }

  /** Without periods there is one record about all samples, from the start to the end of the query. */
  lemma StatisticsOfAll(start: int, end: int, samples: seq<Sample>)
    requires samples != [] && Ordered(samples)
    ensures |Expected(start, end, 0, samples)| == 1 && SumsUp(Expected(start, end, 0, samples)[0], start, end, samples)
  {
    OneRun(start, samples);
    RecordsOfAt(start, end, 0, [samples], 0);
    RecordSumsUp(start, end, samples);
  }

  lemma ExpectedStep(start: int, end: int, period: nat, samples: seq<Sample>, i: nat)
    requires i < |samples|
    ensures Expected(start, end, period, samples[..i + 1])
         == Step(start, end, period, Expected(start, end, period, samples[..i]), samples[i])
  {
    assert samples[..i + 1][..i] == samples[..i];
    RecordsOfExtended(start, end, period, Runs(PeriodBucket(start, period), samples[..i]), samples[i]);
  }

  /** One turn of the loop below: starts a new record if the sample is in another period than the last one. */
  method RecordOne(before: seq<Statistics>, meter: Sample, startTime: int, endTime: int, period: nat)
    returns (results: seq<Statistics>)
    requires forall j, k :: 0 <= j < k < |before| ==> before[j] != before[k]
    modifies set r | r in before
    ensures Summaries(results) == Step(startTime, endTime, period, old(Summaries(before)), meter)
    ensures forall j, k :: 0 <= j < k < |results| ==> results[j] != results[k]
    ensures forall r :: r in results ==> r in before || fresh(r)
  {
    results := before;
    var periodStart, periodEnd := startTime, endTime;
    if period > 0 {
      var offset := PeriodOf(startTime, period, meter.time) * (period * MICROS);
      periodStart := startTime + offset;
    }
    if results == [] || results[|results| - 1].summary.periodStart != periodStart {
      if period > 0 {
        periodEnd := periodStart + period * MICROS;
      }
      var stat := new Statistics(periodStart, periodEnd);
      results := results + [stat];
    }
    results[|results| - 1].Update(meter);
  }

  /** The second half of `get_meter_statistics`; the scan gives the samples newest first. Where the query has no
      start or end, the oldest or newest sample gives it. */
  method GetMeterStatistics(meters: seq<Sample>, queryStart: Option<int>, queryEnd: Option<int>, period: nat)
    returns (results: seq<Statistics>)
    ensures fresh(set r | r in results)
    ensures forall start, end ::
              && meters != []
              && start == (if queryStart.Some? then queryStart.value else meters[|meters| - 1].time)
              && end == (if queryEnd.Some? then queryEnd.value else meters[0].time) ==>
                Summaries(results) == Expected(start, end, period, NewestFirst(meters))
    ensures meters == [] ==> results == []
  {
    results := [];
    if meters == [] {
      return;
    }
    var startTime := if queryStart.Some? then queryStart.value else meters[|meters| - 1].time;
    var endTime := if queryEnd.Some? then queryEnd.value else meters[0].time;
    ghost var samples := NewestFirst(meters);
    assert samples[..0] == [];
    for i := 0 to |meters|
      invariant forall r :: r in results ==> fresh(r)
      invariant forall j, k :: 0 <= j < k < |results| ==> results[j] != results[k]
      invariant Summaries(results) == Expected(startTime, endTime, period, samples[..i])
    {
      var meter := meters[|meters| - 1 - i];
      ExpectedStep(startTime, endTime, period, samples, i);
      results := RecordOne(results, meter, startTime, endTime, period);
    }
    assert samples[..|meters|] == samples;
  }
}
