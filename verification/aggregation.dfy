/** The aggregator: it merges the samples of each meter until enough of them have come or enough time
    has passed, and then flushes one sample per meter. */
module Aggregation {
  import opened Wrappers
  import opened Samples
  import opened Conversions

  datatype Keep = First | Last

  datatype MetadataPolicy = KeepFirst | KeepLast | Drop(blank: Metadata)

  /** A size or retention time of zero counts as absent; an attribute without a policy is part of the key. */
  datatype Config = Config(target: Target, size: nat, retention: real,
                           project: Option<Keep>, user: Option<Keep>,
                           metadata: MetadataPolicy, timestamp: Keep)

  function Attribute(value: Option<string>): string {
    value.GetOr("<undefined>")
  }

  function Attributes(c: Config, s: Sample): string {
    match (c.project, c.user)
    case (None, None) => Attribute(s.projectId) + "-" + Attribute(s.userId)
    case (None, Some(_)) => Attribute(s.projectId)
    case (Some(_), None) => Attribute(s.userId)
    case (Some(_), Some(_)) => ""
  }

  /** `_get_unique_key`. */
  function UniqueKey(c: Config, s: Sample): string {
    s.name + "-" + s.resourceId + "-" + Attributes(c, s)
  }

  lemma FirstDash(m: string, x: string, n: string, y: string)
    requires '-' !in m && '-' !in n
    ensures m + "-" + x == n + "-" + y <==> m == n && x == y
  {
    var a, b := m + "-" + x, n + "-" + y;
    assert a[|m|] == '-' && b[|n|] == '-';
    assert |m| < |n| ==> b[|m|] == n[|m|];
    assert |n| < |m| ==> a[|n|] == m[|n|];
    if a == b {
      assert m == a[..|m|] && n == b[..|n|];
      assert x == a[|m| + 1..] && y == b[|n| + 1..];
    }
  }

  lemma SameLength(m: string, x: string, n: string, y: string)
    requires |m| == |n|
    ensures m + "-" + x == n + "-" + y <==> m == n && x == y
  {
    var a, b := m + "-" + x, n + "-" + y;
    assert m == a[..|m|] && n == b[..|n|];
    assert x == a[|m| + 1..] && y == b[|n| + 1..];
  }

  /** Where the names have no dash, and resource ids and projects are as long as each other (as UUIDs are), samples
      have the same key exactly if they agree in name, resource, and the attributes that have no policy. */
  lemma SameKeyExactly(c: Config, a: Sample, b: Sample)
    requires '-' !in a.name && '-' !in b.name && |a.resourceId| == |b.resourceId|
    requires |a.projectId.GetOr("<undefined>")| == |b.projectId.GetOr("<undefined>")|
    ensures UniqueKey(c, a) == UniqueKey(c, b) <==>
              && a.name == b.name && a.resourceId == b.resourceId
              && (c.project.None? ==> a.projectId.GetOr("<undefined>") == b.projectId.GetOr("<undefined>"))
              && (c.user.None? ==> a.userId.GetOr("<undefined>") == b.userId.GetOr("<undefined>"))
  {
    var x, y := Attributes(c, a), Attributes(c, b);
    assert UniqueKey(c, a) == a.name + "-" + (a.resourceId + "-" + x);
    assert UniqueKey(c, b) == b.name + "-" + (b.resourceId + "-" + y);
    FirstDash(a.name, a.resourceId + "-" + x, b.name, b.resourceId + "-" + y);
    SameLength(a.resourceId, x, b.resourceId, y);
    SameLength(Attribute(a.projectId), Attribute(a.userId), Attribute(b.projectId), Attribute(b.userId));
  }

  datatype Aggregate = Aggregate(samples: map<string, Sample>, counts: map<string, nat>,
                                 aggregated: nat, initial: Option<real>)

  const EMPTY := Aggregate(map[], map[], 0, None)

  /** The first sample of a key. */
  function Started(c: Config, s: Sample): Sample {
    var first := Convert(c.target, s, 1.0);
    if c.metadata.Drop? then first.(metadata := c.metadata.blank) else first
  }

  /** The first sample of a key: its volume is scaled and bounded, the metadata are dropped where configured. */
  lemma StartedExactly(c: Config, s: Sample, amount: real)
    requires IsScaled(c.target, s, amount)
    ensures IsBounded(c.target, amount, Started(c, s).volume)
    ensures Started(c, s).metadata == match c.metadata case Drop(blank) => blank case _ => s.metadata
    ensures IsRelabelled(c.target, s, Started(c, s).(metadata := s.metadata))
  {
    ConvertedExactly(c.target, s, 1.0, amount);
    assert amount * 1.0 == amount;
  }

  /** A further sample of the same key. */
  function Merged(c: Config, held: Sample, s: Sample): Sample {
    held.(timestamp := if c.timestamp == Last then s.timestamp else held.timestamp,
          volume := if s.kind == Cumulative then Scaled(c.target, s) else held.volume + Scaled(c.target, s),
          projectId := if c.project == Some(Last) then s.projectId else held.projectId,
          userId := if c.user == Some(Last) then s.userId else held.userId,
          metadata := if c.metadata == KeepLast then s.metadata else held.metadata)
  }

  /** The sample is counted and merged under a key. */
  function AggregatedUnder(c: Config, key: string, a: Aggregate, s: Sample): Aggregate {
    Aggregate(a.samples[key := if key in a.samples then Merged(c, a.samples[key], s) else Started(c, s)],
              a.counts[key := (if key in a.counts then a.counts[key] else 0) + 1],
              a.aggregated + 1,
              if a.initial == None then Some(s.timestamp) else a.initial)
  }

  function Aggregated(c: Config, a: Aggregate, s: Sample): Aggregate {
    AggregatedUnder(c, UniqueKey(c, s), a, s)
  }

  predicate Due(c: Config, a: Aggregate, now: real) {
    && a.initial.Some?
    && ((c.size > 0 && a.aggregated >= c.size)
        || (c.retention != 0.0 && now - a.initial.value > c.retention))
  }

  /** A gauge is averaged over the count under its own key; None for the division by zero when there
      is no such count. Other samples stay as they are. */
  function Averaged(c: Config, counts: map<string, nat>, s: Sample): Option<Sample> {
    if s.kind != Gauge then
      Some(s)
    else
      var key := UniqueKey(c, s);
      if key in counts && counts[key] > 0 then Some(s.(volume := s.volume / counts[key] as real)) else None
  }

  predicate Averageable(c: Config, a: Aggregate) {
    forall k :: k in a.samples ==> Averaged(c, a.counts, a.samples[k]).Some?
  }

  function Flushed(c: Config, a: Aggregate): map<string, Sample>
    requires Averageable(c, a)
  {
    map k | k in a.samples :: Averaged(c, a.counts, a.samples[k]).value
  }

  // ---------------------------------------------------------------- what is held, in terms of what came

  /** The samples of a key, in the order they came. */
  function Group(c: Config, log: seq<Sample>, k: string): seq<Sample> {
    if log == [] then [] else
    var last := log[|log| - 1];
    Group(c, log[..|log| - 1], k) + (if UniqueKey(c, last) == k then [last] else [])
  }

  /** The volume held for a group of samples. */
  function GroupVolume(c: Config, group: seq<Sample>): real
    requires group != []
  {
    var last := group[|group| - 1];
    if |group| == 1 then Convert(c.target, last, 1.0).volume
    else if last.kind == Cumulative then Scaled(c.target, last)
    else GroupVolume(c, group[..|group| - 1]) + Scaled(c.target, last)
  }

  /** What is held carries the attributes of the first or the last sample of its group, as configured. */
  predicate Carries(c: Config, held: Sample, group: seq<Sample>)
    requires group != []
  {
    var first, last := group[0], group[|group| - 1];
    && held.name == c.target.rename(first) && held.unit == c.target.unit(first)
    && held.kind == c.target.kind.GetOr(first.kind) && held.resourceId == first.resourceId
    && held.timestamp == (if c.timestamp == Last then last.timestamp else first.timestamp)
    && held.projectId == (if c.project == Some(Last) then last.projectId else first.projectId)
    && held.userId == (if c.user == Some(Last) then last.userId else first.userId)
    && held.metadata == match c.metadata
                        case KeepFirst => first.metadata
                        case KeepLast => last.metadata
                        case Drop(blank) => blank
  }

  /** What is held under a key comes from the samples of that key. */
  ghost predicate DescribesKey(c: Config, a: Aggregate, group: seq<Sample>, k: string) {
    && (k in a.counts <==> group != [])
    && (k in a.samples <==> group != [])
    && (group != [] ==>
          && a.counts[k] == |group|
          && a.samples[k].volume == GroupVolume(c, group)
          && Carries(c, a.samples[k], group))
  }

  /** The aggregate is what handling the samples of the log, from empty, leads to. */
  ghost predicate Describes(c: Config, a: Aggregate, log: seq<Sample>) {
    && a.aggregated == |log|
    && a.initial == (if log == [] then None else Some(log[0].timestamp))
    && forall k :: DescribesKey(c, a, Group(c, log, k), k)
  }

  /** A flush at that time emits: enough samples have come since the last one, or the first of them is old enough. */
  ghost predicate Ripe(c: Config, log: seq<Sample>, now: real) {
    && log != []
    && ((c.size > 0 && |log| >= c.size) || (c.retention != 0.0 && now - log[0].timestamp > c.retention))
  }

  lemma DueExactly(c: Config, a: Aggregate, log: seq<Sample>, now: real)
    requires Describes(c, a, log)
    ensures Due(c, a, now) <==> Ripe(c, log, now)
  {
  }

  lemma GroupAfter(c: Config, log: seq<Sample>, s: Sample, k: string)
    ensures Group(c, log + [s], k) == if UniqueKey(c, s) == k then Group(c, log, k) + [s] else Group(c, log, k)
  {
    assert (log + [s])[..|log|] == log;
  }

  lemma MergedCarries(c: Config, held: Sample, group: seq<Sample>, s: Sample)
    requires group != [] && Carries(c, held, group)
    ensures Carries(c, Merged(c, held, s), group + [s])
  {
  }

  lemma StartedCarries(c: Config, s: Sample)
    ensures Carries(c, Started(c, s), [s])
  {
  }

  lemma HandleDescribesKey(c: Config, a: Aggregate, s: Sample, group: seq<Sample>, k: string)
    requires DescribesKey(c, a, group, k)
    ensures DescribesKey(c, Aggregated(c, a, s), if UniqueKey(c, s) == k then group + [s] else group, k)
  {
    assert (group + [s])[..|group|] == group;
    if group != [] {
      MergedCarries(c, a.samples[k], group, s);
    } else {
      assert group + [s] == [s];
      StartedCarries(c, s);
    }
  }

  lemma HandleDescribes(c: Config, a: Aggregate, log: seq<Sample>, s: Sample)
    requires Describes(c, a, log)
    ensures Describes(c, Aggregated(c, a, s), log + [s])
  {
    forall k
      ensures DescribesKey(c, Aggregated(c, a, s), Group(c, log + [s], k), k)
    {
      GroupAfter(c, log, s, k);
      HandleDescribesKey(c, a, s, Group(c, log, k), k);
    }
  }

  function AggregateOf(c: Config, log: seq<Sample>): Aggregate {
    if log == [] then EMPTY else Aggregated(c, AggregateOf(c, log[..|log| - 1]), log[|log| - 1])
  }

  lemma AggregateOfMore(c: Config, log: seq<Sample>, s: Sample)
    ensures AggregateOf(c, log + [s]) == Aggregated(c, AggregateOf(c, log), s)
  {
    assert (log + [s])[..|log|] == log;
  }

  lemma {:induction false} AggregateOfDescribes(c: Config, log: seq<Sample>)
    ensures Describes(c, AggregateOf(c, log), log)
  {
    if log != [] {
      var n := |log| - 1;
      AggregateOfDescribes(c, log[..n]);
      HandleDescribes(c, AggregateOf(c, log[..n]), log[..n], log[n]);
      assert log[..n] + [log[n]] == log;
    }
  }

  function Keys(c: Config, log: seq<Sample>): multiset<string> {
    if log == [] then multiset{} else Keys(c, log[..|log| - 1]) + multiset{UniqueKey(c, log[|log| - 1])}
  }

  /** The counts are those of a multiset of keys with as many elements as samples were aggregated. */
  lemma {:induction false} CountsAddUp(c: Config, log: seq<Sample>)
    ensures var a := AggregateOf(c, log);
            && |Keys(c, log)| == a.aggregated == |log| && a.samples.Keys == a.counts.Keys
            && forall k :: Keys(c, log)[k] == if k in a.counts then a.counts[k] else 0
  {
    if log != [] {
      CountsAddUp(c, log[..|log| - 1]);
    }
  }

  // ---------------------------------------------------------------- the flushed volumes

  predicate Unbounded(target: Target) {
    target.max == None || target.max == Some(0.0)
  }

  function Total(c: Config, group: seq<Sample>): real {
    if group == [] then 0.0 else Total(c, group[..|group| - 1]) + Scaled(c.target, group[|group| - 1])
  }

  /** Volumes add up, except that a cumulative sample replaces what was there. */
  lemma {:induction false} GroupVolumeIsTotalOrLast(c: Config, group: seq<Sample>)
    requires Unbounded(c.target) && group != []
    ensures (forall s :: s in group ==> s.kind != Cumulative) ==> GroupVolume(c, group) == Total(c, group)
    ensures group[|group| - 1].kind == Cumulative ==> GroupVolume(c, group) == Scaled(c.target, group[|group| - 1])
  {
    var n := |group| - 1;
    if n == 0 {
      assert Total(c, group[..0]) == 0.0;
    } else {
      GroupVolumeIsTotalOrLast(c, group[..n]);
    }
  }

  /** The held volume of a group step by step: the first amount with the bound; then a cumulative sample puts its
      own in place, and any other adds it, without the bound. */
  lemma GroupVolumeExactly(c: Config, group: seq<Sample>, amount: real)
    requires group != [] && IsScaled(c.target, group[|group| - 1], amount)
    ensures |group| == 1 ==> IsBounded(c.target, amount, GroupVolume(c, group))
    ensures |group| > 1 ==>
              GroupVolume(c, group) == if group[|group| - 1].kind == Cumulative then amount
                                       else GroupVolume(c, group[..|group| - 1]) + amount
  {
    ConvertedExactly(c.target, group[|group| - 1], 1.0, amount);
    ScaledExactly(c.target, group[|group| - 1]);
    assert amount * 1.0 == amount;
  }

  predicate Between(c: Config, group: seq<Sample>, low: real, high: real) {
    forall i :: 0 <= i < |group| ==> low <= Scaled(c.target, group[i]) <= high
  }

  lemma {:induction false} TotalBetween(c: Config, group: seq<Sample>, low: real, high: real)
    requires Between(c, group, low, high)
    ensures low * |group| as real <= Total(c, group) <= high * |group| as real
  {
    if group != [] {
      var n := |group| - 1;
      TotalBetween(c, group[..n], low, high);
      assert low * (n as real + 1.0) == low * n as real + low && high * (n as real + 1.0) == high * n as real + high;
    }
  }

  lemma ScaleStrictly(a: real, b: real, n: real)
    requires n > 0.0 && a < b
    ensures a * n < b * n
  {
  }

  lemma QuotientBetween(total: real, n: real, low: real, high: real)
    requires n > 0.0 && low * n <= total <= high * n
    ensures low <= total / n <= high
  {
    assert (total / n) * n == total;
    if total / n < low {
      ScaleStrictly(total / n, low, n);
    }
    if total / n > high {
      ScaleStrictly(high, total / n, n);
    }
  }

  // ---------------------------------------------------------------- when a flush fails

  /** Where the result is a gauge, converting a sample does not change its key. */
  ghost predicate KeepsGaugeKeys(c: Config) {
    forall s :: Started(c, s).kind == Gauge ==> UniqueKey(c, Started(c, s)) == UniqueKey(c, s)
  }

  /** Every held gauge has the key it is held under. */
  ghost predicate GaugesUnderOwnKeys(c: Config, a: Aggregate) {
    && a.samples.Keys == a.counts.Keys
    && forall k :: k in a.samples ==>
         a.counts[k] > 0 && (a.samples[k].kind == Gauge ==> UniqueKey(c, a.samples[k]) == k)
  }

  lemma MergedKeepsKey(c: Config, held: Sample, s: Sample)
    ensures UniqueKey(c, Merged(c, held, s)) == UniqueKey(c, held) && Merged(c, held, s).kind == held.kind
  {
  }

  lemma {:induction false} GaugesStayUnderOwnKeys(c: Config, log: seq<Sample>)
    requires KeepsGaugeKeys(c)
    ensures GaugesUnderOwnKeys(c, AggregateOf(c, log))
  {
    if log != [] {
      var n := |log| - 1;
      GaugesStayUnderOwnKeys(c, log[..n]);
      var a, s := AggregateOf(c, log[..n]), log[n];
      var key := UniqueKey(c, s);
      if key in a.samples {
        MergedKeepsKey(c, a.samples[key], s);
      }
    }
  }

  ghost predicate FlushNeverFails(c: Config) {
    forall log :: Averageable(c, AggregateOf(c, log))
  }

  lemma AggregateOfOne(c: Config, s: Sample)
    ensures AggregateOf(c, [s]) == Aggregated(c, EMPTY, s)
  {
    assert [s][..0] == [] && AggregateOf(c, [s][..0]) == EMPTY;
  }

  /** A flush divides by zero exactly when converting a gauge can change its key (its meter's name). */
  lemma FlushNeverFailsExactly(c: Config)
    ensures FlushNeverFails(c) <==> KeepsGaugeKeys(c)
  {
    if KeepsGaugeKeys(c) {
      forall log ensures Averageable(c, AggregateOf(c, log)) {
        GaugesStayUnderOwnKeys(c, log);
      }
    } else {
      var s :| Started(c, s).kind == Gauge && UniqueKey(c, Started(c, s)) != UniqueKey(c, s);
      AggregateOfOne(c, s);
      var a := AggregateOf(c, [s]);
      assert UniqueKey(c, s) in a.samples && UniqueKey(c, a.samples[UniqueKey(c, s)]) !in a.counts;
      assert !Averageable(c, AggregateOf(c, [s]));
    }
  }

  /** The samples of the group are all of one type. */
  predicate OneKind(group: seq<Sample>, kind: Kind) {
    forall i :: 0 <= i < |group| ==> group[i].kind == kind
  }

  lemma HeldVolume(c: Config, a: Aggregate, group: seq<Sample>, k: string, kind: Kind)
    requires Unbounded(c.target) && Averageable(c, a) && GaugesUnderOwnKeys(c, a)
    requires k in a.samples && DescribesKey(c, a, group, k) && OneKind(group, kind)
    ensures var amount := if kind == Cumulative then Scaled(c.target, group[|group| - 1]) else Total(c, group);
            var out := Flushed(c, a)[k];
            && out.kind == c.target.kind.GetOr(kind)
            && out.volume == if out.kind == Gauge then amount / |group| as real else amount
  {
    GroupVolumeIsTotalOrLast(c, group);
    assert group[|group| - 1].kind == kind;
    if kind != Cumulative {
      assert forall s :: s in group ==> s.kind != Cumulative;
    }
  }

  /** What a flush after any samples emits for a key that has some: the total of its group, or the last volume of
      a cumulative meter, divided by the size of the group if the result is a gauge. */
  lemma FlushedVolume(c: Config, log: seq<Sample>, k: string, kind: Kind)
    requires Unbounded(c.target) && KeepsGaugeKeys(c)
    requires Group(c, log, k) != [] && OneKind(Group(c, log, k), kind)
    ensures var a, group := AggregateOf(c, log), Group(c, log, k);
            && Averageable(c, a) && k in Flushed(c, a)
            && var amount := if kind == Cumulative then Scaled(c.target, group[|group| - 1]) else Total(c, group);
            var out := Flushed(c, a)[k];
            && out.kind == c.target.kind.GetOr(kind)
            && out.volume == if out.kind == Gauge then amount / |group| as real else amount
  {
    AggregateOfDescribes(c, log);
    GaugesStayUnderOwnKeys(c, log);
    FlushNeverFailsExactly(c);
    var a, group := AggregateOf(c, log), Group(c, log, k);
    assert DescribesKey(c, a, group, k);
    HeldVolume(c, a, group, k, kind);
  }

  function Mean(c: Config, group: seq<Sample>): real
    requires group != []
  {
    Total(c, group) / |group| as real
  }

  lemma MeanBetween(c: Config, group: seq<Sample>, low: real, high: real)
    requires group != [] && Between(c, group, low, high)
    ensures low <= Mean(c, group) <= high
  {
    TotalBetween(c, group, low, high);
    QuotientBetween(Total(c, group), |group| as real, low, high);
  }

  lemma FlushedMean(c: Config, log: seq<Sample>, k: string)
    requires Unbounded(c.target) && KeepsGaugeKeys(c) && c.target.kind.GetOr(Gauge) == Gauge
    requires Group(c, log, k) != [] && OneKind(Group(c, log, k), Gauge)
    ensures var a := AggregateOf(c, log);
            Averageable(c, a) && k in Flushed(c, a) && Flushed(c, a)[k].volume == Mean(c, Group(c, log, k))
  {
    FlushedVolume(c, log, k, Gauge);
  }

  /** A flushed gauge is the mean of its group, and lies between the bounds of what it averages. */
  lemma FlushedGaugeBetween(c: Config, log: seq<Sample>, k: string, low: real, high: real)
    requires Unbounded(c.target) && KeepsGaugeKeys(c) && c.target.kind.GetOr(Gauge) == Gauge
    requires Group(c, log, k) != [] && OneKind(Group(c, log, k), Gauge) && Between(c, Group(c, log, k), low, high)
    ensures var a := AggregateOf(c, log);
            && Averageable(c, a) && k in Flushed(c, a) && Flushed(c, a)[k].volume == Mean(c, Group(c, log, k))
            && low <= Flushed(c, a)[k].volume <= high
  {
    FlushedMean(c, log, k);
    MeanBetween(c, Group(c, log, k), low, high);
  }

  /** What is emitted for a key carries what it should, with the volume of the group, averaged for a gauge over the
      samples under its own key. */
  ghost predicate EmitsGroup(c: Config, log: seq<Sample>, k: string, out: Sample) {
    && Group(c, log, k) != [] && Carries(c, out, Group(c, log, k))
    && var volume, count := GroupVolume(c, Group(c, log, k)), |Group(c, log, UniqueKey(c, out))|;
       if out.kind == Gauge then count > 0 && out.volume == volume / count as real else out.volume == volume
  }

  ghost predicate EmitsGroups(c: Config, log: seq<Sample>, out: map<string, Sample>) {
    && (forall k :: k in out <==> Group(c, log, k) != [])
    && forall k :: k in out ==> EmitsGroup(c, log, k, out[k])
  }

  /** The sample for some key is to be a gauge, and there are no samples under the key that it has itself. */
  ghost predicate MissesCount(c: Config, log: seq<Sample>) {
    exists k, held :: Misses(c, log, k, held)
  }

  ghost predicate Misses(c: Config, log: seq<Sample>, k: string, held: Sample) {
    && Group(c, log, k) != [] && Carries(c, held, Group(c, log, k))
    && held.kind == Gauge && Group(c, log, UniqueKey(c, held)) == []
  }

  lemma AveragedExactly(c: Config, a: Aggregate, log: seq<Sample>, k: string)
    requires Describes(c, a, log) && k in a.samples
    ensures Averaged(c, a.counts, a.samples[k]).None? <==> Misses(c, log, k, a.samples[k])
    ensures var out := Averaged(c, a.counts, a.samples[k]); out.Some? ==> EmitsGroup(c, log, k, out.value)
  {
    var own := UniqueKey(c, a.samples[k]);
    assert DescribesKey(c, a, Group(c, log, k), k);
    assert DescribesKey(c, a, Group(c, log, own), own);
    var out := Averaged(c, a.counts, a.samples[k]);
    if out.Some? {
      assert UniqueKey(c, out.value) == own;
    }
  }

  lemma AverageableExactly(c: Config, a: Aggregate, log: seq<Sample>)
    requires Describes(c, a, log)
    ensures Averageable(c, a) <==> !MissesCount(c, log)
  {
    forall k | k in a.samples
      ensures Averaged(c, a.counts, a.samples[k]).None? <==> Misses(c, log, k, a.samples[k])
    {
      AveragedExactly(c, a, log, k);
    }
    forall k, held | Misses(c, log, k, held)
      ensures k in a.samples && Misses(c, log, k, a.samples[k])
    {
      assert DescribesKey(c, a, Group(c, log, k), k);
    }
  }

  lemma FlushedExactly(c: Config, a: Aggregate, log: seq<Sample>)
    requires Describes(c, a, log) && Averageable(c, a)
    ensures EmitsGroups(c, log, Flushed(c, a))
  {
    forall k
      ensures k in a.samples <==> Group(c, log, k) != []
    {
      assert DescribesKey(c, a, Group(c, log, k), k);
    }
    forall k | k in a.samples {
      AveragedExactly(c, a, log, k);
    }
  }

  lemma FlushOfLog(c: Config, a: Aggregate, log: seq<Sample>, now: real)
    ensures a == AggregateOf(c, log) ==>
              && (Due(c, a, now) <==> Ripe(c, log, now))
              && if MissesCount(c, log) then !Averageable(c, a)
                 else Averageable(c, a) && EmitsGroups(c, log, Flushed(c, a))
  {
    if a == AggregateOf(c, log) {
      AggregateOfDescribes(c, log);
      DueExactly(c, a, log, now);
      AverageableExactly(c, a, log);
      if Averageable(c, a) {
        FlushedExactly(c, a, log);
      }
    }
  }

  // ---------------------------------------------------------------- runs

  datatype Event = Arrive(sample: Sample) | Tick(now: real)

  /** The samples since the last flush, and the flushes so far, each with the samples it covered. */
  datatype History = History(log: seq<Sample>, flushes: seq<seq<Sample>>)

  ghost function Run(c: Config, events: seq<Event>): History {
    if events == [] then History([], []) else
    var before := Run(c, events[..|events| - 1]);
    match events[|events| - 1]
    case Arrive(s) => before.(log := before.log + [s])
    case Tick(now) =>
      var a := AggregateOf(c, before.log);
      if Ripe(c, before.log, now) && Averageable(c, a)
      then History([], before.flushes + [before.log])
      else before
  }

  function Arrivals(events: seq<Event>): seq<Sample> {
    if events == [] then [] else
    Arrivals(events[..|events| - 1])
    + (match events[|events| - 1] case Arrive(s) => [s] case Tick(_) => [])
  }

  /** The volume that flushes put out under a key. */
  function FlushedUnder(c: Config, flushes: seq<seq<Sample>>, k: string): real {
    if flushes == [] then 0.0 else
    var a := AggregateOf(c, flushes[|flushes| - 1]);
    FlushedUnder(c, flushes[..|flushes| - 1], k)
    + (if Averageable(c, a) && k in a.samples then Flushed(c, a)[k].volume else 0.0)
  }

  function HeldUnder(a: Aggregate, k: string): real {
    if k in a.samples then a.samples[k].volume else 0.0
  }

  lemma {:induction false} LogHasArrived(c: Config, events: seq<Event>)
    ensures forall s :: s in Run(c, events).log ==> s in Arrivals(events)
  {
    if events != [] {
      LogHasArrived(c, events[..|events| - 1]);
    }
  }

  lemma {:induction false} GroupMembers(c: Config, log: seq<Sample>, k: string)
    ensures forall s :: s in Group(c, log, k) ==> s in log && UniqueKey(c, s) == k
  {
    if log != [] {
      GroupMembers(c, log[..|log| - 1], k);
    }
  }

  /** All that arrived under the key are deltas, and they do not become gauges. */
  ghost predicate DeltasOnly(c: Config, events: seq<Event>, k: string) {
    && c.target.kind.GetOr(Delta) != Gauge
    && forall s :: s in Arrivals(events) && UniqueKey(c, s) == k ==> s.kind == Delta
  }

  lemma FlushedOrHeldDelta(c: Config, log: seq<Sample>, k: string)
    requires Unbounded(c.target) && KeepsGaugeKeys(c) && c.target.kind.GetOr(Delta) != Gauge
    requires OneKind(Group(c, log, k), Delta)
    ensures var a := AggregateOf(c, log);
            && Averageable(c, a) && HeldUnder(a, k) == Total(c, Group(c, log, k))
            && (k in a.samples ==> Flushed(c, a)[k].volume == a.samples[k].volume)
  {
    var a, group := AggregateOf(c, log), Group(c, log, k);
    AggregateOfDescribes(c, log);
    GaugesStayUnderOwnKeys(c, log);
    FlushNeverFailsExactly(c);
    assert DescribesKey(c, a, group, k);
    if k in a.samples {
      HeldVolume(c, a, group, k, Delta);
      GroupVolumeIsTotalOrLast(c, group);
      assert forall s :: s in group ==> s.kind != Cumulative;
    }
  }

  lemma TotalAfter(c: Config, log: seq<Sample>, s: Sample, k: string)
    ensures Total(c, Group(c, log + [s], k))
         == Total(c, Group(c, log, k)) + (if UniqueKey(c, s) == k then Scaled(c.target, s) else 0.0)
  {
    GroupAfter(c, log, s, k);
    var group := Group(c, log, k);
    assert (group + [s])[..|group|] == group;
  }

  lemma FlushedUnderAfter(c: Config, flushes: seq<seq<Sample>>, log: seq<Sample>, k: string)
    requires Unbounded(c.target) && KeepsGaugeKeys(c) && c.target.kind.GetOr(Delta) != Gauge
    requires OneKind(Group(c, log, k), Delta)
    ensures FlushedUnder(c, flushes + [log], k) == FlushedUnder(c, flushes, k) + Total(c, Group(c, log, k))
  {
    FlushedOrHeldDelta(c, log, k);
    assert (flushes + [log])[..|flushes|] == flushes;
  }

  lemma LoggedDeltas(c: Config, events: seq<Event>, k: string)
    requires DeltasOnly(c, events, k)
    ensures OneKind(Group(c, Run(c, events).log, k), Delta)
  {
    LogHasArrived(c, events);
    GroupMembers(c, Run(c, events).log, k);
    var group := Group(c, Run(c, events).log, k);
    assert forall i :: 0 <= i < |group| ==> group[i] in group;
  }

  /** The books balance: what was flushed under a key and what is in the log is what arrived. */
  ghost predicate Balanced(c: Config, h: History, arrivals: seq<Sample>, k: string) {
    FlushedUnder(c, h.flushes, k) + Total(c, Group(c, h.log, k)) == Total(c, Group(c, arrivals, k))
  }

  lemma ArrivalKeepsBalance(c: Config, h: History, arrivals: seq<Sample>, s: Sample, k: string)
    requires Balanced(c, h, arrivals, k)
    ensures Balanced(c, h.(log := h.log + [s]), arrivals + [s], k)
  {
    TotalAfter(c, h.log, s, k);
    TotalAfter(c, arrivals, s, k);
  }

  lemma FlushKeepsBalance(c: Config, h: History, arrivals: seq<Sample>, k: string)
    requires Balanced(c, h, arrivals, k) && OneKind(Group(c, h.log, k), Delta)
    requires Unbounded(c.target) && KeepsGaugeKeys(c) && c.target.kind.GetOr(Delta) != Gauge
    ensures Balanced(c, History([], h.flushes + [h.log]), arrivals, k)
  {
    FlushedUnderAfter(c, h.flushes, h.log, k);
    assert Group(c, [], k) == [];
  }

  lemma {:induction false} FlushedAndLogged(c: Config, events: seq<Event>, k: string)
    requires Unbounded(c.target) && KeepsGaugeKeys(c) && DeltasOnly(c, events, k)
    ensures Balanced(c, Run(c, events), Arrivals(events), k)
  {
    if events != [] {
      var front := events[..|events| - 1];
      assert forall s :: s in Arrivals(front) ==> s in Arrivals(events);
      FlushedAndLogged(c, front, k);
      match events[|events| - 1] {
        case Arrive(s) =>
          ArrivalKeepsBalance(c, Run(c, front), Arrivals(front), s, k);
        case Tick(now) =>
          assert Arrivals(events) == Arrivals(front) + [] == Arrivals(front);
          LoggedDeltas(c, front, k);
          FlushKeepsBalance(c, Run(c, front), Arrivals(front), k);
      }
    }
  }

  /** Over any run of arrivals and flushes, the delta volume that was flushed together with what is
      still held is the total scaled volume that came in. */
  lemma DeltasConserved(c: Config, events: seq<Event>, k: string)
    requires Unbounded(c.target) && KeepsGaugeKeys(c) && DeltasOnly(c, events, k)
    ensures var h := Run(c, events);
            FlushedUnder(c, h.flushes, k) + HeldUnder(AggregateOf(c, h.log), k)
            == Total(c, Group(c, Arrivals(events), k))
  {
    FlushedAndLogged(c, events, k);
    LoggedDeltas(c, events, k);
    FlushedOrHeldDelta(c, Run(c, events).log, k);
  }

  // ---------------------------------------------------------------- the transformer

  /** `AggregatorTransformer`, with the samples it has taken in since its last flush. */
  class Aggregator {
    const config: Config
    var samples: map<string, Sample>
    var counts: map<string, nat>
    var aggregatedSamples: nat
    var initialTimestamp: Option<real>
    ghost var log: seq<Sample>

    /** Without a size and a retention time the size is one. */
    constructor (config: Config)
      ensures Valid() && log == []
      ensures this.config == config.(size := if config.size == 0 && config.retention == 0.0 then 1 else config.size)
    {
      this.config := if config.size == 0 && config.retention == 0.0 then config.(size := 1) else config;
      samples, counts, aggregatedSamples, initialTimestamp, log := map[], map[], 0, None, [];
    }

    ghost function View(): Aggregate
      reads this
    {
      Aggregate(samples, counts, aggregatedSamples, initialTimestamp)
    }

    ghost predicate Valid()
      reads this
    {
      View() == AggregateOf(config, log)
    }

    /** The state changes alike in any state, also in the one that a failed flush leaves. */
    method HandleSample(s: Sample)
      modifies this
      ensures View() == Aggregated(config, old(View()), s)
      ensures log == old(log) + [s]
      ensures old(Valid()) ==> Valid()
    {
      if initialTimestamp == None {
        initialTimestamp := Some(s.timestamp);
      }
      aggregatedSamples := aggregatedSamples + 1;
      var key := UniqueKey(config, s);
      counts := counts[key := (if key in counts then counts[key] else 0) + 1];
      if key !in samples {
        samples := samples[key := Started(config, s)];
      } else {
        samples := samples[key := Merged(config, samples[key], s)];
      }
      assert View() == AggregatedUnder(config, key, old(View()), s);
      AggregateOfMore(config, log, s);
      log := log + [s];
    }

    /** The loop of `flush` over the gauges; not ok for the ZeroDivisionError. By then some gauges may have
        been divided, and looking up the missing count has added a zero under its key. */
    method AverageGauges() returns (ok: bool)
      modifies `samples, `counts
      ensures ok <==> Averageable(config, old(View()))
      ensures ok ==> samples == Flushed(config, old(View())) && counts == old(counts)
      ensures !ok ==> PartlyAveraged(config, old(View()), samples, counts)
    {
      var todo := samples.Keys;
      while todo != {}
        invariant todo <= samples.Keys == old(samples).Keys && counts == old(counts)
        invariant forall k :: k in todo ==> samples[k] == old(samples)[k]
        invariant forall k :: k in samples && k !in todo ==>
          Averaged(config, counts, old(samples)[k]) == Some(samples[k])
        decreases todo
      {
        var k :| k in todo;
        var average := Averaged(config, counts, samples[k]);
        if average.None? {
          counts := WithCount(counts, UniqueKey(config, samples[k]));
          return false;
        }
        samples := samples[k := average.value];
        todo := todo - {k};
      }
      ok := true;
    }

    /** None for the ZeroDivisionError. */
    method Flush(now: real) returns (flushed: Option<map<string, Sample>>)
      modifies this
      ensures old(Valid()) && !Ripe(config, old(log), now) ==>
                flushed == Some(map[]) && View() == old(View()) && log == old(log)
      ensures old(Valid()) && Ripe(config, old(log), now) ==>
                if MissesCount(config, old(log)) then flushed == None
                else flushed.Some? && EmitsGroups(config, old(log), flushed.value) && Valid() && log == []
      ensures !Due(config, old(View()), now) ==> flushed == Some(map[]) && View() == old(View()) && log == old(log)
      ensures Due(config, old(View()), now) && Averageable(config, old(View())) ==>
                flushed == Some(Flushed(config, old(View()))) && Valid() && log == []
      ensures Due(config, old(View()), now) && !Averageable(config, old(View())) ==>
                && flushed == None && PartlyAveraged(config, old(View()), samples, counts)
                && aggregatedSamples == old(aggregatedSamples) && initialTimestamp == old(initialTimestamp)
    {
      FlushOfLog(config, View(), log, now);
      if initialTimestamp == None {
        return Some(map[]);
      }
      var expired := config.retention != 0.0 && now - initialTimestamp.value > config.retention;
      var full := config.size > 0 && aggregatedSamples >= config.size;
      if !full && !expired {
        return Some(map[]);
      }
      var ok := AverageGauges();
      if !ok {
        return None;
      }
      flushed := Some(samples);
      samples, counts, aggregatedSamples, initialTimestamp, log := map[], map[], 0, None, [];
    }
  }

  /** Looking up a count adds a zero if there is none. */
  function WithCount(counts: map<string, nat>, key: string): map<string, nat> {
    if key in counts then counts else counts[key := 0]
  }

  /** The counts are as before, with a zero for the key if it had none. */
  ghost predicate AddsZero(before: map<string, nat>, key: string, counts: map<string, nat>) {
    && counts.Keys == before.Keys + {key} && (forall k :: k in before ==> counts[k] == before[k])
    && (key !in before ==> counts[key] == 0)
  }

  /** What a failed flush leaves: a gauge without a count under its key was met, whose count is now zero, and
      other samples have been averaged or not. */
  ghost predicate PartlyAveraged(c: Config, a: Aggregate, samples: map<string, Sample>, counts: map<string, nat>) {
    && samples.Keys == a.samples.Keys
    && (forall k :: k in samples ==>
          samples[k] == a.samples[k] || Some(samples[k]) == Averaged(c, a.counts, a.samples[k]))
    && exists k :: k in samples && Averaged(c, a.counts, a.samples[k]) == None && samples[k] == a.samples[k]
                   && AddsZero(a.counts, UniqueKey(c, a.samples[k]), counts)
  }
}
