/** How the Gnocchi publisher groups samples into one batch of measures, and what it takes out of the
    batch when Gnocchi does not know some of the resources. */
module GnocchiBatch {
  import opened Text
  import opened Sequences
  import opened Sorting
  import opened GroupBy

  datatype Sample = Sample(name: string, resourceId: string, userId: string, projectId: string, unit: string,
                           timestamp: int, volume: real)

  /** The resource definition that handles a metric. */
  datatype Definition = Definition(ignore: bool, resourceType: string, archivePolicy: string)

  type MetricMap = map<string, Definition>

  datatype Measure = Measure(timestamp: int, value: real)

  datatype Metric = Metric(measures: seq<Measure>, archivePolicy: string, unit: string)

  type Measures = map<string, map<string, Metric>>

  /** The resource's type and identity, with the samples whose attributes are merged into its extra ones. */
  datatype Info = Info(resourceType: string, id: string, userId: string, projectId: string, extra: seq<Sample>)

  type Infos = map<string, Info>

  /** `resource_id.replace('/', '_')`. */
  function Replaced(id: string): (r: string)
    ensures |r| == |id| && forall i :: 0 <= i < |r| ==> r[i] == if id[i] == '/' then '_' else id[i]
  {
    seq(|id|, i requires 0 <= i < |id| => if id[i] == '/' then '_' else id[i])
  }

  function ByResource(): Order<Sample> {
    (a: Sample, b: Sample) => AtMost(a.resourceId, b.resourceId)
  }

  /** The metric is known and not ignored. */
  predicate Handled(metrics: MetricMap, s: Sample) {
    s.name in metrics && !metrics[s.name].ignore
  }

  datatype Batch = Batch(infos: Infos, measures: Measures)

  function InfoAfter(metrics: MetricMap, infos: Infos, id: string, s: Sample): Info
    requires s.name in metrics
  {
    var info := if id in infos then infos[id] else Info(metrics[s.name].resourceType, id, s.userId, s.projectId, []);
    info.(extra := info.extra + [s])
  }

  function MetricsOf(measures: Measures, id: string): map<string, Metric> {
    if id in measures then measures[id] else map[]
  }

  function MetricOf(measures: Measures, id: string, name: string, unset: Metric): Metric {
    if name in MetricsOf(measures, id) then MetricsOf(measures, id)[name] else unset
  }

  /** The body of the loop over samples. */
  function AfterSample(metrics: MetricMap, b: Batch, s: Sample): Batch {
    if !Handled(metrics, s) then b else
    var id := Replaced(s.resourceId);
    var metric := MetricOf(b.measures, id, s.name, Metric([], metrics[s.name].archivePolicy, s.unit));
    var metric' := metric.(measures := metric.measures + [Measure(s.timestamp, s.volume)]);
    Batch(b.infos[id := InfoAfter(metrics, b.infos, id, s)],
          b.measures[id := MetricsOf(b.measures, id)[s.name := metric']])
  }

  function AfterSamples(metrics: MetricMap, samples: seq<Sample>): Batch {
    if samples == [] then Batch(map[], map[])
    else AfterSample(metrics, AfterSamples(metrics, samples[..|samples| - 1]), samples[|samples| - 1])
  }

  // ---------------------------------------------------------------- what the batch holds

  /** The sample goes to this metric of this resource. */
  function GoesTo(metrics: MetricMap, id: string, name: string): Sample -> bool {
    (s: Sample) => s.name in metrics && !metrics[s.name].ignore && Replaced(s.resourceId) == id && s.name == name
  }

  function GoesToResource(metrics: MetricMap, id: string): Sample -> bool {
    (s: Sample) => s.name in metrics && !metrics[s.name].ignore && Replaced(s.resourceId) == id
  }

  function MeasuresOf(samples: seq<Sample>): (r: seq<Measure>)
    ensures |r| == |samples|
    ensures forall i :: 0 <= i < |r| ==> r[i].timestamp == samples[i].timestamp && r[i].value == samples[i].volume
  {
    seq(|samples|, i requires 0 <= i < |samples| => Measure(samples[i].timestamp, samples[i].volume))
  }

  /** The resource gets its type and owner from the first of its samples, and attributes from all of them. */
  ghost predicate MadeOf(metrics: MetricMap, info: Info, id: string, own: seq<Sample>) {
    && own != [] && own[0].name in metrics
    && info == Info(metrics[own[0].name].resourceType, id, own[0].userId, own[0].projectId, own)
  }

  /** The batch has, for one resource, just what these samples bring to it. */
  ghost predicate Holds(metrics: MetricMap, b: Batch, samples: seq<Sample>, id: string) {
    && (id in b.infos <==> Select(GoesToResource(metrics, id), samples) != [])
    && (id in b.measures <==> id in b.infos)
    && (id in b.infos ==> MadeOf(metrics, b.infos[id], id, Select(GoesToResource(metrics, id), samples)))
  }

  /** And, for one metric of it, just the measures of these samples. */
  ghost predicate HoldsMetric(metrics: MetricMap, b: Batch, samples: seq<Sample>, id: string, name: string) {
    var own := Select(GoesTo(metrics, id, name), samples);
    && (name in MetricsOf(b.measures, id) <==> own != [])
    && (own != [] ==> name in metrics && MetricsOf(b.measures, id)[name] ==
                      Metric(MeasuresOf(own), metrics[name].archivePolicy, own[0].unit))
  }

  lemma {:induction false} BatchHolds(metrics: MetricMap, samples: seq<Sample>, id: string)
    ensures Holds(metrics, AfterSamples(metrics, samples), samples, id)
  {
    if samples != [] {
      BatchHolds(metrics, samples[..|samples| - 1], id);
    }
  }

  lemma {:induction false} BatchHoldsMetric(metrics: MetricMap, samples: seq<Sample>, id: string, name: string)
    ensures HoldsMetric(metrics, AfterSamples(metrics, samples), samples, id, name)
  {
    if samples != [] {
      var n := |samples| - 1;
      BatchHoldsMetric(metrics, samples[..n], id, name);
      var own, s := Select(GoesTo(metrics, id, name), samples[..n]), samples[n];
      if GoesTo(metrics, id, name)(s) {
        assert MeasuresOf(own + [s]) == MeasuresOf(own) + [Measure(s.timestamp, s.volume)];
        assert own != [] ==> (own + [s])[0] == own[0];
      }
    }
  }

  /** The sorting leaves the samples of each resource in the order they came, also when another resource
      has the same replaced id. */
  lemma SamplesInInputOrder(metrics: MetricMap, samples: seq<Sample>, resource: string, name: string)
    ensures var p := (s: Sample) => GoesTo(metrics, Replaced(resource), name)(s) && s.resourceId == resource;
            Select(p, Sorted(ByResource(), samples)) == Select(p, samples)
  {
    var p := (s: Sample) => GoesTo(metrics, Replaced(resource), name)(s) && s.resourceId == resource;
    SortedIsStable(ByResource(), p, samples);
  }

  lemma ByResourceIsOrder()
    ensures Total(ByResource()) && Transitive(ByResource())
  {
    forall a: Sample, b: Sample
      ensures ByResource()(a, b) || ByResource()(b, a)
    {
      BeforeIsTotal(a.resourceId, b.resourceId);
    }
    forall a: Sample, b: Sample, c: Sample | ByResource()(a, b) && ByResource()(b, c)
      ensures ByResource()(a, c)
    {
      if Before(a.resourceId, b.resourceId) && Before(b.resourceId, c.resourceId) {
        BeforeIsTransitive(a.resourceId, b.resourceId, c.resourceId);
      }
    }
  }

  /** All measures of a metric are in the order in which their samples came exactly if the ids of these
      samples, which are replaced alike, came in ascending order. */
  lemma MeasuresInInputOrderExactly(metrics: MetricMap, samples: seq<Sample>, id: string, name: string)
    ensures var p := GoesTo(metrics, id, name);
            Select(p, Sorted(ByResource(), samples)) == Select(p, samples)
            <==> Ascending(ByResource(), Select(p, samples))
  {
    ByResourceIsOrder();
    SelectionKeepsOrderExactly(ByResource(), GoesTo(metrics, id, name), samples);
  }

  /** No two of these samples give the same measure. */
  predicate DistinctMeasures(xs: seq<Sample>) {
    forall i, j :: 0 <= i < j < |xs| ==> MeasuresOf(xs)[i] != MeasuresOf(xs)[j]
  }

  lemma SameMeasuresSameSamples(xs: seq<Sample>, ys: seq<Sample>)
    requires DistinctMeasures(xs) && MeasuresOf(xs) == MeasuresOf(ys) && forall y :: y in ys ==> y in xs
    ensures xs == ys
  {
    assert |xs| == |MeasuresOf(xs)| == |MeasuresOf(ys)| == |ys|;
    forall i | 0 <= i < |xs|
      ensures ys[i] == xs[i]
    {
      assert ys[i] in xs;
      var j :| 0 <= j < |xs| && xs[j] == ys[i];
      assert MeasuresOf(xs)[j] == MeasuresOf(ys)[i] == MeasuresOf(xs)[i];
    }
  }

  /** The measures of a metric in the batch that is posted are those of its samples sorted by id. They are in
      the order in which the samples came if the ids, which are replaced alike, came in ascending order, and,
      where the measures tell the samples apart, only then. */
  lemma PostedInInputOrderExactly(metrics: MetricMap, samples: seq<Sample>, id: string, name: string)
    requires name in MetricsOf(AfterSamples(metrics, Sorted(ByResource(), samples)).measures, id)
    ensures var own := Select(GoesTo(metrics, id, name), samples);
            var posted := MetricsOf(AfterSamples(metrics, Sorted(ByResource(), samples)).measures, id)[name].measures;
            && posted == MeasuresOf(Sorted(ByResource(), own))
            && (Ascending(ByResource(), own) ==> posted == MeasuresOf(own))
            && (DistinctMeasures(own) && posted == MeasuresOf(own) ==> Ascending(ByResource(), own))
  {
    var p, sorted := GoesTo(metrics, id, name), Sorted(ByResource(), samples);
    var own := Select(p, samples);
    ByResourceIsOrder();
    BatchHoldsMetric(metrics, sorted, id, name);
    SortedSelect(ByResource(), p, samples);
    SortedMembers(ByResource(), own);
    if Ascending(ByResource(), own) {
      AscendingIsSorted(ByResource(), own);
    }
    if DistinctMeasures(own) && MeasuresOf(Sorted(ByResource(), own)) == MeasuresOf(own) {
      SameMeasuresSameSamples(own, Sorted(ByResource(), own));
      SortedAscending(ByResource(), own);
    }
  }

  lemma SlashBeforeUnderscore()
    ensures !AtMost("a_b", "a/b")
  {
    assert "a_b"[1] == '_' && "a/b"[1] == '/';
    assert Before("a/b"[1..], "a_b"[1..]) && Before("a/b", "a_b");
    BeforeIsTotal("a/b", "a_b");
  }

  /** Of two ids that are replaced alike the one with the slash sorts first, also when it came last. */
  lemma SlashesFirst(x: Sample, y: Sample)
    requires x.resourceId == "a_b" && y.resourceId == "a/b"
    ensures Replaced(x.resourceId) == Replaced(y.resourceId) && Sorted(ByResource(), [x] + [y]) == [y] + [x]
  {
    SlashBeforeUnderscore();
    assert !ByResource()(x, y);
    SortedPair(ByResource(), x, y);
  }

  lemma SameIdsAscend(xs: seq<Sample>, resource: string)
    requires forall s :: s in xs ==> s.resourceId == resource
    ensures Ascending(ByResource(), xs)
  {
    forall i | 0 < i < |xs|
      ensures ByResource()(xs[i - 1], xs[i])
    {
      assert xs[i - 1] in xs && xs[i] in xs;
    }
  }

  /** So they are if no other resource has the same replaced id. */
  lemma MeasuresInInputOrder(metrics: MetricMap, samples: seq<Sample>, resource: string, name: string)
    requires forall s :: s in samples && Replaced(s.resourceId) == Replaced(resource) ==> s.resourceId == resource
    ensures var p := GoesTo(metrics, Replaced(resource), name);
            Select(p, Sorted(ByResource(), samples)) == Select(p, samples)
  {
    MeasuresInInputOrderExactly(metrics, samples, Replaced(resource), name);
    SameIdsAscend(Select(GoesTo(metrics, Replaced(resource), name), samples), resource);
  }

  lemma {:induction false} SelectedCount(p: Sample -> bool, xs: seq<Sample>, ys: seq<Sample>)
    requires multiset(xs) == multiset(ys)
    ensures multiset(Select(p, xs)) == multiset(Select(p, ys))
  {
    forall s
      ensures multiset(Select(p, xs))[s] == multiset(Select(p, ys))[s]
    {
      SelectedMultiplicity(p, xs, s);
      SelectedMultiplicity(p, ys, s);
    }
  }

  lemma {:induction false} SelectedMultiplicity(p: Sample -> bool, xs: seq<Sample>, s: Sample)
    ensures multiset(Select(p, xs))[s] == if p(s) then multiset(xs)[s] else 0
  {
    if xs != [] {
      var n := |xs| - 1;
      SelectedMultiplicity(p, xs[..n], s);
      assert xs == xs[..n] + [xs[n]];
    }
  }

  /** Every handled sample has exactly one measure, under its replaced resource id and its metric, and
      measures and resources have the same keys. */
  lemma EachSampleOneMeasure(metrics: MetricMap, samples: seq<Sample>, id: string, name: string)
    ensures var b := AfterSamples(metrics, Sorted(ByResource(), samples));
            && b.infos.Keys == b.measures.Keys
            && (id in b.infos <==> exists s :: s in samples && GoesToResource(metrics, id)(s))
            && (name in MetricsOf(b.measures, id) <==> exists s :: s in samples && GoesTo(metrics, id, name)(s))
            && (name in MetricsOf(b.measures, id) ==>
                  exists own :: && multiset(own) == multiset(Select(GoesTo(metrics, id, name), samples))
                                && MetricsOf(b.measures, id)[name].measures == MeasuresOf(own))
  {
    var sorted := Sorted(ByResource(), samples);
    var b := AfterSamples(metrics, sorted);
    SortedMembers(ByResource(), samples);
    forall i ensures i in b.infos <==> i in b.measures {
      BatchHolds(metrics, sorted, i);
    }
    BatchHolds(metrics, sorted, id);
    BatchHoldsMetric(metrics, sorted, id, name);
    SelectedCount(GoesTo(metrics, id, name), sorted, samples);
    SelectedAny(GoesToResource(metrics, id), sorted);
    SelectedAny(GoesTo(metrics, id, name), sorted);
  }

  lemma SelectedAny(p: Sample -> bool, xs: seq<Sample>)
    ensures Select(p, xs) != [] <==> exists s :: s in xs && p(s)
  {
    if Select(p, xs) != [] {
      assert Select(p, xs)[0] in Select(p, xs);
    }
  }

  // ---------------------------------------------------------------- the publisher

  function ResourceOf(): Sample -> string {
    (s: Sample) => s.resourceId
  }

  function UnknownNames(metrics: MetricMap, samples: seq<Sample>): set<string> {
    set s | s in samples && s.name !in metrics :: s.name
  }

  lemma UnknownNamesJoin(metrics: MetricMap, xs: seq<Sample>, ys: seq<Sample>)
    ensures UnknownNames(metrics, xs + ys) == UnknownNames(metrics, xs) + UnknownNames(metrics, ys)
  {
  }

  lemma SameUnknownNames(metrics: MetricMap, samples: seq<Sample>)
    ensures UnknownNames(metrics, Sorted(ByResource(), samples)) == UnknownNames(metrics, samples)
  {
    SortedMembers(ByResource(), samples);
  }

  lemma AfterOneMore(metrics: MetricMap, done: seq<Sample>, group: seq<Sample>, j: nat)
    requires j < |group|
    ensures AfterSamples(metrics, done + group[..j + 1])
         == AfterSample(metrics, AfterSamples(metrics, done + group[..j]), group[j])
    ensures UnknownNames(metrics, group[..j + 1])
         == UnknownNames(metrics, group[..j]) + UnknownNames(metrics, [group[j]])
  {
    var upto := done + group[..j];
    assert done + group[..j + 1] == upto + [group[j]] && (upto + [group[j]])[..|upto|] == upto;
    assert group[..j + 1] == group[..j] + [group[j]];
    UnknownNamesJoin(metrics, group[..j], [group[j]]);
  }

  lemma ConcatOneMore(metrics: MetricMap, groups: seq<seq<Sample>>, i: nat)
    requires i < |groups|
    ensures Concat(groups[..i + 1]) == Concat(groups[..i]) + groups[i]
    ensures UnknownNames(metrics, Concat(groups[..i + 1]))
         == UnknownNames(metrics, Concat(groups[..i])) + UnknownNames(metrics, groups[i])
  {
    ConcatSnoc(groups[..i], groups[i]);
    assert groups[..i + 1] == groups[..i] + [groups[i]];
    UnknownNamesJoin(metrics, Concat(groups[..i]), groups[i]);
  }

  /** What Gnocchi answers to a batch. */
  datatype Answer = Posted | UnknownResources(ids: set<string>) | Refused

  datatype Creation = Created | AlreadyThere | NotCreated

  /** The attributes that the definitions take from a sample. */
  type Attributes = map<string, string>

  type Attribution = Sample -> Attributes

  /** `resource_extra`: later samples update what earlier ones gave. */
  function Extra(attribution: Attribution, samples: seq<Sample>): Attributes {
    if samples == [] then map[]
    else Extra(attribution, samples[..|samples| - 1]) + attribution(samples[|samples| - 1])
  }

  /** The i-th sample is the last that gives the attribute. */
  ghost predicate GivesLast(attribution: Attribution, samples: seq<Sample>, a: string, i: nat) {
    && i < |samples| && a in attribution(samples[i])
    && forall j :: i < j < |samples| ==> a !in attribution(samples[j])
  }

  /** An attribute has the value of the last sample that gives it. */
  lemma {:induction false} ExtraExactly(attribution: Attribution, samples: seq<Sample>, a: string) returns (i: nat)
    ensures var extra := Extra(attribution, samples);
            if a in extra then GivesLast(attribution, samples, a, i) && extra[a] == attribution(samples[i])[a]
            else forall j :: 0 <= j < |samples| ==> a !in attribution(samples[j])
  {
    i := 0;
    if samples != [] {
      var n := |samples| - 1;
      i := ExtraExactly(attribution, samples[..n], a);
      assert forall j :: 0 <= j < n ==> samples[..n][j] == samples[j];
      if a in attribution(samples[n]) {
        i := n;
      }
    }
  }

  /** `_hash_resource`. */
  type Hash = Attributes -> string

  /** The resources of which the creation ended so. */
  function With(creation: string -> Creation, ids: set<string>, end: Creation): set<string> {
    set id | id in ids && creation(id) == end
  }

  /** The batch without some resources. */
  function Dropped(b: Batch, ids: set<string>): Batch {
    Batch(b.infos - ids, b.measures - ids)
  }

  function ExtraOf(attribution: Attribution, b: Batch, id: string): Attributes
    requires id in b.infos
  {
    Extra(attribution, b.infos[id].extra)
  }

  /** What the cache gets of resources just created, unless they have no attributes. */
  function Digests(hash: Hash, attribution: Attribution, b: Batch, created: set<string>): map<string, string>
    requires created <= b.infos.Keys
  {
    map id | id in created && ExtraOf(attribution, b, id) != map[] :: hash(ExtraOf(attribution, b, id))
  }

  function Remembered(hash: Hash, attribution: Attribution, b: Batch, created: set<string>, cache: map<string, string>)
    : map<string, string>
    requires created <= b.infos.Keys
  {
    cache + Digests(hash, attribution, b, created)
  }

  /** A resource is left, as it was, unless it was missing and could not be created. */
  ghost predicate CreatedMissing(b: Batch, left: Batch, ids: set<string>, creation: string -> Creation) {
    && (forall id :: id in left.infos <==> id in b.infos && !(id in ids && creation(id).NotCreated?))
    && (forall id :: id in left.measures <==> id in b.measures && !(id in ids && creation(id).NotCreated?))
    && (forall id :: id in left.infos ==> left.infos[id] == b.infos[id])
    && (forall id :: id in left.measures ==> left.measures[id] == b.measures[id])
  }

  lemma DroppedExactly(b: Batch, ids: set<string>, creation: string -> Creation)
    ensures CreatedMissing(b, Dropped(b, With(creation, ids, NotCreated)), ids, creation)
  {
  }

  /** The cache has the digest of a resource that was just created with attributes, and is else as it was. */
  lemma RememberedExactly(hash: Hash, attribution: Attribution, b: Batch, ids: set<string>,
                          creation: string -> Creation, cache: map<string, string>, id: string)
    requires ids <= b.infos.Keys
    ensures var after := Remembered(hash, attribution, b, With(creation, ids, Created), cache);
            if id in ids && creation(id).Created? && ExtraOf(attribution, b, id) != map[]
            then id in after && after[id] == hash(ExtraOf(attribution, b, id))
            else (id in after <==> id in cache) && (id in cache ==> after[id] == cache[id])
  {
  }

  /** One resource more, if its creation ended so. */
  function OneMore(creation: string -> Creation, id: string, end: Creation): set<string> {
    if creation(id) == end then {id} else {}
  }

  lemma WithMore(creation: string -> Creation, ids: set<string>, todo: set<string>, id: string, end: Creation)
    requires id in todo && todo <= ids
    ensures With(creation, ids - (todo - {id}), end) == With(creation, ids - todo, end) + OneMore(creation, id, end)
  {
  }

  lemma DroppedMore(b: Batch, xs: set<string>, ys: set<string>)
    ensures Dropped(Dropped(b, xs), ys) == Dropped(b, xs + ys)
  {
  }

  lemma DigestsMore(hash: Hash, attribution: Attribution, b: Batch, xs: set<string>, ys: set<string>)
    requires xs <= b.infos.Keys && ys <= b.infos.Keys
    ensures Digests(hash, attribution, b, xs + ys)
         == Digests(hash, attribution, b, xs) + Digests(hash, attribution, b, ys)
  {
  }

  lemma UpdatedTwice(cache: map<string, string>, x: map<string, string>, y: map<string, string>)
    ensures (cache + x) + y == cache + (x + y)
  {
  }

  lemma RememberedMore(hash: Hash, attribution: Attribution, b: Batch, xs: set<string>, ys: set<string>,
                       cache: map<string, string>)
    requires xs <= b.infos.Keys && ys <= b.infos.Keys
    ensures Remembered(hash, attribution, b, ys, Remembered(hash, attribution, b, xs, cache))
         == Remembered(hash, attribution, b, xs + ys, cache)
  {
    DigestsMore(hash, attribution, b, xs, ys);
    UpdatedTwice(cache, Digests(hash, attribution, b, xs), Digests(hash, attribution, b, ys));
  }

  class Publisher {
    const metrics: MetricMap
    const attribution: Attribution
    const hash: Hash
    const caches: bool  // whether a cache is configured
    var cache: map<string, string>
    var alreadyLogged: set<string>

    constructor (metrics: MetricMap, attribution: Attribution, hash: Hash, caches: bool)
      ensures this.metrics == metrics && this.attribution == attribution && this.hash == hash && this.caches == caches
      ensures alreadyLogged == {} && cache == map[]
    {
      this.metrics, this.attribution, this.hash, this.caches := metrics, attribution, hash, caches;
      alreadyLogged, cache := {}, map[];
    }

    /** The first half of `publish_samples`; the activity predicate tells Gnocchi's own samples. */
    method Group(samples: seq<Sample>, activity: Sample -> bool) returns (b: Batch)
      modifies this
      ensures var data := Select((s: Sample) => !activity(s), samples);
              && b == AfterSamples(metrics, Sorted(ByResource(), data))
              && alreadyLogged == old(alreadyLogged) + UnknownNames(metrics, data)
    {
      var data := Select((s: Sample) => !activity(s), samples);
      SameUnknownNames(metrics, data);
      b := GroupSorted(Sorted(ByResource(), data));
    }

    /** The loop over the groups of the sorted samples. */
    method GroupSorted(data: seq<Sample>) returns (b: Batch)
      modifies this
      ensures b == AfterSamples(metrics, data)
      ensures alreadyLogged == old(alreadyLogged) + UnknownNames(metrics, data)
    {
      RunsPartition(ResourceOf(), data);
      var groups := Runs(ResourceOf(), data);
      b := Batch(map[], map[]);
      for i := 0 to |groups|
        invariant b == AfterSamples(metrics, Concat(groups[..i]))
        invariant alreadyLogged == old(alreadyLogged) + UnknownNames(metrics, Concat(groups[..i]))
      {
        ConcatOneMore(metrics, groups, i);
        b := GroupOne(Concat(groups[..i]), groups[i], b);
      }
      assert groups[..|groups|] == groups;
    }

    /** The inner loop, over the samples of one resource. */
    method GroupOne(ghost done: seq<Sample>, group: seq<Sample>, before: Batch) returns (b: Batch)
      requires before == AfterSamples(metrics, done)
      modifies this
      ensures b == AfterSamples(metrics, done + group)
      ensures alreadyLogged == old(alreadyLogged) + UnknownNames(metrics, group)
    {
      b := before;
      assert done + group[..0] == done;
      for j := 0 to |group|
        invariant b == AfterSamples(metrics, done + group[..j])
        invariant alreadyLogged == old(alreadyLogged) + UnknownNames(metrics, group[..j])
      {
        var s := group[j];
        AfterOneMore(metrics, done, group, j);
        b := AfterSample(metrics, b, s);
        if s.name !in metrics {
          alreadyLogged := alreadyLogged + {s.name};
        }
      }
      assert done + group[..|group|] == done + group;
    }

    /** The attempt to create one missing resource. */
    method CreateResource(b: Batch, id: string, creation: string -> Creation, before: Batch) returns (left: Batch)
      requires id in b.infos
      modifies `cache
      ensures left == Dropped(before, OneMore(creation, id, NotCreated))
      ensures cache == if caches then Remembered(hash, attribution, b, OneMore(creation, id, Created), old(cache))
                       else old(cache)
    {
      left := before;
      match creation(id) {
        case NotCreated =>
          left := Batch(left.infos - {id}, left.measures - {id});
        case Created =>
          var extra := ExtraOf(attribution, b, id);
          if caches && extra != map[] {
            cache := cache[id := hash(extra)];
          }
        case AlreadyThere =>
      }
    }

    /** The loop over the missing resources. */
    method CreateMissing(b: Batch, ids: set<string>, creation: string -> Creation) returns (left: Batch)
      requires ids <= b.infos.Keys
      modifies `cache
      ensures left == Dropped(b, With(creation, ids, NotCreated))
      ensures cache == if caches then Remembered(hash, attribution, b, With(creation, ids, Created), old(cache))
                       else old(cache)
    {
      left := b;
      var todo := ids;
      while todo != {}
        invariant todo <= ids
        invariant left == Dropped(b, With(creation, ids - todo, NotCreated))
        invariant cache == if caches
                           then Remembered(hash, attribution, b, With(creation, ids - todo, Created), old(cache))
                           else old(cache)
        decreases todo
      {
        var id :| id in todo;
        WithMore(creation, ids, todo, id, NotCreated);
        WithMore(creation, ids, todo, id, Created);
        DroppedMore(b, With(creation, ids - todo, NotCreated), OneMore(creation, id, NotCreated));
        RememberedMore(hash, attribution, b, With(creation, ids - todo, Created), OneMore(creation, id, Created),
                       old(cache));
        left := CreateResource(b, id, creation, left);
        todo := todo - {id};
      }
      assert ids - todo == ids;
    }

    /** `batch_measures`: posts the batch and, if Gnocchi misses resources, creates them and posts again
        without those that could not be created. Not ok when an error is passed on: Gnocchi's own to either
        post, or the KeyError for a resource that is not in the batch. */
    method BatchMeasures(b: Batch, answer: Answer, creation: string -> Creation, retry: Answer)
      returns (ok: bool, left: Batch, posts: seq<Measures>)
      modifies `cache
      ensures ok <==> answer.Posted? || (answer.UnknownResources? && answer.ids <= b.infos.Keys && retry.Posted?)
      ensures answer.UnknownResources? && answer.ids <= b.infos.Keys ==>
                && left == Dropped(b, With(creation, answer.ids, NotCreated)) && posts == [b.measures, left.measures]
                && cache == if caches
                            then Remembered(hash, attribution, b, With(creation, answer.ids, Created), old(cache))
                            else old(cache)
      ensures !(answer.UnknownResources? && answer.ids <= b.infos.Keys) ==>
                left == b && posts == [b.measures] && cache == old(cache)
      ensures answer.UnknownResources? && answer.ids <= b.infos.Keys ==> CreatedMissing(b, left, answer.ids, creation)
    {
      left, posts := b, [b.measures];
      match answer {
        case Posted => ok := true;
        case Refused => ok := false;
        case UnknownResources(ids) =>
          if !(ids <= b.infos.Keys) {
            return false, left, posts;
          }
          left := CreateMissing(b, ids, creation);
          DroppedExactly(b, ids, creation);
          posts := posts + [left.measures];
          ok := retry.Posted?;
      }
    }
  }
}
