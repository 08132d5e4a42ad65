/** The per-resource summary that the MongoDB driver keeps up to date while samples are recorded in
    batches, in whatever order they come. */
module ResourceSummary {
  import opened Wrappers
  import opened Text
  import opened GroupBy
  import opened Sorting

  type Metadata(==, !new)

  datatype Meter = Meter(name: string, kind: string, unit: string)

  datatype Sample = Sample(resourceId: string, timestamp: int, meter: Meter, metadata: Metadata,
                           projectId: string, userId: string, source: string)

  /** A document of the resource collection. Documents from before timestamps were recorded have none. */
  datatype Resource = Resource(projectId: string, userId: string, source: string, metadata: Metadata,
                               first: Option<int>, last: Option<int>, meters: set<Meter>)

  // ---------------------------------------------------------------- sorting

  /** The order of the pairs (resource_id, timestamp). */
  predicate InOrder(a: Sample, b: Sample) {
    Before(a.resourceId, b.resourceId) || (a.resourceId == b.resourceId && a.timestamp <= b.timestamp)
  }

  function ByResourceAndTime(): Order<Sample> {
    (a: Sample, b: Sample) => InOrder(a, b)
  }

  lemma InOrderIsTotal()
    ensures Total(ByResourceAndTime())
  {
    forall a: Sample, b: Sample
      ensures InOrder(a, b) || InOrder(b, a)
    {
      BeforeIsTotal(a.resourceId, b.resourceId);
    }
  }

  // ---------------------------------------------------------------- one update

  function MetersOf(group: seq<Sample>): set<Meter> {
    set s | s in group :: s.meter
  }

  /** `find_one_and_update` with upsert. */
  function Upserted(before: Option<Resource>, group: seq<Sample>): Resource
    requires group != []
  {
    var s := group[|group| - 1];
    match before
    case None => Resource(s.projectId, s.userId, s.source, s.metadata,
                          Some(s.timestamp), Some(s.timestamp), MetersOf(group))
    case Some(r) => r.(projectId := s.projectId, userId := s.userId, source := s.source,
                       meters := r.meters + MetersOf(group))
  }

  /** The update of a resource for a group of its samples, in order of time. */
  function AfterGroup(before: Option<Resource>, group: seq<Sample>): Resource
    requires group != []
  {
    var s := group[|group| - 1];
    var r := Upserted(before, group);
    var r' := if r.last == None || r.last.value <= s.timestamp
              then r.(metadata := s.metadata, last := Some(s.timestamp)) else r;
    if r.first != None && r.first.value > group[0].timestamp
    then r'.(first := Some(group[0].timestamp)) else r'
  }

  /** The last sample of a group gives the metadata and the end, also on a tie, unless the resource has a later one. */
  lemma LaterOrEqualWins(before: Option<Resource>, group: seq<Sample>)
    requires group != []
    ensures var after, s := AfterGroup(before, group), group[|group| - 1];
            if before.Some? && before.value.last.Some? && s.timestamp < before.value.last.value
            then after.metadata == before.value.metadata && after.last == before.value.last
            else after.metadata == s.metadata && after.last == Some(s.timestamp)
  {
  }

  // ---------------------------------------------------------------- what a summary says

  ghost predicate Earliest(seen: set<Sample>, t: int) {
    (exists s :: s in seen && s.timestamp == t) && forall s :: s in seen ==> t <= s.timestamp
  }

  ghost predicate LatestWith(seen: set<Sample>, t: int, metadata: Metadata) {
    (exists s :: s in seen && s.timestamp == t && s.metadata == metadata) && forall s :: s in seen ==> s.timestamp <= t
  }

  /** The summary of a resource of which these samples have been seen. */
  ghost predicate Summarizes(r: Option<Resource>, seen: set<Sample>) {
    if seen == {} then r == None else
    && r.Some? && r.value.first.Some? && r.value.last.Some?
    && Earliest(seen, r.value.first.value)
    && LatestWith(seen, r.value.last.value, r.value.metadata)
    && r.value.meters == set s | s in seen :: s.meter
  }

  predicate TimeOrdered(group: seq<Sample>) {
    forall i, j :: 0 <= i < j < |group| ==> group[i].timestamp <= group[j].timestamp
  }

  function Members(samples: seq<Sample>): set<Sample> {
    set s | s in samples
  }

  lemma GroupBounds(group: seq<Sample>)
    requires group != [] && TimeOrdered(group)
    ensures Earliest(Members(group), group[0].timestamp)
    ensures LatestWith(Members(group), group[|group| - 1].timestamp, group[|group| - 1].metadata)
  {
    assert group[0] in group && group[|group| - 1] in group;
  }

  lemma AfterGroupSummarizes(before: Option<Resource>, seen: set<Sample>, group: seq<Sample>)
    requires Summarizes(before, seen) && group != [] && TimeOrdered(group)
    ensures Summarizes(Some(AfterGroup(before, group)), seen + Members(group))
  {
    GroupBounds(group);
    var r, all := AfterGroup(before, group), seen + Members(group);
    assert group[0] in Members(group);
    assert (set s | s in all :: s.meter) == (set s | s in seen :: s.meter) + MetersOf(group);
    if seen == {} {
      assert all == Members(group);
    } else {
      var s0 :| s0 in seen && s0.timestamp == before.value.first.value;
      var s1 :| s1 in seen && s1.timestamp == before.value.last.value && s1.metadata == before.value.metadata;
      assert s0 in all && s1 in all;
      assert group[0] in all && group[|group| - 1] in all;
    }
  }

  // ---------------------------------------------------------------- batches

  type Resources = map<string, Resource>

  function Lookup(docs: Resources, id: string): Option<Resource> {
    if id in docs then Some(docs[id]) else None
  }

  function ById(): Sample -> string {
    (s: Sample) => s.resourceId
  }

  /** The batch, sorted and grouped by resource. */
  function GroupsOf(samples: seq<Sample>): (r: seq<seq<Sample>>)
    ensures forall i :: 0 <= i < |r| ==> r[i] != []
  {
    Runs(ById(), Sorted(ByResourceAndTime(), samples))
  }

  function AfterGroups(docs: Resources, groups: seq<seq<Sample>>): Resources
    requires forall i :: 0 <= i < |groups| ==> groups[i] != []
  {
    if groups == [] then docs else
    var n := |groups| - 1;
    var before := AfterGroups(docs, groups[..n]);
    var id := groups[n][0].resourceId;
    before[id := AfterGroup(Lookup(before, id), groups[n])]
  }

  function AfterBatches(docs: Resources, batches: seq<seq<Sample>>): Resources {
    if batches == [] then docs
    else AfterGroups(AfterBatches(docs, batches[..|batches| - 1]), GroupsOf(batches[|batches| - 1]))
  }

  /** All groups are what `groupby` makes of an ascending list: one resource each, in order of time. */
  predicate GoodGroup(group: seq<Sample>) {
    group != [] && TimeOrdered(group) && forall i :: 0 <= i < |group| ==> group[i].resourceId == group[0].resourceId
  }

  /** The runs are ascending, and the last of their elements is this one. */
  ghost predicate AscendingUpTo(runs: seq<seq<Sample>>, last: Sample) {
    && (forall i :: 0 <= i < |runs| ==> Ascending(ByResourceAndTime(), runs[i]))
    && runs != [] && var run := runs[|runs| - 1]; run != [] && run[|run| - 1] == last
  }

  lemma AscendingExtended(runs: seq<seq<Sample>>, last: Sample, x: Sample)
    requires AscendingUpTo(runs, last) && ByResourceAndTime()(last, x)
    requires forall i :: 0 <= i < |runs| ==> runs[i] != []
    ensures AscendingUpTo(Extended(ById(), runs, x), x)
  {
    var run := runs[|runs| - 1];
    assert Ascending(ByResourceAndTime(), run + [x]);
    assert Ascending(ByResourceAndTime(), [x]);
  }

  lemma {:induction false} RunsAscending(xs: seq<Sample>)
    requires xs != [] && Ascending(ByResourceAndTime(), xs)
    ensures AscendingUpTo(Runs(ById(), xs), xs[|xs| - 1])
  {
    var n := |xs| - 1;
    if n > 0 {
      RunsAscending(xs[..n]);
      AscendingExtended(Runs(ById(), xs[..n]), xs[n - 1], xs[n]);
    } else {
      assert xs[..0] == [] && Runs(ById(), xs) == [[xs[0]]];
    }
  }

  lemma {:induction false} AscendingInTime(group: seq<Sample>)
    requires Ascending(ByResourceAndTime(), group)
    requires forall i :: 0 <= i < |group| ==> group[i].resourceId == group[0].resourceId
    ensures TimeOrdered(group)
  {
    if |group| > 1 {
      var n := |group| - 1;
      AscendingInTime(group[..n]);
      BeforeIsTotal(group[n].resourceId, group[n].resourceId);
      assert ByResourceAndTime()(group[n - 1], group[n]);
    }
  }

  lemma UniformGroupIsGood(group: seq<Sample>)
    requires group != [] && Ascending(ByResourceAndTime(), group) && Uniform(ById(), group)
    ensures GoodGroup(group)
  {
    forall j | 0 <= j < |group|
      ensures group[j].resourceId == group[0].resourceId
    {
      assert ById()(group[j]) == ById()(group[0]);
    }
    AscendingInTime(group);
  }

  lemma GroupsAreGood(samples: seq<Sample>)
    ensures Members(Concat(GroupsOf(samples))) == Members(samples)
    ensures forall i :: 0 <= i < |GroupsOf(samples)| ==> GoodGroup(GroupsOf(samples)[i])
  {
    var sorted, groups := Sorted(ByResourceAndTime(), samples), GroupsOf(samples);
    InOrderIsTotal();
    SortedMembers(ByResourceAndTime(), samples);
    SortedAscending(ByResourceAndTime(), samples);
    if sorted != [] {
      RunsAscending(sorted);
    }
    RunsPartition(ById(), sorted);
    forall i | 0 <= i < |groups|
      ensures GoodGroup(groups[i])
    {
      UniformGroupIsGood(groups[i]);
    }
  }

  /** The samples of one resource. */
  function Of(seen: set<Sample>, id: string): set<Sample> {
    set s | s in seen && s.resourceId == id
  }

  ghost predicate AllSummarized(docs: Resources, seen: set<Sample>) {
    forall id :: Summarizes(Lookup(docs, id), Of(seen, id))
  }

  lemma {:induction false} GroupsSummarized(docs: Resources, seen: set<Sample>, groups: seq<seq<Sample>>)
    requires AllSummarized(docs, seen) && forall i :: 0 <= i < |groups| ==> groups[i] != [] && GoodGroup(groups[i])
    ensures AllSummarized(AfterGroups(docs, groups), seen + Members(Concat(groups)))
  {
    if groups == [] {
      assert seen + Members(Concat(groups)) == seen;
    } else {
      var n := |groups| - 1;
      GroupsSummarized(docs, seen, groups[..n]);
      var group := groups[n];
      var before, seen' := AfterGroups(docs, groups[..n]), seen + Members(Concat(groups[..n]));
      var all := seen + Members(Concat(groups));
      assert all == seen' + Members(group);
      forall id
        ensures Summarizes(Lookup(AfterGroups(docs, groups), id), Of(all, id))
      {
        if id == group[0].resourceId {
          AfterGroupSummarizes(Lookup(before, id), Of(seen', id), group);
          assert Of(all, id) == Of(seen', id) + Members(group);
        } else {
          assert Of(all, id) == Of(seen', id);
        }
      }
    }
  }

  /** The samples of some batches. */
  function Seen(batches: seq<seq<Sample>>): set<Sample> {
    if batches == [] then {} else Seen(batches[..|batches| - 1]) + Members(batches[|batches| - 1])
  }

  /** After any batches, each resource's document has its earliest and latest timestamps, the metadata
      of a sample with the latest one, and all its meters; resources without samples have none. */
  lemma {:induction false} BatchesSummarized(batches: seq<seq<Sample>>)
    ensures AllSummarized(AfterBatches(map[], batches), Seen(batches))
  {
    if batches == [] {
      assert forall id :: Of({}, id) == {};
    } else {
      var n := |batches| - 1;
      BatchesSummarized(batches[..n]);
      GroupsAreGood(batches[n]);
      GroupsSummarized(AfterBatches(map[], batches[..n]), Seen(batches[..n]), GroupsOf(batches[n]));
    }
  }

  /** Samples of the same time carry the same metadata. */
  ghost predicate TimeTellsMetadata(seen: set<Sample>) {
    forall s, t :: s in seen && t in seen && s.timestamp == t.timestamp ==> s.metadata == t.metadata
  }

  ghost predicate SameSummary(x: Option<Resource>, y: Option<Resource>, seen: set<Sample>) {
    && x.Some? == y.Some?
    && (x.Some? ==>
          && x.value.first == y.value.first && x.value.last == y.value.last && x.value.meters == y.value.meters
          && (TimeTellsMetadata(seen) ==> x.value.metadata == y.value.metadata))
  }

  lemma SummariesAgree(x: Option<Resource>, y: Option<Resource>, seen: set<Sample>)
    requires Summarizes(x, seen) && Summarizes(y, seen)
    ensures SameSummary(x, y, seen)
  {
  }

  /** First and last timestamps and meters depend only on which samples came, not on their batches, and
      so does the metadata if samples of the same time agree on it. */
  lemma BatchingIrrelevant(a: seq<seq<Sample>>, b: seq<seq<Sample>>, id: string)
    requires Seen(a) == Seen(b)
    ensures SameSummary(Lookup(AfterBatches(map[], a), id), Lookup(AfterBatches(map[], b), id), Of(Seen(a), id))
  {
    BatchesSummarized(a);
    BatchesSummarized(b);
    SummariesAgree(Lookup(AfterBatches(map[], a), id), Lookup(AfterBatches(map[], b), id), Of(Seen(a), id));
  }

  // ---------------------------------------------------------------- the owner

  /** The last of the samples of a resource. */
  function LastOf(xs: seq<Sample>, id: string): (r: Option<Sample>)
    ensures r.Some? ==> r.value in xs && r.value.resourceId == id
    ensures r.None? ==> forall s :: s in xs ==> s.resourceId != id
  {
    if xs == [] then None else
    var last := xs[|xs| - 1];
    assert xs == xs[..|xs| - 1] + [last];
    if last.resourceId == id then Some(last) else LastOf(xs[..|xs| - 1], id)
  }

  predicate OwnerFrom(r: Option<Resource>, s: Sample) {
    r.Some? && r.value.projectId == s.projectId && r.value.userId == s.userId && r.value.source == s.source
  }

  /** The owner after some samples of a list is that of the last of them; without any it is as before. */
  ghost predicate OwnerOfLast(before: Option<Resource>, after: Option<Resource>, last: Option<Sample>) {
    match last
    case None => after == before
    case Some(s) => OwnerFrom(after, s)
  }

  lemma AfterGroupsSnoc(docs: Resources, front: seq<seq<Sample>>, group: seq<Sample>, id: string)
    requires group != [] && forall i :: 0 <= i < |front| ==> front[i] != []
    ensures var before, after := AfterGroups(docs, front), AfterGroups(docs, front + [group]);
            if id == group[0].resourceId then OwnerFrom(Lookup(after, id), group[|group| - 1])
            else Lookup(after, id) == Lookup(before, id)
  {
    assert (front + [group])[..|front|] == front;
  }

  lemma AfterGroupsExtended(docs: Resources, groups: seq<seq<Sample>>, x: Sample, id: string)
    requires forall i :: 0 <= i < |groups| ==> groups[i] != []
    ensures var after := AfterGroups(docs, Extended(ById(), groups, x));
            if id == x.resourceId then OwnerFrom(Lookup(after, id), x)
            else Lookup(after, id) == Lookup(AfterGroups(docs, groups), id)
  {
    var m := |groups| - 1;
    if m >= 0 && ById()(groups[m][0]) == ById()(x) {
      AfterGroupsSnoc(docs, groups[..m], groups[m], id);
      AfterGroupsSnoc(docs, groups[..m], groups[m] + [x], id);
      assert groups == groups[..m] + [groups[m]];
    } else {
      AfterGroupsSnoc(docs, groups, [x], id);
    }
  }

  lemma {:induction false} RunsOwner(docs: Resources, xs: seq<Sample>, id: string)
    ensures OwnerOfLast(Lookup(docs, id), Lookup(AfterGroups(docs, Runs(ById(), xs)), id), LastOf(xs, id))
  {
    if xs != [] {
      var n := |xs| - 1;
      RunsOwner(docs, xs[..n], id);
      AfterGroupsExtended(docs, Runs(ById(), xs[..n]), xs[n], id);
    }
  }

  lemma {:induction false} AscendingPair(xs: seq<Sample>, i: nat, j: nat)
    requires Ascending(ByResourceAndTime(), xs) && i < j < |xs|
    ensures InOrder(xs[i], xs[j])
  {
    assert ByResourceAndTime()(xs[j - 1], xs[j]);
    if i < j - 1 {
      AscendingPair(xs, i, j - 1);
      var a, b, c := xs[i].resourceId, xs[j - 1].resourceId, xs[j].resourceId;
      if Before(a, b) && Before(b, c) {
        BeforeIsTransitive(a, b, c);
      }
    }
  }

  /** The sample is a latest one of its resource in the batch. */
  predicate LatestIn(batch: seq<Sample>, s: Sample) {
    s in batch && forall t :: t in batch && t.resourceId == s.resourceId ==> t.timestamp <= s.timestamp
  }

  lemma {:induction false} LastIsLatest(xs: seq<Sample>, id: string)
    requires Ascending(ByResourceAndTime(), xs) && LastOf(xs, id).Some?
    ensures LatestIn(xs, LastOf(xs, id).value)
  {
    var n := |xs| - 1;
    assert xs == xs[..n] + [xs[n]];
    if xs[n].resourceId == id {
      forall t | t in xs && t.resourceId == id
        ensures t.timestamp <= xs[n].timestamp
      {
        var i :| 0 <= i < |xs| && xs[i] == t;
        if i < n {
          AscendingPair(xs, i, n);
          BeforeIsTotal(id, id);
        }
      }
    } else {
      LastIsLatest(xs[..n], id);
    }
  }

  predicate Mentions(batch: seq<Sample>, id: string) {
    exists s :: s in batch && s.resourceId == id
  }

  ghost predicate OwnedByLatest(r: Option<Resource>, batch: seq<Sample>, id: string) {
    exists s: Sample :: s.resourceId == id && LatestIn(batch, s) && OwnerFrom(r, s)
  }

  lemma BatchOwner(docs: Resources, batch: seq<Sample>, id: string)
    ensures var after := Lookup(AfterGroups(docs, GroupsOf(batch)), id);
            if Mentions(batch, id) then OwnedByLatest(after, batch, id) else after == Lookup(docs, id)
  {
    var sorted := Sorted(ByResourceAndTime(), batch);
    InOrderIsTotal();
    SortedMembers(ByResourceAndTime(), batch);
    SortedAscending(ByResourceAndTime(), batch);
    RunsOwner(docs, sorted, id);
    if LastOf(sorted, id).Some? {
      LastIsLatest(sorted, id);
      assert LatestIn(batch, LastOf(sorted, id).value);
    }
  }

  function DocAfter(batches: seq<seq<Sample>>, id: string): Option<Resource> {
    Lookup(AfterBatches(map[], batches), id)
  }

  lemma LastBatchOwner(front: seq<seq<Sample>>, batch: seq<Sample>, id: string)
    ensures var after := DocAfter(front + [batch], id);
            if Mentions(batch, id) then OwnedByLatest(after, batch, id) else after == DocAfter(front, id)
  {
    assert (front + [batch])[..|front|] == front;
    BatchOwner(AfterBatches(map[], front), batch, id);
  }

  /** A resource's project, user and source are those of a latest sample in the last batch that has any of
      it, even if that batch came out of order. */
  lemma {:induction false} OwnerIsOfLastBatch(batches: seq<seq<Sample>>, b: nat, id: string)
    requires b < |batches| && Mentions(batches[b], id)
    requires forall i :: b < i < |batches| ==> !Mentions(batches[i], id)
    ensures OwnedByLatest(DocAfter(batches, id), batches[b], id)
  {
    var n := |batches| - 1;
    var front, last := batches[..n], batches[n];
    assert batches == front + [last];
    LastBatchOwner(front, last, id);
    if b < n {
      assert front[b] == batches[b];
      OwnerIsOfLastBatch(front, b, id);
    }
  }

  // ---------------------------------------------------------------- the map-reduce alternative

  /** What the map step emits for a sample, and what the reduce step makes of several. */
  datatype Span = Span(first: int, last: int, metadata: Metadata, projectId: string, userId: string, source: string)

  function Mapped(s: Sample): Span {
    Span(s.timestamp, s.timestamp, s.metadata, s.projectId, s.userId, s.source)
  }

  /** The body of the reduce loop; a value that begins earlier is not looked at for its end. */
  function Reduced(merge: Span, value: Span): Span {
    if merge.first > value.first then
      merge.(first := value.first, projectId := value.projectId, userId := value.userId, source := value.source)
    else if merge.last <= value.last then
      merge.(last := value.last, metadata := value.metadata)
    else
      merge
  }

  function ReduceAll(values: seq<Span>): Span
    requires values != []
  {
    if |values| == 1 then Reduced(values[0], values[0])
    else Reduced(ReduceAll(values[..|values| - 1]), values[|values| - 1])
  }

  predicate SameOwner(a: Span, b: Span) {
    a.projectId == b.projectId && a.userId == b.userId && a.source == b.source
  }

  /** The value begins first of all. */
  predicate Begins(values: seq<Span>, i: nat) {
    i < |values| && forall k :: 0 <= k < |values| ==> values[i].first <= values[k].first
  }

  /** The value ends last of all. */
  predicate Ends(values: seq<Span>, i: nat) {
    i < |values| && forall k :: 0 <= k < |values| ==> values[k].last <= values[i].last
  }

  /** The value does not begin before all the values in front of it. */
  predicate LookedAt(values: seq<Span>, i: nat) {
    i < |values| && (i == 0 || exists j :: 0 <= j < i && values[j].first <= values[i].first)
  }

  /** Whatever values are reduced, also ones that were reduced before: the result begins with one that
      begins first, and has its owner. */
  lemma {:induction false} ReducedBegins(values: seq<Span>) returns (i: nat)
    requires values != []
    ensures Begins(values, i) && ReduceAll(values).first == values[i].first && SameOwner(ReduceAll(values), values[i])
  {
    var n := |values| - 1;
    i := 0;
    if n > 0 {
      i := ReducedBegins(values[..n]);
      if ReduceAll(values[..n]).first > values[n].first {
        i := n;
      }
    }
  }

  lemma LastLookedAt(values: seq<Span>)
    requires |values| > 1
    ensures var n := |values| - 1;
            LookedAt(values, n) <==> ReduceAll(values[..n]).first <= values[n].first
  {
    var n := |values| - 1;
    var i := ReducedBegins(values[..n]);
    assert values[..n][i] == values[i];
    assert forall j :: 0 <= j < n ==> values[..n][j] == values[j];
  }

  lemma LookedAtInFront(values: seq<Span>, n: nat, i: nat)
    requires i < n <= |values|
    ensures LookedAt(values[..n], i) <==> LookedAt(values, i)
  {
    assert forall j :: 0 <= j < n ==> values[..n][j] == values[j];
  }

  /** It ends with the latest of those that are looked at, and has its metadata. */
  lemma {:induction false} ReducedEnds(values: seq<Span>) returns (i: nat)
    requires values != []
    ensures LookedAt(values, i)
    ensures ReduceAll(values).last == values[i].last && ReduceAll(values).metadata == values[i].metadata
    ensures forall k :: 0 <= k < |values| && LookedAt(values, k) ==> values[k].last <= values[i].last
  {
    var n := |values| - 1;
    i := 0;
    if n > 0 {
      var front := values[..n];
      i := ReducedEnds(front);
      LastLookedAt(values);
      LookedAtInFront(values, n, i);
      assert values[i] == front[i];
      if LookedAt(values, n) && ReduceAll(front).last <= values[n].last {
        i := n;
      }
      forall k | 0 <= k < n && LookedAt(values, k)
        ensures values[k].last <= ReduceAll(front).last
      {
        LookedAtInFront(values, n, k);
        assert front[k] == values[k];
      }
    }
  }

  /** So the end of the result is the true one exactly if some value that ends last does not begin before
      all the values in front of it. */
  lemma ReducedEndExactly(values: seq<Span>)
    requires values != []
    ensures (forall k :: 0 <= k < |values| ==> values[k].last <= ReduceAll(values).last)
       <==> exists i :: Ends(values, i) && LookedAt(values, i)
  {
    var e := ReducedEnds(values);
    if forall k :: 0 <= k < |values| ==> values[k].last <= ReduceAll(values).last {
      assert Ends(values, e);
    }
  }

  /** The second value begins before the first and ends after it: its end is missed. */
  lemma EndMissed(m: Metadata)
    ensures var values := [Span(5, 6, m, "", "", ""), Span(1, 10, m, "", "", "")];
            ReduceAll(values).first == 1 && ReduceAll(values).last == 6
  {
    var values := [Span(5, 6, m, "", "", ""), Span(1, 10, m, "", "", "")];
    assert values[..1] == [values[0]];
    assert ReduceAll(values[..1]) == values[0];
  }

  function SpansOf(samples: seq<Sample>): (r: seq<Span>)
    ensures |r| == |samples| && forall i :: 0 <= i < |r| ==> r[i] == Mapped(samples[i])
  {
    seq(|samples|, i requires 0 <= i < |samples| => Mapped(samples[i]))
  }

  ghost predicate OwnedByEarliest(r: Span, seen: set<Sample>) {
    exists s :: s in seen && s.timestamp == r.first
                && s.projectId == r.projectId && s.userId == r.userId && s.source == r.source
  }

  ghost predicate Spans(r: Span, seen: set<Sample>) {
    && Earliest(seen, r.first) && OwnedByEarliest(r, seen)
    && LatestWith(seen, r.last, r.metadata)
  }

  /** Moments that come last are looked at. */
  lemma MomentsLookedAt(samples: seq<Sample>) returns (i: nat)
    requires samples != []
    ensures Ends(SpansOf(samples), i) && LookedAt(SpansOf(samples), i)
  {
    var values := SpansOf(samples);
    i := LatestMoment(samples);
    if i > 0 {
      assert values[0].first <= values[i].first;
    }
  }

  lemma {:induction false} LatestMoment(samples: seq<Sample>) returns (i: nat)
    requires samples != []
    ensures i < |samples| && forall k :: 0 <= k < |samples| ==> samples[k].timestamp <= samples[i].timestamp
  {
    var n := |samples| - 1;
    i := n;
    if n > 0 {
      var k := LatestMoment(samples[..n]);
      assert forall j :: 0 <= j < n ==> samples[..n][j] == samples[j];
      i := if samples[k].timestamp > samples[n].timestamp then k else n;
    }
  }

  /** Reducing samples gives their earliest and latest timestamps, the owner of an earliest and the metadata
      of a latest one. */
  lemma ReducedSamples(samples: seq<Sample>)
    requires samples != []
    ensures Spans(ReduceAll(SpansOf(samples)), Members(samples))
  {
    var values := SpansOf(samples);
    var b := ReducedBegins(values);
    var e := ReducedEnds(values);
    var latest := MomentsLookedAt(samples);
    assert samples[b] in Members(samples) && samples[e] in Members(samples);
    forall s | s in Members(samples)
      ensures ReduceAll(values).first <= s.timestamp <= ReduceAll(values).last
    {
      var k :| 0 <= k < |samples| && samples[k] == s;
      assert values[k] == Mapped(s);
    }
  }

  /** The part of the driver that keeps the resource collection. */
  class ResourceCollection {
    var docs: Resources

    constructor ()
      ensures docs == map[]
    {
      docs := map[];
    }

    /** `record_metering_data_batch`, as far as the resource collection goes. */
    method RecordBatch(samples: seq<Sample>)
      modifies this
      ensures docs == AfterGroups(old(docs), GroupsOf(samples))
    {
      var groups := GroupsOf(samples);
      for i := 0 to |groups|
        invariant docs == AfterGroups(old(docs), groups[..i])
      {
        assert groups[..i + 1][..i] == groups[..i];
        UpdateResource(groups[i]);
      }
      assert groups[..|groups|] == groups;
    }

    /** The body of the loop over the resources of a batch. */
    method UpdateResource(group: seq<Sample>)
      requires group != []
      modifies this
      ensures var id := group[0].resourceId;
              docs == old(docs)[id := AfterGroup(Lookup(old(docs), id), group)]
    {
      var id, s := group[0].resourceId, group[|group| - 1];
      var resource := Upserted(Lookup(docs, id), group);
      docs := docs[id := resource];
      if resource.last == None || resource.last.value <= s.timestamp {
        docs := docs[id := docs[id].(metadata := s.metadata, last := Some(s.timestamp))];
      }
      if resource.first != None && resource.first.value > group[0].timestamp {
        docs := docs[id := docs[id].(first := Some(group[0].timestamp))];
      }
    }
  }
}
