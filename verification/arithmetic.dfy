/** The arithmetic transformer: it keeps the latest sample of each meter its expression uses, resource
    by resource, and emits for a resource once all of them are there. */
module Arithmetic {
  import opened Wrappers
  import opened Samples

  // ---------------------------------------------------------------- escaped meter names

  const KEYWORDS := {"and", "as", "assert", "break", "class", "continue", "def", "del", "elif", "else", "except",
                     "exec", "finally", "for", "from", "global", "if", "import", "in", "is", "lambda", "not", "or",
                     "pass", "print", "raise", "return", "try", "while", "with", "yield"}

  /** `name.replace('.', '_')`. */
  function Underscored(name: string): (r: string)
    ensures |r| == |name| && forall i :: 0 <= i < |r| ==> r[i] == if name[i] == '.' then '_' else name[i]
  {
    seq(|name|, i requires 0 <= i < |name| => if name[i] == '.' then '_' else name[i])
  }

  predicate EndsInEsc(name: string) {
    |name| >= 3 && name[|name| - 3..] == "ESC"
  }

  predicate Wrapped(name: string) {
    '.' in name || EndsInEsc(name) || name in KEYWORDS
  }

  /** `Replacer.escape`. */
  function Escape(name: string): string {
    if Wrapped(name) then "_" + Underscored(name) + "_ESC" else name
  }

  /** Names are escaped alike exactly if they are equal, or both get wrapped and only differ in dots
      against underscores (as "a.b_c" and "a_b.c"). */
  lemma EscapedAlikeExactly(a: string, b: string)
    ensures Escape(a) == Escape(b) <==> a == b || (Wrapped(a) && Wrapped(b) && Underscored(a) == Underscored(b))
  {
    EscapedEnd(a);
    EscapedEnd(b);
    if Wrapped(a) && Wrapped(b) {
      assert Escape(a)[1..|a| + 1] == Underscored(a);
      assert Escape(b)[1..|b| + 1] == Underscored(b);
    } else if !Wrapped(a) && !Wrapped(b) {
    } else {
      assert EndsInEsc(Escape(a)) != EndsInEsc(Escape(b));
    }
  }

  lemma EscapedEnd(name: string)
    ensures EndsInEsc(Escape(name)) <==> Wrapped(name)
    ensures Wrapped(name) ==> |Escape(name)| == |name| + 5
  {
    if Wrapped(name) {
      var e := Escape(name);
      assert e[|e| - 3..] == "ESC";
    }
  }

  lemma NoKeywordBegins(e: string)
    requires e != [] && e[0] == '_'
    ensures e !in KEYWORDS
  {
  }

  /** An escaped name has no dot and is no keyword; other names are left as they are. */
  lemma EscapedIsName(name: string)
    ensures '.' !in Escape(name) && Escape(name) !in KEYWORDS
    ensures Escape(name) == name <==> '.' !in name && name !in KEYWORDS && !(|name| >= 3 && name[|name| - 3..] == "ESC")
  {
    if Wrapped(name) {
      var e, u := Escape(name), Underscored(name);
      assert |e| == |name| + 5;
      NoKeywordBegins(e);
      assert '.' !in u;
      assert e == "_" + u + "_ESC";
    }
  }

  lemma EscapedName()
    ensures Escape("cpu.util") == "_cpu_util_ESC" && Escape("is") == "_is_ESC"
  {
    var u := Underscored("cpu.util");
    assert "cpu.util"[3] == '.';
    assert u == "cpu_util";
    assert Underscored("is") == "is";
  }

  /** How an expression renames its meters. */
  type Escaper = string -> string

  function Escaping(): Escaper {
    (name: string) => Escape(name)
  }

  // ---------------------------------------------------------------- the cache

  /** What is cached of one resource: a sample for each escaped name. */
  type Cached = map<string, Sample>

  function Required(esc: Escaper, meters: set<string>): set<string> {
    set m | m in meters :: esc(m)
  }

  function CachedOf(cache: map<string, Cached>, resource: string): Cached {
    if resource in cache then cache[resource] else map[]
  }

  /** `_update_cache`. */
  function Updated(esc: Escaper, meters: set<string>, cache: map<string, Cached>, s: Sample): map<string, Cached> {
    if s.name in meters
    then cache[s.resourceId := CachedOf(cache, s.resourceId)[esc(s.name) := s]]
    else cache
  }

  /** `_check_requirements` compares sizes. */
  predicate Complete(esc: Escaper, meters: set<string>, cached: Cached) {
    |cached| == |Required(esc, meters)|
  }

  function AfterSamples(esc: Escaper, meters: set<string>, samples: seq<Sample>): map<string, Cached> {
    if samples == [] then map[]
    else Updated(esc, meters, AfterSamples(esc, meters, samples[..|samples| - 1]), samples[|samples| - 1])
  }

  /** The sample takes the place of an escaped name of the resource. */
  predicate Fills(esc: Escaper, meters: set<string>, s: Sample, resource: string, escaped: string) {
    s.resourceId == resource && s.name in meters && esc(s.name) == escaped
  }

  ghost predicate Filled(esc: Escaper, meters: set<string>, samples: seq<Sample>, resource: string, escaped: string) {
    exists s :: s in samples && Fills(esc, meters, s, resource, escaped)
  }

  /** The latest of the samples that fill a place. */
  function LatestFor(esc: Escaper, meters: set<string>, samples: seq<Sample>, resource: string, escaped: string)
    : (r: Option<Sample>)
    ensures r.Some? <==> Filled(esc, meters, samples, resource, escaped)
  {
    if samples == [] then None else
    var last := samples[|samples| - 1];
    assert samples == samples[..|samples| - 1] + [last];
    if Fills(esc, meters, last, resource, escaped) then Some(last)
    else LatestFor(esc, meters, samples[..|samples| - 1], resource, escaped)
  }

  /** The sample fills the place, and none after it does. */
  ghost predicate IsLatestFor(esc: Escaper, meters: set<string>, samples: seq<Sample>, resource: string,
                              escaped: string, s: Sample)
  {
    exists i :: 0 <= i < |samples| && samples[i] == s && Fills(esc, meters, s, resource, escaped)
                && forall j :: i < j < |samples| ==> !Fills(esc, meters, samples[j], resource, escaped)
  }

  lemma {:induction false} LatestForPlace(esc: Escaper, meters: set<string>, samples: seq<Sample>,
                                          resource: string, escaped: string) returns (i: nat)
    ensures var r := LatestFor(esc, meters, samples, resource, escaped);
            r.Some? ==> && i < |samples| && samples[i] == r.value && Fills(esc, meters, samples[i], resource, escaped)
                        && forall j :: i < j < |samples| ==> !Fills(esc, meters, samples[j], resource, escaped)
  {
    i := 0;
    if samples != [] {
      var n := |samples| - 1;
      i := LatestForPlace(esc, meters, samples[..n], resource, escaped);
      if Fills(esc, meters, samples[n], resource, escaped) {
        i := n;
      } else {
        assert forall j :: 0 <= j < n ==> samples[j] == samples[..n][j];
      }
    }
  }

  lemma LatestForIsLatest(esc: Escaper, meters: set<string>, samples: seq<Sample>, resource: string, escaped: string)
    ensures var r := LatestFor(esc, meters, samples, resource, escaped);
            r.Some? ==> IsLatestFor(esc, meters, samples, resource, escaped, r.value)
  {
    var i := LatestForPlace(esc, meters, samples, resource, escaped);
  }

  lemma {:induction false} SamplesCacheLatest(esc: Escaper, meters: set<string>, samples: seq<Sample>,
                                              resource: string, escaped: string)
    ensures var cached := CachedOf(AfterSamples(esc, meters, samples), resource);
            && (escaped in cached <==> LatestFor(esc, meters, samples, resource, escaped).Some?)
            && (escaped in cached ==> LatestFor(esc, meters, samples, resource, escaped) == Some(cached[escaped]))
  {
    if samples != [] {
      SamplesCacheLatest(esc, meters, samples[..|samples| - 1], resource, escaped);
    }
  }

  lemma SameSizeSubset(a: set<string>, b: set<string>)
    requires a <= b
    ensures |a| == |b| <==> a == b
  {
    if |a| == |b| {
      assert |b - a| == |b| - |a|;
      assert b == a + (b - a);
    }
  }

  lemma SamplesComplete(esc: Escaper, meters: set<string>, samples: seq<Sample>, resource: string)
    ensures Complete(esc, meters, CachedOf(AfterSamples(esc, meters, samples), resource)) <==>
            forall m :: m in meters ==> Filled(esc, meters, samples, resource, esc(m))
  {
    var cached, required := CachedOf(AfterSamples(esc, meters, samples), resource), Required(esc, meters);
    forall e
      ensures e in cached <==> Filled(esc, meters, samples, resource, e)
      ensures e in cached ==> e in required
    {
      SamplesCacheLatest(esc, meters, samples, resource, e);
    }
    SameSizeSubset(cached.Keys, required);
    assert |cached| == |cached.Keys|;
    assert forall m :: m in meters ==> esc(m) in required;
  }

  // ---------------------------------------------------------------- runs

  datatype Event = Arrive(sample: Sample) | Flush

  /** The complete resources. */
  function Ready(esc: Escaper, meters: set<string>, cache: map<string, Cached>): map<string, Cached> {
    map r | r in cache && Complete(esc, meters, cache[r]) :: cache[r]
  }

  /** A flush forgets the complete resources, for which it calculates; without meters it does nothing. */
  function AfterFlush(esc: Escaper, meters: set<string>, cache: map<string, Cached>): map<string, Cached> {
    if meters == {} then cache else cache - Ready(esc, meters, cache).Keys
  }

  function AfterEvents(esc: Escaper, meters: set<string>, events: seq<Event>): map<string, Cached> {
    if events == [] then map[] else
    var before := AfterEvents(esc, meters, events[..|events| - 1]);
    match events[|events| - 1]
    case Arrive(s) => Updated(esc, meters, before, s)
    case Flush => AfterFlush(esc, meters, before)
  }

  /** The samples that came since the resource was last calculated, which a flush does once the
      resource has all that it needs. */
  ghost function Since(esc: Escaper, meters: set<string>, events: seq<Event>, resource: string): seq<Sample> {
    if events == [] then [] else
    var before := Since(esc, meters, events[..|events| - 1], resource);
    match events[|events| - 1]
    case Arrive(s) => before + [s]
    case Flush => if Calculated(esc, meters, before, resource) then [] else before
  }

  /** A flush after these samples calculates for the resource: there are meters, and all have their places filled. */
  ghost predicate Calculated(esc: Escaper, meters: set<string>, samples: seq<Sample>, resource: string) {
    meters != {} && forall m :: m in meters ==> Filled(esc, meters, samples, resource, esc(m))
  }

  lemma NeedsSomething(esc: Escaper, meters: set<string>)
    requires meters != {}
    ensures !Complete(esc, meters, map[])
  {
    var m :| m in meters;
    assert esc(m) in Required(esc, meters);
  }

  /** Over any run, what is cached of a resource comes from the samples since it was last calculated. */
  lemma {:induction false} CacheIsOfSamplesSince(esc: Escaper, meters: set<string>, events: seq<Event>,
                                                 resource: string)
    ensures CachedOf(AfterEvents(esc, meters, events), resource)
         == CachedOf(AfterSamples(esc, meters, Since(esc, meters, events, resource)), resource)
  {
    if events != [] {
      var front := events[..|events| - 1];
      CacheIsOfSamplesSince(esc, meters, front, resource);
      var before := Since(esc, meters, front, resource);
      match events[|events| - 1] {
        case Arrive(s) =>
          assert (before + [s])[..|before|] == before;
        case Flush =>
          if meters != {} {
            NeedsSomething(esc, meters);
            SamplesComplete(esc, meters, before, resource);
          }
      }
    }
  }

  /** The cache has, per escaped name, the latest sample since the resource was last calculated. */
  lemma CacheHasLatest(esc: Escaper, meters: set<string>, events: seq<Event>, resource: string, escaped: string)
    ensures var cached := CachedOf(AfterEvents(esc, meters, events), resource);
            var samples := Since(esc, meters, events, resource);
            && (escaped in cached <==> LatestFor(esc, meters, samples, resource, escaped).Some?)
            && (escaped in cached ==> LatestFor(esc, meters, samples, resource, escaped) == Some(cached[escaped]))
  {
    CacheIsOfSamplesSince(esc, meters, events, resource);
    SamplesCacheLatest(esc, meters, Since(esc, meters, events, resource), resource, escaped);
  }

  /** Comparing sizes is enough: a resource is complete exactly if every place has been filled since. */
  lemma CompleteExactly(esc: Escaper, meters: set<string>, events: seq<Event>, resource: string)
    ensures Complete(esc, meters, CachedOf(AfterEvents(esc, meters, events), resource)) <==>
            forall m :: m in meters ==> Filled(esc, meters, Since(esc, meters, events, resource), resource, esc(m))
  {
    CacheIsOfSamplesSince(esc, meters, events, resource);
    SamplesComplete(esc, meters, Since(esc, meters, events, resource), resource);
  }

  ghost predicate Reported(samples: seq<Sample>, resource: string, meter: string) {
    exists s :: s in samples && s.resourceId == resource && s.name == meter
  }

  /** In every run, a resource that the next flush calculates for has had all the meters of the expression
      since it was last calculated. */
  ghost predicate WaitsForAll(esc: Escaper, meters: set<string>) {
    forall events, resource, m ::
      Complete(esc, meters, CachedOf(AfterEvents(esc, meters, events), resource)) && m in meters ==>
        Reported(Since(esc, meters, events, resource), resource, m)
  }

  ghost predicate EscapedApart(esc: Escaper, meters: set<string>) {
    forall a, b :: a in meters && b in meters && esc(a) == esc(b) ==> a == b
  }

  /** One report of each of some meters. */
  lemma ReportEach(meters: set<string>, resource: string) returns (samples: seq<Sample>)
    ensures forall m :: Reported(samples, resource, m) <==> m in meters
    ensures forall s :: s in samples ==> s.resourceId == resource
    decreases meters
  {
    samples := [];
    if meters != {} {
      var m :| m in meters;
      var rest := ReportEach(meters - {m}, resource);
      var metadata: Metadata :| true;
      var s := Sample(m, Gauge, "", 0.0, None, None, resource, 0.0, metadata, None);
      samples := [s] + rest;
      assert forall t :: t in samples <==> t == s || t in rest;
      forall n ensures Reported(samples, resource, n) <==> n in meters {
        assert Reported(rest, resource, n) <==> n in meters - {m};
        assert n == m ==> s in samples && s.name == n;
      }
    }
  }

  function Arrivals(samples: seq<Sample>): (r: seq<Event>)
    ensures |r| == |samples| && forall i :: 0 <= i < |r| ==> r[i] == Arrive(samples[i])
  {
    seq(|samples|, i requires 0 <= i < |samples| => Arrive(samples[i]))
  }

  lemma {:induction false} SinceArrivals(esc: Escaper, meters: set<string>, samples: seq<Sample>, resource: string)
    ensures Since(esc, meters, Arrivals(samples), resource) == samples
  {
    if samples != [] {
      var n := |samples| - 1;
      SinceArrivals(esc, meters, samples[..n], resource);
      assert Arrivals(samples)[..n] == Arrivals(samples[..n]);
      assert samples == samples[..n] + [samples[n]];
    }
  }

  /** If two meters are escaped alike, a report of one of them is enough. */
  lemma OneOfTwoIsEnough(esc: Escaper, meters: set<string>, a: string, b: string)
    requires a in meters && b in meters && esc(a) == esc(b) && a != b
    ensures !WaitsForAll(esc, meters)
  {
    var samples := ReportEach(meters - {b}, "");
    SinceArrivals(esc, meters, samples, "");
    CompleteExactly(esc, meters, Arrivals(samples), "");
    forall m | m in meters
      ensures Filled(esc, meters, samples, "", esc(m))
    {
      var n := if m == b then a else m;
      assert Reported(samples, "", n);
      var s :| s in samples && s.resourceId == "" && s.name == n;
      assert Fills(esc, meters, s, "", esc(m));
    }
    assert !Reported(samples, "", b);
  }

  /** The transformer waits for all meters of its expression, in every run, exactly if no two of them are
      escaped alike. */
  lemma WaitsForAllExactly(esc: Escaper, meters: set<string>)
    ensures WaitsForAll(esc, meters) <==> EscapedApart(esc, meters)
  {
    if EscapedApart(esc, meters) {
      forall events, resource, m |
        Complete(esc, meters, CachedOf(AfterEvents(esc, meters, events), resource)) && m in meters
        ensures Reported(Since(esc, meters, events, resource), resource, m)
      {
        CompleteExactly(esc, meters, events, resource);
        var s :| s in Since(esc, meters, events, resource) && Fills(esc, meters, s, resource, esc(m));
        assert s.name == m;
      }
    } else {
      var a, b :| a in meters && b in meters && esc(a) == esc(b) && a != b;
      OneOfTwoIsEnough(esc, meters, a, b);
    }
  }

  lemma SameUnderscored()
    ensures Underscored("a.b_c") == Underscored("a_b.c") && "a.b_c" != "a_b.c"
  {
    assert "a.b_c"[1] != "a_b.c"[1];
  }

  /** An expression over two meters that are escaped alike is evaluated once one of them has come. */
  lemma DotsAgainstUnderscores()
    ensures Escape("a.b_c") == Escape("a_b.c") && !WaitsForAll(Escaping(), {"a.b_c", "a_b.c"})
  {
    var a, b := "a.b_c", "a_b.c";
    assert a[1] == '.' && b[3] == '.';
    SameUnderscored();
    EscapedAlikeExactly(a, b);
    OneOfTwoIsEnough(Escaping(), {a, b}, a, b);
  }

  // ---------------------------------------------------------------- the new sample

  /** What the target gives the new sample; the reference is the escaped name of one meter of the expression. */
  datatype Target = Target(name: Option<string>, unit: Option<string>, kind: Option<Kind>, reference: string)

  /** The value of the expression; None for an exception or NaN. */
  type Evaluator = Cached -> Option<real>

  /** `_calculate`. */
  function Calculate(target: Target, evaluate: Evaluator, cached: Cached, latest: Option<real>): Option<Sample> {
    var volume := evaluate(cached);
    if volume.None? || target.reference !in cached || latest.None? then None else
    var r := cached[target.reference];
    Some(Sample(target.name.GetOr(r.name), target.kind.GetOr(r.kind), target.unit.GetOr(r.unit), volume.value,
                r.userId, r.projectId, r.resourceId, latest.value, r.metadata, None))
  }

  function LatestTime(events: seq<Event>): Option<real> {
    if events == [] then None else
    match events[|events| - 1]
    case Arrive(s) => Some(s.timestamp)
    case Flush => LatestTime(events[..|events| - 1])
  }

  /** The sample came last: only flushes follow. */
  ghost predicate CameLast(events: seq<Event>, s: Sample) {
    exists i :: 0 <= i < |events| && events[i] == Arrive(s) && forall j :: i < j < |events| ==> events[j].Flush?
  }

  lemma {:induction false} CachedHasCome(esc: Escaper, meters: set<string>, events: seq<Event>) returns (s: Sample)
    requires AfterEvents(esc, meters, events) != map[]
    ensures LatestTime(events) == Some(s.timestamp) && CameLast(events, s)
  {
    var n := |events| - 1;
    if events[n].Flush? {
      s := CachedHasCome(esc, meters, events[..n]);
      var i :| 0 <= i < n && events[..n][i] == Arrive(s) && forall j :: i < j < n ==> events[..n][j].Flush?;
      assert forall j :: i < j < n ==> events[j] == events[..n][j];
      assert events[i] == Arrive(s);
    } else {
      s := events[n].sample;
    }
  }

  /** There is a sample for each escaped meter, and for no other name: the latest for it. */
  ghost predicate LatestOfEach(esc: Escaper, meters: set<string>, samples: seq<Sample>, resource: string,
                               cached: Cached)
  {
    && (forall e :: e in cached <==> exists m :: m in meters && esc(m) == e)
    && forall e :: e in cached ==> IsLatestFor(esc, meters, samples, resource, e, cached[e])
  }

  /** A sample with this value: it takes its owner, its metadata and what the target does not say from the
      reference, and its timestamp from the sample that came last. */
  ghost predicate MadeFrom(new': Sample, target: Target, volume: real, reference: Sample, last: Sample) {
    && new'.volume == volume && new'.timestamp == last.timestamp && new'.resourceId == reference.resourceId
    && new'.userId == reference.userId && new'.projectId == reference.projectId
    && new'.metadata == reference.metadata && new'.monotonic == None
    && new'.name == (if target.name.Some? then target.name.value else reference.name)
    && new'.unit == (if target.unit.Some? then target.unit.value else reference.unit)
    && new'.kind == (if target.kind.Some? then target.kind.value else reference.kind)
  }

  /** What a flush after these events makes for a resource: a sample exactly if the expression has a value on the
      latest samples since the resource was last calculated, the reference being one of its meters. */
  ghost predicate MadeFor(esc: Escaper, meters: set<string>, target: Target, evaluate: Evaluator,
                          events: seq<Event>, resource: string, made: Option<Sample>)
  {
    exists cached, last :: MadeOf(esc, meters, target, evaluate, events, resource, cached, last, made)
  }

  ghost predicate MadeOf(esc: Escaper, meters: set<string>, target: Target, evaluate: Evaluator, events: seq<Event>,
                         resource: string, cached: Cached, last: Sample, made: Option<Sample>)
  {
    && LatestOfEach(esc, meters, Since(esc, meters, events, resource), resource, cached) && CameLast(events, last)
    && (made.Some? <==> evaluate(cached).Some? && exists m :: m in meters && esc(m) == target.reference)
    && (made.Some? ==>
          && target.reference in cached && made.value.resourceId == resource
          && MadeFrom(made.value, target, evaluate(cached).value, cached[target.reference], last))
  }

  lemma CompleteHasLatest(esc: Escaper, meters: set<string>, events: seq<Event>, resource: string)
    requires Calculated(esc, meters, Since(esc, meters, events, resource), resource)
    ensures LatestOfEach(esc, meters, Since(esc, meters, events, resource), resource,
                         CachedOf(AfterEvents(esc, meters, events), resource))
  {
    var samples := Since(esc, meters, events, resource);
    forall e
      ensures e in CachedOf(AfterEvents(esc, meters, events), resource) <==> exists m :: m in meters && esc(m) == e
    {
      CacheHasLatest(esc, meters, events, resource, e);
    }
    forall e | e in CachedOf(AfterEvents(esc, meters, events), resource)
      ensures IsLatestFor(esc, meters, samples, resource, e, CachedOf(AfterEvents(esc, meters, events), resource)[e])
    {
      CacheHasLatest(esc, meters, events, resource, e);
      LatestForIsLatest(esc, meters, samples, resource, e);
    }
  }

  lemma ReferenceCached(esc: Escaper, meters: set<string>, samples: seq<Sample>, resource: string, cached: Cached,
                        escaped: string)
    requires LatestOfEach(esc, meters, samples, resource, cached)
    ensures escaped in cached <==> exists m :: m in meters && esc(m) == escaped
    ensures escaped in cached ==> cached[escaped].resourceId == resource
  {
  }

  /** What is calculated from the cache is what the samples ask for. */
  lemma NewSample(esc: Escaper, meters: set<string>, target: Target, evaluate: Evaluator, events: seq<Event>,
                  resource: string)
    requires Calculated(esc, meters, Since(esc, meters, events, resource), resource)
    ensures MadeFor(esc, meters, target, evaluate, events, resource,
                    Calculate(target, evaluate, CachedOf(AfterEvents(esc, meters, events), resource),
                              LatestTime(events)))
  {
    var cached := CachedOf(AfterEvents(esc, meters, events), resource);
    var samples := Since(esc, meters, events, resource);
    CompleteHasLatest(esc, meters, events, resource);
    var m :| m in meters;
    ReferenceCached(esc, meters, samples, resource, cached, esc(m));
    ReferenceCached(esc, meters, samples, resource, cached, target.reference);
    var last := CachedHasCome(esc, meters, events);
    var made := Calculate(target, evaluate, cached, LatestTime(events));
    assert MadeOf(esc, meters, target, evaluate, events, resource, cached, last, made);
  }

  lemma CompleteAreMade(esc: Escaper, meters: set<string>, target: Target, evaluate: Evaluator, events: seq<Event>,
                        calculated: map<string, Option<Sample>>)
    requires meters != {}
    requires forall r :: r in calculated <==>
               r in AfterEvents(esc, meters, events) && Complete(esc, meters, AfterEvents(esc, meters, events)[r])
    requires forall r :: r in calculated ==>
               calculated[r]
               == Calculate(target, evaluate, AfterEvents(esc, meters, events)[r], LatestTime(events))
    ensures forall r :: r in calculated <==> Calculated(esc, meters, Since(esc, meters, events, r), r)
    ensures forall r :: r in calculated ==> MadeFor(esc, meters, target, evaluate, events, r, calculated[r])
  {
    NeedsSomething(esc, meters);
    forall r
      ensures r in calculated <==> Calculated(esc, meters, Since(esc, meters, events, r), r)
    {
      CompleteExactly(esc, meters, events, r);
    }
    forall r | r in calculated
      ensures MadeFor(esc, meters, target, evaluate, events, r, calculated[r])
    {
      NewSample(esc, meters, target, evaluate, events, r);
    }
  }

  lemma FlushForgets(esc: Escaper, meters: set<string>, events: seq<Event>, resources: set<string>)
    requires meters != {}
    requires forall r :: r in resources <==> Calculated(esc, meters, Since(esc, meters, events, r), r)
    ensures AfterEvents(esc, meters, events) - resources
         == AfterFlush(esc, meters, AfterEvents(esc, meters, events))
  {
    var cache := AfterEvents(esc, meters, events);
    forall r | r in cache
      ensures r in resources <==> r in Ready(esc, meters, cache)
    {
      CompleteExactly(esc, meters, events, r);
    }
  }

  // ---------------------------------------------------------------- the transformer

  /** `ArithmeticTransformer`, with the events it has seen; without meters it is misconfigured and does nothing. */
  class Transformer {
    const meters: set<string>
    const esc: Escaper
    const target: Target
    const evaluate: Evaluator
    var cache: map<string, Cached>
    var latestTimestamp: Option<real>
    ghost var log: seq<Event>

    constructor (meters: set<string>, target: Target, evaluate: Evaluator)
      ensures Valid() && log == []
      ensures this.meters == meters && esc == Escaping() && this.target == target && this.evaluate == evaluate
    {
      this.meters, esc, this.target, this.evaluate := meters, Escaping(), target, evaluate;
      cache, latestTimestamp, log := map[], None, [];
    }

    ghost predicate Valid()
      reads this
    {
      cache == AfterEvents(esc, meters, log) && latestTimestamp == LatestTime(log)
    }

    method HandleSample(s: Sample)
      requires Valid()
      modifies this
      ensures Valid() && log == old(log) + [Arrive(s)]
    {
      if s.name in meters {
        var cached := if s.resourceId in cache then cache[s.resourceId] else map[];
        cache := cache[s.resourceId := cached[esc(s.name) := s]];
      }
      latestTimestamp := Some(s.timestamp);
      log := log + [Arrive(s)];
      assert log[..|log| - 1] == old(log);
    }

    /** The loop of `flush` over a copy of the cache. */
    method CalculateComplete() returns (calculated: map<string, Option<Sample>>)
      requires Valid() && meters != {}
      modifies `cache
      ensures forall r :: r in calculated <==> Calculated(esc, meters, Since(esc, meters, log, r), r)
      ensures forall r :: r in calculated ==> MadeFor(esc, meters, target, evaluate, log, r, calculated[r])
      ensures cache == old(cache) - calculated.Keys
    {
      calculated := map[];
      var tmpCache := cache;
      var todo := tmpCache.Keys;
      while todo != {}
        invariant todo <= tmpCache.Keys
        invariant forall r :: r in calculated <==> r in tmpCache && r !in todo && Complete(esc, meters, tmpCache[r])
        invariant forall r :: r in calculated ==>
          calculated[r] == Calculate(target, evaluate, tmpCache[r], latestTimestamp)
        invariant cache == tmpCache - calculated.Keys
        decreases todo
      {
        var resource :| resource in todo;
        todo := todo - {resource};
        if Complete(esc, meters, tmpCache[resource]) {
          calculated := calculated[resource := Calculate(target, evaluate, tmpCache[resource], latestTimestamp)];
          cache := cache - {resource};
        }
      }
      CompleteAreMade(esc, meters, target, evaluate, log, calculated);
    }

    /** The new samples by resource: one for each resource that has all it needs, None where the expression fails. */
    method Flush() returns (calculated: map<string, Option<Sample>>)
      requires Valid()
      modifies this
      ensures Valid() && log == old(log) + [Event.Flush]
      ensures forall r :: r in calculated <==> Calculated(esc, meters, Since(esc, meters, old(log), r), r)
      ensures forall r :: r in calculated ==> MadeFor(esc, meters, target, evaluate, old(log), r, calculated[r])
    {
      calculated := map[];
      if meters != {} {
        calculated := CalculateComplete();
        FlushForgets(esc, meters, log, calculated.Keys);
      }
      log := log + [Event.Flush];
      assert log[..|log| - 1] == old(log);
    }
  }
}
