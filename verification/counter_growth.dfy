/** What the deltas and rates computed from a meter's samples add up to. */
module CounterGrowth {
  import opened Wrappers
  import opened Samples
  import opened Conversions

  // ---------------------------------------------------------------- deltas

  function Volumes(outputs: seq<Option<Sample>>): real {
    if outputs == [] then 0.0
    else (if outputs[0].Some? then outputs[0].value.volume else 0.0) + Volumes(outputs[1..])
  }

  predicate NonNegative(outputs: seq<Option<Sample>>) {
    forall i :: 0 <= i < |outputs| && outputs[i].Some? ==> outputs[i].value.volume >= 0.0
  }

  /** Whatever the order of arrival, the deltas of a meter add up to the difference between its newest
      sample and its first one; with `growth_only` they are non-negative and add up to no less. */
  lemma {:induction false} DeltasTelescope(growthOnly: bool, rename: Sample -> string,
                                           entry: Entry, stream: seq<Sample>)
    ensures var core := DeltaCore(growthOnly, rename);
            var final := FinalEntry(core, Some(entry), stream);
            var outputs := Outputs(core, Some(entry), stream);
            && final.Some? && final.value.timestamp >= entry.timestamp
            && (forall s :: s in stream ==> s.timestamp <= final.value.timestamp)
            && (final == Some(entry) || exists s :: s in stream && final == Some(Entry(s.volume, s.timestamp, None)))
            && (!growthOnly ==> Volumes(outputs) == final.value.volume - entry.volume)
            && (growthOnly ==> Volumes(outputs) >= final.value.volume - entry.volume)
            && (growthOnly ==> NonNegative(outputs))
            && (forall i :: 0 <= i < |outputs| && outputs[i].Some? ==> outputs[i].value.kind == Delta)
    decreases |stream|
  {
    if stream != [] {
      var core := DeltaCore(growthOnly, rename);
      var next := core(Some(entry), stream[0]).0;
      DeltasTelescope(growthOnly, rename, next.value, stream[1..]);
      var outputs := Outputs(core, Some(entry), stream);
      assert outputs[1..] == Outputs(core, next, stream[1..]);
      assert forall s :: s in stream <==> s == stream[0] || s in stream[1..];
    }
  }

  // ---------------------------------------------------------------- rates

  /** When a moment is: its timestamp and, if there is one, its reading of the monotonic clock. */
  datatype Clock = Clock(time: real, monotonic: Option<real>)

  /** A moment in the life of a cumulative counter: what it shows, how much it has really grown, and
      whether it was reset since the moment before. */
  datatype Point = Point(value: real, growth: real, reset: bool)

  /** Between moments the counter grows by what it shows more, or, when it was reset to zero in
      between, by at least what it shows. */
  predicate TrueCounter(h: seq<Point>) {
    && (forall i :: 0 <= i < |h| ==> h[i].value >= 0.0)
    && (forall i :: 0 < i < |h| ==>
          var grown := h[i].growth - h[i - 1].growth;
          if h[i].reset then grown >= h[i].value else grown == h[i].value - h[i - 1].value >= 0.0)
  }

  predicate NoReset(h: seq<Point>, i: nat, j: nat)
    requires j < |h|
  {
    forall k :: i < k <= j ==> !h[k].reset
  }

  lemma {:induction false} GrowthBetween(h: seq<Point>, i: nat, j: nat)
    requires TrueCounter(h) && i <= j < |h|
    ensures h[j].growth - h[i].growth >= 0.0
    ensures h[j].growth - h[i].growth >= h[j].value - h[i].value
    ensures NoReset(h, i, j) ==> h[j].growth - h[i].growth == h[j].value - h[i].value
    ensures !NoReset(h, i, j) ==> h[j].growth - h[i].growth >= h[j].value
    decreases j - i
  {
    if i < j {
      GrowthBetween(h, i, j - 1);
      assert NoReset(h, i, j) <==> NoReset(h, i, j - 1) && !h[j].reset;
    }
  }

  /** The sample that reports what a counter shows at some time. */
  function Report(meter: Sample, clock: Clock, p: Point): Sample {
    meter.(kind := Cumulative, volume := p.value, timestamp := clock.time, monotonic := clock.monotonic)
  }

  predicate Within(arrivals: seq<nat>, n: nat) {
    forall i :: 0 <= i < |arrivals| ==> arrivals[i] < n
  }

  /** The reports of moments, in the order in which they arrive. */
  function Reports(meter: Sample, clocks: seq<Clock>, h: seq<Point>, arrivals: seq<nat>): (r: seq<Sample>)
    requires |h| == |clocks| && Within(arrivals, |h|)
    ensures |r| == |arrivals|
    ensures forall i :: 0 <= i < |r| ==> r[i] == Report(meter, clocks[arrivals[i]], h[arrivals[i]])
  {
    seq(|arrivals|, i requires 0 <= i < |arrivals| => Report(meter, clocks[arrivals[i]], h[arrivals[i]]))
  }

  function EntryOf(clock: Clock, p: Point): Entry {
    Entry(p.value, clock.time, clock.monotonic)
  }

  /** The latest moment reported so far. */
  function Latest(k: nat, arrivals: seq<nat>): (r: nat)
    ensures r == k || r in arrivals
    ensures r >= k && forall i :: 0 <= i < |arrivals| ==> arrivals[i] <= r
    decreases |arrivals|
  {
    if arrivals == [] then k else Latest(if arrivals[0] >= k then arrivals[0] else k, arrivals[1..])
  }

  /** Rate times elapsed time, summed over everything the transformer emits. */
  function Covered(core: Core, entry: Entry, stream: seq<Sample>): real
    decreases |stream|
  {
    if stream == [] then 0.0 else
    var (next, output) := core(Some(entry), stream[0]);
    (if output.Some? then output.value.volume * Elapsed(entry, stream[0]) else 0.0)
    + Covered(core, next.GetOr(entry), stream[1..])
  }

  /** No bound and no scale are configured. */
  predicate Plain(target: Target) {
    (target.scale == NoScale || target.scale == Factor(0.0)) && (target.max == None || target.max == Some(0.0))
  }

  // ---------------------------------------------------------------- what is claimed, moment by moment

  /** The time from one moment to another, as the transformer sees it. */
  function Between(a: Clock, b: Clock): real {
    if a.monotonic.Some? && b.monotonic.Some? then b.monotonic.value - a.monotonic.value else b.time - a.time
  }

  /** The growth claimed for a reading that follows another one after some time. */
  function Claim(elapsed: real, p: Point, q: Point): real {
    if elapsed <= 0.0 then 0.0 else if p.value <= q.value then q.value - p.value else q.value
  }

  /** The moment whose report is cached in the end. */
  function Cached(clocks: seq<Clock>, c: nat, arrivals: seq<nat>): (r: nat)
    requires c < |clocks| && Within(arrivals, |clocks|)
    ensures r < |clocks|
    decreases |arrivals|
  {
    if arrivals == [] then c else
    var k := arrivals[0];
    Cached(clocks, if Between(clocks[c], clocks[k]) < 0.0 then c else k, arrivals[1..])
  }

  /** The growth claimed by all rates. */
  function Claimed(clocks: seq<Clock>, h: seq<Point>, c: nat, arrivals: seq<nat>): real
    requires |h| == |clocks| && c < |clocks| && Within(arrivals, |clocks|)
    decreases |arrivals|
  {
    if arrivals == [] then 0.0 else
    var k := arrivals[0];
    var elapsed := Between(clocks[c], clocks[k]);
    Claim(elapsed, h[c], h[k]) + Claimed(clocks, h, if elapsed < 0.0 then c else k, arrivals[1..])
  }

  lemma QuotientTimesDivisor(a: real, b: real)
    requires b != 0.0
    ensures (a / b) * b == a
    ensures a >= 0.0 && b > 0.0 ==> a / b >= 0.0
  {
  }

  /** A report is dropped with the cache unchanged if time went back, and otherwise answered by a
      non-negative rate that claims the growth shown, but for ties nothing. */
  predicate RightRate(core: Core, meter: Sample, a: Clock, b: Clock, p: Point, q: Point) {
    var s := Report(meter, b, q);
    var (next, output) := core(Some(EntryOf(a, p)), s);
    if Between(a, b) < 0.0 then
      next == Some(EntryOf(a, p)) && output == None
    else
      && next == Some(EntryOf(b, q)) && output.Some? && output.value.volume >= 0.0
      && output.value.volume * Elapsed(EntryOf(a, p), s) == Claim(Between(a, b), p, q)
  }

  lemma RateIsRight(target: Target, meter: Sample, a: Clock, b: Clock, p: Point, q: Point)
    requires Plain(target) && p.value >= 0.0 && q.value >= 0.0
    ensures RightRate(RateCore(target), meter, a, b, p, q)
  {
    var elapsed, delta := Between(a, b), VolumeDelta(EntryOf(a, p), Report(meter, b, q));
    if elapsed > 0.0 {
      QuotientTimesDivisor(delta, elapsed);
      assert 1.0 * (delta / elapsed) == delta / elapsed;
    }
  }

  ghost predicate RightRates(core: Core, meter: Sample, clocks: seq<Clock>, h: seq<Point>)
    requires |h| == |clocks|
  {
    forall c, k :: 0 <= c < |h| && 0 <= k < |h| ==> RightRate(core, meter, clocks[c], clocks[k], h[c], h[k])
  }

  /** The transformer claims and caches what is said above, and no rate is negative. */
  ghost predicate FollowsMoments(core: Core, meter: Sample, clocks: seq<Clock>, h: seq<Point>,
                                 c: nat, arrivals: seq<nat>)
    requires |h| == |clocks| && c < |h| && Within(arrivals, |h|)
  {
    var entry, last := EntryOf(clocks[c], h[c]), Cached(clocks, c, arrivals);
    var stream := Reports(meter, clocks, h, arrivals);
    && Covered(core, entry, stream) == Claimed(clocks, h, c, arrivals)
    && FinalEntry(core, Some(entry), stream) == Some(EntryOf(clocks[last], h[last]))
    && NonNegative(Outputs(core, Some(entry), stream))
  }

  lemma FollowsFirst(core: Core, meter: Sample, clocks: seq<Clock>, h: seq<Point>, c: nat, arrivals: seq<nat>)
    requires |h| == |clocks| && c < |h| && Within(arrivals, |h|) && arrivals != []
    requires RightRate(core, meter, clocks[c], clocks[arrivals[0]], h[c], h[arrivals[0]])
    requires var next := if Between(clocks[c], clocks[arrivals[0]]) < 0.0 then c else arrivals[0];
             FollowsMoments(core, meter, clocks, h, next, arrivals[1..])
    ensures FollowsMoments(core, meter, clocks, h, c, arrivals)
  {
    var entry, stream := EntryOf(clocks[c], h[c]), Reports(meter, clocks, h, arrivals);
    assert stream[1..] == Reports(meter, clocks, h, arrivals[1..]);
    var outputs := Outputs(core, Some(entry), stream);
    assert outputs[1..] == Outputs(core, core(Some(entry), stream[0]).0, stream[1..]);
  }

  lemma {:induction false} RightRatesFollow(core: Core, meter: Sample, clocks: seq<Clock>, h: seq<Point>,
                                            c: nat, arrivals: seq<nat>)
    requires |h| == |clocks| && c < |h| && Within(arrivals, |h|) && RightRates(core, meter, clocks, h)
    ensures FollowsMoments(core, meter, clocks, h, c, arrivals)
    decreases |arrivals|
  {
    if arrivals != [] {
      var k := arrivals[0];
      RightRatesFollow(core, meter, clocks, h, if Between(clocks[c], clocks[k]) < 0.0 then c else k, arrivals[1..]);
      FollowsFirst(core, meter, clocks, h, c, arrivals);
    }
  }

  /** Whatever the clocks and the order of arrival, the transformer follows the moments. */
  lemma RatesFollowMoments(target: Target, meter: Sample, clocks: seq<Clock>, h: seq<Point>,
                           c: nat, arrivals: seq<nat>)
    requires Plain(target) && |h| == |clocks| && c < |h| && Within(arrivals, |h|)
    requires forall i :: 0 <= i < |h| ==> h[i].value >= 0.0
    ensures FollowsMoments(RateCore(target), meter, clocks, h, c, arrivals)
  {
    forall i, k | 0 <= i < |h| && 0 <= k < |h|
      ensures RightRate(RateCore(target), meter, clocks[i], clocks[k], h[i], h[k])
    {
      RateIsRight(target, meter, clocks[i], clocks[k], h[i], h[k]);
    }
    RightRatesFollow(RateCore(target), meter, clocks, h, c, arrivals);
  }

  // ---------------------------------------------------------------- clocks that are safe

  /** No moment seems to be before an earlier one. */
  predicate InOrder(clocks: seq<Clock>) {
    forall i, j :: 0 <= i < j < |clocks| ==> Between(clocks[i], clocks[j]) >= 0.0
  }

  predicate StrictlyInOrder(clocks: seq<Clock>) {
    forall i, j :: 0 <= i < j < |clocks| ==> Between(clocks[i], clocks[j]) > 0.0
  }

  /** Moments that follow each other without any time passing, as the transformer sees it. */
  predicate Ties(clocks: seq<Clock>, path: seq<nat>) {
    && path != [] && Within(path, |clocks|)
    && forall i :: 0 < i < |path| ==> Between(clocks[path[i - 1]], clocks[path[i]]) == 0.0
  }

  /** Ties lead back from a moment to an earlier one, after which time still passes. */
  predicate LeadsBack(clocks: seq<Clock>, path: seq<nat>, q: nat) {
    && Ties(clocks, path) && path[|path| - 1] < path[0] && path[|path| - 1] < q < |clocks|
    && Between(clocks[path[|path| - 1]], clocks[q]) != 0.0
  }

  ghost predicate SafeClocks(clocks: seq<Clock>) {
    InOrder(clocks) && forall path: seq<nat>, q: nat :: !LeadsBack(clocks, path, q)
  }

  lemma SafeAfterTies(clocks: seq<Clock>, path: seq<nat>, q: nat)
    requires SafeClocks(clocks) && Ties(clocks, path) && path[|path| - 1] < path[0]
    requires path[|path| - 1] < q < |clocks|
    ensures Between(clocks[path[|path| - 1]], clocks[q]) == 0.0
  {
    assert !LeadsBack(clocks, path, q);
  }

  lemma TiesFurther(clocks: seq<Clock>, path: seq<nat>, k: nat)
    requires Ties(clocks, path) && k < |clocks| && Between(clocks[path[|path| - 1]], clocks[k]) == 0.0
    ensures Ties(clocks, path + [k])
  {
  }

  /** A further report either continues the path of ties, claiming nothing, or starts a new one at what is
      then the latest moment, claiming no more than the growth since the old one. */
  lemma SafeStep(clocks: seq<Clock>, h: seq<Point>, path: seq<nat>, k: nat) returns (next: seq<nat>)
    requires SafeClocks(clocks) && |h| == |clocks| && TrueCounter(h) && k < |h|
    requires Ties(clocks, path) && path[|path| - 1] <= path[0]
    ensures Ties(clocks, next) && next[|next| - 1] <= next[0] == if k >= path[0] then k else path[0]
    ensures var c := path[|path| - 1];
            var elapsed := Between(clocks[c], clocks[k]);
            && next[|next| - 1] == (if elapsed < 0.0 then c else k)
            && Claim(elapsed, h[c], h[k]) <= h[next[0]].growth - h[path[0]].growth
  {
    var c, m := path[|path| - 1], path[0];
    var elapsed := Between(clocks[c], clocks[k]);
    assert Between(clocks[k], clocks[c]) == -elapsed;
    if c < m && c < k {
      SafeAfterTies(clocks, path, k);
    }
    if elapsed < 0.0 {
      next := path;
    } else if k <= m {
      TiesFurther(clocks, path, k);
      next := path + [k];
    } else {
      GrowthBetween(h, m, k);
      next := [k];
    }
  }

  /** With safe clocks, while ties have led back from the latest moment to the cached one, nothing but
      the growth after that latest moment is claimed. */
  lemma {:induction false} SafeClocksClaim(clocks: seq<Clock>, h: seq<Point>, path: seq<nat>, arrivals: seq<nat>)
    requires SafeClocks(clocks) && |h| == |clocks| && TrueCounter(h) && Within(arrivals, |h|)
    requires Ties(clocks, path) && path[|path| - 1] <= path[0]
    ensures var latest := Latest(path[0], arrivals);
            Claimed(clocks, h, path[|path| - 1], arrivals) <= h[latest].growth - h[path[0]].growth
    decreases |arrivals|
  {
    if arrivals != [] {
      var next := SafeStep(clocks, h, path, arrivals[0]);
      SafeClocksClaim(clocks, h, next, arrivals[1..]);
    }
  }

  /** A counter that shows one value up to a moment and a greater one after it. */
  function Jump(n: nat, p: nat, low: real, high: real): (h: seq<Point>)
    requires 0.0 <= low <= high
    ensures |h| == n && TrueCounter(h)
    ensures forall k :: 0 <= k < n ==> h[k].value == h[k].growth == (if k <= p then low else high) && !h[k].reset
  {
    seq(n, k => var v := if k <= p then low else high; Point(v, v, false))
  }

  lemma {:induction false} TiedPathClaims(clocks: seq<Clock>, h: seq<Point>, path: seq<nat>, q: nat)
    requires |h| == |clocks| && Ties(clocks, path) && q < |h|
    ensures Within(path[1..] + [q], |h|)
    ensures var p := path[|path| - 1];
            Claimed(clocks, h, path[0], path[1..] + [q]) == Claim(Between(clocks[p], clocks[q]), h[p], h[q])
    decreases |path|
  {
    var arrivals := path[1..] + [q];
    if |path| == 1 {
      assert arrivals == [q];
    } else {
      TiedPathClaims(clocks, h, path[1..], q);
      assert arrivals[0] == path[1] && arrivals[1..] == path[1..][1..] + [q];
    }
  }

  // ---------------------------------------------------------------- when rates are right

  /** What rates claim is at most what the counter has grown. */
  predicate ClaimsAtMost(target: Target, meter: Sample, clocks: seq<Clock>, h: seq<Point>,
                         first: nat, arrivals: seq<nat>)
    requires |h| == |clocks| && first < |h| && Within(arrivals, |h|)
  {
    Covered(RateCore(target), EntryOf(clocks[first], h[first]), Reports(meter, clocks, h, arrivals))
    <= h[Latest(first, arrivals)].growth - h[first].growth
  }

  /** So it is for every true counter and every order in which its reports at these times arrive. */
  ghost predicate NeverClaimTooMuch(target: Target, meter: Sample, clocks: seq<Clock>) {
    forall h, first: nat, arrivals ::
      |h| == |clocks| && TrueCounter(h) && first < |h| && Within(arrivals, |h|) ==>
        ClaimsAtMost(target, meter, clocks, h, first, arrivals)
  }

  lemma OverclaimBackwards(target: Target, meter: Sample, clocks: seq<Clock>, i: nat, j: nat)
    requires Plain(target) && i < j < |clocks| && Between(clocks[i], clocks[j]) < 0.0
    ensures !NeverClaimTooMuch(target, meter, clocks)
  {
    var h := Jump(|clocks|, i, 1.0, 2.0);
    RatesFollowMoments(target, meter, clocks, h, j, [i]);
    assert Between(clocks[j], clocks[i]) > 0.0;
    assert [i][1..] == [];
    assert Claimed(clocks, h, j, [i]) == 1.0;
    assert !ClaimsAtMost(target, meter, clocks, h, j, [i]);
  }

  lemma OverclaimAfterTies(target: Target, meter: Sample, clocks: seq<Clock>, path: seq<nat>, q: nat)
    requires Plain(target) && InOrder(clocks) && LeadsBack(clocks, path, q)
    ensures !NeverClaimTooMuch(target, meter, clocks)
  {
    var p, arrivals := path[|path| - 1], path[1..] + [q];
    var h := Jump(|clocks|, p, 0.0, 1.0);
    TiedPathClaims(clocks, h, path, q);
    RatesFollowMoments(target, meter, clocks, h, path[0], arrivals);
    assert Claimed(clocks, h, path[0], arrivals) == 1.0;
    assert !ClaimsAtMost(target, meter, clocks, h, path[0], arrivals);
  }

  /** Exactly when rates never claim more than any true counter has grown: no moment seems to be before
      an earlier one, and no ties lead back to a moment after which time still passes. */
  lemma RatesNeverExceedGrowthExactly(target: Target, meter: Sample, clocks: seq<Clock>)
    requires Plain(target)
    ensures NeverClaimTooMuch(target, meter, clocks) <==> SafeClocks(clocks)
  {
    if SafeClocks(clocks) {
      forall h, first: nat, arrivals | |h| == |clocks| && TrueCounter(h) && first < |h| && Within(arrivals, |h|)
        ensures ClaimsAtMost(target, meter, clocks, h, first, arrivals)
      {
        RatesFollowMoments(target, meter, clocks, h, first, arrivals);
        SafeClocksClaim(clocks, h, [first], arrivals);
      }
    } else if InOrder(clocks) {
      var path, q :| LeadsBack(clocks, path, q);
      OverclaimAfterTies(target, meter, clocks, path, q);
    } else {
      var i: nat, j: nat :| i < j < |clocks| && Between(clocks[i], clocks[j]) < 0.0;
      OverclaimBackwards(target, meter, clocks, i, j);
    }
  }

  // ---------------------------------------------------------------- one clock

  /** All moments have a reading of the monotonic clock, or none has. */
  predicate OneClock(clocks: seq<Clock>) {
    forall i, j :: 0 <= i < |clocks| && 0 <= j < |clocks| ==> clocks[i].monotonic.Some? == clocks[j].monotonic.Some?
  }

  function ClockReading(clock: Clock): real {
    clock.monotonic.GetOr(clock.time)
  }

  /** Readings do not decrease, and only the last one occurs twice. */
  predicate TiesOnlyAtTheEnd(readings: seq<real>) {
    && (forall i, j :: 0 <= i < j < |readings| ==> readings[i] <= readings[j])
    && (forall i, j, k :: 0 <= i < j < |readings| && 0 <= k < |readings| && readings[i] == readings[j] ==>
          readings[k] <= readings[i])
  }

  function ClockReadings(clocks: seq<Clock>): (r: seq<real>)
    ensures |r| == |clocks| && forall i :: 0 <= i < |r| ==> r[i] == ClockReading(clocks[i])
  {
    seq(|clocks|, i requires 0 <= i < |clocks| => ClockReading(clocks[i]))
  }

  lemma {:induction false} TiedReadings(clocks: seq<Clock>, path: seq<nat>)
    requires OneClock(clocks) && Ties(clocks, path)
    ensures ClockReading(clocks[path[0]]) == ClockReading(clocks[path[|path| - 1]])
    decreases |path|
  {
    if |path| > 1 {
      TiedReadings(clocks, path[..|path| - 1]);
    }
  }

  lemma BetweenReadings(clocks: seq<Clock>, i: nat, j: nat)
    requires OneClock(clocks) && i < |clocks| && j < |clocks|
    ensures Between(clocks[i], clocks[j]) == ClockReading(clocks[j]) - ClockReading(clocks[i])
  {
  }

  lemma SafeThenTiesAtTheEnd(clocks: seq<Clock>)
    requires OneClock(clocks) && SafeClocks(clocks)
    ensures TiesOnlyAtTheEnd(ClockReadings(clocks))
  {
    var r := ClockReadings(clocks);
    forall i, j | 0 <= i < j < |r|
      ensures r[i] <= r[j]
    {
      BetweenReadings(clocks, i, j);
    }
    forall i: nat, j: nat, k: nat | i < j < |r| && k < |r| && r[i] == r[j]
      ensures r[k] <= r[i]
    {
      BetweenReadings(clocks, j, i);
      BetweenReadings(clocks, i, k);
      if i < k {
        SafeAfterTies(clocks, [j, i], k);
      }
    }
  }

  lemma TiesAtTheEndThenSafe(clocks: seq<Clock>)
    requires OneClock(clocks) && TiesOnlyAtTheEnd(ClockReadings(clocks))
    ensures SafeClocks(clocks)
  {
    var r := ClockReadings(clocks);
    forall i, j | 0 <= i < j < |clocks|
      ensures Between(clocks[i], clocks[j]) >= 0.0
    {
      BetweenReadings(clocks, i, j);
      assert r[i] <= r[j];
    }
    forall path: seq<nat>, q: nat
      ensures !LeadsBack(clocks, path, q)
    {
      if Ties(clocks, path) && path[|path| - 1] < q < |clocks| {
        TiedReadings(clocks, path);
        BetweenReadings(clocks, path[|path| - 1], q);
        assert r[path[|path| - 1]] == r[path[0]];
      }
    }
  }

  /** With one clock, be it the timestamps or the monotonic one, rates never claim too much exactly if
      readings do not decrease and only the last one occurs twice. */
  lemma RatesNeverExceedGrowthByTimes(target: Target, meter: Sample, clocks: seq<Clock>)
    requires Plain(target) && OneClock(clocks)
    ensures NeverClaimTooMuch(target, meter, clocks) <==> TiesOnlyAtTheEnd(ClockReadings(clocks))
  {
    RatesNeverExceedGrowthExactly(target, meter, clocks);
    if SafeClocks(clocks) {
      SafeThenTiesAtTheEnd(clocks);
    }
    if TiesOnlyAtTheEnd(ClockReadings(clocks)) {
      TiesAtTheEndThenSafe(clocks);
    }
  }

  // ---------------------------------------------------------------- when rates are exact

  /** Without a reset in between, the rates account for just what the counter shows more. */
  predicate ClaimsJust(target: Target, meter: Sample, clocks: seq<Clock>, h: seq<Point>, first: nat, arrivals: seq<nat>)
    requires |h| == |clocks| && first < |h| && Within(arrivals, |h|)
  {
    var latest := Latest(first, arrivals);
    NoReset(h, first, latest) ==>
      Covered(RateCore(target), EntryOf(clocks[first], h[first]), Reports(meter, clocks, h, arrivals))
      == h[latest].value - h[first].value
  }

  ghost predicate AlwaysClaimJust(target: Target, meter: Sample, clocks: seq<Clock>) {
    forall h, first: nat, arrivals ::
      |h| == |clocks| && TrueCounter(h) && first < |h| && Within(arrivals, |h|) ==>
        ClaimsJust(target, meter, clocks, h, first, arrivals)
  }

  lemma NoResetSplit(h: seq<Point>, i: nat, j: nat, k: nat)
    requires i <= j <= k < |h|
    ensures NoReset(h, i, k) <==> NoReset(h, i, j) && NoReset(h, j, k)
  {
  }

  /** With strictly ordered clocks the cache has the latest report, and the claims are exact. */
  lemma {:induction false} StrictClocksClaim(clocks: seq<Clock>, h: seq<Point>, first: nat, arrivals: seq<nat>)
    requires StrictlyInOrder(clocks) && |h| == |clocks| && TrueCounter(h) && first < |h| && Within(arrivals, |h|)
    ensures Cached(clocks, first, arrivals) == Latest(first, arrivals)
    ensures NoReset(h, first, Latest(first, arrivals)) ==>
              Claimed(clocks, h, first, arrivals) == h[Latest(first, arrivals)].value - h[first].value
    decreases |arrivals|
  {
    if arrivals != [] {
      var k, rest := arrivals[0], arrivals[1..];
      var next := if k >= first then k else first;
      assert Between(clocks[k], clocks[first]) == -Between(clocks[first], clocks[k]);
      StrictClocksClaim(clocks, h, next, rest);
      NoResetSplit(h, first, next, Latest(next, rest));
      GrowthBetween(h, first, next);
    }
  }

  /** Exactly when rates account for all growth without a reset, in every order of arrival: when
      every moment seems to be after all earlier ones. Ties at the last time already lose growth. */
  lemma RatesAreExactExactly(target: Target, meter: Sample, clocks: seq<Clock>)
    requires Plain(target)
    ensures AlwaysClaimJust(target, meter, clocks) <==> StrictlyInOrder(clocks)
  {
    if StrictlyInOrder(clocks) {
      forall h, first: nat, arrivals | |h| == |clocks| && TrueCounter(h) && first < |h| && Within(arrivals, |h|)
        ensures ClaimsJust(target, meter, clocks, h, first, arrivals)
      {
        RatesFollowMoments(target, meter, clocks, h, first, arrivals);
        StrictClocksClaim(clocks, h, first, arrivals);
      }
    } else {
      var i: nat, j: nat :| i < j < |clocks| && Between(clocks[i], clocks[j]) <= 0.0;
      var h := Jump(|clocks|, i, 0.0, 1.0);
      RatesFollowMoments(target, meter, clocks, h, i, [j]);
      assert [j][1..] == [];
      assert Claimed(clocks, h, i, [j]) == 0.0;
      assert !ClaimsJust(target, meter, clocks, h, i, [j]);
    }
  }

  /** The usual case: if every moment is after all earlier ones, then whatever the resets of a true counter
      and the order in which its reports arrive, no rate is negative, the cache ends with the latest
      report, and the rates claim no more growth than there was, without a reset exactly that growth. */
  lemma RatesOfStrictClocks(target: Target, meter: Sample, clocks: seq<Clock>, h: seq<Point>,
                            first: nat, arrivals: seq<nat>)
    requires Plain(target) && StrictlyInOrder(clocks)
    requires |h| == |clocks| && TrueCounter(h) && first < |h| && Within(arrivals, |h|)
    ensures var core, latest := RateCore(target), Latest(first, arrivals);
            var entry, stream := EntryOf(clocks[first], h[first]), Reports(meter, clocks, h, arrivals);
            && core(None, Report(meter, clocks[first], h[first])) == (Some(entry), None)
            && FinalEntry(core, Some(entry), stream) == Some(EntryOf(clocks[latest], h[latest]))
            && NonNegative(Outputs(core, Some(entry), stream))
            && ClaimsAtMost(target, meter, clocks, h, first, arrivals)
            && ClaimsJust(target, meter, clocks, h, first, arrivals)
  {
    RatesFollowMoments(target, meter, clocks, h, first, arrivals);
    StrictClocksClaim(clocks, h, first, arrivals);
    forall path, q ensures !LeadsBack(clocks, path, q) {
      if Ties(clocks, path) {
        StrictPathStays(clocks, path);
      }
    }
    SafeClocksClaim(clocks, h, [first], arrivals);
  }

  lemma {:induction false} StrictPathStays(clocks: seq<Clock>, path: seq<nat>)
    requires StrictlyInOrder(clocks) && Ties(clocks, path)
    ensures path[0] == path[|path| - 1]
    decreases |path|
  {
    if |path| > 1 {
      StrictPathStays(clocks, path[..|path| - 1]);
      var i, j := path[|path| - 2], path[|path| - 1];
      assert Between(clocks[j], clocks[i]) == -Between(clocks[i], clocks[j]);
    }
  }

  // ---------------------------------------------------------------- deltas of a counter

  /** What the delta transformer caches of a report; it knows timestamps only. */
  function DeltaEntry(clock: Clock, p: Point): Entry {
    Entry(p.value, clock.time, None)
  }

  /** Timestamps increase strictly. */
  predicate Increasing(clocks: seq<Clock>) {
    forall i, j :: 0 <= i < j < |clocks| ==> clocks[i].time < clocks[j].time
  }

  /** The growth claimed by the deltas: an older report is dropped, and with `growth_only` a lower one. */
  function DeltaClaimed(growthOnly: bool, clocks: seq<Clock>, h: seq<Point>, c: nat, arrivals: seq<nat>): real
    requires |h| == |clocks| && c < |h| && Within(arrivals, |h|)
    decreases |arrivals|
  {
    if arrivals == [] then 0.0 else
    var k, rest := arrivals[0], arrivals[1..];
    if clocks[k].time < clocks[c].time then
      DeltaClaimed(growthOnly, clocks, h, c, rest)
    else
      (if growthOnly && h[k].value < h[c].value then 0.0 else h[k].value - h[c].value)
      + DeltaClaimed(growthOnly, clocks, h, k, rest)
  }

  lemma {:induction false} DeltasFollowMoments(growthOnly: bool, rename: Sample -> string, meter: Sample,
                                               clocks: seq<Clock>, h: seq<Point>, c: nat, arrivals: seq<nat>)
    requires |h| == |clocks| && c < |h| && Within(arrivals, |h|)
    ensures Volumes(Outputs(DeltaCore(growthOnly, rename), Some(DeltaEntry(clocks[c], h[c])),
                            Reports(meter, clocks, h, arrivals)))
         == DeltaClaimed(growthOnly, clocks, h, c, arrivals)
    decreases |arrivals|
  {
    if arrivals != [] {
      var core, stream, k := DeltaCore(growthOnly, rename), Reports(meter, clocks, h, arrivals), arrivals[0];
      var entry := Some(DeltaEntry(clocks[c], h[c]));
      var next := if clocks[k].time < clocks[c].time then c else k;
      DeltasFollowMoments(growthOnly, rename, meter, clocks, h, next, arrivals[1..]);
      assert stream[1..] == Reports(meter, clocks, h, arrivals[1..]);
      var outputs := Outputs(core, entry, stream);
      assert outputs[1..] == Outputs(core, Some(DeltaEntry(clocks[next], h[next])), stream[1..]);
    }
  }

  /** The deltas claim at most what the counter has grown, and without a reset just what it shows more. */
  predicate DeltasRight(growthOnly: bool, rename: Sample -> string, meter: Sample, clocks: seq<Clock>, h: seq<Point>,
                        first: nat, arrivals: seq<nat>)
    requires |h| == |clocks| && first < |h| && Within(arrivals, |h|)
  {
    var latest := Latest(first, arrivals);
    var claimed := Volumes(Outputs(DeltaCore(growthOnly, rename), Some(DeltaEntry(clocks[first], h[first])),
                                   Reports(meter, clocks, h, arrivals)));
    && claimed <= h[latest].growth - h[first].growth
    && (NoReset(h, first, latest) ==> claimed == h[latest].value - h[first].value)
  }

  /** So they do for every true counter and every order in which its reports at these times arrive. */
  ghost predicate DeltasNeverClaimTooMuch(growthOnly: bool, rename: Sample -> string, meter: Sample,
                                          clocks: seq<Clock>) {
    forall h, first: nat, arrivals ::
      |h| == |clocks| && TrueCounter(h) && first < |h| && Within(arrivals, |h|) ==>
        DeltasRight(growthOnly, rename, meter, clocks, h, first, arrivals)
  }

  lemma {:induction false} IncreasingDeltas(growthOnly: bool, clocks: seq<Clock>, h: seq<Point>, first: nat,
                                            arrivals: seq<nat>)
    requires Increasing(clocks) && |h| == |clocks| && TrueCounter(h) && first < |h| && Within(arrivals, |h|)
    ensures var claimed, latest := DeltaClaimed(growthOnly, clocks, h, first, arrivals), Latest(first, arrivals);
            && claimed <= h[latest].growth - h[first].growth
            && (NoReset(h, first, latest) ==> claimed == h[latest].value - h[first].value)
    decreases |arrivals|
  {
    if arrivals != [] {
      var k, rest := arrivals[0], arrivals[1..];
      var next := if k >= first then k else first;
      IncreasingDeltas(growthOnly, clocks, h, next, rest);
      NoResetSplit(h, first, next, Latest(next, rest));
      GrowthBetween(h, first, next);
    }
  }

  /** A counter that is reset to zero at a moment, having shown one before. */
  function Drop(n: nat, p: nat): (h: seq<Point>)
    ensures |h| == n && TrueCounter(h)
    ensures forall k :: 0 <= k < n ==> h[k].value == (if k < p then 1.0 else 0.0) && h[k].growth == 1.0
  {
    seq(n, k => Point(if k < p then 1.0 else 0.0, 1.0, k == p))
  }

  /** Exactly when deltas, growth-only or not, never claim more than any true counter has grown, in any order of
      arrival: when timestamps increase strictly. Even a tie at the last time lets an older report in. */
  lemma DeltasNeverExceedGrowthExactly(growthOnly: bool, rename: Sample -> string, meter: Sample, clocks: seq<Clock>)
    ensures DeltasNeverClaimTooMuch(growthOnly, rename, meter, clocks) <==> Increasing(clocks)
  {
    if Increasing(clocks) {
      forall h, first: nat, arrivals | |h| == |clocks| && TrueCounter(h) && first < |h| && Within(arrivals, |h|)
        ensures DeltasRight(growthOnly, rename, meter, clocks, h, first, arrivals)
      {
        DeltasFollowMoments(growthOnly, rename, meter, clocks, h, first, arrivals);
        IncreasingDeltas(growthOnly, clocks, h, first, arrivals);
      }
    } else {
      var i: nat, j: nat :| i < j < |clocks| && clocks[i].time >= clocks[j].time;
      OlderReportIn(growthOnly, rename, meter, clocks, i, j);
    }
  }

  lemma OlderReportIn(growthOnly: bool, rename: Sample -> string, meter: Sample, clocks: seq<Clock>, i: nat, j: nat)
    requires i < j < |clocks| && clocks[i].time >= clocks[j].time
    ensures !DeltasNeverClaimTooMuch(growthOnly, rename, meter, clocks)
  {
    var h := Drop(|clocks|, j);
    DeltasFollowMoments(growthOnly, rename, meter, clocks, h, j, [i]);
    assert [i][1..] == [];
    assert DeltaClaimed(growthOnly, clocks, h, j, [i]) == 1.0;
    assert Latest(j, [i]) == j;
    assert !DeltasRight(growthOnly, rename, meter, clocks, h, j, [i]);
  }

  // ---------------------------------------------------------------- an example

  lemma RisingRate(target: Target, meter: Sample, from: Entry, volume: real, timestamp: real)
    requires Plain(target) && from.volume <= volume && from.timestamp <= timestamp && from.monotonic.None?
    ensures var s := meter.(kind := Cumulative, volume := volume, timestamp := timestamp, monotonic := None);
            var (next, output) := RateCore(target)(Some(from), s);
            && next == Some(Entry(volume, timestamp, None)) && output.Some?
            && output.value.volume * Elapsed(from, s)
               == if from.timestamp < timestamp then volume - from.volume else 0.0
  {
    var delta, elapsed := volume - from.volume, timestamp - from.timestamp;
    if elapsed > 0.0 {
      QuotientTimesDivisor(delta, elapsed);
      assert 1.0 * (delta / elapsed) == delta / elapsed;
    }
  }

  /** Of two readings u < v with one timestamp, the lower one may arrive last, is then cached although it
      is older, and the difference is claimed twice. */
  lemma TiedReadingsOvercount(target: Target, meter: Sample, u: real, v: real, w: real)
    requires Plain(target) && 0.0 <= u < v <= w
    ensures var at := (volume: real, time: real) =>
              meter.(kind := Cumulative, volume := volume, timestamp := time, monotonic := None);
            Covered(RateCore(target), Entry(0.0, 0.0, None), [at(v, 1.0), at(u, 1.0), at(w, 2.0)]) == w + (v - u)
  {
    var at := (volume: real, time: real) =>
      meter.(kind := Cumulative, volume := volume, timestamp := time, monotonic := None);
    var core := RateCore(target);
    RisingRate(target, meter, Entry(0.0, 0.0, None), v, 1.0);
    RisingRate(target, meter, Entry(u, 1.0, None), w, 2.0);
    var (next, output) := core(Some(Entry(v, 1.0, None)), at(u, 1.0));
    assert next == Some(Entry(u, 1.0, None)) && output.value.volume * 0.0 == 0.0;
    var s0, s1, s2 := [at(w, 2.0)], [at(u, 1.0), at(w, 2.0)], [at(v, 1.0), at(u, 1.0), at(w, 2.0)];
    assert s2[1..] == s1 && s1[1..] == s0 && s0[1..] == [];
    assert Covered(core, Entry(u, 1.0, None), s0) == w - u;
    assert Covered(core, Entry(v, 1.0, None), s1) == w - u;
  }
}
