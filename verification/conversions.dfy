/** The delta and rate-of-change transformers: each remembers, per meter and resource, the last sample
    it accepted, and compares the next one with it. */
module Conversions {
  import opened Wrappers
  import opened Samples
  import opened Sequences

  // ---------------------------------------------------------------- conversion of one sample

  /** `scale` of the target: absent, a factor, or an expression over the sample. */
  datatype Scale = NoScale | Factor(factor: real) | Expr(eval: Sample -> real)

  datatype Target = Target(rename: Sample -> string, unit: Sample -> string,
                           kind: Option<Kind>, scale: Scale, max: Option<real>)

  /** `_scale`; a factor of zero counts as absent. */
  function Scaled(target: Target, s: Sample): real {
    match target.scale
    case NoScale => s.volume
    case Factor(f) => if f == 0.0 then s.volume else s.volume * f
    case Expr(eval) => eval(s)
  }

  /** `ScalingTransformer._convert`; a bound of zero counts as absent. */
  function Convert(target: Target, s: Sample, growth: real): Sample {
    var volume := Scaled(target, s) * growth;
    s.(name := target.rename(s),
       unit := target.unit(s),
       kind := target.kind.GetOr(s.kind),
       volume := if target.max.Some? && target.max.value != 0.0 && target.max.value < volume
                 then target.max.value else volume,
       monotonic := None)
  }

  /** The amount that the target makes of a sample: its volume, or that times a factor other than zero, or the value
      of the expression. */
  ghost predicate IsScaled(target: Target, s: Sample, amount: real) {
    && (target.scale.NoScale? ==> amount == s.volume)
    && (target.scale.Factor? ==>
          if target.scale.factor == 0.0 then amount == s.volume else amount == s.volume * target.scale.factor)
    && (target.scale.Expr? ==> amount == target.scale.eval(s))
  }

  /** The volume is the amount, where a bound other than zero does not lie below it, else the bound. */
  ghost predicate IsBounded(target: Target, amount: real, volume: real) {
    match target.max
    case None => volume == amount
    case Some(m) =>
      if m == 0.0 then volume == amount else volume <= m && (amount <= m ==> volume == amount)
                                             && (m <= amount ==> volume == m)
  }

  /** Name, unit and kind are the target's, and all but the volume the sample's. */
  ghost predicate IsRelabelled(target: Target, s: Sample, r: Sample) {
    && r.name == target.rename(s) && r.unit == target.unit(s)
    && r.kind == (if target.kind.Some? then target.kind.value else s.kind)
    && r.userId == s.userId && r.projectId == s.projectId && r.resourceId == s.resourceId
    && r.timestamp == s.timestamp && r.metadata == s.metadata && r.monotonic == None
  }

  lemma ScaledExactly(target: Target, s: Sample)
    ensures IsScaled(target, s, Scaled(target, s))
  {
  }

  lemma ConvertedExactly(target: Target, s: Sample, growth: real, scale: real)
    requires IsScaled(target, s, scale)
    ensures IsRelabelled(target, s, Convert(target, s, growth))
    ensures IsBounded(target, scale * growth, Convert(target, s, growth).volume)
  {
    ScaledExactly(target, s);
  }

  // ---------------------------------------------------------------- one cache entry

  datatype Entry = Entry(volume: real, timestamp: real, monotonic: Option<real>)

  /** What a transformer does with a sample, given the entry cached under the sample's key. */
  type Core = (Option<Entry>, Sample) -> (Option<Entry>, Option<Sample>)

  function DeltaStep(growthOnly: bool, rename: Sample -> string, prev: Option<Entry>, s: Sample)
    : (Option<Entry>, Option<Sample>)
  {
    var entry := Some(Entry(s.volume, s.timestamp, None));
    if prev.None? then
      (entry, None)
    else if s.timestamp - prev.value.timestamp < 0.0 then
      (prev, None)
    else if growthOnly && s.volume - prev.value.volume < 0.0 then
      (entry, None)
    else
      (entry, Some(s.(name := rename(s), kind := Delta, volume := s.volume - prev.value.volume, monotonic := None)))
  }

  /** The time between two samples, by the monotonic clock where both carry it. */
  function Elapsed(prev: Entry, s: Sample): real {
    if prev.monotonic.Some? && s.monotonic.Some?
    then s.monotonic.value - prev.monotonic.value
    else s.timestamp - prev.timestamp
  }

  /** The growth since the cached volume; a cumulative meter that went down was reset to zero. */
  function VolumeDelta(prev: Entry, s: Sample): real {
    if prev.volume <= s.volume || s.kind != Cumulative then s.volume - prev.volume else s.volume
  }

  /** The rate transformer takes a missing scale to be one. */
  function RateTarget(target: Target): Target {
    if target.scale == NoScale || target.scale == Factor(0.0)
    then target.(scale := Expr(_ => 1.0))
    else target
  }

  function RateStep(target: Target, prev: Option<Entry>, s: Sample): (Option<Entry>, Option<Sample>) {
    var entry := Some(Entry(s.volume, s.timestamp, s.monotonic));
    if prev.None? then
      (entry, None)
    else
      var elapsed := Elapsed(prev.value, s);
      if elapsed < 0.0 then
        (prev, None)
      else
        var rate := if elapsed != 0.0 then VolumeDelta(prev.value, s) / elapsed else 0.0;
        (entry, Some(Convert(RateTarget(target), s, rate)))
  }

  /** What the delta transformer answers and remembers, spelled out. */
  ghost predicate AnswersDelta(growthOnly: bool, rename: Sample -> string, prev: Option<Entry>, s: Sample,
                               next: Option<Entry>, r: Option<Sample>)
  {
    && next == (if prev.Some? && s.timestamp < prev.value.timestamp then prev
                else Some(Entry(s.volume, s.timestamp, None)))
    && (r.Some? <==> prev.Some? && prev.value.timestamp <= s.timestamp
                     && (growthOnly ==> prev.value.volume <= s.volume))
    && (r.Some? ==>
          && r.value.name == rename(s) && r.value.unit == s.unit && r.value.kind == Delta
          && prev.value.volume + r.value.volume == s.volume
          && r.value.userId == s.userId && r.value.projectId == s.projectId && r.value.resourceId == s.resourceId
          && r.value.timestamp == s.timestamp && r.value.metadata == s.metadata && r.value.monotonic == None)
  }

  lemma DeltaExactly(growthOnly: bool, rename: Sample -> string, prev: Option<Entry>, s: Sample)
    ensures var (next, r) := DeltaStep(growthOnly, rename, prev, s);
            AnswersDelta(growthOnly, rename, prev, s, next, r)
  {
  }

  /** The time between two samples, by the monotonic clock where both carry it. */
  ghost predicate IsElapsed(prev: Entry, s: Sample, elapsed: real) {
    if prev.monotonic.Some? && s.monotonic.Some?
    then prev.monotonic.value + elapsed == s.monotonic.value
    else prev.timestamp + elapsed == s.timestamp
  }

  /** The growth of a meter: what it shows more than before, and of a cumulative meter that shows less than before
      (it was reset in between) all that it shows. */
  ghost predicate IsGrowth(prev: Entry, s: Sample, growth: real) {
    if s.kind == Cumulative && s.volume < prev.volume
    then growth == s.volume
    else prev.volume + growth == s.volume
  }

  /** The scale of a rate: one if there is none or it is zero, the volume times a factor, or the value of an
      expression. */
  ghost predicate IsRateScale(target: Target, s: Sample, scale: real) {
    && (target.scale.NoScale? ==> scale == 1.0)
    && (target.scale.Factor? ==>
          if target.scale.factor == 0.0 then scale == 1.0 else scale == s.volume * target.scale.factor)
    && (target.scale.Expr? ==> scale == target.scale.eval(s))
  }

  /** What the rate transformer answers and remembers, spelled out. */
  ghost predicate AnswersRate(target: Target, prev: Option<Entry>, s: Sample, next: Option<Entry>,
                              r: Option<Sample>)
  {
    && (prev.None? ==> next == Some(Entry(s.volume, s.timestamp, s.monotonic)) && r == None)
    && forall elapsed, growth, scale ::
         prev.Some? && IsElapsed(prev.value, s, elapsed) && IsGrowth(prev.value, s, growth)
         && IsRateScale(target, s, scale) ==>
           if elapsed < 0.0 then next == prev && r == None else
           && next == Some(Entry(s.volume, s.timestamp, s.monotonic))
           && r.Some? && IsRelabelled(target, s, r.value)
           && (elapsed == 0.0 ==> IsBounded(target, 0.0, r.value.volume))
           && (elapsed > 0.0 ==> IsBounded(target, scale * (growth / elapsed), r.value.volume))
  }

  /** The rate: scale times growth over time, or the bound of the target where that is less. */
  lemma RateExactly(target: Target, prev: Option<Entry>, s: Sample)
    ensures var (next, r) := RateStep(target, prev, s);
            AnswersRate(target, prev, s, next, r)
  {
    var (next, r) := RateStep(target, prev, s);
    forall elapsed, growth, scale |
      && prev.Some? && IsElapsed(prev.value, s, elapsed) && IsGrowth(prev.value, s, growth)
      && IsRateScale(target, s, scale) && elapsed >= 0.0
      ensures && r.Some? && IsRelabelled(target, s, r.value)
              && (elapsed == 0.0 ==> IsBounded(target, 0.0, r.value.volume))
              && (elapsed > 0.0 ==> IsBounded(target, scale * (growth / elapsed), r.value.volume))
    {
      var rate := if elapsed != 0.0 then growth / elapsed else 0.0;
      assert elapsed == Elapsed(prev.value, s) && growth == VolumeDelta(prev.value, s);
      ConvertedExactly(RateTarget(target), s, rate, scale);
      assert elapsed == 0.0 ==> scale * rate == 0.0;
    }
  }

  function DeltaCore(growthOnly: bool, rename: Sample -> string): Core {
    (prev, s) => DeltaStep(growthOnly, rename, prev, s)
  }

  function RateCore(target: Target): Core {
    (prev, s) => RateStep(target, prev, s)
  }

  // ---------------------------------------------------------------- the keyed cache

  type Cache = map<string, Entry>

  function Key(s: Sample): string {
    s.name + s.resourceId
  }

  function Lookup(cache: Cache, key: string): Option<Entry> {
    if key in cache then Some(cache[key]) else None
  }

  function Store(cache: Cache, key: string, entry: Option<Entry>): Cache {
    match entry
    case Some(e) => cache[key := e]
    case None => cache
  }

  /** An input with what the transformer returned for it. */
  datatype Handled = Handled(input: Sample, output: Option<Sample>)

  function After(core: Core, cache: Cache, s: Sample): Cache {
    Store(cache, Key(s), core(Lookup(cache, Key(s)), s).0)
  }

  function Handle(core: Core, cache: Cache, stream: seq<Sample>): (r: seq<Handled>)
    ensures |r| == |stream|
    decreases |stream|
  {
    if stream == [] then
      []
    else
      var s := stream[0];
      [Handled(s, core(Lookup(cache, Key(s)), s).1)] + Handle(core, After(core, cache, s), stream[1..])
  }

  /** `DeltaTransformer`. */
  class DeltaTransformer {
    const rename: Sample -> string
    const growthOnly: bool
    var cache: Cache

    constructor (rename: Sample -> string, growthOnly: bool)
      ensures this.rename == rename && this.growthOnly == growthOnly && cache == map[]
    {
      this.rename, this.growthOnly := rename, growthOnly;
      cache := map[];
    }

    ghost function Core(): Core {
      DeltaCore(growthOnly, rename)
    }

    method HandleSample(s: Sample) returns (r: Option<Sample>)
      modifies this
      ensures cache == After(Core(), old(cache), s)
      ensures Handle(Core(), old(cache), [s]) == [Handled(s, r)]
      ensures var key := s.name + s.resourceId;
              AnswersDelta(growthOnly, rename, Lookup(old(cache), key), s, Lookup(cache, key), r)
      ensures forall k :: k != s.name + s.resourceId ==> Lookup(cache, k) == Lookup(old(cache), k)
    {
      var key := Key(s);
      var prev := if key in cache then Some(cache[key]) else None;
      DeltaExactly(growthOnly, rename, prev, s);
      cache := cache[key := Entry(s.volume, s.timestamp, None)];
      if prev.Some? {
        var timeDelta := s.timestamp - prev.value.timestamp;
        if timeDelta < 0.0 {
          cache := cache[key := prev.value];
          return None;
        }
        var volumeDelta := s.volume - prev.value.volume;
        if growthOnly && volumeDelta < 0.0 {
          r := None;
        } else {
          r := Some(s.(name := rename(s), kind := Delta, volume := volumeDelta, monotonic := None));
        }
      } else {
        r := None;
      }
    }
  }

  /** `RateOfChangeTransformer`. */
  class RateOfChangeTransformer {
    const target: Target
    var cache: Cache

    constructor (target: Target)
      ensures this.target == RateTarget(target) && cache == map[]
      ensures this.target.(scale := target.scale) == target
      ensures forall s, scale :: IsRateScale(this.target, s, scale) <==> IsRateScale(target, s, scale)
    {
      this.target := if target.scale == NoScale || target.scale == Factor(0.0)
                     then target.(scale := Expr(_ => 1.0)) else target;
      cache := map[];
    }

    ghost function Core(): Core {
      RateCore(target)
    }

    method HandleSample(s: Sample) returns (r: Option<Sample>)
      requires RateTarget(target) == target
      modifies this
      ensures cache == After(Core(), old(cache), s)
      ensures Handle(Core(), old(cache), [s]) == [Handled(s, r)]
      ensures var key := s.name + s.resourceId;
              AnswersRate(target, Lookup(old(cache), key), s, Lookup(cache, key), r)
      ensures forall k :: k != s.name + s.resourceId ==> Lookup(cache, k) == Lookup(old(cache), k)
    {
      var key := Key(s);
      var prev := if key in cache then Some(cache[key]) else None;
      RateExactly(target, prev, s);
      cache := cache[key := Entry(s.volume, s.timestamp, s.monotonic)];
      if prev.Some? {
        var Entry(prevVolume, prevTimestamp, prevMonotonic) := prev.value;
        var timeDelta := if prevMonotonic.Some? && s.monotonic.Some?
                         then s.monotonic.value - prevMonotonic.value
                         else s.timestamp - prevTimestamp;
        if timeDelta < 0.0 {
          cache := cache[key := prev.value];
          return None;
        }
        var volumeDelta := if prevVolume <= s.volume || s.kind != Cumulative
                           then s.volume - prevVolume else s.volume;
        var rateOfChange := if timeDelta != 0.0 then volumeDelta / timeDelta else 0.0;
        r := Some(Convert(target, s, rateOfChange));
      } else {
        r := None;
      }
    }
  }

  // ---------------------------------------------------------------- partitioning

  /** The part of what was handled whose inputs are selected. */
  function Part(sel: Sample -> bool, handled: seq<Handled>): seq<Handled> {
    if handled == [] then []
    else (if sel(handled[0].input) then [handled[0]] else []) + Part(sel, handled[1..])
  }

  lemma LookupAfter(core: Core, cache: Cache, s: Sample, k: string)
    ensures var entry := core(Lookup(cache, Key(s)), s).0;
            Lookup(After(core, cache, s), k) == if k == Key(s) && entry.Some? then entry else Lookup(cache, k)
  {
  }

  lemma PartOfFirst(core: Core, sel: Sample -> bool, cache: Cache, s: Sample, rest: seq<Sample>)
    ensures var here := [Handled(s, core(Lookup(cache, Key(s)), s).1)];
            Part(sel, Handle(core, cache, [s] + rest))
            == (if sel(s) then here else []) + Part(sel, Handle(core, After(core, cache, s), rest))
  {
    var stream := [s] + rest;
    assert stream[1..] == rest;
    var handled := Handle(core, cache, stream);
    assert handled[1..] == Handle(core, After(core, cache, s), rest);
  }

  /** A selection of whole keys is handled on its own exactly as within the whole stream. */
  lemma {:induction false} SeparateKeysDoNotInterfere(core: Core, sel: Sample -> bool, selKey: string -> bool,
                                                      stream: seq<Sample>, whole: Cache, own: Cache)
    requires forall s :: s in stream ==> sel(s) == selKey(Key(s))
    requires forall k :: selKey(k) ==> Lookup(whole, k) == Lookup(own, k)
    ensures Part(sel, Handle(core, whole, stream)) == Handle(core, own, Select(sel, stream))
    decreases |stream|
  {
    if stream != [] {
      var s, rest := stream[0], stream[1..];
      var whole' := After(core, whole, s);
      var own' := if sel(s) then After(core, own, s) else own;
      assert s in stream;
      forall k | selKey(k)
        ensures Lookup(whole', k) == Lookup(own', k)
      {
        LookupAfter(core, whole, s, k);
        LookupAfter(core, own, s, k);
      }
      SeparateKeysDoNotInterfere(core, sel, selKey, rest, whole', own');
      assert stream == [s] + rest;
      PartOfFirst(core, sel, whole, s, rest);
      var picked := Select(sel, rest);
      SelectCons(sel, s, rest);
      if sel(s) {
        assert Lookup(whole, Key(s)) == Lookup(own, Key(s));
        assert Select(sel, stream) == [s] + picked && ([s] + picked)[1..] == picked;
        assert Handle(core, own, [s] + picked)
            == [Handled(s, core(Lookup(own, Key(s)), s).1)] + Handle(core, own', picked);
      } else {
        assert Select(sel, stream) == [] + picked == picked;
        assert Part(sel, Handle(core, whole, stream)) == Part(sel, Handle(core, whole', rest));
      }
    }
  }

  /** How the transport routes a sample: by the hash of its resource id, modulo the number of queues. */
  function QueueOf(hash: string -> int, queues: nat, s: Sample): (q: nat)
    requires queues > 0
    ensures q < queues
  {
    hash(s.resourceId) % queues
  }

  /** A transformer that only gets the samples of one queue gives, in order, what one transformer
      gives for these samples on the whole stream. */
  ghost predicate QueueTransparent(core: Core, hash: string -> int, queues: nat, stream: seq<Sample>, q: nat)
    requires queues > 0
  {
    var sel := (s: Sample) => QueueOf(hash, queues, s) == q;
    Part(sel, Handle(core, map[], stream)) == Handle(core, map[], Select(sel, stream))
  }

  ghost predicate Transparent(core: Core, hash: string -> int, queues: nat, stream: seq<Sample>)
    requires queues > 0
  {
    forall q: nat :: q < queues ==> QueueTransparent(core, hash, queues, stream, q)
  }

  /** The meters of the stream all belong to the given set. */
  ghost predicate MetersIn(stream: seq<Sample>, meters: set<(string, string)>) {
    forall s :: s in stream ==> (s.name, s.resourceId) in meters
  }

  /** Meters with the same cache key are routed to the same queue. */
  ghost predicate KeysShareQueues(meters: set<(string, string)>, hash: string -> int, queues: nat)
    requires queues > 0
  {
    forall a, b :: a in meters && b in meters && a.0 + a.1 == b.0 + b.1 ==>
      hash(a.1) % queues == hash(b.1) % queues
  }

  lemma PartitionIsTransparent(core: Core, hash: string -> int, queues: nat,
                               meters: set<(string, string)>, stream: seq<Sample>)
    requires queues > 0 && KeysShareQueues(meters, hash, queues) && MetersIn(stream, meters)
    ensures Transparent(core, hash, queues, stream)
  {
    forall q: nat | q < queues
      ensures QueueTransparent(core, hash, queues, stream, q)
    {
      var sel := (s: Sample) => QueueOf(hash, queues, s) == q;
      var selKey := (k: string) => exists s :: s in stream && sel(s) && Key(s) == k;
      forall s | s in stream
        ensures sel(s) == selKey(Key(s))
      {
        assert (s.name, s.resourceId) in meters;
        assert forall t :: t in stream ==> (t.name, t.resourceId) in meters;
      }
      SeparateKeysDoNotInterfere(core, sel, selKey, stream, map[], map[]);
    }
  }

  /** Two samples of which the second is only answered when the first has been cached. */
  ghost predicate Consecutive(core: Core, first: Sample, second: Sample) {
    var entry := core(None, first).0;
    && core(None, first) == (entry, None) && entry.Some?
    && core(entry, second).1.Some? && core(None, second).1.None?
  }

  /** If such samples of two meters share a key but not a queue, partitioning loses the answer. */
  lemma SplitKeyIsNotTransparent(core: Core, hash: string -> int, queues: nat, first: Sample, second: Sample)
    requires queues > 0 && Consecutive(core, first, second) && Key(first) == Key(second)
    requires QueueOf(hash, queues, first) != QueueOf(hash, queues, second)
    ensures !Transparent(core, hash, queues, [first, second])
  {
    var q := QueueOf(hash, queues, second);
    var sel := (s: Sample) => QueueOf(hash, queues, s) == q;
    var stream := [first] + [second];
    assert stream == [first, second] && [second] == [second] + [];
    var cached := After(core, map[], first);
    LookupAfter(core, map[], first, Key(second));
    PartOfFirst(core, sel, map[], first, [second]);
    PartOfFirst(core, sel, cached, second, []);
    PartOfFirst(core, sel, map[], second, []);
    var whole := Part(sel, Handle(core, map[], stream));
    assert |whole| == 1 && whole[0].output.Some?;
    assert stream[1..] == [second] && [second][1..] == [];
    SelectCons(sel, second, []);
    SelectCons(sel, first, [second]);
    assert Select(sel, stream) == [second];
    var own := Handle(core, map[], [second]);
    assert own[0].output.None?;
    assert !QueueTransparent(core, hash, queues, stream, q);
  }

  /** A gauge of the meter at the given second. */
  function GaugeAt(meter: (string, string), second: real, metadata: Metadata): Sample {
    Sample(meter.0, Gauge, "", 0.0, None, None, meter.1, second, metadata, None)
  }

  /** Whether partitioning is safe for a set of meters, whatever samples they send, is decided by how
      keys and queues relate. Distinct resources sharing a key (such as meter "ab" of "c" and meter
      "a" of "bc") are the only danger. */
  lemma PartitionTransparentExactly(core: Core, hash: string -> int, queues: nat, meters: set<(string, string)>,
                                    metadata: Metadata)
    requires queues > 0
    requires forall a, b :: a in meters && b in meters ==>
               Consecutive(core, GaugeAt(a, 0.0, metadata), GaugeAt(b, 1.0, metadata))
    ensures (forall stream :: MetersIn(stream, meters) ==> Transparent(core, hash, queues, stream))
       <==> KeysShareQueues(meters, hash, queues)
  {
    if KeysShareQueues(meters, hash, queues) {
      forall stream | MetersIn(stream, meters)
        ensures Transparent(core, hash, queues, stream)
      {
        PartitionIsTransparent(core, hash, queues, meters, stream);
      }
    } else {
      var a, b :| a in meters && b in meters && a.0 + a.1 == b.0 + b.1 && hash(a.1) % queues != hash(b.1) % queues;
      var first, second := GaugeAt(a, 0.0, metadata), GaugeAt(b, 1.0, metadata);
      SplitKeyIsNotTransparent(core, hash, queues, first, second);
      assert MetersIn([first, second], meters);
    }
  }

  lemma DeltaPartitionTransparentExactly(growthOnly: bool, rename: Sample -> string, hash: string -> int,
                                         queues: nat, meters: set<(string, string)>)
    requires queues > 0
    ensures (forall stream :: MetersIn(stream, meters) ==>
               Transparent(DeltaCore(growthOnly, rename), hash, queues, stream))
       <==> KeysShareQueues(meters, hash, queues)
  {
    var metadata: Metadata :| true;
    PartitionTransparentExactly(DeltaCore(growthOnly, rename), hash, queues, meters, metadata);
  }

  lemma RatePartitionTransparentExactly(target: Target, hash: string -> int,
                                        queues: nat, meters: set<(string, string)>)
    requires queues > 0
    ensures (forall stream :: MetersIn(stream, meters) ==> Transparent(RateCore(target), hash, queues, stream))
       <==> KeysShareQueues(meters, hash, queues)
  {
    var metadata: Metadata :| true;
    PartitionTransparentExactly(RateCore(target), hash, queues, meters, metadata);
  }

  // ---------------------------------------------------------------- one meter over time

  /** What the transformer does over the samples of one key, starting from its cache entry. */
  function FinalEntry(core: Core, entry: Option<Entry>, stream: seq<Sample>): Option<Entry>
    decreases |stream|
  {
    if stream == [] then entry else FinalEntry(core, core(entry, stream[0]).0, stream[1..])
  }

  function Outputs(core: Core, entry: Option<Entry>, stream: seq<Sample>): (r: seq<Option<Sample>>)
    ensures |r| == |stream|
    decreases |stream|
  {
    if stream == [] then []
    else [core(entry, stream[0]).1] + Outputs(core, core(entry, stream[0]).0, stream[1..])
  }

  lemma {:induction false} OneKeyAmongMany(core: Core, cache: Cache, key: string, stream: seq<Sample>)
    requires forall prev, s :: core(prev, s).0.Some?
    requires forall s :: s in stream ==> Key(s) == key
    ensures forall i :: 0 <= i < |stream| ==>
              Handle(core, cache, stream)[i] == Handled(stream[i], Outputs(core, Lookup(cache, key), stream)[i])
    decreases |stream|
  {
    if stream != [] {
      LookupAfter(core, cache, stream[0], key);
      OneKeyAmongMany(core, After(core, cache, stream[0]), key, stream[1..]);
    }
  }
}
