/** A sink's chain of accumulators. Samples go down the chain one by one until an accumulator holds
    them; a flush empties the full accumulators in turn into the stages after them. */
module SamplePipeline {
  import opened Sequences
  import opened Wrappers

  type Sample(==)

  // ---------------------------------------------------------------- the chain as a value

  /** An accumulator; with a size below one it lets every sample pass. */
  datatype Stage = Stage(size: int, held: seq<Sample>)

  datatype Outcome = Outcome(stages: seq<Stage>, out: seq<Sample>)

  predicate Sound(stages: seq<Stage>) {
    forall i :: 0 <= i < |stages| && stages[i].size < 1 ==> stages[i].held == []
  }

  /** What the stages from i on hold, in the order it will leave: the last stage's samples come first. */
  function Held(stages: seq<Stage>, i: nat): seq<Sample>
    requires i <= |stages|
    decreases |stages| - i
  {
    if i == |stages| then [] else Held(stages, i + 1) + stages[i].held
  }

  /** The same stages up to i, with the same sizes throughout. */
  predicate SameBelow(a: seq<Stage>, b: seq<Stage>, i: nat) {
    && |a| == |b|
    && (forall k :: 0 <= k < |a| ==> a[k].size == b[k].size)
    && (forall k :: 0 <= k < i && k < |a| ==> a[k] == b[k])
  }

  /** Samples entering the chain at stage i stop at the first accumulator of positive size. */
  function Feed(stages: seq<Stage>, i: nat, samples: seq<Sample>): (r: Outcome)
    requires i <= |stages|
    ensures SameBelow(r.stages, stages, i)
    decreases |stages| - i
  {
    if i == |stages| then
      Outcome(stages, samples)
    else if stages[i].size >= 1 then
      Outcome(stages[i := stages[i].(held := stages[i].held + samples)], [])
    else
      Feed(stages, i + 1, samples)
  }

  /** A flush of the stages from i on, in turn. */
  function FlushFrom(stages: seq<Stage>, i: nat): (r: Outcome)
    requires i <= |stages|
    ensures SameBelow(r.stages, stages, i)
    decreases |stages| - i
  {
    if i == |stages| then
      Outcome(stages, [])
    else if stages[i].size >= 1 && |stages[i].held| >= stages[i].size then
      var fed := Feed(stages[i := stages[i].(held := [])], i + 1, stages[i].held);
      var rest := FlushFrom(fed.stages, i + 1);
      Outcome(rest.stages, fed.out + rest.out)
    else
      FlushFrom(stages, i + 1)
  }

  lemma {:induction false} HeldIgnoresEarlier(stages: seq<Stage>, k: nat, stage: Stage, i: nat)
    requires k < i <= |stages|
    ensures Held(stages[k := stage], i) == Held(stages, i)
    decreases |stages| - i
  {
    if i < |stages| {
      HeldIgnoresEarlier(stages, k, stage, i + 1);
    }
  }

  lemma {:induction false} FeedConserves(stages: seq<Stage>, i: nat, samples: seq<Sample>)
    requires Sound(stages) && i <= |stages|
    ensures Sound(Feed(stages, i, samples).stages)
    ensures Feed(stages, i, samples).out + Held(Feed(stages, i, samples).stages, i) == Held(stages, i) + samples
    decreases |stages| - i
  {
    if i < |stages| {
      if stages[i].size >= 1 {
        HeldIgnoresEarlier(stages, i, stages[i].(held := stages[i].held + samples), i + 1);
        Regroup(Held(stages, i + 1), stages[i].held, samples);
      } else {
        FeedConserves(stages, i + 1, samples);
        assert Held(stages, i) == Held(stages, i + 1) + [] == Held(stages, i + 1);
        var fed := Feed(stages, i + 1, samples);
        assert Held(fed.stages, i) == Held(fed.stages, i + 1) + [] == Held(fed.stages, i + 1);
      }
    }
  }

  /** A flush moves samples down the chain and out of it in order, and leaves no stage full. */
  lemma {:induction false} FlushConserves(stages: seq<Stage>, i: nat)
    requires Sound(stages) && i <= |stages|
    ensures Sound(FlushFrom(stages, i).stages)
    ensures FlushFrom(stages, i).out + Held(FlushFrom(stages, i).stages, i) == Held(stages, i)
    ensures forall k :: i <= k < |stages| && stages[k].size >= 1 ==>
              |FlushFrom(stages, i).stages[k].held| < stages[k].size
    decreases |stages| - i
  {
    if i < |stages| {
      var flushed := FlushFrom(stages, i);
      if stages[i].size >= 1 && |stages[i].held| >= stages[i].size {
        var emptied := stages[i := stages[i].(held := [])];
        var fed := Feed(emptied, i + 1, stages[i].held);
        FeedConserves(emptied, i + 1, stages[i].held);
        FlushConserves(fed.stages, i + 1);
        HeldIgnoresEarlier(stages, i, emptied[i], i + 1);
        Regroup(fed.out, FlushFrom(fed.stages, i + 1).out, Held(flushed.stages, i + 1));
        assert Held(flushed.stages, i) == Held(flushed.stages, i + 1) + [] == Held(flushed.stages, i + 1);
      } else {
        FlushConserves(stages, i + 1);
        Regroup(flushed.out, Held(flushed.stages, i + 1), stages[i].held);
      }
    }
  }

  /** One call on the sink. */
  datatype Call = Publish(samples: seq<Sample>) | Flush

  function Perform(stages: seq<Stage>, call: Call): (r: Outcome)
    ensures |r.stages| == |stages|
  {
    match call
    case Publish(samples) => Feed(stages, 0, samples)
    case Flush => FlushFrom(stages, 0)
  }

  function Accepted(calls: seq<Call>): seq<Sample> {
    if calls == [] then []
    else Accepted(calls[..|calls| - 1]) + (match calls[|calls| - 1] case Publish(xs) => xs case Flush => [])
  }

  /** The chain after a run of calls, with everything the publishers were handed. */
  function Run(stages: seq<Stage>, calls: seq<Call>): Outcome {
    if calls == [] then
      Outcome(stages, [])
    else
      var before := Run(stages, calls[..|calls| - 1]);
      var last := Perform(before.stages, calls[|calls| - 1]);
      Outcome(last.stages, before.out + last.out)
  }

  /** Over any run, what was handed to the publishers followed by what is still held is exactly what
      was accepted: nothing lost, repeated or reordered. */
  lemma {:induction false} RunConserves(stages: seq<Stage>, calls: seq<Call>)
    requires Sound(stages)
    ensures Sound(Run(stages, calls).stages)
    ensures Run(stages, calls).out + Held(Run(stages, calls).stages, 0) == Held(stages, 0) + Accepted(calls)
  {
    if calls != [] {
      var n := |calls| - 1;
      RunConserves(stages, calls[..n]);
      var before := Run(stages, calls[..n]);
      var last := Perform(before.stages, calls[n]);
      match calls[n] {
        case Publish(samples) =>
          FeedConserves(before.stages, 0, samples);
          Regroup(before.out, Held(before.stages, 0), samples);
          Regroup(Held(stages, 0), Accepted(calls[..n]), samples);
        case Flush =>
          FlushConserves(before.stages, 0);
      }
      Regroup(before.out, last.out, Held(last.stages, 0));
    }
  }

  /** Feeding one by one is feeding all at once. */
  lemma {:induction false} FeedTwice(stages: seq<Stage>, i: nat, xs: seq<Sample>, ys: seq<Sample>)
    requires i <= |stages|
    ensures var once := Feed(stages, i, xs);
            var twice := Feed(once.stages, i, ys);
            Feed(stages, i, xs + ys) == Outcome(twice.stages, once.out + twice.out)
    decreases |stages| - i
  {
    if i < |stages| {
      if stages[i].size >= 1 {
        Regroup(stages[i].held, xs, ys);
      } else {
        FeedTwice(stages, i + 1, xs, ys);
      }
    }
  }

  lemma {:induction false} FeedNothing(stages: seq<Stage>, i: nat)
    requires i <= |stages|
    ensures Feed(stages, i, []) == Outcome(stages, [])
    decreases |stages| - i
  {
    if i < |stages| {
      if stages[i].size >= 1 {
        assert stages[i].held + [] == stages[i].held;
      } else {
        FeedNothing(stages, i + 1);
      }
    }
  }

  // ---------------------------------------------------------------- the chain as objects

  /** `TransformerAccumulator`. */
  class Accumulator {
    const size: int
    var samples: seq<Sample>

    constructor (size: int)
      ensures this.size == size && samples == []
    {
      this.size := size;
      samples := [];
    }

    /** The sample itself when it passes, None when it is held. */
    method HandleSample(s: Sample) returns (r: Option<Sample>)
      modifies this
      ensures size >= 1 ==> samples == old(samples) + [s] && r == None
      ensures size < 1 ==> samples == old(samples) && r == Some(s)
    {
      if size >= 1 {
        samples := samples + [s];
        r := None;
      } else {
        r := Some(s);
      }
    }

    /** None for the AttributeError of an accumulator that was built without a list. */
    method Flush() returns (r: Option<seq<Sample>>)
      modifies this
      ensures size < 1 ==> r == None && samples == old(samples)
      ensures size >= 1 && |old(samples)| >= size ==> r == Some(old(samples)) && samples == []
      ensures size >= 1 && |old(samples)| < size ==> r == Some([]) && samples == old(samples)
    {
      if size < 1 {
        return None;
      }
      if |samples| >= size {
        r := Some(samples);
        samples := [];
      } else {
        r := Some([]);
      }
    }
  }

  /** `SampleSink`, with what it handed to its publishers. */
  class SampleSink {
    const transformers: seq<Accumulator>
    var published: seq<Sample>

    constructor (transformers: seq<Accumulator>)
      ensures this.transformers == transformers && published == []
    {
      this.transformers := transformers;
      published := [];
    }

    ghost predicate Valid()
      reads transformers
    {
      && (forall i, j :: 0 <= i < j < |transformers| ==> transformers[i] != transformers[j])
      && Sound(Stages())
    }

    ghost function Stages(): (r: seq<Stage>)
      reads transformers
      ensures |r| == |transformers|
    {
      seq(|transformers|, i requires 0 <= i < |transformers| reads transformers =>
        Stage(transformers[i].size, transformers[i].samples))
    }

    /** `_transform_sample`. */
    method TransformSample(start: nat, s: Sample) returns (r: Option<Sample>)
      requires Valid() && start <= |transformers|
      modifies transformers
      ensures Valid()
      ensures Feed(old(Stages()), start, [s]) == Outcome(Stages(), match r case Some(x) => [x] case None => [])
    {
      FeedConserves(Stages(), start, [s]);
      var i := start;
      r := Some(s);
      while i < |transformers|
        invariant start <= i <= |transformers|
        invariant Stages() == old(Stages()) && r == Some(s)
        invariant Feed(Stages(), start, [s]) == Feed(Stages(), i, [s])
      {
        r := transformers[i].HandleSample(s);
        if r == None {
          assert Stages() == old(Stages())[i := Stage(transformers[i].size, transformers[i].samples)];
          return;
        }
        i := i + 1;
      }
    }

    /** `_publish_samples`: feeds the samples to the stages from start on and hands on what comes out. */
    method PublishFrom(start: nat, samples: seq<Sample>)
      requires Valid() && start <= |transformers|
      modifies transformers, `published
      ensures Valid()
      ensures Feed(old(Stages()), start, samples).stages == Stages()
      ensures published == old(published) + Feed(old(Stages()), start, samples).out
    {
      FeedNothing(Stages(), start);
      var transformed: seq<Sample> := [];
      for k := 0 to |samples|
        invariant Valid() && published == old(published)
        invariant Feed(old(Stages()), start, samples[..k]) == Outcome(Stages(), transformed)
      {
        var r := TransformSample(start, samples[k]);
        if r.Some? {
          transformed := transformed + [r.value];
        }
        FeedTwice(old(Stages()), start, samples[..k], [samples[k]]);
        assert samples[..k + 1] == samples[..k] + [samples[k]];
      }
      assert samples[..|samples|] == samples;
      published := published + transformed;
    }

    method PublishSamples(samples: seq<Sample>)
      requires Valid()
      modifies transformers, `published
      ensures Valid()
      ensures var r := Perform(old(Stages()), Publish(samples));
              Stages() == r.stages && published == old(published) + r.out
    {
      PublishFrom(0, samples);
    }

    /** One turn of the loop below. */
    method FlushStage(i: nat)
      requires Valid() && i < |transformers|
      modifies transformers, `published
      ensures Valid()
      ensures var before := old(Stages());
              if before[i].size >= 1 && |before[i].held| >= before[i].size then
                var fed := Feed(before[i := before[i].(held := [])], i + 1, before[i].held);
                Stages() == fed.stages && published == old(published) + fed.out
              else
                Stages() == before && published == old(published)
    {
      ghost var before := Stages();
      FeedNothing(before, i + 1);
      var x := transformers[i].Flush();
      assert Stages() == before[i := Stage(transformers[i].size, transformers[i].samples)];
      assert before[i := before[i]] == before;
      if x.Some? {
        PublishFrom(i + 1, x.value);
      }
    }

    /** `flush`: a stage whose flush raises is skipped. */
    method Flush()
      requires Valid()
      modifies transformers, `published
      ensures Valid()
      ensures var r := Perform(old(Stages()), Call.Flush);
              Stages() == r.stages && published == old(published) + r.out
    {
      ghost var all := FlushFrom(Stages(), 0);
      for i := 0 to |transformers|
        invariant Valid()
        invariant old(published) + all.out == published + FlushFrom(Stages(), i).out
        invariant all.stages == FlushFrom(Stages(), i).stages
      {
        ghost var handed := published;
        FlushStage(i);
        Regroup(handed, published[|handed|..], FlushFrom(Stages(), i + 1).out);
      }
    }
  }
}
