/** `itertools.groupby`: a list cut into runs of elements with the same key. */
module GroupBy {
  import opened Sequences

  /** A further element joins the last run if it has the same key, or else starts a new one. */
  function Extended<T, K(==)>(key: T -> K, runs: seq<seq<T>>, x: T): seq<seq<T>>
    requires forall i :: 0 <= i < |runs| ==> runs[i] != []
  {
    var m := |runs| - 1;
    if m >= 0 && key(runs[m][0]) == key(x) then runs[..m] + [runs[m] + [x]] else runs + [[x]]
  }

  function Runs<T, K(==)>(key: T -> K, xs: seq<T>): (r: seq<seq<T>>)
    ensures forall i :: 0 <= i < |r| ==> r[i] != []
    ensures xs != [] ==> r != []
  {
    if xs == [] then [] else Extended(key, Runs(key, xs[..|xs| - 1]), xs[|xs| - 1])
  }

  function Concat<T>(runs: seq<seq<T>>): seq<T> {
    if runs == [] then [] else Concat(runs[..|runs| - 1]) + runs[|runs| - 1]
  }

  lemma ConcatSnoc<T>(front: seq<seq<T>>, run: seq<T>)
    ensures Concat(front + [run]) == Concat(front) + run
  {
    assert (front + [run])[..|front|] == front;
  }

  lemma ConcatJoined<T>(front: seq<seq<T>>, last: seq<T>, x: T)
    ensures Concat(front + [last + [x]]) == Concat(front + [last]) + [x]
  {
    ConcatSnoc(front, last);
    ConcatSnoc(front, last + [x]);
    var c := Concat(front);
    assert c + (last + [x]) == (c + last) + [x];
  }

  lemma ConcatExtended<T, K>(key: T -> K, runs: seq<seq<T>>, x: T)
    requires forall i :: 0 <= i < |runs| ==> runs[i] != []
    ensures Concat(Extended(key, runs, x)) == Concat(runs) + [x]
  {
    var m := |runs| - 1;
    if m >= 0 && key(runs[m][0]) == key(x) {
      var front, last := runs[..m], runs[m];
      SplitLast(runs);
      ConcatJoined(front, last, x);
    } else {
      ConcatSnoc(runs, [x]);
    }
  }

  predicate Uniform<T, K(==)>(key: T -> K, run: seq<T>) {
    forall j :: 0 <= j < |run| ==> key(run[j]) == key(run[0])
  }

  lemma ExtendedUniform<T, K>(key: T -> K, runs: seq<seq<T>>, x: T)
    requires forall i :: 0 <= i < |runs| ==> runs[i] != [] && Uniform(key, runs[i])
    ensures forall i :: 0 <= i < |Extended(key, runs, x)| ==> Uniform(key, Extended(key, runs, x)[i])
  {
    var m := |runs| - 1;
    assert Uniform(key, [x]);
    assert m >= 0 && key(runs[m][0]) == key(x) ==> Uniform(key, runs[m] + [x]);
  }

  /** Neighbouring runs have different keys. */
  predicate Apart<T, K(==)>(key: T -> K, runs: seq<seq<T>>)
    requires forall i :: 0 <= i < |runs| ==> runs[i] != []
  {
    forall i :: 0 < i < |runs| ==> key(runs[i - 1][0]) != key(runs[i][0])
  }

  lemma ExtendedApart<T, K>(key: T -> K, runs: seq<seq<T>>, x: T)
    requires forall i :: 0 <= i < |runs| ==> runs[i] != []
    requires Apart(key, runs)
    ensures forall i :: 0 <= i < |Extended(key, runs, x)| ==> Extended(key, runs, x)[i] != []
    ensures Apart(key, Extended(key, runs, x))
  {
  }

  /** The runs are the list again, all elements of a run have the same key, and the next run has another. */
  lemma {:induction false} RunsPartition<T, K>(key: T -> K, xs: seq<T>)
    ensures Concat(Runs(key, xs)) == xs
    ensures forall i :: 0 <= i < |Runs(key, xs)| ==> Uniform(key, Runs(key, xs)[i])
    ensures Apart(key, Runs(key, xs))
  {
    if xs != [] {
      var n := |xs| - 1;
      RunsPartition(key, xs[..n]);
      ConcatExtended(key, Runs(key, xs[..n]), xs[n]);
      ExtendedUniform(key, Runs(key, xs[..n]), xs[n]);
      ExtendedApart(key, Runs(key, xs[..n]), xs[n]);
      assert xs[..n] + [xs[n]] == xs;
    }
  }

  lemma {:induction false} ConcatMember<T>(runs: seq<seq<T>>, i: nat, x: T)
    requires i < |runs| && x in runs[i]
    ensures x in Concat(runs)
  {
    if i < |runs| - 1 {
      ConcatMember(runs[..|runs| - 1], i, x);
    }
  }
}
