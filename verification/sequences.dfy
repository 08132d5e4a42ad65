/** Parts of lists. */
module Sequences {
  lemma SplitLast<T>(xs: seq<T>)
    requires xs != []
    ensures xs == xs[..|xs| - 1] + [xs[|xs| - 1]]
  {
  }

  lemma Regroup<T>(a: seq<T>, b: seq<T>, c: seq<T>)
    ensures (a + b) + c == a + (b + c)
  {
  }

  function Kept<T>(p: T -> bool, x: T): seq<T> {
    if p(x) then [x] else []
  }

  /** The elements that satisfy a predicate, in order. */
  function Select<T(!new)>(p: T -> bool, xs: seq<T>): (r: seq<T>)
    ensures forall x :: x in r <==> x in xs && p(x)
  {
    if xs == [] then []
    else
      assert xs == xs[..|xs| - 1] + [xs[|xs| - 1]];
      Select(p, xs[..|xs| - 1]) + Kept(p, xs[|xs| - 1])
  }

  lemma SelectSnoc<T(!new)>(p: T -> bool, xs: seq<T>, x: T)
    ensures Select(p, xs + [x]) == Select(p, xs) + Kept(p, x)
  {
    assert (xs + [x])[..|xs|] == xs;
  }

  lemma {:induction false} SelectCons<T(!new)>(p: T -> bool, x: T, xs: seq<T>)
    ensures Select(p, [x] + xs) == Kept(p, x) + Select(p, xs)
  {
    if xs == [] {
      assert [x] + xs == [] + [x];
      SelectSnoc(p, [], x);
      assert [] + Kept(p, x) == Kept(p, x) == Kept(p, x) + [];
    } else {
      var front, last := xs[..|xs| - 1], xs[|xs| - 1];
      SelectCons(p, x, front);
      SplitLast(xs);
      assert [x] + xs == ([x] + front) + [last];
      SelectSnoc(p, [x] + front, last);
      SelectSnoc(p, front, last);
      Regroup(Kept(p, x), Select(p, front), Kept(p, last));
    }
  }

  lemma SelectDrops<T(!new)>(p: T -> bool, xs: seq<T>, x: T)
    requires !p(x)
    ensures Select(p, xs + [x]) == Select(p, xs)
  {
    SelectSnoc(p, xs, x);
    assert Select(p, xs) + [] == Select(p, xs);
  }

  lemma SelectTakes<T(!new)>(p: T -> bool, xs: seq<T>, x: T)
    requires p(x)
    ensures Select(p, xs + [x]) == Select(p, xs) + [x]
  {
    SelectSnoc(p, xs, x);
  }
}
