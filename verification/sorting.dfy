/** Python's `sorted`: a stable sort by an order that may hold both ways. */
module Sorting {
  import opened Sequences

  type Order<!T> = (T, T) -> bool

  predicate Ascending<T>(le: Order<T>, xs: seq<T>) {
    forall i :: 0 < i < |xs| ==> le(xs[i - 1], xs[i])
  }

  ghost predicate Total<T(!new)>(le: Order<T>) {
    forall x, y :: le(x, y) || le(y, x)
  }

  /** Puts an element behind those that are not greater, from the right. */
  function Inserted<T>(le: Order<T>, xs: seq<T>, x: T): (r: seq<T>)
    ensures |r| == |xs| + 1
  {
    if xs == [] || le(xs[|xs| - 1], x) then xs + [x]
    else Inserted(le, xs[..|xs| - 1], x) + [xs[|xs| - 1]]
  }

  function Sorted<T>(le: Order<T>, xs: seq<T>): (r: seq<T>)
    ensures |r| == |xs|
  {
    if xs == [] then [] else Inserted(le, Sorted(le, xs[..|xs| - 1]), xs[|xs| - 1])
  }

  lemma {:induction false} InsertedAscending<T(!new)>(le: Order<T>, xs: seq<T>, x: T)
    requires Total(le) && Ascending(le, xs)
    ensures Ascending(le, Inserted(le, xs, x))
    ensures var r := Inserted(le, xs, x);
            r[|r| - 1] == x || (xs != [] && r[|r| - 1] == xs[|xs| - 1])
  {
    if xs != [] && !le(xs[|xs| - 1], x) {
      InsertedAscending(le, xs[..|xs| - 1], x);
    }
  }

  lemma {:induction false} SortedAscending<T(!new)>(le: Order<T>, xs: seq<T>)
    requires Total(le)
    ensures Ascending(le, Sorted(le, xs))
  {
    if xs != [] {
      SortedAscending(le, xs[..|xs| - 1]);
      InsertedAscending(le, Sorted(le, xs[..|xs| - 1]), xs[|xs| - 1]);
    }
  }

  lemma OneOfTwo<T>(a: seq<T>, b: seq<T>, c: seq<T>)
    requires b == [] || c == []
    ensures (a + b) + c == (a + c) + b
  {
  }

  /** Where the order holds both ways between all selected elements, inserting one puts it last of them. */
  lemma {:induction false} InsertedIsStable<T(!new)>(le: Order<T>, p: T -> bool, xs: seq<T>, x: T)
    requires forall y, z :: p(y) && p(z) ==> le(y, z)
    ensures Select(p, Inserted(le, xs, x)) == Select(p, xs) + Kept(p, x)
  {
    if xs == [] || le(xs[|xs| - 1], x) {
      SelectSnoc(p, xs, x);
    } else {
      var n := |xs| - 1;
      InsertedIsStable(le, p, xs[..n], x);
      SelectSnoc(p, Inserted(le, xs[..n], x), xs[n]);
      OneOfTwo(Select(p, xs[..n]), Kept(p, x), Kept(p, xs[n]));
    }
  }

  /** Sorting keeps the order of elements that the order does not tell apart. */
  lemma {:induction false} SortedIsStable<T(!new)>(le: Order<T>, p: T -> bool, xs: seq<T>)
    requires forall y, z :: p(y) && p(z) ==> le(y, z)
    ensures Select(p, Sorted(le, xs)) == Select(p, xs)
  {
    if xs != [] {
      var n := |xs| - 1;
      SortedIsStable(le, p, xs[..n]);
      InsertedIsStable(le, p, Sorted(le, xs[..n]), xs[n]);
    }
  }

  lemma MultisetSnoc<T>(xs: seq<T>, x: T)
    ensures multiset(xs + [x]) == multiset(xs) + multiset{x}
  {
  }

  lemma {:induction false} InsertedMembers<T(!new)>(le: Order<T>, xs: seq<T>, x: T)
    ensures multiset(Inserted(le, xs, x)) == multiset(xs) + multiset{x}
  {
    if xs == [] || le(xs[|xs| - 1], x) {
      MultisetSnoc(xs, x);
    } else {
      var front, last := xs[..|xs| - 1], xs[|xs| - 1];
      InsertedMembers(le, front, x);
      SplitLast(xs);
      MultisetSnoc(front, last);
      MultisetSnoc(Inserted(le, front, x), last);
    }
  }

  lemma {:induction false} SortedMembers<T(!new)>(le: Order<T>, xs: seq<T>)
    ensures multiset(Sorted(le, xs)) == multiset(xs)
    ensures forall x :: x in Sorted(le, xs) <==> x in xs
  {
    if xs != [] {
      var n := |xs| - 1;
      SortedMembers(le, xs[..n]);
      InsertedMembers(le, Sorted(le, xs[..n]), xs[n]);
      assert xs == xs[..n] + [xs[n]];
    }
    assert forall x :: x in Sorted(le, xs) <==> x in multiset(Sorted(le, xs));
    assert forall x :: x in xs <==> x in multiset(xs);
  }

  // ---------------------------------------------------------------- sorting a selection

  ghost predicate Transitive<T(!new)>(le: Order<T>) {
    forall x, y, z :: le(x, y) && le(y, z) ==> le(x, z)
  }

  lemma {:induction false} LastIsGreatest<T(!new)>(le: Order<T>, xs: seq<T>, x: T)
    requires Total(le) && Transitive(le) && Ascending(le, xs) && x in xs
    ensures le(x, xs[|xs| - 1])
  {
    var n := |xs| - 1;
    assert xs == xs[..n] + [xs[n]];
    if x in xs[..n] {
      LastIsGreatest(le, xs[..n], x);
      assert le(xs[n - 1], xs[n]);
    }
  }

  lemma InsertedSnoc<T>(le: Order<T>, front: seq<T>, last: T, x: T)
    ensures Inserted(le, front + [last], x)
         == if le(last, x) then (front + [last]) + [x] else Inserted(le, front, x) + [last]
  {
    assert (front + [last])[..|front|] == front;
  }

  lemma InsertedAtEnd<T>(le: Order<T>, xs: seq<T>, x: T)
    requires xs != [] ==> le(xs[|xs| - 1], x)
    ensures Inserted(le, xs, x) == xs + [x]
  {
  }

  lemma InsertedSelectEnd<T(!new)>(le: Order<T>, p: T -> bool, xs: seq<T>, x: T)
    requires Total(le) && Transitive(le) && Ascending(le, xs) && (xs != [] ==> le(xs[|xs| - 1], x)) && p(x)
    ensures Select(p, xs) + [x] == Inserted(le, Select(p, xs), x)
  {
    var own := Select(p, xs);
    if own != [] {
      var greatest := own[|own| - 1];
      assert greatest in own;
      LastIsGreatest(le, xs, greatest);
    }
    InsertedAtEnd(le, own, x);
  }

  lemma InsertedSelectBefore<T(!new)>(le: Order<T>, p: T -> bool, front: seq<T>, last: T, x: T)
    requires !le(last, x)
    requires Select(p, Inserted(le, front, x)) == if p(x) then Inserted(le, Select(p, front), x) else Select(p, front)
    ensures var own := Select(p, front + [last]);
            Select(p, Inserted(le, front, x) + [last]) == if p(x) then Inserted(le, own, x) else own
  {
    if p(last) {
      SelectTakes(p, Inserted(le, front, x), last);
      SelectTakes(p, front, last);
      InsertedSnoc(le, Select(p, front), last, x);
    } else {
      SelectDrops(p, Inserted(le, front, x), last);
      SelectDrops(p, front, last);
    }
  }

  lemma {:induction false} InsertedSelect<T(!new)>(le: Order<T>, p: T -> bool, xs: seq<T>, x: T)
    requires Total(le) && Transitive(le) && Ascending(le, xs)
    ensures Select(p, Inserted(le, xs, x)) == if p(x) then Inserted(le, Select(p, xs), x) else Select(p, xs)
  {
    if xs == [] || le(xs[|xs| - 1], x) {
      if p(x) {
        SelectTakes(p, xs, x);
        InsertedSelectEnd(le, p, xs, x);
      } else {
        SelectDrops(p, xs, x);
      }
    } else {
      var front, last := xs[..|xs| - 1], xs[|xs| - 1];
      InsertedSelect(le, p, front, x);
      InsertedSelectBefore(le, p, front, last, x);
      SplitLast(xs);
    }
  }

  lemma SortedSnoc<T>(le: Order<T>, xs: seq<T>, x: T)
    ensures Sorted(le, xs + [x]) == Inserted(le, Sorted(le, xs), x)
  {
    assert (xs + [x])[..|xs|] == xs;
  }

  lemma SortedPair<T>(le: Order<T>, x: T, y: T)
    ensures Sorted(le, [x] + [y]) == if le(x, y) then [x] + [y] else [y] + [x]
  {
    assert [] + [x] == [x] && [] + [y] == [y];
    SortedSnoc(le, [], x);
    SortedSnoc(le, [x], y);
    InsertedSnoc(le, [], x, y);
  }

  /** Selecting from the sorted list is sorting the selection. */
  lemma {:induction false} SortedSelect<T(!new)>(le: Order<T>, p: T -> bool, xs: seq<T>)
    requires Total(le) && Transitive(le)
    ensures Select(p, Sorted(le, xs)) == Sorted(le, Select(p, xs))
  {
    if xs != [] {
      var front, last := xs[..|xs| - 1], xs[|xs| - 1];
      SortedSelect(le, p, front);
      SortedAscending(le, front);
      InsertedSelect(le, p, Sorted(le, front), last);
      SplitLast(xs);
      SortedSnoc(le, front, last);
      if p(last) {
        SelectTakes(p, front, last);
        SortedSnoc(le, Select(p, front), last);
      } else {
        SelectDrops(p, front, last);
      }
    }
  }

  lemma {:induction false} AscendingIsSorted<T(!new)>(le: Order<T>, xs: seq<T>)
    requires Ascending(le, xs)
    ensures Sorted(le, xs) == xs
  {
    if xs != [] {
      var n := |xs| - 1;
      AscendingIsSorted(le, xs[..n]);
      assert xs == xs[..n] + [xs[n]];
    }
  }

  /** Sorting keeps the order of selected elements exactly if they are in ascending order already. */
  lemma SelectionKeepsOrderExactly<T(!new)>(le: Order<T>, p: T -> bool, xs: seq<T>)
    requires Total(le) && Transitive(le)
    ensures Select(p, Sorted(le, xs)) == Select(p, xs) <==> Ascending(le, Select(p, xs))
  {
    SortedSelect(le, p, xs);
    SortedAscending(le, Select(p, xs));
    if Ascending(le, Select(p, xs)) {
      AscendingIsSorted(le, Select(p, xs));
    }
  }
}
