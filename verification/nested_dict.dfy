/** Flattening a nested dictionary to one whose keys are joined by a separator, and back. */
module NestedDict {
  import opened Wrappers
  import opened Text

  type Value(==, !new)

  datatype Tree = Leaf(value: Value) | Branch(kids: Dict)

  type Dict = map<string, Tree>

  const SEP := ':'

  /** The scalar at the end of a path of names. */
  function LeafAt(t: Tree, path: seq<string>): Option<Value>
    decreases |path|
  {
    match t
    case Leaf(v) => if path == [] then Some(v) else None
    case Branch(kids) => if path != [] && path[0] in kids then LeafAt(kids[path[0]], path[1..]) else None
  }

  /** No name has the separator, and no dictionary is empty. */
  ghost predicate Clean(t: Tree) {
    match t
    case Leaf(_) => true
    case Branch(kids) => kids != map[] && forall k :: k in kids ==> SEP !in k && Clean(kids[k])
  }

  /** The same of what is inside a dictionary. */
  ghost predicate CleanDict(d: Dict) {
    forall k :: k in d ==> SEP !in k && Clean(d[k])
  }

  // ---------------------------------------------------------------- clean dictionaries

  lemma SomeLeaf(t: Tree) returns (path: seq<string>)
    requires Clean(t)
    ensures LeafAt(t, path).Some?
  {
    match t {
      case Leaf(_) => path := [];
      case Branch(kids) =>
        var k :| k in kids;
        var rest := SomeLeaf(kids[k]);
        path := [k] + rest;
        assert path[1..] == rest;
    }
  }

  lemma LeafBelow(kids: Dict, k: string, path: seq<string>)
    ensures LeafAt(Branch(kids), [k] + path) == if k in kids then LeafAt(kids[k], path) else None
  {
    assert ([k] + path)[1..] == path;
  }

  /** Clean dictionaries are determined by their leaves. */
  lemma {:induction false} LeavesDetermine(d: Dict, e: Dict)
    requires CleanDict(d) && CleanDict(e)
    requires forall path :: LeafAt(Branch(d), path) == LeafAt(Branch(e), path)
    ensures d == e
    decreases Branch(d)
  {
    SameNames(d, e);
    SameNames(e, d);
    forall k | k in d
      ensures d[k] == e[k]
    {
      forall path ensures LeafAt(d[k], path) == LeafAt(e[k], path) {
        LeafBelow(d, k, path);
        LeafBelow(e, k, path);
      }
      assert LeafAt(d[k], []) == LeafAt(e[k], []);
      if d[k].Branch? {
        LeavesDetermine(d[k].kids, e[k].kids);
      }
    }
  }

  lemma SameNames(d: Dict, e: Dict)
    requires CleanDict(d)
    requires forall path :: LeafAt(Branch(d), path) == LeafAt(Branch(e), path)
    ensures d.Keys <= e.Keys
  {
    forall k | k in d
      ensures k in e
    {
      var path := SomeLeaf(d[k]);
      LeafBelow(d, k, path);
      LeafBelow(e, k, path);
    }
  }

  /** No leaf lies below another. */
  lemma {:induction false} LeavesAreApart(t: Tree, p: seq<string>, q: seq<string>)
    requires LeafAt(t, p).Some? && LeafAt(t, q).Some? && p <= q
    ensures p == q
    decreases |p|
  {
    if p != [] {
      LeavesAreApart(t.kids[p[0]], p[1..], q[1..]);
      assert p == [p[0]] + p[1..] && q == [q[0]] + q[1..];
    }
  }

  lemma {:induction false} CleanPath(t: Tree, path: seq<string>)
    requires Clean(t) && LeafAt(t, path).Some?
    ensures forall i :: 0 <= i < |path| ==> SEP !in path[i]
    decreases |path|
  {
    if path != [] {
      CleanPath(t.kids[path[0]], path[1..]);
    }
  }

  // ---------------------------------------------------------------- dictionaries that are partly flat

  /** The leaf at a path, whichever part of the path is flattened into a key. */
  ghost predicate LeafVia(d: Dict, k: string, path: seq<string>, v: Value) {
    && k in d && Split(k, SEP) <= path
    && LeafAt(d[k], path[|Split(k, SEP)|..]) == Some(v)
  }

  ghost predicate HasLeaf(d: Dict, path: seq<string>, v: Value) {
    exists k :: LeafVia(d, k, path, v)
  }

  /** No leaf lies below another, and there are no two at one path. */
  ghost predicate Unambiguous(d: Dict) {
    forall p, q, v, w :: HasLeaf(d, p, v) && HasLeaf(d, q, w) && p <= q ==> p == q && v == w
  }

  ghost predicate SameLeaves(d: Dict, e: Dict) {
    forall path, v :: HasLeaf(d, path, v) <==> HasLeaf(e, path, v)
  }

  /** No name has the separator. */
  ghost predicate Nested(t: Tree) {
    match t
    case Leaf(_) => true
    case Branch(kids) => forall k :: k in kids ==> SEP !in k && Nested(kids[k])
  }

  /** Keys with the separator lead to scalars, the others to what is restored already. */
  ghost predicate PartlyFlat(d: Dict) {
    forall k :: k in d ==> if SEP in k then d[k].Leaf? else Nested(d[k])
  }

  /** No dictionary inside is empty. */
  ghost predicate PartlyClean(d: Dict) {
    forall k :: k in d && SEP !in k ==> Clean(d[k])
  }

  /** `k.split(separator, 1)`. */
  function SplitOnce(k: string): (r: (string, string))
    requires SEP in k
    ensures SEP !in r.0 && k == r.0 + ([SEP] + r.1)
  {
    if k[0] == SEP then
      ([], k[1..])
    else
      var (top, rem) := SplitOnce(k[1..]);
      assert k == [k[0]] + k[1..];
      ([k[0]] + top, rem)
  }

  function KidsOf(d: Dict, top: string): Dict {
    if top in d && d[top].Branch? then d[top].kids else map[]
  }

  /** The dictionary that the recursive call restores. */
  function Nest(d: Dict, k: string): Dict
    requires k in d && SEP in k
  {
    var (top, rem) := SplitOnce(k);
    KidsOf(d, top)[rem := d[k]]
  }

  /** The dictionary once the recursive call has given `restored`. */
  function Moved(d: Dict, k: string, restored: Dict): Dict
    requires k in d && SEP in k
  {
    d[SplitOnce(k).0 := Branch(restored)] - {k}
  }

  lemma SplitOfKey(k: string)
    requires SEP in k
    ensures var (top, rem) := SplitOnce(k);
            Split(k, SEP) == [top] + Split(rem, SEP) && Split(top, SEP) == [top]
  {
    var (top, rem) := SplitOnce(k);
    SplitAtFirst(top, rem, SEP);
    SplitOfWord(top, SEP);
  }

  lemma LeafViaWord(d: Dict, k: string, path: seq<string>, v: Value)
    requires SEP !in k
    ensures LeafVia(d, k, path, v) <==> k in d && path != [] && path[0] == k && LeafAt(d[k], path[1..]) == Some(v)
  {
    SplitOfWord(k, SEP);
    assert Split(k, SEP) <= path <==> path != [] && path[0] == k;
  }

  lemma LeafViaScalar(d: Dict, k: string, path: seq<string>, v: Value)
    requires k in d && d[k].Leaf?
    ensures LeafVia(d, k, path, v) <==> path == Split(k, SEP) && v == d[k].value
  {
    var parts := Split(k, SEP);
    if parts <= path {
      assert path == parts + path[|parts|..];
    }
  }

  /** Which leaves the nested part below a name has. */
  lemma LeafOfKids(d: Dict, top: string, p: seq<string>, v: Value)
    requires SEP !in top && top in d
    ensures LeafVia(d, top, [top] + p, v) <==> LeafAt(d[top], p) == Some(v)
  {
    LeafViaWord(d, top, [top] + p, v);
    assert ([top] + p)[1..] == p;
  }

  lemma NestLeafIsLeaf(d: Dict, k: string, p: seq<string>, v: Value)
    requires PartlyFlat(d) && k in d && SEP in k && HasLeaf(Nest(d, k), p, v)
    ensures HasLeaf(d, [SplitOnce(k).0] + p, v)
  {
    var (top, rem) := SplitOnce(k);
    var nest := Nest(d, k);
    var j :| LeafVia(nest, j, p, v);
    if j == rem {
      LeafViaScalar(nest, rem, p, v);
      SplitOfKey(k);
      LeafViaScalar(d, k, [top] + p, v);
    } else {
      LeafViaWord(nest, j, p, v);
      LeafOfKids(d, top, p, v);
    }
  }

  /** The flat leaf is a leaf of the nested dictionary it is moved to. */
  lemma FlatLeafIsNestLeaf(d: Dict, k: string, p: seq<string>, v: Value)
    requires PartlyFlat(d) && k in d && SEP in k && LeafVia(d, k, [SplitOnce(k).0] + p, v)
    ensures HasLeaf(Nest(d, k), p, v)
  {
    var (top, rem) := SplitOnce(k);
    SplitOfKey(k);
    LeafViaScalar(d, k, [top] + p, v);
    assert ([top] + p)[1..] == p && ([top] + Split(rem, SEP))[1..] == Split(rem, SEP);
    LeafViaScalar(Nest(d, k), rem, p, v);
  }

  /** A leaf that is nested already where the flat leaf goes to is that same leaf. */
  lemma SameLeafReplaced(d: Dict, k: string, p: seq<string>, v: Value)
    requires PartlyFlat(d) && Unambiguous(d) && k in d && SEP in k && SEP !in SplitOnce(k).1
    requires p != [] && p[0] == SplitOnce(k).1 && HasLeaf(d, [SplitOnce(k).0] + p, v)
    ensures p == Split(SplitOnce(k).1, SEP) && v == d[k].value
  {
    var (top, rem) := SplitOnce(k);
    SplitOfKey(k);
    SplitOfWord(rem, SEP);
    LeafViaScalar(d, k, Split(k, SEP), d[k].value);
    assert HasLeaf(d, Split(k, SEP), d[k].value);
    assert Split(k, SEP) <= [top] + p;
    assert ([top] + p)[1..] == p;
  }

  lemma NoLeafAbove(d: Dict, k: string, v: Value)
    requires PartlyFlat(d) && Unambiguous(d) && k in d && SEP in k
    ensures !HasLeaf(d, [SplitOnce(k).0], v)
  {
    var (top, rem) := SplitOnce(k);
    SplitOfKey(k);
    LeafViaScalar(d, k, Split(k, SEP), d[k].value);
    assert HasLeaf(d, Split(k, SEP), d[k].value);
    assert [top] <= Split(k, SEP);
  }

  /** A leaf that is nested already stays a leaf of the nested dictionary. */
  lemma NestedLeafIsNestLeaf(d: Dict, k: string, p: seq<string>, v: Value)
    requires PartlyFlat(d) && Unambiguous(d) && k in d && SEP in k
    requires LeafVia(d, SplitOnce(k).0, [SplitOnce(k).0] + p, v)
    ensures HasLeaf(Nest(d, k), p, v)
  {
    var (top, rem) := SplitOnce(k);
    SplitOfKey(k);
    LeafOfKids(d, top, p, v);
    assert HasLeaf(d, [top] + p, v);
    NoLeafAbove(d, k, v);
    assert p == [] ==> [top] + p == [top];
    if p[0] == rem && SEP !in rem {
      SameLeafReplaced(d, k, p, v);
      LeafViaScalar(Nest(d, k), rem, p, v);
    } else {
      LeafViaWord(Nest(d, k), p[0], p, v);
    }
  }

  lemma NestUnambiguous(d: Dict, k: string)
    requires PartlyFlat(d) && Unambiguous(d) && k in d && SEP in k
    ensures Unambiguous(Nest(d, k))
  {
    var top, nest := SplitOnce(k).0, Nest(d, k);
    forall p, q, v, w | HasLeaf(nest, p, v) && HasLeaf(nest, q, w) && p <= q
      ensures p == q && v == w
    {
      NestLeafIsLeaf(d, k, p, v);
      NestLeafIsLeaf(d, k, q, w);
      assert [top] + p <= [top] + q;
      assert ([top] + p)[1..] == p && ([top] + q)[1..] == q;
    }
  }

  /** The recursive call has kept the leaves of the nested dictionary. */
  ghost predicate RestoredFrom(restored: Dict, nest: Dict) {
    forall p, w :: LeafAt(Branch(restored), p) == Some(w) <==> HasLeaf(nest, p, w)
  }

  lemma MovedAddsNoLeaf(d: Dict, k: string, restored: Dict, j: string, path: seq<string>, v: Value)
    requires PartlyFlat(d) && k in d && SEP in k && RestoredFrom(restored, Nest(d, k))
    requires LeafVia(Moved(d, k, restored), j, path, v)
    ensures HasLeaf(d, path, v)
  {
    var top := SplitOnce(k).0;
    if j == top {
      SplitOfKey(k);
      LeafViaWord(Moved(d, k, restored), top, path, v);
      NestLeafIsLeaf(d, k, path[1..], v);
      assert [top] + path[1..] == path;
    } else {
      assert LeafVia(d, j, path, v);
    }
  }

  lemma MovedLosesNoLeaf(d: Dict, k: string, restored: Dict, j: string, path: seq<string>, v: Value)
    requires PartlyFlat(d) && Unambiguous(d) && k in d && SEP in k && RestoredFrom(restored, Nest(d, k))
    requires LeafVia(d, j, path, v)
    ensures HasLeaf(Moved(d, k, restored), path, v)
  {
    var top, d' := SplitOnce(k).0, Moved(d, k, restored);
    SplitOfKey(k);
    if j == k || j == top {
      var rest := path[1..];
      assert path == [top] + rest;
      if j == k {
        FlatLeafIsNestLeaf(d, k, rest, v);
      } else {
        NestedLeafIsNestLeaf(d, k, rest, v);
      }
      LeafOfKids(d', top, rest, v);
    } else {
      assert LeafVia(d', j, path, v);
    }
  }

  lemma MovedKeepsLeaf(d: Dict, k: string, restored: Dict, path: seq<string>, v: Value)
    requires PartlyFlat(d) && Unambiguous(d) && k in d && SEP in k && RestoredFrom(restored, Nest(d, k))
    ensures HasLeaf(Moved(d, k, restored), path, v) <==> HasLeaf(d, path, v)
  {
    if HasLeaf(Moved(d, k, restored), path, v) {
      var j :| LeafVia(Moved(d, k, restored), j, path, v);
      MovedAddsNoLeaf(d, k, restored, j, path, v);
    }
    if HasLeaf(d, path, v) {
      var j :| LeafVia(d, j, path, v);
      MovedLosesNoLeaf(d, k, restored, j, path, v);
    }
  }

  // ---------------------------------------------------------------- restoring

  /** The keys that still have the separator are among these, and none is longer than the bound. */
  ghost predicate FlatKeys(d: Dict, todo: set<string>, bound: nat) {
    forall k :: k in d && SEP in k ==> k in todo && |k| <= bound
  }

  /** `restore_nesting`, whose loop takes the items in any order. */
  method RestoreNesting(d: Dict, ghost bound: nat) returns (r: Dict)
    requires PartlyFlat(d) && FlatKeys(d, d.Keys, bound)
    ensures Nested(Branch(r)) && (d != map[] ==> r != map[]) && (PartlyClean(d) ==> CleanDict(r))
    ensures Unambiguous(d) ==> forall path, v :: LeafAt(Branch(r), path) == Some(v) <==> HasLeaf(d, path, v)
    decreases bound
  {
    r := d;
    var todo := d.Keys;
    while todo != {}
      invariant PartlyFlat(r) && FlatKeys(r, todo, bound) && (PartlyClean(d) ==> PartlyClean(r))
      invariant forall k :: k in todo && SEP in k ==> k in r
      invariant d != map[] ==> r != map[]
      invariant Unambiguous(d) ==> SameLeaves(r, d)
      decreases todo
    {
      var k :| k in todo;
      todo := todo - {k};
      if SEP in k {
        r := RestoreKey(r, k, bound);
      }
    }
    forall path, v
      ensures LeafAt(Branch(r), path) == Some(v) <==> HasLeaf(r, path, v)
    {
      RestoredLeaf(r, path, v);
    }
  }

  lemma NestForm(d: Dict, k: string, bound: nat)
    requires PartlyFlat(d) && FlatKeys(d, d.Keys, bound) && k in d && SEP in k
    ensures bound > 0 && PartlyFlat(Nest(d, k)) && FlatKeys(Nest(d, k), Nest(d, k).Keys, bound - 1)
    ensures PartlyClean(d) ==> PartlyClean(Nest(d, k))
  {
    SplitOfKey(k);
  }

  lemma MovedForm(d: Dict, k: string, restored: Dict, bound: nat)
    requires PartlyFlat(d) && FlatKeys(d, d.Keys, bound) && k in d && SEP in k
    requires Nested(Branch(restored))
    ensures var d' := Moved(d, k, restored);
            && SplitOnce(k).0 in d' && PartlyFlat(d') && FlatKeys(d', d.Keys - {k}, bound)
            && forall j :: j in d && SEP in j && j != k ==> j in d'
  {
    SplitOfKey(k);
  }

  lemma MovedClean(d: Dict, k: string, restored: Dict)
    requires PartlyClean(d) && k in d && SEP in k && CleanDict(restored) && restored != map[]
    ensures PartlyClean(Moved(d, k, restored))
  {
    assert Clean(Branch(restored));
  }

  /** The body of the loop for a key with the separator. */
  method RestoreKey(d: Dict, k: string, ghost bound: nat) returns (d': Dict)
    requires PartlyFlat(d) && FlatKeys(d, d.Keys, bound) && k in d && SEP in k
    ensures PartlyFlat(d') && d' != map[] && FlatKeys(d', d.Keys - {k}, bound)
    ensures PartlyClean(d) ==> PartlyClean(d')
    ensures forall j :: j in d && SEP in j && j != k ==> j in d'
    ensures Unambiguous(d) ==> SameLeaves(d', d)
    decreases bound, 0
  {
    var (top, rem) := SplitOnce(k);
    var nest := if top in d && d[top].Branch? then d[top].kids else map[];
    nest := nest[rem := d[k]];
    assert nest == Nest(d, k) && rem in nest;
    NestForm(d, k, bound);
    var restored := RestoreNesting(nest, bound - 1);
    d' := d[top := Branch(restored)] - {k};
    MovedForm(d, k, restored, bound);
    if PartlyClean(d) {
      MovedClean(d, k, restored);
    }
    if Unambiguous(d) {
      NestUnambiguous(d, k);
      forall path, v
        ensures HasLeaf(d', path, v) <==> HasLeaf(d, path, v)
      {
        MovedKeepsLeaf(d, k, restored, path, v);
      }
    }
  }

  lemma RestoredLeaf(d: Dict, path: seq<string>, v: Value)
    requires Nested(Branch(d))
    ensures LeafAt(Branch(d), path) == Some(v) <==> HasLeaf(d, path, v)
  {
    if LeafAt(Branch(d), path) == Some(v) {
      LeafViaWord(d, path[0], path, v);
    }
    if HasLeaf(d, path, v) {
      var k :| LeafVia(d, k, path, v);
      LeafViaWord(d, k, path, v);
    }
  }

  // ---------------------------------------------------------------- flattening

  /** The pairs of a dictionary are its leaves, under their joined paths. */
  ghost predicate Pairs(d: Dict, pairs: seq<(string, Value)>) {
    && (forall pair :: pair in pairs ==> FromLeaf(d, pair))
    && (forall path, v :: path != [] && LeafAt(Branch(d), path) == Some(v) ==> (Join(path, SEP), v) in pairs)
  }

  ghost predicate PairAt(d: Dict, path: seq<string>, pair: (string, Value)) {
    path != [] && LeafAt(Branch(d), path) == Some(pair.1) && pair.0 == Join(path, SEP)
  }

  ghost predicate FromLeaf(d: Dict, pair: (string, Value)) {
    exists path :: PairAt(d, path, pair)
  }

  /** The order of paths, name by name. */
  predicate PathBefore(p: seq<string>, q: seq<string>) {
    if p == [] || q == [] then p == [] && q != []
    else Before(p[0], q[0]) || (p[0] == q[0] && PathBefore(p[1..], q[1..]))
  }

  /** The pairs are leaves, in the order of their paths. */
  ghost predicate Listed(d: Dict, pairs: seq<(string, Value)>, paths: seq<seq<string>>) {
    && |paths| == |pairs|
    && (forall i :: 0 <= i < |pairs| ==> PairAt(d, paths[i], pairs[i]))
    && (forall i, j :: 0 <= i < j < |paths| ==> PathBefore(paths[i], paths[j]))
  }

  /** All paths start with names that are taken, before those still to do. */
  ghost predicate TakenInOrder(d: Dict, todo: set<string>, paths: seq<seq<string>>) {
    && (forall i :: 0 <= i < |paths| ==> paths[i] != [] && paths[i][0] in d && paths[i][0] !in todo)
    && (forall i, name :: 0 <= i < |paths| && name in todo ==> Before(paths[i][0], name))
  }

  lemma ListedMore(d: Dict, todo: set<string>, name: string, pairs: seq<(string, Value)>, paths: seq<seq<string>>,
                   more: seq<(string, Value)>, below: seq<seq<string>>)
    requires Listed(d, pairs, paths) && Listed(d, more, below) && TakenInOrder(d, todo, paths)
    requires name in todo && todo <= d.Keys && forall n :: n in todo && n != name ==> Before(name, n)
    requires forall i :: 0 <= i < |below| ==> below[i] != [] && below[i][0] == name
    ensures Listed(d, pairs + more, paths + below) && TakenInOrder(d, todo - {name}, paths + below)
  {
    var all := paths + below;
    forall i, j | 0 <= i < j < |all|
      ensures PathBefore(all[i], all[j])
    {
      if i < |paths| <= j {
        assert all[j] == below[j - |paths|];
      }
    }
  }

  /** `recursive_keypairs`: all leaves, in the order of their paths. */
  method RecursiveKeypairs(d: Dict) returns (pairs: seq<(string, Value)>, ghost paths: seq<seq<string>>)
    ensures Pairs(d, pairs) && Listed(d, pairs, paths)
    decreases Branch(d), 1
  {
    pairs, paths := [], [];
    var todo := d.Keys;
    while todo != {}
      invariant todo <= d.Keys && Listed(d, pairs, paths) && TakenInOrder(d, todo, paths)
      invariant forall path, v :: path != [] && path[0] !in todo && LeafAt(Branch(d), path) == Some(v) ==>
                  (Join(path, SEP), v) in pairs
      decreases todo
    {
      var name := FirstName(todo);
      var more, below := KeypairsBelow(d, name);
      ListedMore(d, todo, name, pairs, paths, more, below);
      todo := todo - {name};
      pairs, paths := pairs + more, paths + below;
    }
    forall pair | pair in pairs
      ensures FromLeaf(d, pair)
    {
      var i :| 0 <= i < |pairs| && pairs[i] == pair;
      assert PairAt(d, paths[i], pair);
    }
  }

  function Under(name: string, below: seq<(string, Value)>): (r: seq<(string, Value)>)
    ensures |r| == |below| && forall i :: 0 <= i < |r| ==> r[i] == (name + ([SEP] + below[i].0), below[i].1)
  {
    seq(|below|, i requires 0 <= i < |below| => (name + ([SEP] + below[i].0), below[i].1))
  }

  ghost function PathsUnder(name: string, below: seq<seq<string>>): (r: seq<seq<string>>)
    ensures |r| == |below| && forall i :: 0 <= i < |r| ==> r[i] == [name] + below[i]
  {
    seq(|below|, i requires 0 <= i < |below| => [name] + below[i])
  }

  lemma PathBeforeUnder(name: string, p: seq<string>, q: seq<string>)
    requires PathBefore(p, q)
    ensures PathBefore([name] + p, [name] + q)
  {
    assert ([name] + p)[1..] == p && ([name] + q)[1..] == q;
  }

  lemma ListedUnder(d: Dict, name: string, below: seq<(string, Value)>, paths: seq<seq<string>>)
    requires name in d && d[name].Branch? && Listed(d[name].kids, below, paths)
    ensures Listed(d, Under(name, below), PathsUnder(name, paths))
  {
    var all := PathsUnder(name, paths);
    forall i | 0 <= i < |below|
      ensures PairAt(d, all[i], Under(name, below)[i])
    {
      assert PairAt(d[name].kids, paths[i], below[i]);
      LeafBelow(d, name, paths[i]);
      JoinOfLonger(name, paths[i]);
    }
    forall i, j | 0 <= i < j < |all|
      ensures PathBefore(all[i], all[j])
    {
      PathBeforeUnder(name, paths[i], paths[j]);
    }
  }

  /** The pairs of one name. */
  method KeypairsBelow(d: Dict, name: string) returns (pairs: seq<(string, Value)>, ghost paths: seq<seq<string>>)
    requires name in d
    ensures Listed(d, pairs, paths) && forall i :: 0 <= i < |paths| ==> paths[i] != [] && paths[i][0] == name
    ensures forall path, v :: path != [] && path[0] == name && LeafAt(Branch(d), path) == Some(v) ==>
              (Join(path, SEP), v) in pairs
    decreases Branch(d), 0
  {
    match d[name] {
      case Leaf(v) =>
        pairs, paths := [(name, v)], [[name]];
        LeafBelow(d, name, []);
        assert [name] + [] == [name] && Join([name], SEP) == name;
        assert PairAt(d, [name], (name, v));
        forall path, w | path != [] && path[0] == name && LeafAt(Branch(d), path) == Some(w)
          ensures (Join(path, SEP), w) in pairs
        {
          assert LeafAt(d[name], path[1..]) == Some(w) && path == [name] + path[1..];
          assert [name] + [] == [name] && Join([name], SEP) == name;
        }
      case Branch(kids) =>
        var below, pathsBelow := RecursiveKeypairs(kids);
        pairs, paths := Under(name, below), PathsUnder(name, pathsBelow);
        ListedUnder(d, name, below, pathsBelow);
        forall path, w | path != [] && path[0] == name && LeafAt(Branch(d), path) == Some(w)
          ensures (Join(path, SEP), w) in pairs
        {
          var rest := path[1..];
          assert path == [name] + rest && LeafAt(Branch(kids), rest) == Some(w);
          JoinOfLonger(name, rest);
          var i :| 0 <= i < |below| && below[i] == (Join(rest, SEP), w);
          assert pairs[i] == (Join(path, SEP), w);
        }
    }
  }

  lemma JoinOfLonger(name: string, path: seq<string>)
    requires path != []
    ensures Join([name] + path, SEP) == name + ([SEP] + Join(path, SEP))
  {
    assert ([name] + path)[1..] == path;
  }

  /** `dict(pairs)`: of pairs with the same key, the last one counts. */
  function DictOf(pairs: seq<(string, Value)>): (d: Dict)
    ensures forall k :: k in d ==> d[k].Leaf? && (k, d[k].value) in pairs
    ensures forall i :: 0 <= i < |pairs| ==> pairs[i].0 in d
  {
    if pairs == [] then map[] else
    var n := |pairs| - 1;
    assert pairs == pairs[..n] + [pairs[n]];
    DictOf(pairs[..n])[pairs[n].0 := Leaf(pairs[n].1)]
  }

  lemma CleanPairUnjoins(d: Dict, path: seq<string>)
    requires CleanDict(d) && path != [] && LeafAt(Branch(d), path).Some?
    ensures Split(Join(path, SEP), SEP) == path
  {
    CleanPath(d[path[0]], path[1..]);
    SplitUndoesJoin(path, SEP);
  }

  /** The flat dictionary made from a clean one has just its leaves. */
  lemma FlatLeaves(d: Dict, pairs: seq<(string, Value)>, path: seq<string>, v: Value)
    requires CleanDict(d) && Pairs(d, pairs)
    ensures HasLeaf(DictOf(pairs), path, v) <==> LeafAt(Branch(d), path) == Some(v)
  {
    var flat := DictOf(pairs);
    if HasLeaf(flat, path, v) {
      var k :| LeafVia(flat, k, path, v);
      LeafViaScalar(flat, k, path, v);
      assert FromLeaf(d, (k, v));
      var p :| PairAt(d, p, (k, v));
      CleanPairUnjoins(d, p);
    }
    if LeafAt(Branch(d), path) == Some(v) {
      var k := Join(path, SEP);
      CleanPairUnjoins(d, path);
      var i :| 0 <= i < |pairs| && pairs[i] == (k, v);
      assert FromLeaf(d, (k, flat[k].value));
      var p :| PairAt(d, p, (k, flat[k].value));
      CleanPairUnjoins(d, p);
      LeafViaScalar(flat, k, path, v);
    }
  }

  lemma FlatUnambiguous(d: Dict, pairs: seq<(string, Value)>)
    requires CleanDict(d) && Pairs(d, pairs)
    ensures Unambiguous(DictOf(pairs))
  {
    var flat := DictOf(pairs);
    forall p, q, v, w | HasLeaf(flat, p, v) && HasLeaf(flat, q, w) && p <= q
      ensures p == q && v == w
    {
      FlatLeaves(d, pairs, p, v);
      FlatLeaves(d, pairs, q, w);
      LeavesAreApart(Branch(d), p, q);
    }
  }

  lemma LongestKey(keys: set<string>) returns (bound: nat)
    ensures forall k :: k in keys ==> |k| <= bound
    decreases keys
  {
    bound := 0;
    if keys != {} {
      var k :| k in keys;
      var rest := LongestKey(keys - {k});
      bound := if |k| > rest then |k| else rest;
    }
  }

  /** Unflattening a flattened dictionary, in whatever order its items are taken, gives the dictionary
      back exactly if no name has the separator and no dictionary inside is empty. */
  method RoundTrip(d: Dict) returns (r: Dict)
    ensures r == d <==> CleanDict(d)
  {
    var pairs, paths := RecursiveKeypairs(d);
    var flat := DictOf(pairs);
    ghost var bound := LongestKey(flat.Keys);
    r := RestoreNesting(flat, bound);
    if CleanDict(d) {
      FlatUnambiguous(d, pairs);
      forall path
        ensures LeafAt(Branch(r), path) == LeafAt(Branch(d), path)
      {
        forall v ensures LeafAt(Branch(r), path) == Some(v) <==> LeafAt(Branch(d), path) == Some(v) {
          FlatLeaves(d, pairs, path, v);
        }
        assert LeafAt(Branch(r), path).Some? ==> LeafAt(Branch(r), path) == Some(LeafAt(Branch(r), path).value);
        assert LeafAt(Branch(d), path).Some? ==> LeafAt(Branch(d), path) == Some(LeafAt(Branch(d), path).value);
      }
      LeavesDetermine(r, d);
    }
  }
}
