/** The complex-query filters of the MongoDB driver: `QueryTransformer` pushes every `not` down to
    the comparisons, rewriting the tree in place, and then compiles the tree to a Mongo query.  */
module MongoFilter {
  import opened Wrappers

  type Value(==)

  datatype Operator = Eq | Ne | Lt | Gt | Le | Ge | In | Match

  datatype Filter =
    | Compare(op: Operator, field: string, value: Value)
    | And(kids: seq<Filter>)
    | Or(kids: seq<Filter>)
    | Not(kid: Filter)

  // ---------------------------------------------------------------- meaning of filters and queries

  datatype Relation = Equal | Less | Greater | AtMost | AtLeast | Member | Regex

  /** A document, as its answers to "does your field stand in this relation to this value?". */
  type Document = (Relation, string, Value) -> bool

  predicate Compares(op: Operator, field: string, value: Value, d: Document) {
    match op
    case Eq => d(Equal, field, value)
    case Ne => !d(Equal, field, value)
    case Lt => d(Less, field, value)
    case Gt => d(Greater, field, value)
    case Le => d(AtMost, field, value)
    case Ge => d(AtLeast, field, value)
    case In => d(Member, field, value)
    case Match => d(Regex, field, value)
  }

  predicate Holds(f: Filter, d: Document) {
    match f
    case Compare(op, field, value) => Compares(op, field, value, d)
    case And(kids) => forall k | k in kids :: Holds(k, d)
    case Or(kids) => exists k | k in kids :: Holds(k, d)
    case Not(kid) => !Holds(kid, d)
  }

  datatype MongoOperator = OpLt | OpGt | OpLte | OpGte | OpNe | OpIn | OpRegex

  datatype Query =
    | FieldIs(field: string, value: Value)                     // {field: value}
    | FieldOp(field: string, op: MongoOperator, value: Value)  // {field: {op: value}}
    | FieldNot(field: string, op: MongoOperator, value: Value) // {field: {$not: {op: value}}}
    | AllOf(parts: seq<Query>)                                 // {$and: [..]}
    | AnyOf(parts: seq<Query>)                                 // {$or: [..]}

  predicate MongoCompares(op: MongoOperator, field: string, value: Value, d: Document) {
    match op
    case OpLt => d(Less, field, value)
    case OpGt => d(Greater, field, value)
    case OpLte => d(AtMost, field, value)
    case OpGte => d(AtLeast, field, value)
    case OpNe => !d(Equal, field, value)
    case OpIn => d(Member, field, value)
    case OpRegex => d(Regex, field, value)
  }

  predicate Accepts(q: Query, d: Document) {
    match q
    case FieldIs(field, value) => d(Equal, field, value)
    case FieldOp(field, op, value) => MongoCompares(op, field, value, d)
    case FieldNot(field, op, value) => !MongoCompares(op, field, value, d)
    case AllOf(parts) => forall p | p in parts :: Accepts(p, d)
    case AnyOf(parts) => exists p | p in parts :: Accepts(p, d)
  }

  // ---------------------------------------------------------------- pushing negations, on values

  /** The termination measure of the rewriting: a `not` doubles what is under it. */
  function Weight(f: Filter): (w: nat)
    ensures w >= 1
  {
    match f
    case Compare(_, _, _) => 1
    case And(kids) => 1 + Weights(kids)
    case Or(kids) => 1 + Weights(kids)
    case Not(kid) => 2 * Weight(kid)
  }

  function Weights(fs: seq<Filter>): nat {
    if fs == [] then 0 else Weight(fs[0]) + Weights(fs[1..])
  }

  function Negated(fs: seq<Filter>): (r: seq<Filter>)
    ensures |r| == |fs| && forall i :: 0 <= i < |fs| ==> r[i] == Not(fs[i])
    ensures Weights(r) == 2 * Weights(fs)
  {
    if fs == [] then [] else [Not(fs[0])] + Negated(fs[1..])
  }

  /** The tree that is left when no `not` can be moved further, or None where the rewriting meets
      three `not`s in a row: it then empties the node and fails on looking for its operator. */
  function Push(f: Filter): Option<Filter>
    decreases Weight(f), 0
  {
    match f
    case Compare(_, _, _) => Some(f)
    case And(kids) => (var ks := PushAll(kids); if ks.None? then None else Some(And(ks.value)))
    case Or(kids) => (var ks := PushAll(kids); if ks.None? then None else Some(Or(ks.value)))
    case Not(Compare(_, _, _)) => Some(f)
    case Not(And(kids)) =>
      assert Weight(f.kid) == 1 + Weights(kids);
      Push(Or(Negated(kids)))
    case Not(Or(kids)) =>
      assert Weight(f.kid) == 1 + Weights(kids);
      Push(And(Negated(kids)))
    case Not(Not(kid)) =>
      assert Weight(f.kid) == 2 * Weight(kid);
      if kid.Not? then None else Push(kid)
  }

  function PushAll(fs: seq<Filter>): (r: Option<seq<Filter>>)
    ensures r.Some? ==> |r.value| == |fs|
    decreases Weights(fs), 1
  {
    if fs == [] then
      Some([])
    else
      var first := Push(fs[0]);
      var rest := PushAll(fs[1..]);
      if first.None? || rest.None? then None else Some([first.value] + rest.value)
  }

  lemma {:induction false} PushAllAt(fs: seq<Filter>)
    ensures PushAll(fs).Some? <==> forall i :: 0 <= i < |fs| ==> Push(fs[i]).Some?
    ensures PushAll(fs).Some? ==> forall i :: 0 <= i < |fs| ==> PushAll(fs).value[i] == Push(fs[i]).value
  {
    if fs != [] {
      PushAllAt(fs[1..]);
      assert forall i :: 1 <= i < |fs| ==> fs[i] == fs[1..][i - 1];
      forall i {:trigger Push(fs[i])} | 0 <= i < |fs|
        ensures PushAll(fs).Some? ==> Push(fs[i]).Some? && PushAll(fs).value[i] == Push(fs[i]).value
      {
        if i > 0 { assert fs[i] == fs[1..][i - 1]; }
      }
      if forall i :: 0 <= i < |fs| ==> Push(fs[i]).Some? {
        forall i | 0 <= i < |fs[1..]| ensures Push(fs[1..][i]).Some? { assert fs[1..][i] == fs[i + 1]; }
      }
    }
  }

  lemma {:induction false} WeightOfMember(fs: seq<Filter>, f: Filter)
    requires f in fs
    ensures Weight(f) <= Weights(fs)
  {
    if f != fs[0] {
      WeightOfMember(fs[1..], f);
    }
  }

  /** Every `not` of the tree sits directly on a comparison. */
  predicate NotsOnComparisons(f: Filter) {
    match f
    case Compare(_, _, _) => true
    case And(kids) => forall k | k in kids :: NotsOnComparisons(k)
    case Or(kids) => forall k | k in kids :: NotsOnComparisons(k)
    case Not(kid) => kid.Compare?
  }

  /** Somewhere a `not` directly under a `not` lies below an odd number of further `not`s;
      `negated` tells whether that number is odd so far. */
  predicate NotPairUnderOddNots(f: Filter, negated: bool) {
    match f
    case Compare(_, _, _) => false
    case And(kids) => exists k | k in kids :: NotPairUnderOddNots(k, negated)
    case Or(kids) => exists k | k in kids :: NotPairUnderOddNots(k, negated)
    case Not(kid) => (negated && kid.Not?) || NotPairUnderOddNots(kid, !negated)
  }

  /** Moving negations never changes what the filter means. */
  lemma {:induction false} PushPreservesMeaning(f: Filter, d: Document)
    requires Push(f).Some?
    ensures NotsOnComparisons(Push(f).value)
    ensures Holds(Push(f).value, d) <==> Holds(f, d)
    decreases Weight(f), 0
  {
    match f
    case Compare(_, _, _) =>
    case And(kids) => PushAllPreservesMeaning(kids, d);
    case Or(kids) => PushAllPreservesMeaning(kids, d);
    case Not(Compare(_, _, _)) =>
    case Not(And(kids)) =>
      assert Weight(f.kid) == 1 + Weights(kids);
      PushPreservesMeaning(Or(Negated(kids)), d);
      NegatedMeaning(kids, d);
    case Not(Or(kids)) =>
      assert Weight(f.kid) == 1 + Weights(kids);
      PushPreservesMeaning(And(Negated(kids)), d);
      NegatedMeaning(kids, d);
    case Not(Not(kid)) =>
      assert Weight(f.kid) == 2 * Weight(kid);
      PushPreservesMeaning(kid, d);
  }

  lemma {:induction false} NegatedMeaning(fs: seq<Filter>, d: Document)
    ensures (exists k | k in Negated(fs) :: Holds(k, d)) <==> !(forall k | k in fs :: Holds(k, d))
    ensures (forall k | k in Negated(fs) :: Holds(k, d)) <==> !(exists k | k in fs :: Holds(k, d))
  {
    var ns := Negated(fs);
    forall k | k in fs ensures Not(k) in ns {
      var i :| 0 <= i < |fs| && fs[i] == k;
      assert ns[i] == Not(k);
    }
    forall n | n in ns ensures n.Not? && n.kid in fs {
      var i :| 0 <= i < |ns| && ns[i] == n;
      assert n == Not(fs[i]);
    }
    assert forall k {:trigger Not(k)} | k in fs :: Holds(Not(k), d) == !Holds(k, d);
  }

  lemma {:induction false} PushAllPreservesMeaning(fs: seq<Filter>, d: Document)
    requires PushAll(fs).Some?
    ensures forall k | k in PushAll(fs).value :: NotsOnComparisons(k)
    ensures (forall k | k in PushAll(fs).value :: Holds(k, d)) <==> (forall k | k in fs :: Holds(k, d))
    ensures (exists k | k in PushAll(fs).value :: Holds(k, d)) <==> (exists k | k in fs :: Holds(k, d))
    decreases Weights(fs), 1
  {
    var ps := PushAll(fs).value;
    PushAllAt(fs);
    forall i | 0 <= i < |fs|
      ensures NotsOnComparisons(ps[i]) && Holds(ps[i], d) == Holds(fs[i], d)
    {
      WeightOfMember(fs, fs[i]);
      PushPreservesMeaning(fs[i], d);
    }
    assert forall i :: 0 <= i < |fs| ==> ps[i] in ps && fs[i] in fs;
    assert forall p :: p in ps ==> exists i :: 0 <= i < |fs| && p == ps[i];
    assert forall k :: k in fs ==> exists i :: 0 <= i < |fs| && k == fs[i];
  }

  /** Exactly when the rewriting fails. */
  lemma {:induction false} PushFailsExactly(f: Filter)
    ensures Push(f).None? <==> NotPairUnderOddNots(f, false)
    decreases Weight(f), 0
  {
    match f
    case Compare(_, _, _) =>
    case And(kids) => PushAllFailsExactly(kids);
    case Or(kids) => PushAllFailsExactly(kids);
    case Not(Compare(_, _, _)) =>
    case Not(And(kids)) =>
      assert Weight(f.kid) == 1 + Weights(kids);
      PushFailsExactly(Or(Negated(kids)));
      NegatedNotPairs(kids);
    case Not(Or(kids)) =>
      assert Weight(f.kid) == 1 + Weights(kids);
      PushFailsExactly(And(Negated(kids)));
      NegatedNotPairs(kids);
    case Not(Not(kid)) =>
      assert Weight(f.kid) == 2 * Weight(kid);
      PushFailsExactly(kid);
  }

  lemma {:induction false} NegatedNotPairs(fs: seq<Filter>)
    ensures (exists n | n in Negated(fs) :: NotPairUnderOddNots(n, false))
       <==> (exists k | k in fs :: NotPairUnderOddNots(k, true))
  {
    var ns := Negated(fs);
    forall k | k in fs ensures Not(k) in ns {
      var i :| 0 <= i < |fs| && fs[i] == k;
      assert ns[i] == Not(k);
    }
    forall n | n in ns ensures n.Not? && n.kid in fs {
      var i :| 0 <= i < |ns| && ns[i] == n;
      assert n == Not(fs[i]);
    }
    assert forall k {:trigger Not(k)} | k in fs :: NotPairUnderOddNots(Not(k), false) == NotPairUnderOddNots(k, true);
  }

  lemma {:induction false} PushAllFailsExactly(fs: seq<Filter>)
    ensures PushAll(fs).None? <==> exists k | k in fs :: NotPairUnderOddNots(k, false)
    decreases Weights(fs), 1
  {
    PushAllAt(fs);
    forall i | 0 <= i < |fs|
      ensures Push(fs[i]).None? <==> NotPairUnderOddNots(fs[i], false)
    {
      WeightOfMember(fs, fs[i]);
      PushFailsExactly(fs[i]);
    }
    if k :| k in fs && NotPairUnderOddNots(k, false) {
      var i :| 0 <= i < |fs| && fs[i] == k;
      assert Push(fs[i]).None?;
    }
    if PushAll(fs).None? {
      var i :| 0 <= i < |fs| && Push(fs[i]).None?;
      assert fs[i] in fs && NotPairUnderOddNots(fs[i], false);
    }
  }

  // ---------------------------------------------------------------- compiling to a query

  function MongoName(op: Operator): MongoOperator
    requires op != Eq
  {
    match op
    case Lt => OpLt
    case Gt => OpGt
    case Le => OpLte
    case Ge => OpGte
    case Ne => OpNe
    case In => OpIn
    case Match => OpRegex
  }

  /** None where the compiler looks up an operator under a `not` that is not a comparison. */
  function Compile(f: Filter): Option<Query> {
    match f
    case Compare(op, field, value) =>
      Some(if op == Eq then FieldIs(field, value) else FieldOp(field, MongoName(op), value))
    case And(kids) => (var ps := CompileAll(kids); if ps.None? then None else Some(AllOf(ps.value)))
    case Or(kids) => (var ps := CompileAll(kids); if ps.None? then None else Some(AnyOf(ps.value)))
    case Not(Compare(op, field, value)) =>
      Some(match op
           case Eq => FieldOp(field, OpNe, value)
           case Ne => FieldIs(field, value)
           case _ => FieldNot(field, MongoName(op), value))
    case Not(_) => None
  }

  function CompileAll(fs: seq<Filter>): (r: Option<seq<Query>>)
    ensures r.Some? ==> |r.value| == |fs|
  {
    if fs == [] then
      Some([])
    else
      var first := Compile(fs[0]);
      var rest := CompileAll(fs[1..]);
      if first.None? || rest.None? then None else Some([first.value] + rest.value)
  }

  lemma {:induction false} CompileAllAt(fs: seq<Filter>)
    ensures CompileAll(fs).Some? <==> forall i :: 0 <= i < |fs| ==> Compile(fs[i]).Some?
    ensures CompileAll(fs).Some? ==> forall i :: 0 <= i < |fs| ==> CompileAll(fs).value[i] == Compile(fs[i]).value
  {
    if fs != [] {
      CompileAllAt(fs[1..]);
      assert forall i :: 0 <= i < |fs[1..]| ==> fs[1..][i] == fs[i + 1];
      assert forall i :: 0 < i < |fs| ==> fs[i] == fs[1..][i - 1];
    }
  }

  lemma {:induction false} CompilePreservesMeaning(f: Filter, d: Document)
    ensures Compile(f).Some? <==> NotsOnComparisons(f)
    ensures Compile(f).Some? ==> (Accepts(Compile(f).value, d) <==> Holds(f, d))
  {
    match f
    case Compare(_, _, _) =>
    case And(kids) => CompileAllPreservesMeaning(kids, d);
    case Or(kids) => CompileAllPreservesMeaning(kids, d);
    case Not(_) =>
  }

  lemma {:induction false} CompileAllPreservesMeaning(fs: seq<Filter>, d: Document)
    ensures CompileAll(fs).Some? <==> forall k | k in fs :: NotsOnComparisons(k)
    ensures CompileAll(fs).Some? ==>
              var ps := CompileAll(fs).value;
              && ((forall p | p in ps :: Accepts(p, d)) <==> (forall k | k in fs :: Holds(k, d)))
              && ((exists p | p in ps :: Accepts(p, d)) <==> (exists k | k in fs :: Holds(k, d)))
  {
    if fs != [] {
      CompilePreservesMeaning(fs[0], d);
      CompileAllPreservesMeaning(fs[1..], d);
      assert forall k :: k in fs <==> k == fs[0] || k in fs[1..];
      if CompileAll(fs).Some? {
        var first, rest := Compile(fs[0]).value, CompileAll(fs[1..]).value;
        assert forall p :: p in CompileAll(fs).value <==> p == first || p in rest;
      }
    }
  }

  function TransformFilter(f: Filter): Option<Query> {
    var pushed := Push(f);
    if pushed.None? then None else Compile(pushed.value)
  }

  /** The compiled query selects exactly the documents the filter describes, and there is one unless
      a pair of adjacent `not`s lies below an odd number of `not`s. */
  lemma TransformFilterCorrect(f: Filter)
    ensures TransformFilter(f).Some? <==> !NotPairUnderOddNots(f, false)
    ensures TransformFilter(f).Some? ==>
              forall d :: Accepts(TransformFilter(f).value, d) <==> Holds(f, d)
  {
    PushFailsExactly(f);
    if Push(f).Some? {
      forall d: Document
        ensures Compile(Push(f).value).Some?
        ensures Accepts(Compile(Push(f).value).value, d) <==> Holds(f, d)
      {
        PushPreservesMeaning(f, d);
        CompilePreservesMeaning(Push(f).value, d);
      }
      var someDocument: Document := (_, _, _) => false;
      assert Compile(Push(f).value).Some? by {
        PushPreservesMeaning(f, someDocument);
        CompilePreservesMeaning(Push(f).value, someDocument);
      }
    }
  }

  /** The smallest filters on which the rewriting fails; in the second one De Morgan builds the chain. */
  lemma ChainsOfThreeFail(c: Filter)
    requires c.Compare?
    ensures TransformFilter(Not(Not(Not(c)))).None?
    ensures TransformFilter(Not(And([Not(Not(c))]))).None?
    ensures TransformFilter(And([Not(Not(c))])).Some?
  {
    var pair := Not(Not(c));
    TransformFilterCorrect(Not(pair));
    TransformFilterCorrect(Not(And([pair])));
    TransformFilterCorrect(And([pair]));
    assert pair in [pair] && NotPairUnderOddNots(And([pair]), true);
    assert !NotPairUnderOddNots(Not(c), true);
  }

  // ---------------------------------------------------------------- pushing negations, in place

  /** The one key of a tree dictionary. */
  datatype Key = KCompare(op: Operator, field: string, value: Value) | KAnd | KOr | KNot

  /** A tree dictionary: its key and what is stored under it. */
  class Node {
    var key: Key
    var kids: seq<Node>
    ghost var tree: Filter
    ghost var Repr: set<Node>

    ghost predicate Valid()
      reads this, Repr
      decreases Repr, 1
    {
      this in Repr && OwnsKids() && KidsValid() && Denotes(key, kids, tree)
    }

    ghost predicate OwnsKids()
      reads this, Repr
    {
      && (forall i :: 0 <= i < |kids| ==>
            kids[i] in Repr && kids[i].Repr <= Repr && this !in kids[i].Repr)
      && (forall i, j :: 0 <= i < j < |kids| ==> kids[i].Repr !! kids[j].Repr)
    }

    ghost predicate KidsValid()
      requires this in Repr && OwnsKids()
      reads this, Repr
      decreases Repr, 0
    {
      forall i :: 0 <= i < |kids| ==> kids[i].Valid()
    }

    /** What a dictionary with this key and these operands stands for. */
    static ghost predicate Denotes(key: Key, kids: seq<Node>, t: Filter)
      reads kids
    {
      match key
      case KCompare(op, field, value) => kids == [] && t == Compare(op, field, value)
      case KAnd => t.And? && SameTrees(kids, t.kids)
      case KOr => t.Or? && SameTrees(kids, t.kids)
      case KNot => |kids| == 1 && t == Not(kids[0].tree)
    }

    static ghost predicate SameTrees(kids: seq<Node>, trees: seq<Filter>)
      reads kids
    {
      |trees| == |kids| && forall i :: 0 <= i < |kids| ==> kids[i].tree == trees[i]
    }

    /** Replaces the one entry of the dictionary. */
    method Become(newKey: Key, newKids: seq<Node>, ghost t: Filter, ghost repr: set<Node>)
      requires this in repr
      requires forall i :: 0 <= i < |newKids| ==> newKids[i].Valid() && newKids[i].Repr <= repr - {this}
      requires forall i, j :: 0 <= i < j < |newKids| ==> newKids[i].Repr !! newKids[j].Repr
      requires Denotes(newKey, newKids, t)
      modifies this
      ensures Valid() && key == newKey && tree == t && Repr == repr
    {
      key, kids, tree, Repr := newKey, newKids, t, repr;
    }

    constructor Negation(kid: Node)
      requires kid.Valid()
      ensures Valid() && key == KNot && kids == [kid]
      ensures tree == Not(kid.tree) && Repr == {this} + kid.Repr && fresh(this)
    {
      key, kids := KNot, [kid];
      tree, Repr := Not(kid.tree), {this} + kid.Repr;
    }

    /** A fresh `not` node above each of the given nodes. */
    static method Negations(kids: seq<Node>) returns (wrapped: seq<Node>, ghost added: set<Node>)
      requires forall i :: 0 <= i < |kids| ==> kids[i].Valid()
      requires forall i, j :: 0 <= i < j < |kids| ==> kids[i].Repr !! kids[j].Repr
      ensures |wrapped| == |kids| && fresh(added)
      ensures forall i :: 0 <= i < |kids| ==>
        && wrapped[i].Valid()
        && wrapped[i].tree == Not(kids[i].tree)
        && wrapped[i].Repr <= added + kids[i].Repr
      ensures forall i, j :: 0 <= i < j < |kids| ==> wrapped[i].Repr !! wrapped[j].Repr
    {
      wrapped, added := [], {};
      for n := 0 to |kids|
        invariant |wrapped| == n && fresh(added)
        invariant forall i :: 0 <= i < n ==>
          && wrapped[i] in added
          && wrapped[i].Valid()
          && wrapped[i].tree == Not(kids[i].tree)
          && wrapped[i].Repr == {wrapped[i]} + kids[i].Repr
        invariant forall i, j :: 0 <= i < j < n ==> wrapped[i] != wrapped[j]
      {
        var w := new Node.Negation(kids[n]);
        wrapped, added := wrapped + [w], added + {w};
      }
    }

    /** `_apply_de_morgan`: turns a negated `and` (`or`) into an `or` (`and`) of negations. */
    method DeMorgan()
      requires Valid() && key == KNot && (kids[0].key == KAnd || kids[0].key == KOr)
      modifies this
      ensures Valid() && fresh(Repr - old(Repr))
      ensures match old(tree)
              case Not(And(trees)) => tree == Or(Negated(trees))
              case Not(Or(trees)) => tree == And(Negated(trees))
              case _ => false
    {
      var negated := kids[0];
      assert negated.Valid() && negated.KidsValid();
      var wrapped, added := Negations(negated.kids);
      ghost var trees := Negated(negated.tree.kids);
      Become(if negated.key == KAnd then KOr else KAnd, wrapped,
             if negated.key == KAnd then Or(trees) else And(trees),
             Repr + added);
    }

    /** The operands before position i have been rewritten, the others have not. */
    ghost predicate PushedUpTo(trees: seq<Filter>, i: nat)
      reads this, kids
    {
      && |trees| == |kids| && i <= |kids|
      && (forall j :: 0 <= j < i ==> Push(trees[j]) == Some(kids[j].tree))
      && (forall j :: i <= j < |kids| ==> kids[j].tree == trees[j])
    }

    /** One turn of the loop below: the operand at position i, whose siblings are not touched. */
    method TransformKid(i: nat) returns (ok: bool)
      requires this in Repr && OwnsKids() && KidsValid() && i < |kids|
      modifies kids[i].Repr, this`Repr
      ensures ok <==> Push(old(kids[i].tree)).Some?
      ensures ok ==> this in Repr && OwnsKids() && KidsValid() && fresh(Repr - old(Repr))
      ensures ok ==> kids[i].tree == Push(old(kids[i].tree)).value
      ensures forall j :: 0 <= j < |kids| && j != i ==> kids[j].tree == old(kids[j].tree)
      decreases Weight(kids[i].tree), 2
    {
      ok := kids[i].Transform();
      Repr := Repr + kids[i].Repr;
    }

    /** The loop over the operands of an `and` or `or`, up to the first one that fails. */
    method TransformKids() returns (ok: bool)
      requires Valid() && (key == KAnd || key == KOr)
      modifies Repr
      ensures ok <==> PushAll(old(tree.kids)).Some?
      ensures ok ==> Valid() && fresh(Repr - old(Repr)) && key == old(key)
      ensures ok ==> tree == old(tree).(kids := PushAll(old(tree.kids)).value)
      decreases Weight(tree), 0
    {
      ghost var trees := tree.kids;
      PushAllAt(trees);
      for i := 0 to |kids|
        invariant key == old(key) && kids == old(kids) && tree == old(tree) && fresh(Repr - old(Repr))
        invariant this in Repr && OwnsKids() && KidsValid() && PushedUpTo(trees, i)
      {
        WeightOfMember(trees, trees[i]);
        ok := TransformKid(i);
        if !ok {
          return;
        }
      }
      Become(key, kids, tree.(kids := PushAll(trees).value), Repr);
      ok := true;
    }

    /** `transform`: ok is false where the code raises IndexError, leaving a half-rewritten tree. */
    method Transform() returns (ok: bool)
      requires Valid()
      modifies Repr
      ensures ok <==> Push(old(tree)).Some?
      ensures ok ==> Valid() && tree == Push(old(tree)).value && fresh(Repr - old(Repr))
      decreases Weight(tree), 1
    {
      ok := true;
      if key == KAnd || key == KOr {
        ok := TransformKids();
      } else if key == KNot {
        var negated := kids[0];
        assert negated.Valid() && negated.KidsValid();
        if negated.key == KAnd || negated.key == KOr {
          assert Weight(negated.tree) == 1 + Weights(negated.tree.kids);
          DeMorgan();
          ok := Transform();
        } else if negated.key == KNot {
          var value := negated.kids[0];
          assert value.Valid() && value.KidsValid();
          if value.key == KNot {
            assert value.tree.Not?;
            ok := false;
          } else {
            assert Weight(negated.tree) == 2 * Weight(value.tree);
            Become(value.key, value.kids, value.tree, Repr);
            ok := Transform();
          }
        }
      }
    }

    /** `_process_json_tree`: builds the query without touching the tree. */
    method ProcessTree() returns (q: Option<Query>)
      requires Valid()
      ensures q == Compile(tree)
      decreases Repr, 1
    {
      if key == KAnd || key == KOr {
        var parts := ProcessKids();
        if parts.None? {
          q := None;
        } else {
          q := Some(if key == KAnd then AllOf(parts.value) else AnyOf(parts.value));
        }
      } else if key == KNot {
        q := HandleNot();
      } else {
        var KCompare(op, field, value) := key;
        q := Some(if op == Eq then FieldIs(field, value) else FieldOp(field, MongoName(op), value));
      }
    }

    /** `_handle_not_op`, with None for its failing look-ups. */
    method HandleNot() returns (q: Option<Query>)
      requires Valid() && key == KNot
      ensures q == Compile(tree)
    {
      assert KidsValid() && kids[0].Valid();
      match kids[0].key {
        case KCompare(op, field, value) =>
          q := Some(match op
                    case Eq => FieldOp(field, OpNe, value)
                    case Ne => FieldIs(field, value)
                    case _ => FieldNot(field, MongoName(op), value));
        case _ =>
          q := None;
      }
    }

    /** `_handle_complex_op`: the operands' queries, in order. */
    method ProcessKids() returns (parts: Option<seq<Query>>)
      requires Valid() && (key == KAnd || key == KOr)
      ensures parts == CompileAll(tree.kids)
      decreases Repr, 0
    {
      ghost var trees := tree.kids;
      CompileAllAt(trees);
      var done: seq<Query> := [];
      for i := 0 to |kids|
        invariant |done| == i && forall j :: 0 <= j < i ==> Compile(trees[j]) == Some(done[j])
      {
        assert KidsValid();
        var part := kids[i].ProcessTree();
        if part.None? {
          return None;
        }
        done := done + [part.value];
      }
      assert CompileAll(trees).value == done;
      return Some(done);
    }

    /** `transform_filter`. */
    method TransformFilterInPlace() returns (q: Option<Query>)
      requires Valid()
      modifies Repr
      ensures q == TransformFilter(old(tree))
    {
      var ok := Transform();
      if ok {
        q := ProcessTree();
      } else {
        q := None;
      }
    }
  }
}
