/** The names of metadata keys in MongoDB, which must not start with a dollar sign: `improve_keys`
    quotes those that do, and `unquote_keys` restores them. Keys with dots are not considered. */
module MongoKeys {
  import opened PercentEncoding
  import opened NestedDict

  /** `improve_keys` on a key without dots. */
  function Improved(key: string): string
    requires Bytes(key)
  {
    if key != [] && key[0] == '$' then Quote(key, '/') else key
  }

  /** `unquote_keys` on a key. */
  function Restored(key: string): string {
    if "%24" <= key then Unquote(key) else key
  }

  /** A key is read back as it was written exactly if it does not itself start with a quoted dollar. */
  lemma RestoredExactly(key: string)
    requires Bytes(key) && '.' !in key
    ensures Restored(Improved(key)) == key <==> !("%24" <= key)
  {
    if key != [] && key[0] == '$' {
      assert QuoteByte('$', '/') == "%24";
      UnquoteUndoesQuote(key, '/');
      assert "%24" <= Improved(key);
    } else if "%24" <= key {
      assert Unquote(key)[0] == '$';
    }
  }

  /** What is stored of keys with no special characters, with and without a dollar in front. */
  lemma ImprovedExactly(rest: string)
    requires Bytes(rest) && forall i :: 0 <= i < |rest| ==> Unreserved(rest[i]) || rest[i] == '/'
    ensures Improved("$" + rest) == "%24" + rest && Improved(rest) == rest
  {
    QuoteOfUnreserved(rest, '/');
    assert ("$" + rest)[1..] == rest && QuoteByte('$', '/') == "%24";
    assert Quote("$" + rest, '/') == QuoteByte('$', '/') + Quote(rest, '/');
  }

  /** So keys that are read back stay apart. */
  lemma ImprovedApart(a: string, b: string)
    requires Bytes(a) && Bytes(b) && '.' !in a && '.' !in b && !("%24" <= a) && !("%24" <= b)
    ensures Improved(a) == Improved(b) <==> a == b
  {
    RestoredExactly(a);
    RestoredExactly(b);
  }

  // ---------------------------------------------------------------- whole dictionaries

  type Renaming = string -> string

  function Improving(): Renaming {
    (key: string) => if Bytes(key) then Improved(key) else key
  }

  function Restoring(): Renaming {
    (key: string) => Restored(key)
  }

  ghost predicate Idempotent(f: Renaming) {
    forall k :: f(f(k)) == f(k)
  }

  lemma ImprovingIsIdempotent()
    ensures Idempotent(Improving())
  {
    forall k: string | Bytes(k) && k != [] && k[0] == '$'
      ensures Improved(k)[0] == '%'
    {
      assert QuoteByte('$', '/') == "%24";
    }
  }

  lemma RestoredIsUnquoted(k: string)
    ensures !("%24" <= Restored(k))
  {
    if "%24" <= k {
      assert Unquote(k)[0] == '$';
    }
  }

  lemma RestoringIsIdempotent()
    ensures Idempotent(Restoring())
  {
    forall k ensures Restored(Restored(k)) == Restored(k) {
      RestoredIsUnquoted(k);
    }
  }

  /** The entry of k ends up under q: a renamed entry replaces one that keeps its name. */
  ghost predicate Wins(f: Renaming, d: Dict, k: string, q: string) {
    k in d && f(k) == q && (k != q || forall j :: j in d && f(j) == q ==> j == q)
  }

  /** The second tree is the first one with its keys renamed at all levels. */
  ghost predicate Renamed(f: Renaming, t: Tree, r: Tree) {
    match t
    case Leaf(_) => r == t
    case Branch(d) =>
      && r.Branch? && (forall k :: k in d ==> f(k) in r.kids)
      && forall q :: q in r.kids ==> exists k :: Wins(f, d, k, q) && Renamed(f, d[k], r.kids[q])
  }

  /** An entry visited by the loop was renamed to q. */
  ghost predicate MovedTo(f: Renaming, d: Dict, todo: set<string>, k: string, q: string) {
    k in d && k !in todo && f(k) == q && k != q
  }

  /** What the loop has under the name q, with the entries in `todo` still to be visited and renamed
      ones under the names in `moved`. */
  ghost predicate HasName(f: Renaming, d: Dict, todo: set<string>, moved: set<string>, r: Dict, q: string) {
    && (q in moved <==> exists k :: MovedTo(f, d, todo, k, q))
    && if q in moved then q in r && exists k :: MovedTo(f, d, todo, k, q) && Renamed(f, d[k], r[q])
       else if q in todo then q in d && q in r && r[q] == d[q]
       else if q in d && f(q) == q then q in r && Renamed(f, d[q], r[q])
       else q !in r
  }

  /** The loops of `improve_keys` and `unquote_keys`, which take the entries in any order. A value that
      was replaced under its name is no longer reached. */
  method RenameKeys(f: Renaming, d: Dict) returns (r: Dict)
    requires Idempotent(f)
    ensures Renamed(f, Branch(d), Branch(r))
    decreases Branch(d)
  {
    r := d;
    var todo, moved := d.Keys, {};
    while todo != {}
      invariant todo <= d.Keys && forall q :: HasName(f, d, todo, moved, r, q)
      decreases todo
    {
      var k :| k in todo;
      var value := d[k];
      if value.Branch? {
        var kids := RenameKeys(f, value.kids);
        value := Branch(kids);
      }
      ghost var r0, moved0 := r, moved;
      if f(k) != k {
        r := (r - {k})[f(k) := value];
        moved := moved + {f(k)};
      } else if k !in moved {
        r := r[k := value];
      }
      forall q ensures HasName(f, d, todo - {k}, moved, r, q) {
        assert HasName(f, d, todo, moved0, r0, q);
        if f(k) != k {
          RenamedEntry(f, d, todo, moved0, r0, k, value, q);
        } else {
          KeptEntry(f, d, todo, moved0, r0, k, value, q);
        }
      }
      todo := todo - {k};
    }
    NothingLeft(f, d, moved, r);
  }

  lemma MovedAfter(f: Renaming, d: Dict, todo: set<string>, k: string, j: string, q: string)
    requires k in todo && k in d
    ensures MovedTo(f, d, todo - {k}, j, q) <==> MovedTo(f, d, todo, j, q) || (j == k && f(k) == q && k != q)
  {
  }

  /** The loop has visited an entry that gets another name. */
  lemma RenamedEntry(f: Renaming, d: Dict, todo: set<string>, moved: set<string>, r: Dict, k: string, value: Tree,
                     q: string)
    requires Idempotent(f) && k in todo && k in d && HasName(f, d, todo, moved, r, q)
    requires f(k) != k && Renamed(f, d[k], value)
    ensures HasName(f, d, todo - {k}, moved + {f(k)}, (r - {k})[f(k) := value], q)
  {
    forall j ensures MovedTo(f, d, todo - {k}, j, q) <==> MovedTo(f, d, todo, j, q) || (j == k && f(k) == q) {
      MovedAfter(f, d, todo, k, j, q);
    }
    assert f(f(k)) == f(k);
    if q == f(k) {
      assert MovedTo(f, d, todo - {k}, k, q);
    } else if q in moved {
      var j :| MovedTo(f, d, todo, j, q) && Renamed(f, d[j], r[q]);
      assert f(f(j)) == f(j);
      assert MovedTo(f, d, todo - {k}, j, q);
    }
  }

  /** The loop has visited an entry that keeps its name. */
  lemma KeptEntry(f: Renaming, d: Dict, todo: set<string>, moved: set<string>, r: Dict, k: string, value: Tree,
                  q: string)
    requires k in todo && k in d && HasName(f, d, todo, moved, r, q)
    requires f(k) == k && Renamed(f, d[k], value)
    ensures HasName(f, d, todo - {k}, moved, if k in moved then r else r[k := value], q)
  {
    forall j ensures MovedTo(f, d, todo - {k}, j, q) <==> MovedTo(f, d, todo, j, q) {
      MovedAfter(f, d, todo, k, j, q);
    }
    if q in moved {
      var j :| MovedTo(f, d, todo, j, q) && Renamed(f, d[j], r[q]);
      assert MovedTo(f, d, todo - {k}, j, q);
    }
  }

  lemma NothingLeft(f: Renaming, d: Dict, moved: set<string>, r: Dict)
    requires Idempotent(f) && forall q :: HasName(f, d, {}, moved, r, q)
    ensures Renamed(f, Branch(d), Branch(r))
  {
    forall k | k in d
      ensures f(k) in r
    {
      assert HasName(f, d, {}, moved, r, f(k));
      assert f(f(k)) == f(k);
      assert f(k) != k ==> MovedTo(f, d, {}, k, f(k));
    }
    forall q | q in r
      ensures exists k :: Wins(f, d, k, q) && Renamed(f, d[k], r[q])
    {
      assert HasName(f, d, {}, moved, r, q);
      if q in moved {
        var k :| MovedTo(f, d, {}, k, q) && Renamed(f, d[k], r[q]);
        assert Wins(f, d, k, q);
      } else {
        assert forall j :: j in d && f(j) == q && j != q ==> MovedTo(f, d, {}, j, q);
        assert Wins(f, d, q, q);
      }
    }
  }

  type KeyTest = string -> bool

  function Plain(): KeyTest {
    (key: string) => Bytes(key) && '.' !in key
  }

  function NotFrom(prefix: string): KeyTest {
    (key: string) => !(prefix <= key)
  }

  ghost predicate AllKeys(p: KeyTest, t: Tree) {
    match t
    case Leaf(_) => true
    case Branch(d) => forall k :: k in d ==> p(k) && AllKeys(p, d[k])
  }

  lemma {:induction false} RenamedKeys(f: Renaming, p: KeyTest, q: KeyTest, t: Tree, r: Tree)
    requires Renamed(f, t, r) && AllKeys(p, t) && forall k :: p(k) ==> q(f(k))
    ensures AllKeys(q, r)
  {
    if t.Branch? {
      forall name | name in r.kids
        ensures q(name) && AllKeys(q, r.kids[name])
      {
        var k :| Wins(f, t.kids, k, name) && Renamed(f, t.kids[k], r.kids[name]);
        RenamedKeys(f, p, q, t.kids[k], r.kids[name]);
      }
    }
  }

  lemma RestoredImproved(k: string)
    requires Plain()(k) && NotFrom("%24")(k)
    ensures Restoring()(Improving()(k)) == k
  {
    RestoredExactly(k);
  }

  ghost predicate Undoes(g: Renaming, f: Renaming, ok: KeyTest) {
    forall k :: ok(k) ==> g(f(k)) == k
  }

  /** The keys of the first tree are renamed by f and then by g. */
  ghost predicate RenamedTwice(f: Renaming, g: Renaming, ok: KeyTest, t: Tree, u: Tree, v: Tree) {
    AllKeys(ok, t) && Renamed(f, t, u) && Renamed(g, u, v)
  }

  /** Where an entry that was renamed back comes from. */
  lemma EntryBack(f: Renaming, g: Renaming, ok: KeyTest, d: Dict, e: Dict, h: Dict, p: string) returns (q: string)
    requires Undoes(g, f, ok) && RenamedTwice(f, g, ok, Branch(d), Branch(e), Branch(h)) && p in h
    ensures p in d && q in e && RenamedTwice(f, g, ok, d[p], e[q], h[p])
  {
    q :| Wins(g, e, q, p) && Renamed(g, e[q], h[p]);
    var k :| Wins(f, d, k, q) && Renamed(f, d[k], e[q]);
    assert ok(k);
  }

  lemma NamesBack(f: Renaming, g: Renaming, ok: KeyTest, d: Dict, e: Dict, h: Dict)
    requires Undoes(g, f, ok) && RenamedTwice(f, g, ok, Branch(d), Branch(e), Branch(h))
    ensures h.Keys == d.Keys
  {
    forall k | k in d
      ensures k in h
    {
      assert ok(k) && f(k) in e && g(f(k)) in h;
    }
    forall p | p in h
      ensures p in d
    {
      var q := EntryBack(f, g, ok, d, e, h, p);
    }
  }

  /** Where g undoes f on all keys, renaming by g undoes renaming by f. */
  lemma {:induction false} RenamedBack(f: Renaming, g: Renaming, ok: KeyTest, t: Tree, u: Tree, v: Tree)
    requires Undoes(g, f, ok) && RenamedTwice(f, g, ok, t, u, v)
    ensures v == t
  {
    if t.Branch? {
      NamesBack(f, g, ok, t.kids, u.kids, v.kids);
      forall p | p in v.kids
        ensures v.kids[p] == t.kids[p]
      {
        var q := EntryBack(f, g, ok, t.kids, u.kids, v.kids, p);
        RenamedBack(f, g, ok, t.kids[p], u.kids[q], v.kids[p]);
      }
    }
  }

  function Both(p: KeyTest, q: KeyTest): KeyTest {
    (key: string) => p(key) && q(key)
  }

  lemma {:induction false} AllKeysBoth(p: KeyTest, q: KeyTest, t: Tree)
    requires AllKeys(p, t) && AllKeys(q, t)
    ensures AllKeys(Both(p, q), t)
  {
    if t.Branch? {
      forall k | k in t.kids
        ensures AllKeys(Both(p, q), t.kids[k])
      {
        AllKeysBoth(p, q, t.kids[k]);
      }
    }
  }

  /** Metadata is read back as it was stored exactly if no key in it starts with a quoted dollar, and
      what is stored has no key that starts with a dollar. */
  method RoundTrip(d: Dict) returns (stored: Dict, back: Dict)
    requires AllKeys(Plain(), Branch(d))
    ensures AllKeys(NotFrom("$"), Branch(stored))
    ensures back == d <==> AllKeys(NotFrom("%24"), Branch(d))
  {
    ImprovingIsIdempotent();
    RestoringIsIdempotent();
    stored := RenameKeys(Improving(), d);
    back := RenameKeys(Restoring(), stored);
    forall k ensures Plain()(k) ==> NotFrom("$")(Improving()(k)) {
      if Bytes(k) && k != [] && k[0] == '$' {
        assert QuoteByte('$', '/') == "%24";
      }
    }
    RenamedKeys(Improving(), Plain(), NotFrom("$"), Branch(d), Branch(stored));
    forall k ensures NotFrom("%24")(Restoring()(k)) {
      RestoredIsUnquoted(k);
    }
    RenamedKeys(Restoring(), NotFrom("$"), NotFrom("%24"), Branch(stored), Branch(back));
    if AllKeys(NotFrom("%24"), Branch(d)) {
      AllKeysBoth(Plain(), NotFrom("%24"), Branch(d));
      forall k ensures Both(Plain(), NotFrom("%24"))(k) ==> Restoring()(Improving()(k)) == k {
        if Plain()(k) && NotFrom("%24")(k) {
          RestoredImproved(k);
        }
      }
      RenamedBack(Improving(), Restoring(), Both(Plain(), NotFrom("%24")), Branch(d), Branch(stored), Branch(back));
    }
  }
}
