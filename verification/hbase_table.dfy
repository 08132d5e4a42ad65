/** The in-memory HBase table: cells keep one version per timestamp, and a scan shows, column by column,
    the newest version. */
module HBaseTable {
  import opened Wrappers
  import opened Text

  type Value(==, !new)

  type Columns = map<string, Value>

  /** A timestamp, or the string "0" that stands for a missing one. */
  datatype Stamp = At(time: int) | Unstamped

  /** The order in which versions are sorted: in Python 2 a string comes after all integers. */
  predicate Older(a: Stamp, b: Stamp) {
    a.At? && (b.Unstamped? || a.time < b.time)
  }

  predicate NotNewer(a: Stamp, b: Stamp) {
    a == b || Older(a, b)
  }

  type Versions = map<Stamp, Columns>
  type Rows = map<string, Versions>

  datatype Put = Put(row: string, data: Columns, ts: Stamp)

  /** `put`: a second put at the same timestamp updates the columns that are there. */
  function AfterPut(rows: Rows, put: Put): Rows {
    if put.row !in rows then
      rows[put.row := map[put.ts := put.data]]
    else
      var versions := rows[put.row];
      rows[put.row := versions[put.ts := if put.ts in versions then versions[put.ts] + put.data else put.data]]
  }

  function AfterPuts(puts: seq<Put>): Rows {
    if puts == [] then map[] else AfterPut(AfterPuts(puts[..|puts| - 1]), puts[|puts| - 1])
  }

  function VersionsOf(rows: Rows, row: string): Versions {
    if row in rows then rows[row] else map[]
  }

  /** The data gives each column its value in the newest version that has the column. */
  ghost predicate ShowsNewest(versions: Versions, data: Columns) {
    && (forall ts, c :: ts in versions && c in versions[ts] ==> c in data)
    && (forall c :: c in data ==> exists ts :: ts in versions && c in versions[ts] && data[c] == versions[ts][c]
                                               && forall u :: u in versions && c in versions[u] ==> NotNewer(u, ts))
  }

  /** The i-th put decides a column of a row: of the puts of the column it has the greatest time, and is the last
      of those with that time. One without a timestamp is newer than all that have one. */
  ghost predicate Decides(puts: seq<Put>, i: nat, row: string, c: string) {
    && i < |puts| && puts[i].row == row && c in puts[i].data
    && forall j :: 0 <= j < |puts| && puts[j].row == row && c in puts[j].data ==>
         match (puts[j].ts, puts[i].ts)
         case (At(u), At(t)) => u < t || (u == t && j <= i)
         case (At(_), Unstamped) => true
         case (Unstamped, At(_)) => false
         case (Unstamped, Unstamped) => j <= i
  }

  /** The data has the columns that were put in the row, each with the value of the put that decides it. */
  ghost predicate ShownBy(puts: seq<Put>, row: string, data: Columns) {
    && (forall i, c :: 0 <= i < |puts| && puts[i].row == row && c in puts[i].data ==> c in data)
    && forall c :: c in data ==> exists i: nat :: Decides(puts, i, row, c) && data[c] == puts[i].data[c]
  }

  function Cell(rows: Rows, row: string, ts: Stamp, c: string): Option<Value> {
    var versions := VersionsOf(rows, row);
    if ts in versions && c in versions[ts] then Some(versions[ts][c]) else None
  }

  predicate Writes(put: Put, row: string, ts: Stamp, c: string) {
    put.row == row && put.ts == ts && c in put.data
  }

  lemma CellAfterPut(rows: Rows, put: Put, row: string, ts: Stamp, c: string)
    ensures Cell(AfterPut(rows, put), row, ts, c)
         == if Writes(put, row, ts, c) then Some(put.data[c]) else Cell(rows, row, ts, c)
  {
  }

  /** The last of the puts of a column at one timestamp. */
  ghost predicate LastAt(puts: seq<Put>, i: nat, row: string, ts: Stamp, c: string) {
    && i < |puts| && Writes(puts[i], row, ts, c)
    && forall j :: i < j < |puts| ==> !Writes(puts[j], row, ts, c)
  }

  /** Each version has, of each column, what was last put there at its timestamp. */
  lemma {:induction false} VersionHasLast(puts: seq<Put>, row: string, ts: Stamp, c: string)
    returns (i: nat)
    ensures match Cell(AfterPuts(puts), row, ts, c)
            case Some(v) => LastAt(puts, i, row, ts, c) && v == puts[i].data[c]
            case None => forall j :: 0 <= j < |puts| ==> !Writes(puts[j], row, ts, c)
  {
    i := 0;
    if puts != [] {
      var n := |puts| - 1;
      i := VersionHasLast(puts[..n], row, ts, c);
      CellAfterPut(AfterPuts(puts[..n]), puts[n], row, ts, c);
      if Writes(puts[n], row, ts, c) {
        i := n;
      }
    }
  }

  lemma DecisiveIsNewest(puts: seq<Put>, row: string, c: string, i: nat)
    requires Decides(puts, i, row, c)
    ensures var versions := VersionsOf(AfterPuts(puts), row);
            && puts[i].ts in versions && c in versions[puts[i].ts] && versions[puts[i].ts][c] == puts[i].data[c]
            && forall u :: u in versions && c in versions[u] ==> NotNewer(u, puts[i].ts)
  {
    var versions := VersionsOf(AfterPuts(puts), row);
    var l := VersionHasLast(puts, row, puts[i].ts, c);
    forall u | u in versions && c in versions[u]
      ensures NotNewer(u, puts[i].ts)
    {
      var k := VersionHasLast(puts, row, u, c);
    }
  }

  lemma NewestIsDecisive(puts: seq<Put>, row: string, c: string, ts: Stamp) returns (i: nat)
    requires var versions := VersionsOf(AfterPuts(puts), row);
             && ts in versions && c in versions[ts]
             && forall u :: u in versions && c in versions[u] ==> NotNewer(u, ts)
    ensures Decides(puts, i, row, c) && VersionsOf(AfterPuts(puts), row)[ts][c] == puts[i].data[c]
  {
    i := VersionHasLast(puts, row, ts, c);
    forall j | 0 <= j < |puts| && puts[j].row == row && c in puts[j].data
      ensures Older(puts[j].ts, puts[i].ts) || (puts[j].ts == puts[i].ts && j <= i)
    {
      var k := VersionHasLast(puts, row, puts[j].ts, c);
    }
  }

  /** The columns of the newest versions of a row are those that were put last, by time and then by order. */
  lemma ShownValueIsDecisive(puts: seq<Put>, row: string, data: Columns)
    ensures ShowsNewest(VersionsOf(AfterPuts(puts), row), data) <==> ShownBy(puts, row, data)
  {
    var versions := VersionsOf(AfterPuts(puts), row);
    if ShowsNewest(versions, data) {
      forall i, c | 0 <= i < |puts| && puts[i].row == row && c in puts[i].data
        ensures c in data
      {
        var k := VersionHasLast(puts, row, puts[i].ts, c);
      }
      forall c | c in data
        ensures exists i: nat :: Decides(puts, i, row, c) && data[c] == puts[i].data[c]
      {
        var ts :| ts in versions && c in versions[ts] && data[c] == versions[ts][c]
                  && forall u :: u in versions && c in versions[u] ==> NotNewer(u, ts);
        var i := NewestIsDecisive(puts, row, c, ts);
      }
    }
    if ShownBy(puts, row, data) {
      forall ts, c | ts in versions && c in versions[ts]
        ensures c in data
      {
        var k := VersionHasLast(puts, row, ts, c);
      }
      forall c | c in data
        ensures exists ts :: ts in versions && c in versions[ts] && data[c] == versions[ts][c]
                             && forall u :: u in versions && c in versions[u] ==> NotNewer(u, ts)
      {
        var i: nat :| Decides(puts, i, row, c) && data[c] == puts[i].data[c];
        DecisiveIsNewest(puts, row, c, i);
      }
    }
  }

  lemma OneDecides(puts: seq<Put>, row: string, c: string, i: nat, j: nat)
    requires Decides(puts, i, row, c) && Decides(puts, j, row, c)
    ensures i == j
  {
  }

  /** The value that the deciding put gives. */
  lemma ShownValue(puts: seq<Put>, row: string, data: Columns, c: string, i: nat)
    requires ShownBy(puts, row, data) && Decides(puts, i, row, c)
    ensures c in data && data[c] == puts[i].data[c]
  {
    var j: nat :| Decides(puts, j, row, c) && data[c] == puts[j].data[c];
    OneDecides(puts, row, c, i, j);
  }

  lemma ShownAlike(puts: seq<Put>, row: string, d: Columns, e: Columns, c: string)
    requires ShownBy(puts, row, d) && ShownBy(puts, row, e) && c in d
    ensures c in e && d[c] == e[c]
  {
    var i: nat :| Decides(puts, i, row, c) && d[c] == puts[i].data[c];
    ShownValue(puts, row, e, c, i);
  }

  lemma ShownIsUnique(puts: seq<Put>, row: string, d: Columns, e: Columns)
    requires ShownBy(puts, row, d) && ShownBy(puts, row, e)
    ensures d == e
  {
    forall c | c in d {
      ShownAlike(puts, row, d, e, c);
    }
    forall c | c in e {
      ShownAlike(puts, row, e, d, c);
    }
  }

  /** Of two puts of a column the one with the greater time is shown, the second if the times are equal. */
  lemma GreaterTimeIsShown(puts: seq<Put>, row: string, c: string, s: int, t: int, data: Columns)
    requires |puts| == 2 && puts[0].row == row && puts[1].row == row && c in puts[0].data && c in puts[1].data
    requires puts[0].ts == At(s) && puts[1].ts == At(t) && ShownBy(puts, row, data)
    ensures c in data && data[c] == puts[if s <= t then 1 else 0].data[c]
  {
    if s <= t {
      assert Decides(puts, 1, row, c);
      ShownValue(puts, row, data, c, 1);
    } else {
      assert Decides(puts, 0, row, c);
      ShownValue(puts, row, data, c, 0);
    }
  }

  lemma {:induction false} RowsAreOfPuts(puts: seq<Put>, row: string)
    ensures row in AfterPuts(puts) <==> exists i :: 0 <= i < |puts| && puts[i].row == row
  {
    if puts != [] {
      var n := |puts| - 1;
      RowsAreOfPuts(puts[..n], row);
      assert puts[n].row == row || forall i :: 0 <= i < |puts| && puts[i].row == row ==> puts[..n][i].row == row;
    }
  }

  predicate DistinctVersions(puts: seq<Put>) {
    forall i, j :: 0 <= i < j < |puts| && puts[i].row == puts[j].row ==> puts[i].ts != puts[j].ts
  }

  lemma SamePut(puts: seq<Put>, put: Put) returns (i: nat)
    requires multiset(puts)[put] > 0
    ensures i < |puts| && puts[i] == put
  {
    assert put in puts;
    i :| i < |puts| && puts[i] == put;
  }

  /** A put of the column that is decisive among some puts is so among the same puts in another order. */
  lemma DecidesInAnyOrder(p: seq<Put>, q: seq<Put>, row: string, c: string, i: nat) returns (k: nat)
    requires multiset(p) == multiset(q) && DistinctVersions(p) && DistinctVersions(q)
    requires Decides(p, i, row, c)
    ensures Decides(q, k, row, c) && q[k] == p[i]
  {
    assert p[i] in multiset(p);
    k := SamePut(q, p[i]);
    forall j | 0 <= j < |q| && q[j].row == row && c in q[j].data
      ensures j == k || Older(q[j].ts, q[k].ts)
    {
      assert q[j] in multiset(q);
      var l := SamePut(p, q[j]);
    }
  }

  lemma ShownInAnyOrder(p: seq<Put>, q: seq<Put>, row: string, data: Columns)
    requires multiset(p) == multiset(q) && DistinctVersions(p) && DistinctVersions(q)
    requires ShownBy(p, row, data)
    ensures ShownBy(q, row, data)
  {
    forall i, c | 0 <= i < |q| && q[i].row == row && c in q[i].data
      ensures c in data
    {
      assert q[i] in multiset(q);
      var k := SamePut(p, q[i]);
    }
    forall c | c in data
      ensures exists k: nat :: Decides(q, k, row, c) && data[c] == q[k].data[c]
    {
      var i: nat :| Decides(p, i, row, c) && data[c] == p[i].data[c];
      var k := DecidesInAnyOrder(p, q, row, c, i);
    }
  }

  /** With distinct timestamps the puts may come in any order: scans show the same. */
  lemma OrderOfPutsIrrelevant(p: seq<Put>, q: seq<Put>, row: string, d: Columns, e: Columns)
    requires multiset(p) == multiset(q) && DistinctVersions(p) && DistinctVersions(q)
    requires ShownBy(p, row, d) && ShownBy(q, row, e)
    ensures d == e
  {
    ShownInAnyOrder(p, q, row, d);
    ShownIsUnique(q, row, d, e);
  }

  // ---------------------------------------------------------------- the table

  /** `MTable`, with the puts it has seen. */
  class Table {
    var rows: Rows
    ghost var puts: seq<Put>

    constructor ()
      ensures Valid() && puts == []
    {
      rows, puts := map[], [];
    }

    ghost predicate Valid()
      reads this
    {
      rows == AfterPuts(puts)
    }

    method DoPut(key: string, data: Columns, ts: Option<int>)
      requires Valid()
      modifies this
      ensures Valid() && puts == old(puts) + [Put(key, data, if ts.Some? then At(ts.value) else Unstamped)]
    {
      var at := if ts.Some? then At(ts.value) else Unstamped;
      if key !in rows {
        rows := rows[key := map[at := data]];
      } else if at in rows[key] {
        rows := rows[key := rows[key][at := rows[key][at] + data]];
      } else {
        rows := rows[key := rows[key][at := data]];
      }
      puts := puts + [Put(key, data, at)];
      assert puts[..|puts| - 1] == old(puts);
    }

    /** The smallest of some timestamps. */
    static method Smallest(todo: set<Stamp>) returns (least: Stamp)
      requires todo != {}
      ensures least in todo && forall ts :: ts in todo ==> NotNewer(least, ts)
      ensures forall ts :: ts in todo && ts.At? ==> least.At? && least.time <= ts.time
    {
      HasMember(todo);
      least :| least in todo;
      var rest := todo - {least};
      while rest != {}
        invariant rest <= todo && least in todo
        invariant forall ts :: ts in todo && ts !in rest ==> NotNewer(least, ts)
        decreases rest
      {
        HasMember(rest);
        var ts :| ts in rest;
        if Older(ts, least) {
          least := ts;
        }
        rest := rest - {ts};
      }
    }

    /** `_get_latest_dict`: updates with one version after the other, oldest first. */
    method GetLatestDict(row: string) returns (data: Columns)
      requires Valid() && row in rows
      ensures ShownBy(puts, row, data)
    {
      var versions := rows[row];
      var todo := versions.Keys;
      data := map[];
      ghost var seen := map[];
      while todo != {}
        invariant todo <= versions.Keys && seen.Keys == versions.Keys - todo
        invariant forall ts :: ts in seen ==> seen[ts] == versions[ts]
        invariant forall ts, u :: ts in seen && u in todo ==> Older(ts, u)
        invariant ShowsNewest(seen, data)
        decreases todo
      {
        var ts := Smallest(todo);
        var updated := data + versions[ts];
        UpdateShowsNewest(seen, data, ts, versions[ts]);
        data := updated;
        seen := seen[ts := versions[ts]];
        todo := todo - {ts};
      }
      assert seen == versions;
      ShownValueIsDecisive(puts, row, data);
    }

    /** The rows that a scan takes, before the limit, with what it shows of them. */
    method Matching(start: string, stop: string, columns: set<string>, filters: seq<Filter>)
      returns (found: map<string, Columns>)
      requires Valid()
      ensures forall row :: row in found ==> Wanted(puts, row, found[row], start, stop, columns, filters)
      ensures forall row, data :: Wanted(puts, row, data, start, stop, columns, filters) ==>
                row in found && found[row] == data
    {
      found := map[];
      var todo := rows.Keys;
      while todo != {}
        invariant todo <= rows.Keys
        invariant forall row :: row in found ==>
          row !in todo && Wanted(puts, row, found[row], start, stop, columns, filters)
        invariant forall row, data ::
          row in rows && row !in todo && Wanted(puts, row, data, start, stop, columns, filters) ==>
            row in found && found[row] == data
        decreases todo
      {
        var row :| row in todo;
        todo := todo - {row};
        if (start != "" && Before(row, start)) || (stop != "" && Before(stop, row)) {
          continue;
        }
        var data := GetLatestDict(row);
        RowsAreOfPuts(puts, row);
        forall other | ShownBy(puts, row, other)
          ensures other == data
        {
          ShownIsUnique(puts, row, data, other);
        }
        if (columns == {} || data.Keys * columns != {}) && PassesAll(filters, data) {
          found := found[row := data];
        }
      }
      forall row, data | Wanted(puts, row, data, start, stop, columns, filters)
        ensures row in rows
      {
        RowsAreOfPuts(puts, row);
      }
    }

    /** `scan`: an empty bound does not count, nor does an empty set of columns, and one wanted column is
        enough to show the row with all its columns. The rows come in the order of their keys, and no more
        than the limit. */
    method Scan(start: string, stop: string, columns: set<string>, filters: seq<Filter>, limit: Option<nat>)
      returns (found: seq<(string, Columns)>)
      requires Valid()
      ensures forall i :: 0 <= i < |found| ==>
        Wanted(puts, found[i].0, found[i].1, start, stop, columns, filters)
      ensures forall i, j :: 0 <= i < j < |found| ==> Before(found[i].0, found[j].0)
      ensures limit.Some? ==> |found| <= limit.value
      ensures forall row, data :: Wanted(puts, row, data, start, stop, columns, filters) ==>
        || (row, data) in found
        || (limit == Some(|found|) && forall i :: 0 <= i < |found| ==> Before(found[i].0, row))
    {
      var matching := Matching(start, stop, columns, filters);
      found := FirstRows(matching, limit);
    }

    /** The rows in the order of their keys, up to the limit. */
    static method FirstRows(matching: map<string, Columns>, limit: Option<nat>)
      returns (found: seq<(string, Columns)>)
      ensures forall i :: 0 <= i < |found| ==> found[i].0 in matching && found[i].1 == matching[found[i].0]
      ensures forall i, j :: 0 <= i < j < |found| ==> Before(found[i].0, found[j].0)
      ensures limit.Some? ==> |found| <= limit.value
      ensures forall row :: row in matching ==>
        || (row, matching[row]) in found
        || (limit == Some(|found|) && forall i :: 0 <= i < |found| ==> Before(found[i].0, row))
    {
      found := [];
      var todo := matching.Keys;
      while todo != {} && (limit.None? || |found| < limit.value)
        invariant todo <= matching.Keys && (limit.Some? ==> |found| <= limit.value)
        invariant forall i :: 0 <= i < |found| ==> found[i].0 in matching && found[i].1 == matching[found[i].0]
        invariant forall i, j :: 0 <= i < j < |found| ==> Before(found[i].0, found[j].0)
        invariant forall i, row :: 0 <= i < |found| && row in todo ==> Before(found[i].0, row)
        invariant forall row :: row in matching && row !in todo ==> (row, matching[row]) in found
        decreases todo
      {
        var row := FirstName(todo);
        found := found + [(row, matching[row])];
        todo := todo - {row};
      }
    }
  }

  /** What a filter of the query says of the shown columns of a row. */
  type Filter = Columns -> bool

  predicate PassesAll(filters: seq<Filter>, data: Columns) {
    forall i :: 0 <= i < |filters| ==> filters[i](data)
  }

  /** The scan takes the row, in which something was put, and shows this of it. */
  ghost predicate Wanted(puts: seq<Put>, row: string, data: Columns, start: string, stop: string,
                         columns: set<string>, filters: seq<Filter>) {
    && (exists i :: 0 <= i < |puts| && puts[i].row == row)
    && (start != "" ==> !Before(row, start)) && (stop != "" ==> !Before(stop, row))
    && ShownBy(puts, row, data)
    && (columns == {} || data.Keys * columns != {})
    && forall i :: 0 <= i < |filters| ==> filters[i](data)
  }

  lemma HasMember(s: set<Stamp>)
    ensures s == {} || exists x :: x in s
  {
    if forall x :: x !in s {
      assert s == {};
    }
  }

  lemma UpdateShowsNewest(versions: Versions, data: Columns, ts: Stamp, newer: Columns)
    requires ShowsNewest(versions, data) && forall u :: u in versions ==> Older(u, ts)
    ensures ShowsNewest(versions[ts := newer], data + newer)
  {
    var versions' := versions[ts := newer];
    forall c | c in data + newer
      ensures exists w :: w in versions' && c in versions'[w] && (data + newer)[c] == versions'[w][c]
                          && forall u :: u in versions' && c in versions'[u] ==> NotNewer(u, w)
    {
      if c in newer {
        assert ts in versions' && c in versions'[ts];
      } else {
        var w :| w in versions && c in versions[w] && data[c] == versions[w][c]
                 && forall u :: u in versions && c in versions[u] ==> NotNewer(u, w);
        assert w in versions' && c in versions'[w];
      }
    }
  }
}
