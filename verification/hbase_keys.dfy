/** How the HBase driver names rows and columns: reversed timestamps, percent-quoted composite keys,
    the row bounds and filters of a sample query, and the qualifiers of an entry. */
module HBaseKeys {
  import opened Wrappers
  import opened Text
  import opened PercentEncoding

  // ---------------------------------------------------------------- reversed timestamps

  /** A naive datetime as its difference from the epoch. */
  datatype Time = Time(days: int, seconds: nat, microseconds: nat)

  /** The range of Python's datetime: the years 1 to 9999. */
  predicate Representable(t: Time) {
    -719162 <= t.days <= 2932896 && t.seconds < 86400 && t.microseconds < 1000000
  }

  predicate Earlier(a: Time, b: Time) {
    a.days < b.days
    || (a.days == b.days && (a.seconds < b.seconds || (a.seconds == b.seconds && a.microseconds < b.microseconds)))
  }

  function Timestamp(t: Time): int {
    t.microseconds + t.seconds * 1000000 + t.days * 86400000000
  }

  function Reversed(t: Time): int {
    0x7fffffffffffffff - Timestamp(t)
  }

  /** `str(timestamp(dt))`. */
  function Rts(t: Time): (r: string)
    requires Representable(t)
    ensures forall i :: 0 <= i < |r| ==> '0' <= r[i] <= '9'
  {
    Decimal(Reversed(t))
  }

  /** Timestamps count microseconds since the epoch, and are reversed against the greatest signed 64-bit number. */
  lemma ReversedExactly(t: Time)
    ensures Reversed(t) == 9223372036854775807 - ((t.days * 86400 + t.seconds) * 1000000 + t.microseconds)
  {
  }

  lemma TimestampOrder(a: Time, b: Time)
    requires Representable(a) && Representable(b)
    ensures Timestamp(a) < Timestamp(b) <==> Earlier(a, b)
    ensures Timestamp(a) == Timestamp(b) <==> a == b
  {
  }

  lemma Powers()
    ensures Power10(18) == 1000000000000000000
    ensures Power10(19) == 10000000000000000000
  {
    assert Power10(3) == 1000;
    assert Power10(6) == 1000000;
    assert Power10(9) == 1000000000;
    assert Power10(12) == 1000000000000;
    assert Power10(15) == 1000000000000000;
    assert Power10(18) == 1000000000000000000;
  }

  lemma RtsHas19Digits(t: Time)
    requires Representable(t)
    ensures |Rts(t)| == 19
  {
    Powers();
    assert -62135596800000000 <= Timestamp(t) <= 253402300799999999;
    DecimalLength(Reversed(t), 19);
  }

  /** The string order of reversed timestamps is the reverse of the order of time. */
  lemma RtsReversesOrder(a: Time, b: Time)
    requires Representable(a) && Representable(b)
    ensures Before(Rts(a), Rts(b)) <==> Earlier(b, a)
    ensures Rts(a) == Rts(b) <==> a == b
    ensures |Rts(a)| == |Rts(b)| == 19
  {
    RtsHas19Digits(a);
    RtsHas19Digits(b);
    DecimalOrder(Reversed(a), Reversed(b));
    TimestampOrder(a, b);
    TimestampOrder(b, a);
  }

  // ---------------------------------------------------------------- composite keys

  ghost predicate AllBytes(parts: seq<string>) {
    forall i :: 0 <= i < |parts| ==> Bytes(parts[i])
  }

  function QuoteAll(parts: seq<string>): (r: seq<string>)
    requires AllBytes(parts)
    ensures |r| == |parts| && forall i :: 0 <= i < |r| ==> r[i] == Quote(parts[i], '/')
  {
    seq(|parts|, i requires 0 <= i < |parts| => Quote(parts[i], '/'))
  }

  function UnquoteAll(parts: seq<string>): (r: seq<string>)
    ensures |r| == |parts| && forall i :: 0 <= i < |r| ==> r[i] == Unquote(parts[i])
  {
    seq(|parts|, i requires 0 <= i < |parts| => Unquote(parts[i]))
  }

  function PrepareKey(parts: seq<string>): string
    requires parts != [] && AllBytes(parts)
  {
    Join(QuoteAll(parts), ':')
  }

  /** Splitting at the separators and unquoting gives back the parts of a key. */
  lemma SplitUndoesPrepareKey(parts: seq<string>)
    requires parts != [] && AllBytes(parts)
    ensures UnquoteAll(Split(PrepareKey(parts), ':')) == parts
  {
    forall i | 0 <= i < |parts|
      ensures Unquote(Quote(parts[i], '/')) == parts[i] && ':' !in Quote(parts[i], '/')
    {
      UnquoteUndoesQuote(parts[i], '/');
      QuoteHidesColons(parts[i], '/');
    }
    SplitUndoesJoin(QuoteAll(parts), ':');
  }

  // ---------------------------------------------------------------- sample queries

  datatype Op = Eq | Lt | Le | Ne | Gt | Ge

  predicate TimeCompares(op: Op, a: Time, b: Time) {
    match op
    case Eq => a == b
    case Lt => Earlier(a, b)
    case Le => a == b || Earlier(a, b)
    case Ne => a != b
    case Gt => Earlier(b, a)
    case Ge => a == b || Earlier(b, a)
  }

  /** `SingleColumnValueFilter` on a column that is there. */
  predicate StringCompares(op: Op, a: string, b: string) {
    match op
    case Eq => a == b
    case Lt => Before(a, b)
    case Le => AtMost(a, b)
    case Ne => a != b
    case Gt => Before(b, a)
    case Ge => AtMost(b, a)
  }

  /** `OP_SIGN_REV`. */
  function SignRev(op: Op): Op {
    match op
    case Eq => Eq
    case Lt => Gt
    case Le => Ge
    case Ne => Ne
    case Gt => Lt
    case Ge => Le
  }

  /** Filtering the stored timestamps by the reversed operator is filtering the times by the operator. */
  lemma ReversedFilter(op: Op, t: Time, bound: Time)
    requires Representable(t) && Representable(bound)
    ensures StringCompares(SignRev(op), Rts(t), Rts(bound)) <==> TimeCompares(op, t, bound)
  {
    RtsReversesOrder(t, bound);
    RtsReversesOrder(bound, t);
  }

  datatype Query = Query(meter: Option<string>, start: Option<Time>, startOp: Option<Op>,
                         end: Option<Time>, endOp: Option<Op>)

  ghost predicate ValidQuery(q: Query) {
    && (q.meter.Some? ==> Bytes(q.meter.value))
    && (q.start.Some? ==> Representable(q.start.value))
    && (q.end.Some? ==> Representable(q.end.value))
  }

  function RtsOf(t: Option<Time>): (r: string)
    requires t.Some? ==> Representable(t.value)
    ensures Bytes(r)
  {
    if t.Some? then Rts(t.value) else ""
  }

  /** `make_general_rowkey_scan`: the start and the stop row of the scan. */
  function RowBounds(meter: string, rtsStart: string, rtsEnd: string): (string, string)
    requires Bytes(meter) && Bytes(rtsStart) && Bytes(rtsEnd)
  {
    (PrepareKey([meter, rtsEnd]), PrepareKey([meter, if rtsStart == "" then "z" else rtsStart]))
  }

  /** A stored sample: its meter, time and message id. */
  datatype Stored = Stored(meter: string, time: Time, message: string)

  ghost predicate ValidStored(s: Stored) {
    Bytes(s.meter) && Representable(s.time) && Bytes(s.message)
  }

  function RowKey(s: Stored): string
    requires ValidStored(s)
  {
    PrepareKey([s.meter, Rts(s.time), s.message])
  }

  /** The scan of `MTable` with the bounds and the timestamp filters of the query. */
  predicate Returned(q: Query, s: Stored)
    requires ValidQuery(q) && ValidStored(s)
  {
    && (q.meter.Some? ==>
          var (start, stop) := RowBounds(q.meter.value, RtsOf(q.start), RtsOf(q.end));
          !Before(RowKey(s), start) && !Before(stop, RowKey(s)))
    && (q.start.Some? ==> StringCompares(SignRev(q.startOp.GetOr(Ge)), Rts(s.time), Rts(q.start.value)))
    && (q.end.Some? ==> StringCompares(SignRev(q.endOp.GetOr(Lt)), Rts(s.time), Rts(q.end.value)))
  }

  lemma PrepareTwo(a: string, b: string)
    requires Bytes(a) && Bytes(b)
    ensures PrepareKey([a, b]) == (Quote(a, '/') + [':']) + Quote(b, '/')
  {
    var x, y := Quote(a, '/'), Quote(b, '/');
    assert QuoteAll([a, b]) == [x, y];
    JoinTwo(x, y, ':');
  }

  lemma PrepareThree(a: string, b: string, c: string)
    requires Bytes(a) && Bytes(b) && Bytes(c)
    ensures PrepareKey([a, b, c]) == (Quote(a, '/') + [':']) + (Quote(b, '/') + ([':'] + Quote(c, '/')))
  {
    var x, y, z := Quote(a, '/'), Quote(b, '/'), Quote(c, '/');
    assert QuoteAll([a, b, c]) == [x, y, z];
    JoinThree(x, y, z, ':');
  }

  lemma RtsNeedsNoQuoting(t: Time)
    requires Representable(t)
    ensures Bytes(Rts(t)) && Quote(Rts(t), '/') == Rts(t)
  {
    QuoteOfUnreserved(Rts(t), '/');
  }

  /** A key with something after its timestamp sorts after the bound with the same timestamp. */
  lemma LongerKeyAgainstBound(p: string, d: string, w: string, bound: string)
    requires w != [] && |bound| == |d|
    ensures Before(p + (d + w), p + bound) <==> Before(d, bound)
    ensures Before(p + bound, p + (d + w)) <==> Before(bound, d) || bound == d
  {
    BeforeWithPrefix(p, d + w, bound);
    BeforeWithPrefix(p, bound, d + w);
    assert bound + [] == bound;
    BeforeWithSuffix(d, bound, w, []);
    BeforeWithSuffix(bound, d, [], w);
  }

  lemma KeyAgainstOpenBounds(p: string, d: string, w: string)
    requires d != [] && d[0] < 'z'
    ensures !Before(p + (d + w), p + []) && !Before(p + "z", p + (d + w))
  {
    BeforeWithPrefix(p, d + w, []);
    BeforeWithPrefix(p, "z", d + w);
  }

  /** Within the rows of the meter, the bounds keep the times after the start and up to the end. */
  lemma RowBoundsOwnMeter(q: Query, s: Stored)
    requires ValidQuery(q) && ValidStored(s) && q.meter == Some(s.meter)
    ensures var (start, stop) := RowBounds(s.meter, RtsOf(q.start), RtsOf(q.end));
            && (!Before(RowKey(s), start) <==> (q.end.Some? ==> !Earlier(q.end.value, s.time)))
            && (!Before(stop, RowKey(s)) <==> (q.start.Some? ==> Earlier(q.start.value, s.time)))
  {
    var p, d, w := Quote(s.meter, '/') + [':'], Rts(s.time), [':'] + Quote(s.message, '/');
    RtsNeedsNoQuoting(s.time);
    PrepareThree(s.meter, d, s.message);
    KeyAgainstOpenBounds(p, d, w);
    PrepareTwo(s.meter, RtsOf(q.end));
    if q.end.Some? {
      RtsNeedsNoQuoting(q.end.value);
      RtsReversesOrder(s.time, q.end.value);
      LongerKeyAgainstBound(p, d, w, Rts(q.end.value));
    }
    if q.start.Some? {
      PrepareTwo(s.meter, Rts(q.start.value));
      RtsNeedsNoQuoting(q.start.value);
      RtsReversesOrder(q.start.value, s.time);
      BeforeIsTotal(Rts(q.start.value), d);
      LongerKeyAgainstBound(p, d, w, Rts(q.start.value));
    } else {
      PrepareTwo(s.meter, "z");
      QuoteOfUnreserved("z", '/');
    }
  }

  /** A key with this prefix belongs to this meter. */
  lemma PrefixTellsMeter(id: string, s: Stored)
    requires Bytes(id) && ValidStored(s) && Quote(id, '/') + [':'] <= RowKey(s)
    ensures id == s.meter
  {
    var parts := [s.meter, Rts(s.time), s.message];
    QuoteHidesColons(id, '/');
    FirstPart(RowKey(s), Quote(id, '/'), ':');
    SplitUndoesPrepareKey(parts);
    assert UnquoteAll(Split(RowKey(s), ':'))[0] == parts[0];
    UnquoteUndoesQuote(id, '/');
  }

  /** The rows of other meters lie outside the bounds. */
  lemma RowBoundsOtherMeter(q: Query, s: Stored)
    requires ValidQuery(q) && ValidStored(s) && q.meter.Some? && q.meter.value != s.meter
    ensures var (start, stop) := RowBounds(q.meter.value, RtsOf(q.start), RtsOf(q.end));
            Before(RowKey(s), start) || Before(stop, RowKey(s))
  {
    var id := q.meter.value;
    var e, b := RtsOf(q.end), if RtsOf(q.start) == "" then "z" else RtsOf(q.start);
    var (start, stop) := RowBounds(id, RtsOf(q.start), RtsOf(q.end));
    PrepareTwo(id, e);
    PrepareTwo(id, b);
    BeforeIsTotal(RowKey(s), start);
    BeforeIsTotal(stop, RowKey(s));
    if AtMost(start, RowKey(s)) && AtMost(RowKey(s), stop) {
      BetweenSharesPrefix(Quote(id, '/') + [':'], Quote(e, '/'), Quote(b, '/'), RowKey(s));
      PrefixTellsMeter(id, s);
    }
  }

  /** A query returns exactly the samples of its meter whose time satisfies both operators, except that
      with a meter given it never reaches past the end nor returns a sample at or before the start,
      even where the operator (by default `ge`) would take it. */
  lemma QueryReturnsExactly(q: Query, s: Stored)
    requires ValidQuery(q) && ValidStored(s)
    ensures Returned(q, s) <==>
              && (q.meter.Some? ==> s.meter == q.meter.value)
              && (q.start.Some? ==> TimeCompares(q.startOp.GetOr(Ge), s.time, q.start.value))
              && (q.end.Some? ==> TimeCompares(q.endOp.GetOr(Lt), s.time, q.end.value))
              && (q.meter.Some? && q.start.Some? ==> Earlier(q.start.value, s.time))
              && (q.meter.Some? && q.end.Some? ==> !Earlier(q.end.value, s.time))
  {
    if q.start.Some? {
      ReversedFilter(q.startOp.GetOr(Ge), s.time, q.start.value);
    }
    if q.end.Some? {
      ReversedFilter(q.endOp.GetOr(Lt), s.time, q.end.value);
    }
    if q.meter == Some(s.meter) {
      RowBoundsOwnMeter(q, s);
    } else if q.meter.Some? {
      RowBoundsOtherMeter(q, s);
    }
  }

  /** For the operators that make sense, only a sample at the very start is treated wrongly. */
  lemma OnlyStartIsLost(q: Query, s: Stored)
    requires ValidQuery(q) && ValidStored(s) && q.meter.Some? && q.start.Some?
    requires q.startOp.GetOr(Ge) in {Gt, Ge} && q.endOp.GetOr(Lt) in {Lt, Le}
    ensures var wanted := && s.meter == q.meter.value
                          && TimeCompares(q.startOp.GetOr(Ge), s.time, q.start.value)
                          && (q.end.Some? ==> TimeCompares(q.endOp.GetOr(Lt), s.time, q.end.value));
            (Returned(q, s) <==> wanted) <==> !(wanted && s.time == q.start.value)
  {
    QueryReturnsExactly(q, s);
  }

  // ---------------------------------------------------------------- columns of an entry

  /** One thing that goes into an entry: a source, a meter by the parts of its key, a flattened piece of
      metadata by its path, or a plain field. */
  datatype Item = Source(name: string) | Meter(parts: seq<string>) | Metadata(path: string) | Field(key: string)

  /** What `deserialize_entry` makes of a column name; a field whose name has colons becomes a tuple. */
  datatype Read = ReadSource(name: string) | ReadMeter(parts: seq<string>)
                | ReadMetadata(path: string) | ReadField(parts: seq<string>)

  ghost predicate ValidItem(item: Item) {
    match item
    case Source(name) => true
    case Meter(parts) => parts != [] && AllBytes(parts)
    case Metadata(path) => true
    case Field(key) => Bytes(key)
  }

  /** The column that `serialize_entry` writes the item to, without the column family `f:`. */
  function Qualifier(item: Item): string
    requires ValidItem(item)
  {
    match item
    case Source(name) => "s_" + name
    case Meter(parts) => "m_" + PrepareKey(parts)
    case Metadata(path) => "r_metadata." + path
    case Field(key) => Quote(key, ':')
  }

  /** The branches of `deserialize_entry`. */
  function ReadQualifier(qualifier: string): Read {
    if "s_" <= qualifier then
      ReadSource(qualifier[2..])
    else if "r_metadata." <= qualifier then
      ReadMetadata(qualifier[11..])
    else if "m_" <= qualifier then
      ReadMeter(UnquoteAll(Split(qualifier[2..], ':')))
    else
      ReadField(UnquoteAll(Split(qualifier, ':')))
  }

  /** What an item is meant to be read back as. */
  function Meant(item: Item): Read {
    match item
    case Source(name) => ReadSource(name)
    case Meter(parts) => ReadMeter(parts)
    case Metadata(path) => ReadMetadata(path)
    case Field(key) => ReadField(Split(key, ':'))
  }

  /** The names of fields that are taken for something else. */
  predicate Reserved(key: string) {
    "s_" <= key || "m_" <= key || "r_metadata." <= key
  }

  /** Quoting neither makes nor breaks a prefix of unreserved characters. */
  lemma {:induction false} QuoteKeepsPrefix(p: string, s: string)
    requires Bytes(s) && forall i :: 0 <= i < |p| ==> Unreserved(p[i])
    ensures p <= Quote(s, ':') <==> p <= s
  {
    if p != [] && s != [] {
      QuoteKeepsPrefix(p[1..], s[1..]);
      var q := QuoteByte(s[0], ':');
      var quoted := Quote(s, ':');
      assert quoted == q + Quote(s[1..], ':');
      if |q| == 1 {
        assert quoted[1..] == Quote(s[1..], ':');
        assert p <= quoted <==> p[0] == quoted[0] && p[1..] <= quoted[1..];
        assert p <= s <==> p[0] == s[0] && p[1..] <= s[1..];
      } else {
        assert quoted[0] == '%' && s[0] != p[0];
      }
    }
  }

  lemma UnquoteFirst(first: string, rest: seq<string>)
    ensures UnquoteAll([first] + rest) == [Unquote(first)] + UnquoteAll(rest)
  {
  }

  /** Reading the quoted name of a field piece by piece. */
  lemma {:induction false} SplitQuoted(key: string)
    requires Bytes(key)
    ensures UnquoteAll(Split(Quote(key, ':'), ':')) == Split(key, ':')
  {
    if key != [] {
      var c, rest := key[0], key[1..];
      SplitQuoted(rest);
      var q, tail := QuoteByte(c, ':'), Quote(rest, ':');
      var parts := Split(tail, ':');
      if c == ':' {
        assert (q + tail)[1..] == tail;
        UnquoteFirst([], parts);
      } else {
        SplitPrefixed(q, tail, ':');
        UnquoteByte(c, ':', parts[0]);
        UnquoteFirst(q + parts[0], parts[1..]);
        assert [parts[0]] + parts[1..] == parts;
        UnquoteFirst(parts[0], parts[1..]);
      }
    }
  }

  /** Everything written to an entry is read back as what it was, except the fields that look like a
      source, a meter or metadata. */
  lemma ReadUndoesQualifier(item: Item)
    requires ValidItem(item)
    ensures ReadQualifier(Qualifier(item)) == Meant(item) <==> !(item.Field? && Reserved(item.key))
  {
    var qualifier := Qualifier(item);
    match item {
      case Source(name) =>
        assert qualifier[2..] == name;
      case Meter(parts) =>
        assert qualifier[2..] == PrepareKey(parts) && qualifier[0] == 'm';
        SplitUndoesPrepareKey(parts);
      case Metadata(path) =>
        assert qualifier[11..] == path && qualifier[0] == 'r';
      case Field(key) =>
        SplitQuoted(key);
        QuoteKeepsPrefix("s_", key);
        QuoteKeepsPrefix("m_", key);
        QuoteKeepsPrefix("r_metadata.", key);
    }
  }

  // ---------------------------------------------------------------- whole entries

  /** The content of a column. */
  type Cell(==, !new)

  ghost predicate ReadBack(item: Item) {
    ValidItem(item) && !(item.Field? && Reserved(item.key))
  }

  lemma MeantApart(a: Item, b: Item)
    requires Meant(a) == Meant(b)
    ensures a == b
  {
    if a.Field? && b.Field? {
      JoinUndoesSplit(a.key, ':');
      JoinUndoesSplit(b.key, ':');
    }
  }

  /** Different items go to different columns. */
  lemma QualifiersApart(a: Item, b: Item)
    requires ReadBack(a) && ReadBack(b)
    ensures Qualifier(a) == Qualifier(b) <==> a == b
  {
    if Qualifier(a) == Qualifier(b) {
      ReadUndoesQualifier(a);
      ReadUndoesQualifier(b);
      MeantApart(a, b);
    }
  }

  ghost predicate AllReadBack(data: map<Item, Cell>) {
    forall item :: item in data ==> ReadBack(item)
  }

  /** The entry has a column for each item, and no other. */
  ghost predicate Serializes(data: map<Item, Cell>, entry: map<string, Cell>)
    requires AllReadBack(data)
  {
    && (forall item :: item in data ==> Qualifier(item) in entry && entry[Qualifier(item)] == data[item])
    && (forall q :: q in entry ==> exists item :: item in data && Qualifier(item) == q)
  }

  /** `serialize_entry`, which takes the items in any order. */
  method SerializeEntry(data: map<Item, Cell>) returns (entry: map<string, Cell>)
    requires AllReadBack(data)
    ensures Serializes(data, entry)
  {
    entry := map[];
    var todo := data.Keys;
    while todo != {}
      invariant todo <= data.Keys
      invariant forall item :: item in data && item !in todo ==>
        Qualifier(item) in entry && entry[Qualifier(item)] == data[item]
      invariant forall q :: q in entry ==> exists item :: item in data && item !in todo && Qualifier(item) == q
      decreases todo
    {
      var item :| item in todo;
      forall other | other in data && other != item
        ensures Qualifier(other) != Qualifier(item)
      {
        QualifiersApart(other, item);
      }
      entry := entry[Qualifier(item) := data[item]];
      todo := todo - {item};
    }
  }

  /** `deserialize_entry`, which takes the columns in any order; of columns that are read alike one counts. */
  method DeserializeEntry(entry: map<string, Cell>) returns (items: map<Read, Cell>)
    ensures forall q :: q in entry ==> ReadQualifier(q) in items
    ensures forall r :: r in items ==> exists q :: q in entry && ReadQualifier(q) == r && entry[q] == items[r]
  {
    items := map[];
    var todo := entry.Keys;
    while todo != {}
      invariant todo <= entry.Keys
      invariant forall q :: q in entry && q !in todo ==> ReadQualifier(q) in items
      invariant forall r :: r in items ==> exists q :: q in entry && ReadQualifier(q) == r && entry[q] == items[r]
      decreases todo
    {
      var q :| q in todo;
      items := items[ReadQualifier(q) := entry[q]];
      todo := todo - {q};
    }
  }

  /** Something read is one of the items, with its content. */
  ghost predicate ReadOf(data: map<Item, Cell>, r: Read, cell: Cell) {
    exists item :: item in data && Meant(item) == r && data[item] == cell
  }

  lemma ColumnIsItem(data: map<Item, Cell>, entry: map<string, Cell>, q: string)
    requires AllReadBack(data) && Serializes(data, entry) && q in entry
    ensures ReadOf(data, ReadQualifier(q), entry[q])
  {
    var item :| item in data && Qualifier(item) == q;
    ReadUndoesQualifier(item);
  }

  /** A whole entry is read back as it was written: the same items with the same contents, and nothing else. */
  method EntryRoundTrip(data: map<Item, Cell>) returns (items: map<Read, Cell>)
    requires AllReadBack(data)
    ensures forall item :: item in data ==> Meant(item) in items && items[Meant(item)] == data[item]
    ensures forall r :: r in items ==> ReadOf(data, r, items[r])
  {
    var entry := SerializeEntry(data);
    items := DeserializeEntry(entry);
    forall r | r in items
      ensures ReadOf(data, r, items[r])
    {
      var q :| q in entry && ReadQualifier(q) == r && entry[q] == items[r];
      ColumnIsItem(data, entry, q);
    }
    forall item | item in data
      ensures Meant(item) in items && items[Meant(item)] == data[item]
    {
      ReadUndoesQualifier(item);
      assert Qualifier(item) in entry;
      ItemIsRead(data, items, item);
    }
  }

  lemma ItemIsRead(data: map<Item, Cell>, items: map<Read, Cell>, item: Item)
    requires item in data && Meant(item) in items && ReadOf(data, Meant(item), items[Meant(item)])
    ensures items[Meant(item)] == data[item]
  {
    var other :| other in data && Meant(other) == Meant(item) && data[other] == items[Meant(item)];
    MeantApart(item, other);
  }
}
