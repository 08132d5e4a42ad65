/** Strings: their lexicographic order, decimal numerals, and splitting and joining. */
module Text {
  // ---------------------------------------------------------------- order

  predicate Before(a: string, b: string) {
    if a == [] || b == [] then a == [] && b != []
    else if a[0] != b[0] then a[0] < b[0]
    else Before(a[1..], b[1..])
  }

  lemma {:induction false} BeforeIsTotal(a: string, b: string)
    ensures Before(a, b) || Before(b, a) || a == b
    ensures !(Before(a, b) && Before(b, a)) && !Before(a, a)
  {
    if a != [] && b != [] {
      BeforeIsTotal(a[1..], b[1..]);
      assert a == [a[0]] + a[1..] && b == [b[0]] + b[1..];
    } else if a != [] {
      BeforeIsTotal(a[1..], a[1..]);
    }
  }

  lemma {:induction false} BeforeIsTransitive(a: string, b: string, c: string)
    requires Before(a, b) && Before(b, c)
    ensures Before(a, c)
  {
    if a != [] && a[0] == b[0] == c[0] {
      BeforeIsTransitive(a[1..], b[1..], c[1..]);
    }
  }

  lemma {:induction false} BeforeWithPrefix(p: string, a: string, b: string)
    ensures Before(p + a, p + b) <==> Before(a, b)
  {
    if p == [] {
      assert p + a == a && p + b == b;
    } else {
      BeforeWithPrefix(p[1..], a, b);
      assert (p + a)[1..] == p[1..] + a && (p + b)[1..] == p[1..] + b;
    }
  }

  /** Between strings of the same length the first difference decides, whatever follows. */
  lemma {:induction false} BeforeWithSuffix(a: string, b: string, x: string, y: string)
    requires |a| == |b|
    ensures Before(a + x, b + y) <==> Before(a, b) || (a == b && Before(x, y))
  {
    if a == [] {
      assert a + x == x && b + y == y;
    } else {
      BeforeWithSuffix(a[1..], b[1..], x, y);
      assert (a + x)[1..] == a[1..] + x && (b + y)[1..] == b[1..] + y;
      assert a == b <==> a[0] == b[0] && a[1..] == b[1..];
    }
  }

  /** The first of some names in that order. */
  method FirstName(names: set<string>) returns (first: string)
    requires names != {}
    ensures first in names && forall n :: n in names && n != first ==> Before(first, n)
  {
    first :| first in names;
    var rest := names - {first};
    while rest != {}
      invariant rest <= names && first in names
      invariant forall n :: n in names && n !in rest && n != first ==> Before(first, n)
      decreases rest
    {
      var n :| n in rest;
      BeforeIsTotal(n, first);
      if Before(n, first) {
        forall m | m in names && m !in rest && m != first
          ensures Before(n, m)
        {
          BeforeIsTransitive(n, first, m);
        }
        first := n;
      }
      rest := rest - {n};
    }
  }

  predicate AtMost(a: string, b: string) {
    a == b || Before(a, b)
  }

  /** What lies between two strings with a common prefix has that prefix. */
  lemma {:induction false} BetweenSharesPrefix(p: string, a: string, b: string, s: string)
    requires AtMost(p + a, s) && AtMost(s, p + b)
    ensures p <= s
  {
    if p != [] {
      assert (p + a)[1..] == p[1..] + a && (p + b)[1..] == p[1..] + b;
      assert s != [] && s[0] == p[0];
      BetweenSharesPrefix(p[1..], a, b, s[1..]);
    }
  }

  // ---------------------------------------------------------------- decimal numerals

  function Decimal(n: nat): (r: string)
    ensures |r| >= 1 && forall i :: 0 <= i < |r| ==> '0' <= r[i] <= '9'
  {
    if n < 10 then [('0' as int + n) as char] else Decimal(n / 10) + [('0' as int + n % 10) as char]
  }

  function Power10(k: nat): (p: nat)
    ensures p >= 1
  {
    if k == 0 then 1 else 10 * Power10(k - 1)
  }

  lemma {:induction false} DecimalLength(n: nat, digits: nat)
    requires digits >= 1 && n < Power10(digits) && (digits > 1 ==> Power10(digits - 1) <= n)
    ensures |Decimal(n)| == digits
  {
    if digits > 1 {
      DecimalLength(n / 10, digits - 1);
    }
  }

  /** Numerals of the same length compare as the numbers do. */
  lemma {:induction false} DecimalOrder(a: nat, b: nat)
    requires |Decimal(a)| == |Decimal(b)|
    ensures Before(Decimal(a), Decimal(b)) <==> a < b
    ensures Decimal(a) == Decimal(b) <==> a == b
  {
    if a >= 10 && b >= 10 {
      DecimalOrder(a / 10, b / 10);
      var x, y := [('0' as int + a % 10) as char], [('0' as int + b % 10) as char];
      BeforeWithSuffix(Decimal(a / 10), Decimal(b / 10), x, y);
      assert Decimal(a)[..|Decimal(a)| - 1] == Decimal(a / 10);
      assert Decimal(b)[..|Decimal(b)| - 1] == Decimal(b / 10);
      assert Before(x, y) <==> a % 10 < b % 10;
    }
  }

  // ---------------------------------------------------------------- splitting and joining

  function Split(s: string, sep: char): (r: seq<string>)
    ensures |r| >= 1 && forall i :: 0 <= i < |r| ==> sep !in r[i]
  {
    if s == [] then [[]]
    else
      var rest := Split(s[1..], sep);
      if s[0] == sep then [[]] + rest else [[s[0]] + rest[0]] + rest[1..]
  }

  function Join(parts: seq<string>, sep: char): string
    requires parts != []
  {
    if |parts| == 1 then parts[0] else parts[0] + ([sep] + Join(parts[1..], sep))
  }

  lemma {:induction false} SplitOfWord(a: string, sep: char)
    requires sep !in a
    ensures Split(a, sep) == [a]
  {
    if a != [] {
      SplitOfWord(a[1..], sep);
      assert [a[0]] + a[1..] == a;
    }
  }

  lemma {:induction false} SplitAtFirst(a: string, rest: string, sep: char)
    requires sep !in a
    ensures Split(a + ([sep] + rest), sep) == [a] + Split(rest, sep)
  {
    if a == [] {
      assert a + ([sep] + rest) == [sep] + rest && ([sep] + rest)[1..] == rest;
    } else {
      var s := a + ([sep] + rest);
      SplitAtFirst(a[1..], rest, sep);
      assert s[1..] == a[1..] + ([sep] + rest);
      assert Split(s, sep) == [[a[0]] + a[1..]] + Split(rest, sep);
      assert [a[0]] + a[1..] == a;
    }
  }

  lemma FirstPart(s: string, name: string, sep: char)
    requires sep !in name && name + [sep] <= s
    ensures Split(s, sep)[0] == name
  {
    var rest := s[|name| + 1..];
    assert s == (name + [sep]) + rest;
    assert (name + [sep]) + rest == name + ([sep] + rest);
    SplitAtFirst(name, rest, sep);
  }

  /** Characters in front go to the first part. */
  lemma {:induction false} SplitPrefixed(a: string, s: string, sep: char)
    requires sep !in a
    ensures Split(a + s, sep) == [a + Split(s, sep)[0]] + Split(s, sep)[1..]
  {
    var parts := Split(s, sep);
    if a == [] {
      assert a + s == s && a + parts[0] == parts[0] && [parts[0]] + parts[1..] == parts;
    } else {
      SplitPrefixed(a[1..], s, sep);
      assert (a + s)[1..] == a[1..] + s;
      var rest := [a[1..] + parts[0]] + parts[1..];
      assert rest[1..] == parts[1..];
      assert [a[0]] + (a[1..] + parts[0]) == a + parts[0];
    }
  }

  lemma {:induction false} SplitUndoesJoin(parts: seq<string>, sep: char)
    requires parts != [] && forall i :: 0 <= i < |parts| ==> sep !in parts[i]
    ensures Split(Join(parts, sep), sep) == parts
  {
    if |parts| == 1 {
      SplitOfWord(parts[0], sep);
    } else {
      SplitUndoesJoin(parts[1..], sep);
      SplitAtFirst(parts[0], Join(parts[1..], sep), sep);
    }
  }

  lemma {:induction false} JoinUndoesSplit(s: string, sep: char)
    ensures Join(Split(s, sep), sep) == s
  {
    if s != [] {
      JoinUndoesSplit(s[1..], sep);
      var rest := Split(s[1..], sep);
      if s[0] == sep {
        assert ([[]] + rest)[1..] == rest;
      } else {
        var parts := [[s[0]] + rest[0]] + rest[1..];
        assert parts[1..] == rest[1..];
      }
    }
  }

  lemma JoinTwo(a: string, b: string, sep: char)
    ensures Join([a, b], sep) == (a + [sep]) + b
  {
    assert [a, b][1..] == [b];
    assert (a + [sep]) + b == a + ([sep] + b);
  }

  lemma JoinThree(a: string, b: string, c: string, sep: char)
    ensures Join([a, b, c], sep) == (a + [sep]) + (b + ([sep] + c))
  {
    assert [a, b, c][1..] == [b, c] && [b, c][1..] == [c];
    assert Join([b, c], sep) == b + ([sep] + c);
    assert (a + [sep]) + (b + ([sep] + c)) == a + ([sep] + (b + ([sep] + c)));
  }
}
