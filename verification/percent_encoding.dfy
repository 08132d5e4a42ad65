/** Percent-encoding as in section 2.1 of RFC 3986, the way Python's `urllib` does it. */
module PercentEncoding {
  import opened Wrappers

  /** Text as its UTF-8 bytes, one character each. */
  predicate Bytes(s: string) {
    forall i :: 0 <= i < |s| ==> s[i] < 256 as char
  }

  predicate Unreserved(c: char) {
    'a' <= c <= 'z' || 'A' <= c <= 'Z' || '0' <= c <= '9' || c == '_' || c == '.' || c == '-'
  }

  function HexDigit(n: nat): (c: char)
    requires n < 16
    ensures HexValue(c) == Some(n) && c != ':'
  {
    "0123456789ABCDEF"[n]
  }

  function HexValue(c: char): (r: Option<nat>)
    ensures r.Some? ==> r.value < 16
  {
    if '0' <= c <= '9' then Some(c as int - '0' as int)
    else if 'A' <= c <= 'F' then Some(c as int - 'A' as int + 10)
    else if 'a' <= c <= 'f' then Some(c as int - 'a' as int + 10)
    else None
  }

  function QuoteByte(c: char, safe: char): (r: string)
    requires c < 256 as char
    ensures r != []
  {
    if Unreserved(c) || c == safe then [c] else ['%', HexDigit(c as int / 16), HexDigit(c as int % 16)]
  }

  /** `urllib.quote` with one extra safe character. */
  function Quote(s: string, safe: char): string
    requires Bytes(s)
  {
    if s == [] then [] else QuoteByte(s[0], safe) + Quote(s[1..], safe)
  }

  /** `urllib.unquote`: percent signs that do not start an escape stay. */
  function Unquote(s: string): string {
    if s == [] then []
    else if s[0] == '%' && |s| >= 3 && HexValue(s[1]).Some? && HexValue(s[2]).Some? then
      [(16 * HexValue(s[1]).value + HexValue(s[2]).value) as char] + Unquote(s[3..])
    else
      [s[0]] + Unquote(s[1..])
  }

  lemma UnquoteByte(c: char, safe: char, rest: string)
    requires c < 256 as char && safe != '%'
    ensures Unquote(QuoteByte(c, safe) + rest) == [c] + Unquote(rest)
  {
    var q := QuoteByte(c, safe);
    if |q| == 1 {
      assert (q + rest)[0] == c != '%' && (q + rest)[1..] == rest;
    } else {
      var high, low := c as int / 16, c as int % 16;
      assert (q + rest)[0] == '%' && (q + rest)[1] == HexDigit(high) && (q + rest)[2] == HexDigit(low);
      assert (q + rest)[3..] == rest;
      assert 16 * high + low == c as int;
    }
  }

  lemma {:induction false} UnquoteUndoesQuote(s: string, safe: char)
    requires Bytes(s) && safe != '%'
    ensures Unquote(Quote(s, safe)) == s
  {
    if s != [] {
      UnquoteByte(s[0], safe, Quote(s[1..], safe));
      UnquoteUndoesQuote(s[1..], safe);
      assert s == [s[0]] + s[1..];
    }
  }

  /** Quoted text has only letters, digits and a few marks, with '%' in front of two of them. */
  lemma {:induction false} QuotedCharacters(s: string, safe: char)
    requires Bytes(s)
    ensures forall c :: c in Quote(s, safe) ==>
      'a' <= c <= 'z' || 'A' <= c <= 'Z' || '0' <= c <= '9' || c in {'_', '.', '-', '%', safe}
  {
    if s != [] {
      QuotedCharacters(s[1..], safe);
    }
  }

  lemma {:induction false} QuoteHidesColons(s: string, safe: char)
    requires Bytes(s) && safe != ':'
    ensures ':' !in Quote(s, safe)
  {
    if s != [] {
      QuoteHidesColons(s[1..], safe);
    }
  }

  lemma {:induction false} QuoteOfUnreserved(s: string, safe: char)
    requires Bytes(s) && forall i :: 0 <= i < |s| ==> Unreserved(s[i]) || s[i] == safe
    ensures Quote(s, safe) == s
  {
    if s != [] {
      QuoteOfUnreserved(s[1..], safe);
    }
  }
}
