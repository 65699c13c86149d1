/**
 * The pieces of Python's `str` behaviour that the ORCA-output parsers rely on:
 * `sub in s`, `s.strip()`, `s.split()`, `s.isdigit()`, `int(s)` on a digit string
 * and `sep.join(parts)`. Characters are classified in ASCII only.
 */
module Text {

  /** `c.isspace()` for the ASCII range: space, tab, line feed, carriage return,
      vertical tab, form feed and the four separators 0x1C-0x1F. */
  predicate IsSpace(c: char) {
    c == ' ' || c == '\t' || c == '\n' || c == '\r' || c == '\U{B}' || c == '\U{C}'
    || ('\U{1C}' <= c <= '\U{1F}')
  }

  predicate NotSpace(c: char) { !IsSpace(c) }

  /** `c.isdigit()` (and the regex class `\d`) for ASCII. */
  predicate IsDigit(c: char) { '0' <= c <= '9' }

  /** The regex class `\w` for ASCII: letters, digits and underscore. */
  predicate IsWordChar(c: char) {
    IsDigit(c) || ('a' <= c <= 'z') || ('A' <= c <= 'Z') || c == '_'
  }

  predicate AllSpace(s: string) {
    forall i :: 0 <= i < |s| ==> IsSpace(s[i])
  }

  predicate StartsWith(s: string, p: string) {
    |p| <= |s| && s[..|p|] == p
  }

  /** Python's substring test `p in s`. */
  predicate Contains(s: string, p: string)
    decreases |s|
  {
    StartsWith(s, p) || (|s| > 0 && Contains(s[1..], p))
  }

  /** Length of the longest prefix of `s` whose characters all satisfy `P`. */
  function Span(s: string, P: char -> bool): (n: nat)
    ensures n <= |s|
    ensures forall i :: 0 <= i < n ==> P(s[i])
    ensures n < |s| ==> !P(s[n])
  {
    if |s| > 0 && P(s[0]) then 1 + Span(s[1..], P) else 0
  }

  /** A prefix whose characters all satisfy `P` adds its length to the span. */
  lemma {:induction false} SpanAppend(a: string, b: string, P: char -> bool)
    requires forall i :: 0 <= i < |a| ==> P(a[i])
    ensures Span(a + b, P) == |a| + Span(b, P)
    ensures (a + b)[|a|..] == b && (a + b)[..|a|] == a
  {
    if a != [] {
      assert (a + b)[1..] == a[1..] + b;
      SpanAppend(a[1..], b, P);
    } else {
      assert a + b == b;
    }
  }

  /** A span that ends inside `a` does not depend on what follows `a`. */
  lemma {:induction false} SpanPrefix(a: string, b: string, P: char -> bool)
    requires Span(a, P) < |a|
    ensures Span(a + b, P) == Span(a, P)
  {
    assert (a + b)[0] == a[0];
    if P(a[0]) {
      assert (a + b)[1..] == a[1..] + b;
      SpanPrefix(a[1..], b, P);
    }
  }

  /** Length of the longest suffix of `s` whose characters are all whitespace. */
  function TrailingSpaces(s: string): (n: nat)
    ensures n <= |s|
    ensures forall i :: |s| - n <= i < |s| ==> IsSpace(s[i])
    ensures n < |s| ==> !IsSpace(s[|s| - n - 1])
  {
    if |s| > 0 && IsSpace(s[|s| - 1]) then 1 + TrailingSpaces(s[..|s| - 1]) else 0
  }

  /** `s.strip()`: `s` without its leading and trailing whitespace. */
  function Strip(s: string): (r: string) {
    var t := s[Span(s, IsSpace)..];
    t[..|t| - TrailingSpaces(t)]
  }

  /** `Strip` gives the empty string exactly on all-whitespace input. */
  lemma StripEmpty(s: string)
    ensures Strip(s) == [] <==> AllSpace(s)
  {
    var a := Span(s, IsSpace);
    var t := s[a..];
    if a < |s| {
      assert t[0] == s[a];
      assert TrailingSpaces(t) < |t|;
      assert !AllSpace(s);
    } else {
      assert s[..a] == s;
    }
  }

  /** A non-empty `Strip` result starts and ends with a non-space character. */
  lemma StripEnds(s: string)
    ensures Strip(s) != [] ==> NotSpace(Strip(s)[0]) && NotSpace(Strip(s)[|Strip(s)| - 1])
  {
    var a := Span(s, IsSpace);
    var t := s[a..];
    var b := TrailingSpaces(t);
    var r := Strip(s);
    assert r == t[..|t| - b];
    if r != [] {
      assert r[0] == s[a];
      assert r[|r| - 1] == t[|t| - b - 1];
    }
  }

  /** `Strip(s)` is a window of `s` with only whitespace around it. */
  lemma StripWindow(s: string)
    ensures exists i :: 0 <= i <= |s| - |Strip(s)| && Strip(s) == s[i..i + |Strip(s)|]
                        && AllSpace(s[..i]) && AllSpace(s[i + |Strip(s)|..])
  {
    var a := Span(s, IsSpace);
    var t := s[a..];
    var b := TrailingSpaces(t);
    var n := |t| - b;
    var r := Strip(s);
    assert r == t[..n];
    assert |r| == n;
    assert r == s[a..a + n];
    assert AllSpace(s[..a]) by {
      forall k | 0 <= k < a ensures IsSpace(s[..a][k]) {
        assert s[..a][k] == s[k];
      }
    }
    var tail := s[a + n..];
    assert AllSpace(tail) by {
      forall k | 0 <= k < |tail| ensures IsSpace(tail[k]) {
        assert tail[k] == t[n + k];
      }
    }
    assert 0 <= a <= |s| - |r| && r == s[a..a + |r|] && AllSpace(s[..a]) && AllSpace(s[a + |r|..]);
  }

  /** `Strip` removes only whitespace, from both ends, and leaves non-space ends. */
  lemma StripSpec(s: string)
    ensures |Strip(s)| <= |s|
    ensures Strip(s) == [] <==> AllSpace(s)
    ensures Strip(s) != [] ==> NotSpace(Strip(s)[0]) && NotSpace(Strip(s)[|Strip(s)| - 1])
    ensures exists i :: 0 <= i <= |s| - |Strip(s)| && Strip(s) == s[i..i + |Strip(s)|]
                        && AllSpace(s[..i]) && AllSpace(s[i + |Strip(s)|..])
  {
    StripEmpty(s);
    StripEnds(s);
    StripWindow(s);
  }

  /** `s.split()` with no argument: the maximal runs of non-whitespace characters, in order. */
  function Split(s: string): (r: seq<string>)
    decreases |s|, 1
  {
    Words(s[Span(s, IsSpace)..])
  }

  /** `split()` of a string that is empty or starts with a non-space: its
      first run, then the split of the rest. */
  function Words(t: string): (r: seq<string>)
    requires t == [] || NotSpace(t[0])
    decreases |t|, 0
  {
    if t == [] then []
    else
      var n := Span(t, NotSpace);
      [t[..n]] + Split(t[n..])
  }

  /** Every token of `Split` is non-empty and free of whitespace. */
  lemma {:induction false} SplitSpec(s: string)
    ensures forall k :: 0 <= k < |Split(s)| ==> Split(s)[k] != [] && forall c :: c in Split(s)[k] ==> NotSpace(c)
    decreases |s|
  {
    var t := s[Span(s, IsSpace)..];
    if t != [] {
      var n := Span(t, NotSpace);
      assert Split(s) == [t[..n]] + Split(t[n..]);
      SplitSpec(t[n..]);
      assert t[..n][0] == t[0];
    }
  }

  /** Leading whitespace does not change the split. */
  lemma SplitSkip(ws: string, t: string)
    requires AllSpace(ws)
    ensures Split(ws + t) == Split(t)
  {
    SpanAppend(ws, t, IsSpace);
    var k := Span(t, IsSpace);
    assert (ws + t)[|ws| + k..] == t[k..];
  }

  /** `split()` gives no tokens exactly on all-whitespace input. */
  lemma SplitEmpty(s: string)
    ensures Split(s) == [] <==> AllSpace(s)
  {
  }

  /** A non-empty run of non-space characters splits into itself. */
  lemma SplitWord(w: string)
    requires w != [] && forall i :: 0 <= i < |w| ==> NotSpace(w[i])
    ensures Split(w) == [w]
  {
    SpanAppend(w, [], NotSpace);
    assert w + [] == w;
    assert Split(w) == Words(w);
    assert Words(w) == [w[..|w|]] + Split(w[|w|..]);
    assert Split([]) == [];
  }

  /** Past its leading whitespace, a string holding a token splits as
      `Words`, whatever follows it. */
  lemma SplitOnto(a: string, v: string)
    requires Span(a, IsSpace) < |a|
    ensures Split(a + v) == Words(a[Span(a, IsSpace)..] + v)
  {
    var k := Span(a, IsSpace);
    SpanPrefix(a, v, IsSpace);
    assert (a + v)[k..] == a[k..] + v;
  }

  /** A token of `u` is not extended by text that starts with whitespace. */
  lemma TokenSpan(u: string, v: string)
    requires v == [] || IsSpace(v[0])
    ensures Span(u + v, NotSpace) == Span(u, NotSpace)
  {
    if Span(u, NotSpace) < |u| {
      SpanPrefix(u, v, NotSpace);
    } else {
      SpanAppend(u, v, NotSpace);
    }
  }

  /** `Words` of a string that starts with a non-space: its first token, then
      the split of the rest. */
  lemma WordsUnfold(t: string)
    requires t != [] && NotSpace(t[0])
    ensures Words(t) == [t[..Span(t, NotSpace)]] + Split(t[Span(t, NotSpace)..])
  {
  }

  /** The first token of `u` stays the first token when text starting with
      whitespace follows. */
  lemma WordsOnto(u: string, v: string)
    requires u != [] && NotSpace(u[0])
    requires v == [] || IsSpace(v[0])
    ensures Words(u + v) == [u[..Span(u, NotSpace)]] + Split(u[Span(u, NotSpace)..] + v)
  {
    var n := Span(u, NotSpace);
    TokenSpan(u, v);
    WordsUnfold(u + v);
    assert (u + v)[..n] == u[..n];
    assert (u + v)[n..] == u[n..] + v;
  }

  /** A string holding a token splits into its first token, then the split
      of what follows that token. */
  lemma SplitFirst(a: string)
    requires Span(a, IsSpace) < |a|
    ensures var u := a[Span(a, IsSpace)..];
      && 0 < Span(u, NotSpace)
      && Split(a) == [u[..Span(u, NotSpace)]] + Split(u[Span(u, NotSpace)..])
  {
    var u := a[Span(a, IsSpace)..];
    assert u[0] == a[Span(a, IsSpace)];
    WordsUnfold(u);
  }

  /** The same first token when text starting with whitespace follows `a`. */
  lemma SplitFirstOnto(a: string, v: string)
    requires Span(a, IsSpace) < |a|
    requires v == [] || IsSpace(v[0])
    ensures var u := a[Span(a, IsSpace)..];
      Split(a + v) == [u[..Span(u, NotSpace)]] + Split(u[Span(u, NotSpace)..] + v)
  {
    var u := a[Span(a, IsSpace)..];
    assert u[0] == a[Span(a, IsSpace)];
    SplitOnto(a, v);
    WordsOnto(u, v);
  }

  /** Whitespace before a whitespace character contributes no token. */
  lemma SplitBlankLead(a: string, c: char, b: string)
    requires IsSpace(c) && Span(a, IsSpace) == |a|
    ensures Split(a + [c] + b) == Split(a) + Split(b)
  {
    assert AllSpace(a + [c]);
    SplitSkip(a + [c], b);
    SplitEmpty(a);
  }

  /** Peels the first token `w` off `a`, both alone and with whitespace and
      `b` after it; `r` is what follows the token. */
  lemma SplitTokenStep(a: string, c: char, b: string) returns (w: string, r: string)
    requires IsSpace(c) && Span(a, IsSpace) < |a|
    ensures |r| < |a|
    ensures Split(a) == [w] + Split(r)
    ensures Split(a + [c] + b) == [w] + Split(r + [c] + b)
  {
    var u := a[Span(a, IsSpace)..];
    var n := Span(u, NotSpace);
    w, r := u[..n], u[n..];
    SplitFirst(a);
    var v := [c] + b;
    assert a + [c] + b == a + v;
    assert r + v == r + [c] + b;
    SplitFirstOnto(a, v);
  }

  /** Splitting at a whitespace character gives the tokens of the two sides,
      in order. With `SplitEmpty` and `SplitWord` this fixes `split()` on
      every string. */
  lemma {:induction false} SplitAtSpace(a: string, c: char, b: string)
    requires IsSpace(c)
    ensures Split(a + [c] + b) == Split(a) + Split(b)
    decreases |a|
  {
    if Span(a, IsSpace) == |a| {
      SplitBlankLead(a, c, b);
    } else {
      var w, r := SplitTokenStep(a, c, b);
      SplitAtSpace(r, c, b);
    }
  }

  /** `s.isdigit()`: non-empty and made of decimal digits only. */
  predicate IsDigits(s: string) {
    |s| > 0 && forall i :: 0 <= i < |s| ==> IsDigit(s[i])
  }

  function DigitValue(c: char): (r: nat)
    requires IsDigit(c)
  {
    c as int - '0' as int
  }

  /** `int(s)` for a string of decimal digits. */
  function DigitsValue(s: string): (r: nat)
    requires forall i :: 0 <= i < |s| ==> IsDigit(s[i])
  {
    if |s| == 0 then 0 else 10 * DigitsValue(s[..|s| - 1]) + DigitValue(s[|s| - 1])
  }

  /** `str(n)`: the decimal rendering of a natural number, the inverse of `DigitsValue`. */
  function NatToDigits(n: nat): (r: string)
    ensures IsDigits(r)
    ensures DigitsValue(r) == n
  {
    var last := ('0' as int + n % 10) as char;
    if n < 10 then [last]
    else
      var r := NatToDigits(n / 10) + [last];
      assert r[..|r| - 1] == NatToDigits(n / 10);
      r
  }

  /** `sep.join(parts)`. */
  function Join(parts: seq<string>, sep: string): (r: string) {
    if |parts| == 0 then ""
    else if |parts| == 1 then parts[0]
    else parts[0] + sep + Join(parts[1..], sep)
  }
}
