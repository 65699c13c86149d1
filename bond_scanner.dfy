/**
 * A hand-written scanner equivalent to `re.findall` with the bond-order pattern
 *
 *     B\(\s*(\d+)-\w+\s*,\s*(\d+)-\w+\s*\)\s*:\s*([\d\.]+)
 *
 * Every repetition in the pattern is followed by a character its own class
 * excludes, so greedy matching needs no backtracking: each repetition is the
 * maximal run of its class. The scanner works on suffixes of the text: a match
 * returns the text that follows it, and `FindAll` resumes there, as `findall`
 * resumes after a non-empty match.
 */
module BondScanner {
  import opened Text
  import opened Outcomes

  /** One match: the two captured atom numbers (as `int(...)` gives them) and
      the captured bond-order text. */
  datatype BondMatch = BondMatch(atom1: nat, atom2: nat, order: string)

  /** The regex class `[\d\.]`. */
  predicate IsNumberChar(c: char) { IsDigit(c) || c == '.' }

  /** Text the group `([\d\.]+)` can capture. */
  predicate IsNumberText(v: string) {
    v != [] && forall i :: 0 <= i < |v| ==> IsNumberChar(v[i])
  }

  /** Drops the maximal prefix of characters satisfying `P`. */
  function Skip(s: string, P: char -> bool): (r: string)
    ensures |r| <= |s| && r == s[|s| - |r|..]
  {
    s[Span(s, P)..]
  }

  /** The sub-pattern `\s*(\d+)-\w+\s*`: an atom number, its element symbol and
      the surrounding whitespace. Gives the number and the rest of `s`. */
  function AtomRef(s: string): (r: Option<(nat, string)>)
    ensures r.Some? ==> |r.value.1| + 3 <= |s|
  {
    var s1 := Skip(s, IsSpace);
    var d := Span(s1, IsDigit);
    if d == 0 || !StartsWith(s1[d..], "-") then None
    else
      var s2 := s1[d + 1..];
      var w := Span(s2, IsWordChar);
      if w == 0 then None
      else Some((DigitsValue(s1[..d]), Skip(s2[w..], IsSpace)))
  }

  /** The sub-pattern `\s*:\s*([\d\.]+)`. Gives the captured text and the rest of `s`. */
  function OrderText(s: string): (r: Option<(string, string)>)
    ensures r.Some? ==> |r.value.1| + 2 <= |s| && IsNumberText(r.value.0)
  {
    var s1 := Skip(s, IsSpace);
    if !StartsWith(s1, ":") then None
    else
      var s2 := Skip(s1[1..], IsSpace);
      var n := Span(s2, IsNumberChar);
      if n == 0 then None else Some((s2[..n], s2[n..]))
  }

  /** Tries the whole pattern at the start of `s`; on success gives the match and the rest of `s`. */
  function MatchAt(s: string): (r: Option<(BondMatch, string)>)
    ensures r.Some? ==> |r.value.1| + 12 <= |s| && IsNumberText(r.value.0.order)
  {
    if |s| < 2 || s[0] != 'B' || s[1] != '(' then None else AfterOpen(s[2..])
  }

  /** The pattern after `B\(`: the first atom reference and the comma. */
  function AfterOpen(s: string): (r: Option<(BondMatch, string)>)
    ensures r.Some? ==> |r.value.1| + 10 <= |s| && IsNumberText(r.value.0.order)
  {
    match AtomRef(s)
    case None => None
    case Some((a, r1)) => if !StartsWith(r1, ",") then None else AfterComma(a, r1[1..])
  }

  /** The pattern after the comma, the first atom number being `a`: the second
      atom reference, `\)` and the order. */
  function AfterComma(a: nat, s: string): (r: Option<(BondMatch, string)>)
    ensures r.Some? ==> |r.value.1| + 6 <= |s| && r.value.0.atom1 == a && IsNumberText(r.value.0.order)
  {
    match AtomRef(s)
    case None => None
    case Some((b, r2)) =>
      if !StartsWith(r2, ")") then None
      else match OrderText(r2[1..])
        case None => None
        case Some((v, r3)) => Some((BondMatch(a, b, v), r3))
  }

  /** `re.findall(pattern, s)`: all non-overlapping matches, left to right.
      Every match takes at least the 12 characters of `B(0-X,0-X):0`. */
  function FindAll(s: string): (r: seq<BondMatch>)
    ensures 12 * |r| <= |s|
    decreases |s|
  {
    if s == [] then []
    else match MatchAt(s)
      case Some((m, rest)) => [m] + FindAll(rest)
      case None => FindAll(s[1..])
  }

  /** Every match's captured order is a non-empty run of digits and dots. */
  predicate IsNumberTexts(ms: seq<BondMatch>) {
    forall i :: 0 <= i < |ms| ==> IsNumberText(ms[i].order)
  }

  lemma ConsNumberTexts(m: BondMatch, ms: seq<BondMatch>)
    requires IsNumberText(m.order) && IsNumberTexts(ms)
    ensures IsNumberTexts([m] + ms)
  {
    assert forall i :: 0 < i <= |ms| ==> ([m] + ms)[i] == ms[i - 1];
  }

  /** Every order `findall` captures is a non-empty run of digits and dots,
      as the group `([\d\.]+)` demands. */
  lemma {:induction false} FindAllOrders(s: string)
    ensures IsNumberTexts(FindAll(s))
    decreases |s|
  {
    if s != [] {
      var r := MatchAt(s);
      if r.Some? {
        FindAllOrders(r.value.1);
        FindAllAfterMatch(s, r.value.0, r.value.1);
        ConsNumberTexts(r.value.0, FindAll(r.value.1));
      } else {
        FindAllOrders(s[1..]);
      }
    }
  }

  // ---------------------------------------------------------------------------
  // Round trip: scanning the printed form of bond-order entries recovers them.
  // ---------------------------------------------------------------------------

  /** The whitespace around the parts of one printed entry, slot by slot: ORCA
      prints `B(  0-O ,  1-H ) :   1.4434`, padding the atom numbers and the
      order to fixed widths, and `after` separates the entry from the next. */
  datatype Layout = Layout(
    beforeRef1: string, afterRef1: string,
    beforeRef2: string, afterRef2: string,
    beforeColon: string, afterColon: string,
    after: string)

  /** Every slot of the layout holds whitespace only, which is what each
      `\s*` of the pattern accepts. */
  predicate Blank(l: Layout) {
    && AllSpace(l.beforeRef1) && AllSpace(l.afterRef1)
    && AllSpace(l.beforeRef2) && AllSpace(l.afterRef2)
    && AllSpace(l.beforeColon) && AllSpace(l.afterColon)
    && AllSpace(l.after)
  }

  /** One entry of ORCA's "Mayer bond orders larger than" block, with the
      whitespace it is printed with. */
  datatype BondEntry = BondEntry(atom1: nat, label1: string, atom2: nat, label2: string, order: string, layout: Layout)

  predicate WellFormed(e: BondEntry) {
    && e.label1 != [] && (forall i :: 0 <= i < |e.label1| ==> IsWordChar(e.label1[i]))
    && e.label2 != [] && (forall i :: 0 <= i < |e.label2| ==> IsWordChar(e.label2[i]))
    && IsNumberText(e.order)
    && Blank(e.layout)
  }

  /** The printed form `<pre>i-X<post>` of one atom reference, followed by `rest`. */
  function RefOnto(pre: string, n: nat, elem: string, post: string, rest: string): (r: string) {
    pre + (NatToDigits(n) + ("-" + (elem + (post + rest))))
  }

  /** The printed form `<pre>:<post>v` of a bond order, followed by `rest`. */
  function OrderOnto(pre: string, post: string, v: string, rest: string): (r: string) {
    pre + (":" + (post + (v + rest)))
  }

  /** The printed form `B( i-X , j-Y ) : v` of an entry, followed by `rest`. */
  function RenderOnto(e: BondEntry, rest: string): (r: string) {
    var l := e.layout;
    "B(" + RefOnto(l.beforeRef1, e.atom1, e.label1, l.afterRef1,
             "," + RefOnto(l.beforeRef2, e.atom2, e.label2, l.afterRef2,
                     ")" + OrderOnto(l.beforeColon, l.afterColon, e.order, rest)))
  }

  /** The printed forms of several entries, each followed by its separator. */
  function RenderAll(es: seq<BondEntry>): (r: string) {
    if es == [] then "" else RenderOnto(es[0], es[0].layout.after + RenderAll(es[1..]))
  }

  function MatchOf(e: BondEntry): (r: BondMatch) {
    BondMatch(e.atom1, e.atom2, e.order)
  }

  function Matches(es: seq<BondEntry>): (r: seq<BondMatch>) {
    if es == [] then [] else [MatchOf(es[0])] + Matches(es[1..])
  }

  /** A run of `P` characters ended by a non-`P` character (or the end) is the
      whole span. */
  lemma SpanOver(a: string, b: string, P: char -> bool)
    requires forall i :: 0 <= i < |a| ==> P(a[i])
    requires b == [] || !P(b[0])
    ensures Span(a + b, P) == |a|
    ensures (a + b)[|a|..] == b && (a + b)[..|a|] == a
  {
    SpanAppend(a, b, P);
  }

  /** Leading whitespace, then the printed number, then a `-`. */
  lemma NumberRendered(pre: string, n: nat, t1: string)
    requires AllSpace(pre)
    requires t1 != [] && t1[0] == '-'
    ensures var t0 := NatToDigits(n) + t1;
      && Skip(pre + t0, IsSpace) == t0
      && Span(t0, IsDigit) == |NatToDigits(n)|
      && t0[..|NatToDigits(n)|] == NatToDigits(n)
      && t0[|NatToDigits(n)|..] == t1
  {
    var d := NatToDigits(n);
    var t0 := d + t1;
    assert t0[0] == d[0];
    SpanOver(pre, t0, IsSpace);
    SpanOver(d, t1, IsDigit);
  }

  /** The element symbol, then whitespace, then `rest`. */
  lemma LabelRendered(elem: string, post: string, rest: string)
    requires AllSpace(post)
    requires elem != [] && forall i :: 0 <= i < |elem| ==> IsWordChar(elem[i])
    requires rest == [] || (!IsSpace(rest[0]) && !IsWordChar(rest[0]))
    ensures var t2 := elem + (post + rest);
      Span(t2, IsWordChar) == |elem| && Skip(t2[|elem|..], IsSpace) == rest
  {
    var t3 := post + rest;
    if post != [] {
      assert t3[0] == post[0];
    } else {
      assert t3 == rest;
    }
    SpanOver(elem, t3, IsWordChar);
    SpanOver(post, rest, IsSpace);
  }

  lemma AtomRefRendered(pre: string, n: nat, elem: string, post: string, rest: string)
    requires AllSpace(pre) && AllSpace(post)
    requires elem != [] && forall i :: 0 <= i < |elem| ==> IsWordChar(elem[i])
    requires rest == [] || (!IsSpace(rest[0]) && !IsWordChar(rest[0]))
    ensures AtomRef(RefOnto(pre, n, elem, post, rest)) == Some((n, rest))
  {
    var d := NatToDigits(n);
    var t2 := elem + (post + rest);
    var t1 := "-" + t2;
    var t0 := d + t1;
    NumberRendered(pre, n, t1);
    LabelRendered(elem, post, rest);
    assert StartsWith(t1, "-");
    assert t0[|d| + 1..] == t2;
  }

  lemma {:induction false} OrderRendered(pre: string, post: string, v: string, rest: string)
    requires AllSpace(pre) && AllSpace(post)
    requires IsNumberText(v)
    requires rest == [] || !IsNumberChar(rest[0])
    ensures OrderText(OrderOnto(pre, post, v, rest)) == Some((v, rest))
  {
    var t2 := v + rest;
    var t1 := post + t2;
    var t0 := ":" + t1;
    SpanOver(pre, t0, IsSpace);
    assert Skip(pre + t0, IsSpace) == t0;
    assert StartsWith(t0, ":");
    assert t0[1..] == t1;
    assert t2[0] == v[0];
    SpanOver(post, t2, IsSpace);
    assert Skip(t1, IsSpace) == t2;
    SpanOver(v, rest, IsNumberChar);
    assert Span(t2, IsNumberChar) == |v|;
  }

  /** An entry's printed form opens with `B(` followed by its first atom reference. */
  lemma RenderedOpen(e: BondEntry, rest: string)
    ensures |RenderOnto(e, rest)| >= 2 && RenderOnto(e, rest)[0] == 'B' && RenderOnto(e, rest)[1] == '(' 
    ensures var l := e.layout;
      RenderOnto(e, rest)[2..] ==
      RefOnto(l.beforeRef1, e.atom1, e.label1, l.afterRef1,
        "," + RefOnto(l.beforeRef2, e.atom2, e.label2, l.afterRef2,
                ")" + OrderOnto(l.beforeColon, l.afterColon, e.order, rest)))
  {
  }

  lemma AfterOpenRendered(pre: string, a: nat, elem: string, post: string, x: string)
    requires AllSpace(pre) && AllSpace(post)
    requires elem != [] && forall i :: 0 <= i < |elem| ==> IsWordChar(elem[i])
    ensures AfterOpen(RefOnto(pre, a, elem, post, "," + x)) == AfterComma(a, x)
  {
    AtomRefRendered(pre, a, elem, post, "," + x);
    assert ("," + x)[1..] == x;
  }

  lemma AfterCommaRendered(a: nat, b: nat, elem: string, l: Layout, v: string, rest: string)
    requires Blank(l)
    requires elem != [] && forall i :: 0 <= i < |elem| ==> IsWordChar(elem[i])
    requires IsNumberText(v)
    requires rest == [] || !IsNumberChar(rest[0])
    ensures AfterComma(a, RefOnto(l.beforeRef2, b, elem, l.afterRef2, ")" + OrderOnto(l.beforeColon, l.afterColon, v, rest)))
      == Some((BondMatch(a, b, v), rest))
  {
    var r2 := ")" + OrderOnto(l.beforeColon, l.afterColon, v, rest);
    AtomRefRendered(l.beforeRef2, b, elem, l.afterRef2, r2);
    OrderRendered(l.beforeColon, l.afterColon, v, rest);
    assert StartsWith(r2, ")") && r2[1..] == OrderOnto(l.beforeColon, l.afterColon, v, rest);
    AfterCommaSteps(a, RefOnto(l.beforeRef2, b, elem, l.afterRef2, r2), b, r2, v, rest);
  }

  lemma AfterCommaSteps(a: nat, s: string, b: nat, r2: string, v: string, rest: string)
    requires AtomRef(s) == Some((b, r2))
    requires StartsWith(r2, ")") && OrderText(r2[1..]) == Some((v, rest))
    ensures AfterComma(a, s) == Some((BondMatch(a, b, v), rest))
  {
  }

  /** The pattern matches an entry's printed form exactly, whatever its
      padding, leaving what follows it. */
  lemma MatchRendered(e: BondEntry, rest: string)
    requires WellFormed(e)
    requires rest == [] || !IsNumberChar(rest[0])
    ensures MatchAt(RenderOnto(e, rest)) == Some((MatchOf(e), rest))
  {
    var l := e.layout;
    var x := RefOnto(l.beforeRef2, e.atom2, e.label2, l.afterRef2, ")" + OrderOnto(l.beforeColon, l.afterColon, e.order, rest));
    RenderedOpen(e, rest);
    AfterOpenRendered(l.beforeRef1, e.atom1, e.label1, l.afterRef1, x);
    AfterCommaRendered(e.atom1, e.atom2, e.label2, l, e.order, rest);
  }

  /** After a match `findall` resumes at the text that follows it. */
  lemma FindAllAfterMatch(s: string, m: BondMatch, rest: string)
    requires MatchAt(s) == Some((m, rest))
    ensures FindAll(s) == [m] + FindAll(rest)
  {
  }

  /** A whitespace character starts no match, so `findall` moves on to the
      text `u` after it. */
  lemma FindAllPastSpace(s: string, u: string)
    requires |s| > 0 && IsSpace(s[0]) && s[1..] == u
    ensures FindAll(s) == FindAll(u)
  {
    assert MatchAt(s) == None;
  }

  /** Leading whitespace contributes no match and shifts none. */
  lemma {:induction false} FindAllSkipsSpaces(ws: string, t: string)
    requires AllSpace(ws)
    ensures FindAll(ws + t) == FindAll(t)
  {
    if ws == [] {
      assert ws + t == t;
    } else {
      assert (ws + t)[0] == ws[0] && (ws + t)[1..] == ws[1..] + t;
      FindAllPastSpace(ws + t, ws[1..] + t);
      FindAllSkipsSpaces(ws[1..], t);
    }
  }

  /** Printed entries start with `B`. */
  lemma RenderAllStart(es: seq<BondEntry>)
    ensures RenderAll(es) == [] || RenderAll(es)[0] == 'B'
  {
  }

  /** What follows a printed order, a separator and then text that is empty
      or starts with `B`, cannot extend the order. */
  lemma AfterOrder(gap: string, u: string)
    requires AllSpace(gap)
    requires u == [] || u[0] == 'B'
    ensures gap + u == [] || !IsNumberChar((gap + u)[0])
  {
    if gap != [] {
      assert (gap + u)[0] == gap[0];
    } else {
      assert gap + u == u;
    }
  }

  /** The first printed entry gives its match, and scanning goes on at its
      separator. */
  lemma FindAllRenderedStep(es: seq<BondEntry>)
    requires es != [] && WellFormed(es[0])
    ensures FindAll(RenderAll(es)) == [MatchOf(es[0])] + FindAll(es[0].layout.after + RenderAll(es[1..]))
  {
    var rest := es[0].layout.after + RenderAll(es[1..]);
    RenderAllStart(es[1..]);
    AfterOrder(es[0].layout.after, RenderAll(es[1..]));
    MatchRendered(es[0], rest);
    FindAllAfterMatch(RenderOnto(es[0], rest), MatchOf(es[0]), rest);
  }

  /** Scanning the printed forms of well-formed entries, each padded with any
      whitespace and preceded by any whitespace, gives exactly their
      (atom, atom, order) triples, in order. */
  lemma {:induction false} FindAllRendered(lead: string, es: seq<BondEntry>)
    requires AllSpace(lead)
    requires forall i :: 0 <= i < |es| ==> WellFormed(es[i])
    ensures FindAll(lead + RenderAll(es)) == Matches(es)
    decreases es
  {
    FindAllSkipsSpaces(lead, RenderAll(es));
    if es != [] {
      FindAllRenderedStep(es);
      assert forall i :: 0 <= i < |es[1..]| ==> WellFormed(es[1..][i]) by {
        forall i | 0 <= i < |es[1..]| ensures WellFormed(es[1..][i]) {
          assert es[1..][i] == es[i + 1];
        }
      }
      FindAllRendered(es[0].layout.after, es[1..]);
    }
  }
}
