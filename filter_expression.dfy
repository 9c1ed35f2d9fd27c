/**
 * The filter expression the editor assigns to the drawing context before each redraw:
 * seven CSS filter functions in a fixed order, each carrying the current value of its
 * parameter with its unit, laid out one per line as the template literal writes them.
 * `ParseFilterText` reads such a text back, which shows that the text carries every
 * parameter's value.
 */
module FilterExpression {
  import opened Wrappers
  import opened Filters
  import opened Decimal

  datatype Unit = Percent | Px | Deg

  /** One filter function applied to an amount, such as `hue-rotate(90deg)`. */
  datatype Term = Term(name: string, amount: int, unit: Unit)

  /** The order in which the expression lists the parameters. */
  const Order: seq<Param> := [Brightness, Contrast, Blur, Invert, HueRotate, Saturate, Opacity]

  /** The CSS filter function that applies a parameter. */
  function CssName(q: Param): (s: string)
    ensures '(' !in s && '\n' !in s
  {
    match q
    case Brightness => "brightness"
    case Contrast => "contrast"
    case Blur => "blur"
    case Invert => "invert"
    case HueRotate => "hue-rotate"
    case Saturate => "saturate"
    case Opacity => "opacity"
  }

  /** Blur is a length in pixels, hue rotation an angle in degrees, the rest percentages. */
  function UnitOf(q: Param): Unit {
    match q
    case Blur => Px
    case HueRotate => Deg
    case _ => Percent
  }

  /** The seven terms of the expression for a parameter set. */
  function Terms(p: Params): (ts: seq<Term>)
    ensures |ts| == |Order| == 7
    ensures forall i :: 0 <= i < |Order| ==>
      ts[i] == Term(CssName(Order[i]), ValueOf(p, Order[i]), UnitOf(Order[i]))
  {
    [ Term("brightness", p.brightness, Percent),
      Term("contrast", p.contrast, Percent),
      Term("blur", p.blur, Px),
      Term("invert", p.invert, Percent),
      Term("hue-rotate", p.hueRotate, Deg),
      Term("saturate", p.saturate, Percent),
      Term("opacity", p.opacity, Percent) ]
  }

  function UnitText(u: Unit): string {
    match u
    case Percent => "%"
    case Px => "px"
    case Deg => "deg"
  }

  /** A term as text: `name(` amount unit `)`. */
  function TermText(t: Term): string {
    t.name + "(" + IntText(t.amount) + UnitText(t.unit) + ")"
  }

  function Spaces(n: nat): (s: string)
    ensures |s| == n && '\n' !in s
  {
    if n == 0 then "" else " " + Spaces(n - 1)
  }

  /** Each term as a line of its own, indented by `margin + 2` spaces. */
  function IndentedLines(ts: seq<Term>, margin: nat): (ls: seq<string>)
    ensures |ls| == |ts|
    ensures forall i :: 0 <= i < |ts| ==> ls[i] == Spaces(margin + 2) + TermText(ts[i])
  {
    if ts == [] then [] else [Spaces(margin + 2) + TermText(ts[0])] + IndentedLines(ts[1..], margin)
  }

  /** Every line preceded by a line break, then a break and the closing line `last`. */
  function Joined(ls: seq<string>, last: string): (s: string)
    ensures |s| >= 1 && s[0] == '\n'
    decreases |ls|
  {
    if ls == [] then "\n" + last else "\n" + ls[0] + Joined(ls[1..], last)
  }

  /**
   * The text of the template literal: the terms one per line, then a line holding
   * only the literal's closing indentation of `margin` spaces.
   */
  function FilterText(p: Params, margin: nat): string {
    Joined(IndentedLines(Terms(p), margin), Spaces(margin))
  }

  // ---------------------------------------------------------------------------
  // Reading an expression back.
  // ---------------------------------------------------------------------------

  /** The position of the first `c` in `s`, or `|s|` when there is none. */
  function IndexOf(s: string, c: char): (k: nat)
    ensures k <= |s|
    ensures forall j :: 0 <= j < k ==> s[j] != c
    ensures k < |s| ==> s[k] == c
    decreases |s|
  {
    if s == [] then 0 else if s[0] == c then 0 else 1 + IndexOf(s[1..], c)
  }

  /** The pieces of `s` between occurrences of `c`. */
  function Split(s: string, c: char): (pieces: seq<string>)
    ensures |pieces| >= 1
    decreases |s|
  {
    var k := IndexOf(s, c);
    if k == |s| then [s] else [s[..k]] + Split(s[k + 1..], c)
  }

  /** The unit whose text ends `s`. */
  function UnitSuffix(s: string): Option<Unit> {
    if |s| >= 1 && s[|s| - 1..] == "%" then Some(Percent)
    else if |s| >= 2 && s[|s| - 2..] == "px" then Some(Px)
    else if |s| >= 3 && s[|s| - 3..] == "deg" then Some(Deg)
    else None
  }

  /** Reads `name(` amount unit `)`. */
  function ParseTerm(s: string): Option<Term> {
    var k := IndexOf(s, '(');
    if k + 2 > |s| || s[|s| - 1] != ')' then None
    else
      var inner := s[k + 1..|s| - 1];
      match UnitSuffix(inner)
      case None => None
      case Some(u) =>
        match ParseInt(inner[..|inner| - |UnitText(u)|])
        case None => None
        case Some(a) => Some(Term(s[..k], a, u))
  }

  /** The amount on an indented line, when the line applies parameter `q` with its unit. */
  function AmountAt(line: string, q: Param, margin: nat): Option<int> {
    var n := margin + 2;
    if |line| < n || line[..n] != Spaces(n) then None
    else
      match ParseTerm(line[n..])
      case None => None
      case Some(t) => if t.name == CssName(q) && t.unit == UnitOf(q) then Some(t.amount) else None
  }

  /** Reads the amounts of the parameters `qs` from `lines`, one line each. */
  function ParseAmounts(lines: seq<string>, qs: seq<Param>, margin: nat): (r: Option<seq<int>>)
    requires |lines| == |qs|
    ensures r.Some? ==> |r.value| == |qs|
    decreases |qs|
  {
    if qs == [] then Some([])
    else
      match AmountAt(lines[0], qs[0], margin)
      case None => None
      case Some(a) =>
        match ParseAmounts(lines[1..], qs[1..], margin)
        case None => None
        case Some(rest) => Some([a] + rest)
  }

  /** Reads a filter text laid out with closing indentation `margin` back into a parameter set. */
  function ParseFilterText(s: string, margin: nat): Option<Params> {
    var lines := Split(s, '\n');
    if |lines| != 9 || lines[0] != "" || lines[8] != Spaces(margin) then None
    else
      match ParseAmounts(lines[1..8], Order, margin)
      case None => None
      case Some(v) => Some(Params(v[0], v[1], v[2], v[3], v[4], v[5], v[6]))
  }

  // ---------------------------------------------------------------------------
  // Round trip.
  // ---------------------------------------------------------------------------

  lemma {:induction false} IndexOfFirst(a: string, c: char, b: string)
    requires c !in a
    ensures IndexOf(a + [c] + b, c) == |a|
    decreases |a|
  {
    if a != [] {
      assert (a + [c] + b)[1..] == a[1..] + [c] + b;
      assert a[0] != c;
      IndexOfFirst(a[1..], c, b);
    }
  }

  lemma SplitFirst(a: string, c: char, b: string)
    requires c !in a
    ensures Split(a + [c] + b, c) == [a] + Split(b, c)
  {
    var s := a + [c] + b;
    IndexOfFirst(a, c, b);
    assert s[..|a|] == a;
    assert s[|a| + 1..] == b;
  }

  lemma SplitNone(s: string, c: char)
    requires c !in s
    ensures Split(s, c) == [s]
  {
  }

  lemma TermLineHasNoBreak(t: Term, n: nat)
    requires '\n' !in t.name
    ensures '\n' !in Spaces(n) + TermText(t)
  {
    var line := Spaces(n) + TermText(t);
    assert line == Spaces(n) + t.name + "(" + IntText(t.amount) + UnitText(t.unit) + ")";
  }

  lemma SplitLeading(s: string, c: char)
    requires |s| >= 1 && s[0] == c
    ensures Split(s, c) == [""] + Split(s[1..], c)
  {
    assert IndexOf(s, c) == 0;
  }

  /** After its leading line break, a joined text is its first line, a break, and the rest. */
  lemma JoinedTail(ls: seq<string>, last: string)
    requires ls != []
    ensures Joined(ls, last)[1..] == ls[0] + ['\n'] + Joined(ls[1..], last)[1..]
  {
    var rest := Joined(ls[1..], last);
    assert rest == ['\n'] + rest[1..];
  }

  /** Splitting a joined text after its leading line break gives back its lines. */
  lemma {:induction false} SplitJoined(ls: seq<string>, last: string)
    requires forall i :: 0 <= i < |ls| ==> '\n' !in ls[i]
    requires '\n' !in last
    ensures Split(Joined(ls, last)[1..], '\n') == ls + [last]
    decreases |ls|
  {
    if ls == [] {
      assert Joined(ls, last)[1..] == last;
      SplitNone(last, '\n');
    } else {
      var tail := Joined(ls[1..], last)[1..];
      assert Split(Joined(ls, last)[1..], '\n') == [ls[0]] + Split(tail, '\n') by {
        JoinedTail(ls, last);
        SplitFirst(ls[0], '\n', tail);
      }
      SplitJoined(ls[1..], last);
      assert ls + [last] == [ls[0]] + (ls[1..] + [last]);
    }
  }

  /** A unit written after a number ending in a digit is read back as that unit. */
  lemma UnitSuffixAfterDigit(num: string, u: Unit)
    requires |num| >= 1 && IsDigit(num[|num| - 1])
    ensures UnitSuffix(num + UnitText(u)) == Some(u)
  {
    var s := num + UnitText(u);
    match u
    case Percent =>
      assert s[|s| - 1..] == "%";
    case Px =>
      assert s[|s| - 1..] == "x";
      assert s[|s| - 2..] == "px";
    case Deg =>
      assert s[|s| - 1..] == "g";
      assert s[|s| - 2..] == "eg";
      assert s[|s| - 3..] == "deg";
  }

  /** `name(` number unit `)` is read back as its parts, whatever number text reads as `a`. */
  lemma ParseTermParts(name: string, num: string, u: Unit, a: int)
    requires '(' !in name
    requires |num| >= 1 && IsDigit(num[|num| - 1])
    requires ParseInt(num) == Some(a)
    ensures ParseTerm(name + "(" + num + UnitText(u) + ")") == Some(Term(name, a, u))
  {
    var inner := num + UnitText(u);
    var s := name + "(" + inner + ")";
    assert name + "(" + num + UnitText(u) + ")" == s;
    Parenthesised(name, inner);
    UnitSuffixAfterDigit(num, u);
    assert inner[..|inner| - |UnitText(u)|] == num;
    ParseTermOf(s, |name|, u, a);
  }

  /** Where the parenthesis and the inside of `name(` inner `)` are. */
  lemma Parenthesised(name: string, inner: string)
    requires '(' !in name
    ensures var s := name + "(" + inner + ")";
      IndexOf(s, '(') == |name| && s[|s| - 1] == ')' &&
      s[..|name|] == name && s[|name| + 1..|s| - 1] == inner
  {
    var s := name + "(" + inner + ")";
    assert s == name + ['('] + (inner + ")");
    IndexOfFirst(name, '(', inner + ")");
    assert s[..|name|] == name;
    assert s[|name| + 1..|s| - 1] == inner;
  }

  /** The reading of a term, given where its parenthesis is and what its inside reads as. */
  lemma ParseTermOf(s: string, k: nat, u: Unit, a: int)
    requires k + 2 <= |s| && s[|s| - 1] == ')'
    requires IndexOf(s, '(') == k
    requires UnitSuffix(s[k + 1..|s| - 1]) == Some(u)
    requires |UnitText(u)| <= |s[k + 1..|s| - 1]|
    requires ParseInt(s[k + 1..|s| - 1][..|s[k + 1..|s| - 1]| - |UnitText(u)|]) == Some(a)
    ensures ParseTerm(s) == Some(Term(s[..k], a, u))
  {
  }

  /** A term whose name holds no `(` is read back from its text. */
  lemma TermRoundTrip(t: Term)
    requires '(' !in t.name
    ensures ParseTerm(TermText(t)) == Some(t)
  {
    IntTextRoundTrip(t.amount);
    ParseTermParts(t.name, IntText(t.amount), t.unit, t.amount);
  }

  lemma AmountAtLine(p: Params, q: Param, margin: nat)
    ensures AmountAt(Spaces(margin + 2) + TermText(Term(CssName(q), ValueOf(p, q), UnitOf(q))), q, margin)
            == Some(ValueOf(p, q))
  {
    var t := Term(CssName(q), ValueOf(p, q), UnitOf(q));
    var line := Spaces(margin + 2) + TermText(t);
    assert line[..margin + 2] == Spaces(margin + 2);
    assert line[margin + 2..] == TermText(t);
    TermRoundTrip(t);
  }

  lemma {:induction false} ParseAmountsOf(lines: seq<string>, qs: seq<Param>, margin: nat, vs: seq<int>)
    requires |lines| == |qs| == |vs|
    requires forall i :: 0 <= i < |qs| ==> AmountAt(lines[i], qs[i], margin) == Some(vs[i])
    ensures ParseAmounts(lines, qs, margin) == Some(vs)
    decreases |qs|
  {
    if qs != [] {
      ParseAmountsOf(lines[1..], qs[1..], margin, vs[1..]);
      assert vs == [vs[0]] + vs[1..];
    }
  }

  /** The lines of the expression of `p` carry the amounts of `p`, in order. */
  lemma LinesCarryAmounts(p: Params, margin: nat)
    ensures var ls := IndentedLines(Terms(p), margin);
      ParseAmounts(ls, Order, margin) == Some(seq(7, i requires 0 <= i < 7 => ValueOf(p, Order[i])))
  {
    var ls := IndentedLines(Terms(p), margin);
    var vs := seq(7, i requires 0 <= i < 7 => ValueOf(p, Order[i]));
    forall i | 0 <= i < 7
      ensures AmountAt(ls[i], Order[i], margin) == Some(vs[i])
    {
      AmountAtLine(p, Order[i], margin);
    }
    ParseAmountsOf(ls, Order, margin, vs);
  }

  /** No line of the expression holds a line break. */
  lemma IndentedLinesHaveNoBreak(ts: seq<Term>, margin: nat)
    requires forall i :: 0 <= i < |ts| ==> '\n' !in ts[i].name
    ensures forall i :: 0 <= i < |ts| ==> '\n' !in IndentedLines(ts, margin)[i]
  {
    forall i | 0 <= i < |ts| ensures '\n' !in IndentedLines(ts, margin)[i] {
      TermLineHasNoBreak(ts[i], margin + 2);
    }
  }

  /** Splitting the expression of `p` at its line breaks gives an empty line, the term lines, the closing line. */
  lemma SplitFilterText(p: Params, margin: nat)
    ensures Split(FilterText(p, margin), '\n') == [""] + IndentedLines(Terms(p), margin) + [Spaces(margin)]
  {
    var ts := Terms(p);
    var ls := IndentedLines(ts, margin);
    assert forall i :: 0 <= i < |ls| ==> '\n' !in ls[i] by {
      assert forall i :: 0 <= i < |ts| ==> '\n' !in ts[i].name;
      IndentedLinesHaveNoBreak(ts, margin);
    }
    SplitWholeJoined(ls, Spaces(margin));
  }

  /** Splitting a whole joined text gives an empty first line, then its lines. */
  lemma SplitWholeJoined(ls: seq<string>, last: string)
    requires forall i :: 0 <= i < |ls| ==> '\n' !in ls[i]
    requires '\n' !in last
    ensures Split(Joined(ls, last), '\n') == [""] + ls + [last]
  {
    SplitJoined(ls, last);
    SplitLeading(Joined(ls, last), '\n');
    assert [""] + ls + [last] == [""] + (ls + [last]);
  }

  /** The filter text carries the value of every parameter: reading it back recovers them all. */
  lemma FilterTextRoundTrip(p: Params, margin: nat)
    ensures ParseFilterText(FilterText(p, margin), margin) == Some(p)
  {
    var ls := IndentedLines(Terms(p), margin);
    var lines := Split(FilterText(p, margin), '\n');
    SplitFilterText(p, margin);
    assert lines[1..8] == ls;
    LinesCarryAmounts(p, margin);
  }

  /** Different parameter sets give different filter texts. */
  lemma FilterTextInjective(p: Params, p': Params, margin: nat)
    requires FilterText(p, margin) == FilterText(p', margin)
    ensures p == p'
  {
    FilterTextRoundTrip(p, margin);
    FilterTextRoundTrip(p', margin);
  }
}
