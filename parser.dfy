/**
 * The recursive-descent parser of re.c:203-316.
 *
 * The C functions share one cursor (`char const **s`) and return a tree or
 * NULL. Here each function takes the cursor position `i` and returns a
 * `Parsed`: the tree (None for NULL) together with the position where it
 * left the cursor, which matters even on failure because the callers go on
 * from there. The `while` loop of `regexp` is the tail-recursive
 * `Concatenation`, whose `acc` is the vector `e->res` built so far.
 */
module Parser {
  import opened Wrappers
  import opened Syntax

  /** What a parsing function returns and where it leaves the shared cursor. */
  datatype Parsed = Parsed(tree: Option<Re>, pos: nat)

  predicate IsQuantifier(c: CChar) {
    c == '*' || c == '+' || c == '?'
  }

  /** The node `subexp` builds around an atom followed by quantifier `q`. */
  function Quantified(q: CChar, e: Re): (r: Re)
    requires IsQuantifier(q)
    ensures r.Star? || r.Plus? || r.Optional?
    ensures r.re == e
  {
    if q == '*' then Star(e) else if q == '+' then Plus(e) else Optional(e)
  }

  /** `regexp(s, allow_trailing)`: a concatenation, then possibly `|` and a right alternative. */
  function Regexp(s: seq<CChar>, i: nat, trailing: bool): (r: Parsed)
    requires i <= |s|
    ensures i <= r.pos <= |s|
    decreases |s| - i, 3
  {
    Concatenation(s, i, trailing, [])
  }

  /** The `while` loop of `regexp` and what follows it, with `acc` the children pushed so far. */
  function Concatenation(s: seq<CChar>, i: nat, trailing: bool, acc: seq<Re>): (r: Parsed)
    requires i <= |s|
    ensures i <= r.pos <= |s|
    decreases |s| - i, 2
  {
    if i < |s| && s[i] != '|' then
      var sub := Subexp(s, i);
      if sub.tree.None? then
        Parsed(if trailing then Some(Concat(acc)) else None, sub.pos)
      else
        Concatenation(s, sub.pos, trailing, acc + [sub.tree.value])
    else if i == |s| then
      Parsed(Some(Concat(acc)), i)
    else
      var right := Regexp(s, i + 1, trailing);
      if right.tree.None? then Parsed(None, right.pos)
      else Parsed(Some(Alt(Concat(acc), right.tree.value)), right.pos)
  }

  /** `subexp`: an atom and at most one quantifier after it. */
  function Subexp(s: seq<CChar>, i: nat): (r: Parsed)
    requires i <= |s|
    ensures i <= r.pos <= |s|
    ensures r.tree.Some? ==> i < r.pos
    decreases |s| - i, 1
  {
    var a := Atom(s, i);
    if a.tree.Some? && a.pos < |s| && IsQuantifier(s[a.pos]) then
      Parsed(Some(Quantified(s[a.pos], a.tree.value)), a.pos + 1)
    else
      a
  }

  /** `atom`: a parenthesised `regexp` or one literal byte; NULL at the end or at `)`. */
  function Atom(s: seq<CChar>, i: nat): (r: Parsed)
    requires i <= |s|
    ensures i <= r.pos <= |s|
    ensures r.tree.Some? ==> i < r.pos
    decreases |s| - i, 0
  {
    if i == |s| || s[i] == ')' then
      Parsed(None, i)
    else if s[i] == '(' then
      var inner := Regexp(s, i + 1, true);
      if inner.pos < |s| && s[inner.pos] == ')' then Parsed(inner.tree, inner.pos + 1)
      else Parsed(None, inner.pos)
    else
      Parsed(Some(Char(s[i])), i + 1)
  }

  /**
   * `parse`: the top-level `regexp` with trailing input not allowed. It
   * succeeds exactly on patterns whose parentheses balance, and then it
   * loses nothing: printing the tree back gives the pattern.
   */
  function Parse(s: seq<CChar>): (r: Option<Re>)
    ensures r.Some? <==> Balanced(s)
    ensures r.Some? ==> IsRegexp(r.value) && Unparse(r.value) == s
  {
    ParseIffBalanced(s);
    RegexpRoundTrip(s, 0, false);
    RegexpShape(s, 0, false);
    RegexpStops(s, 0, false);
    Regexp(s, 0, false).tree
  }

  // ---------------------------------------------------------------------
  // Parenthesis depth: an independent account of which patterns parse.

  function Nesting(c: CChar): int {
    if c == '(' then 1 else if c == ')' then -1 else 0
  }

  /** Open minus closed parentheses in s[i..j]. */
  function Depth(s: seq<CChar>, i: nat, j: nat): int
    requires i <= j <= |s|
    decreases j - i
  {
    if j == i then 0 else Depth(s, i, j - 1) + Nesting(s[j - 1])
  }

  /** No prefix of s[i..j] closes more parentheses than it opens. */
  predicate NoDip(s: seq<CChar>, i: nat, j: nat)
    requires i <= j <= |s|
  {
    forall k :: i <= k <= j ==> Depth(s, i, k) >= 0
  }

  /** Every `)` closes an earlier `(` and every `(` is closed. */
  predicate Balanced(s: seq<CChar>) {
    NoDip(s, 0, |s|) && Depth(s, 0, |s|) == 0
  }

  lemma {:induction false} DepthSplit(s: seq<CChar>, i: nat, j: nat, k: nat)
    requires i <= j <= k <= |s|
    ensures Depth(s, i, k) == Depth(s, i, j) + Depth(s, j, k)
    decreases k - j
  {
    if k > j {
      DepthSplit(s, i, j, k - 1);
    }
  }

  lemma NoDipJoin(s: seq<CChar>, i: nat, j: nat, k: nat)
    requires i <= j <= k <= |s|
    requires NoDip(s, i, j) && NoDip(s, j, k)
    ensures NoDip(s, i, k)
  {
    forall m | j < m <= k
      ensures Depth(s, i, m) >= 0
    {
      DepthSplit(s, i, j, m);
    }
  }

  /**
   * Where `regexp` stops and when it fails: it never passes a `)` that has
   * no partner, it stops only at the end or at such a `)`, with trailing
   * input allowed it never fails, and at top level it succeeds exactly when
   * it stops at the end with every group closed.
   */
  ghost predicate RegexpOutcome(s: seq<CChar>, i: nat, r: Parsed, trailing: bool) {
    && i <= r.pos <= |s|
    && NoDip(s, i, r.pos)
    && (r.pos == |s| || (s[r.pos] == ')' && Depth(s, i, r.pos) == 0))
    && (trailing ==> r.tree.Some?)
    && (!trailing ==> (r.tree.Some? <==> r.pos == |s| && Depth(s, i, r.pos) == 0))
  }

  /**
   * What `subexp` and `atom` do: on success they consume a stretch with
   * balanced parentheses; they fail without moving at the end or at `)`,
   * and otherwise only on a `(` that is never closed, having read to the end.
   */
  ghost predicate ItemOutcome(s: seq<CChar>, i: nat, r: Parsed) {
    && i <= r.pos <= |s|
    && NoDip(s, i, r.pos)
    && (r.tree.Some? ==> i < r.pos && Depth(s, i, r.pos) == 0)
    && (r.tree.None? ==>
          (r.pos == i && (i == |s| || s[i] == ')')) ||
          (r.pos == |s| && Depth(s, i, r.pos) > 0))
  }

  lemma {:induction false} RegexpStops(s: seq<CChar>, i: nat, trailing: bool)
    requires i <= |s|
    ensures RegexpOutcome(s, i, Regexp(s, i, trailing), trailing)
    decreases |s| - i, 3
  {
    ConcatenationStops(s, i, trailing, []);
  }

  lemma {:induction false} ConcatenationStops(s: seq<CChar>, i: nat, trailing: bool, acc: seq<Re>)
    requires i <= |s|
    ensures RegexpOutcome(s, i, Concatenation(s, i, trailing, acc), trailing)
    decreases |s| - i, 2
  {
    var r := Concatenation(s, i, trailing, acc);
    if i < |s| && s[i] != '|' {
      var sub := Subexp(s, i);
      SubexpStops(s, i);
      if sub.tree.Some? {
        ConcatenationStops(s, sub.pos, trailing, acc + [sub.tree.value]);
        NoDipJoin(s, i, sub.pos, r.pos);
        DepthSplit(s, i, sub.pos, r.pos);
      }
    } else if i < |s| {
      var right := Regexp(s, i + 1, trailing);
      RegexpStops(s, i + 1, trailing);
      assert NoDip(s, i, i + 1);
      NoDipJoin(s, i, i + 1, r.pos);
      DepthSplit(s, i, i + 1, r.pos);
    }
  }

  lemma {:induction false} SubexpStops(s: seq<CChar>, i: nat)
    requires i <= |s|
    ensures ItemOutcome(s, i, Subexp(s, i))
    decreases |s| - i, 1
  {
    var a := Atom(s, i);
    AtomStops(s, i);
    if a.tree.Some? && a.pos < |s| && IsQuantifier(s[a.pos]) {
      assert NoDip(s, a.pos, a.pos + 1);
      NoDipJoin(s, i, a.pos, a.pos + 1);
    }
  }

  lemma {:induction false} AtomStops(s: seq<CChar>, i: nat)
    requires i <= |s|
    ensures ItemOutcome(s, i, Atom(s, i))
    decreases |s| - i, 0
  {
    if i < |s| && s[i] == '(' {
      var inner := Regexp(s, i + 1, true);
      RegexpStops(s, i + 1, true);
      assert NoDip(s, i, i + 1);
      NoDipJoin(s, i, i + 1, inner.pos);
      DepthSplit(s, i, i + 1, inner.pos);
      if inner.pos < |s| && s[inner.pos] == ')' {
        assert Depth(s, i, inner.pos + 1) == 0;
      }
    } else if i < |s| && s[i] != ')' {
      assert NoDip(s, i, i + 1);
    }
  }

  /** A successful top-level `regexp` has consumed the whole pattern. */
  lemma ParseConsumesAll(s: seq<CChar>, i: nat)
    requires i <= |s|
    ensures Regexp(s, i, false).tree.Some? ==> Regexp(s, i, false).pos == |s|
  {
    RegexpStops(s, i, false);
  }

  /**
   * `parse` fails (returns NULL) exactly on an unmatched `)` or an
   * unterminated `(`.
   */
  lemma ParseIffBalanced(s: seq<CChar>)
    ensures Regexp(s, 0, false).tree.Some? <==> Balanced(s)
  {
    var r := Regexp(s, 0, false);
    RegexpStops(s, 0, false);
    if r.tree.None? && r.pos < |s| {
      assert Depth(s, 0, r.pos + 1) == -1;
    }
  }

  // ---------------------------------------------------------------------
  // The shape of the trees the parser builds, and printing them back.

  /**
   * A tree `regexp` can return: a concatenation of items, or an `Alt` whose
   * left side is such a concatenation and whose right side is again a
   * `regexp` tree (so `|` associates to the right).
   */
  predicate IsRegexp(r: Re)
    decreases r, 1
  {
    (r.Concat? || r.Alt?) && IsAtom(r)
  }

  /** A child of a concatenation: an atom with at most one quantifier around it. */
  predicate IsItem(r: Re)
    decreases r, 1
  {
    match r
    case Star(x) => IsAtom(x)
    case Plus(x) => IsAtom(x)
    case Optional(x) => IsAtom(x)
    case _ => IsAtom(r)
  }

  /** A node `subexp` builds around an atom it found a quantifier after. */
  predicate IsQuantified(r: Re) {
    r.Star? || r.Plus? || r.Optional?
  }

  /** The atom of an item: under its quantifier, if it has one. */
  function Operand(r: Re): (a: Re)
    ensures IsQuantified(r) ==> a == r.re
    ensures !IsQuantified(r) ==> a == r
  {
    if IsQuantified(r) then r.re else r
  }

  /**
   * Where quantifiers attach: `subexp` takes a quantifier byte that follows
   * an atom, so an item whose atom is a literal `*`, `+` or `?` can only
   * come first or after an item that already has its quantifier.
   */
  predicate QuantifiersBound(cs: seq<Re>) {
    forall k :: 0 < k < |cs| && Operand(cs[k]).Char? && IsQuantifier(Operand(cs[k]).c) ==>
      IsQuantified(cs[k - 1])
  }

  /** What `atom` returns: a literal other than the three it never takes, or a group. */
  predicate IsAtom(r: Re)
    decreases r, 0
  {
    match r
    case Char(c) => c != '(' && c != ')' && c != '|'
    case Concat(cs) => QuantifiersBound(cs) && forall k :: 0 <= k < |cs| ==> IsItem(cs[k])
    case Alt(l, rr) => l.Concat? && IsAtom(l) && IsRegexp(rr)
    case _ => false
  }

  /** The pattern text of a tree at `regexp` level: no parentheses around it. */
  function Unparse(r: Re): seq<CChar>
    decreases r, 1
  {
    match r
    case Concat(cs) => UnparseAll(cs)
    case Alt(l, rr) => Unparse(l) + ['|'] + Unparse(rr)
    case _ => UnparseItem(r)
  }

  function UnparseAll(cs: seq<Re>): seq<CChar>
    decreases cs, 2
  {
    if cs == [] then [] else UnparseAll(cs[..|cs| - 1]) + UnparseItem(cs[|cs| - 1])
  }

  /** The pattern text of a tree in item position: groups are parenthesised. */
  function UnparseItem(r: Re): seq<CChar>
    decreases r, 0
  {
    match r
    case Char(c) => [c]
    case Star(x) => UnparseItem(x) + ['*']
    case Plus(x) => UnparseItem(x) + ['+']
    case Optional(x) => UnparseItem(x) + ['?']
    case Concat(cs) => ['('] + UnparseAll(cs) + [')']
    case Alt(l, rr) => ['('] + Unparse(l) + ['|'] + Unparse(rr) + [')']
  }

  lemma {:induction false} RegexpShape(s: seq<CChar>, i: nat, trailing: bool)
    requires i <= |s|
    ensures Regexp(s, i, trailing).tree.Some? ==> IsRegexp(Regexp(s, i, trailing).tree.value)
    decreases |s| - i, 3
  {
    ConcatenationShape(s, i, trailing, []);
  }

  lemma {:induction false} ConcatenationShape(s: seq<CChar>, i: nat, trailing: bool, acc: seq<Re>)
    requires i <= |s|
    requires forall k :: 0 <= k < |acc| ==> IsItem(acc[k])
    requires QuantifiersBound(acc)
    requires acc != [] && !IsQuantified(acc[|acc| - 1]) && i < |s| ==> !IsQuantifier(s[i])
    ensures Concatenation(s, i, trailing, acc).tree.Some? ==>
              IsRegexp(Concatenation(s, i, trailing, acc).tree.value)
    decreases |s| - i, 2
  {
    if i < |s| && s[i] != '|' {
      var sub := Subexp(s, i);
      SubexpShape(s, i);
      if sub.tree.Some? {
        var acc' := acc + [sub.tree.value];
        assert forall k :: 0 <= k < |acc| ==> acc'[k] == acc[k];
        ConcatenationShape(s, sub.pos, trailing, acc');
      }
    } else if i < |s| {
      RegexpShape(s, i + 1, trailing);
    }
  }

  /**
   * `subexp` builds an item, and takes the quantifier byte after its atom
   * if there is one: an item left without a quantifier is never followed
   * by `*`, `+` or `?`. A literal atom is the byte the cursor stood on.
   */
  lemma {:induction false} SubexpShape(s: seq<CChar>, i: nat)
    requires i <= |s|
    requires i < |s| ==> s[i] != '|'
    ensures var r := Subexp(s, i);
      r.tree.Some? ==>
        && IsItem(r.tree.value)
        && (!IsQuantified(r.tree.value) && r.pos < |s| ==> !IsQuantifier(s[r.pos]))
        && (Operand(r.tree.value).Char? ==> Operand(r.tree.value).c == s[i])
    decreases |s| - i, 1
  {
    AtomShape(s, i);
  }

  /** `atom` builds a literal of the byte under the cursor, or a group. */
  lemma {:induction false} AtomShape(s: seq<CChar>, i: nat)
    requires i <= |s|
    requires i < |s| ==> s[i] != '|'
    ensures var r := Atom(s, i);
      r.tree.Some? ==>
        && IsAtom(r.tree.value) && !IsQuantified(r.tree.value)
        && (r.tree.value.Char? ==> r.tree.value.c == s[i])
    decreases |s| - i, 0
  {
    if i < |s| && s[i] == '(' {
      RegexpShape(s, i + 1, true);
    }
  }

  /**
   * Printing back what `regexp` parsed gives exactly the text it consumed,
   * whenever it stopped with every group closed.
   */
  lemma {:induction false} RegexpRoundTrip(s: seq<CChar>, i: nat, trailing: bool)
    requires i <= |s|
    ensures var r := Regexp(s, i, trailing);
      r.tree.Some? && Depth(s, i, r.pos) == 0 ==> Unparse(r.tree.value) == s[i..r.pos]
    decreases |s| - i, 3
  {
    ConcatenationRoundTrip(s, i, trailing, []);
  }

  lemma {:induction false} ConcatenationRoundTrip(s: seq<CChar>, i: nat, trailing: bool, acc: seq<Re>)
    requires i <= |s|
    ensures var r := Concatenation(s, i, trailing, acc);
      r.tree.Some? && Depth(s, i, r.pos) == 0 ==>
        Unparse(r.tree.value) == UnparseAll(acc) + s[i..r.pos]
    decreases |s| - i, 2
  {
    var r := Concatenation(s, i, trailing, acc);
    if i < |s| && s[i] != '|' {
      var sub := Subexp(s, i);
      SubexpStops(s, i);
      if sub.tree.Some? {
        var acc' := acc + [sub.tree.value];
        ConcatenationRoundTrip(s, sub.pos, trailing, acc');
        SubexpRoundTrip(s, i);
        DepthSplit(s, i, sub.pos, r.pos);
        assert acc'[..|acc'| - 1] == acc;
        assert UnparseAll(acc') == UnparseAll(acc) + s[i..sub.pos];
        assert s[i..sub.pos] + s[sub.pos..r.pos] == s[i..r.pos];
      }
    } else if i < |s| {
      AlternativeRoundTrip(s, i, trailing, acc);
    }
  }

  /** The `|` branch of `ConcatenationRoundTrip`. */
  lemma {:induction false} AlternativeRoundTrip(s: seq<CChar>, i: nat, trailing: bool, acc: seq<Re>)
    requires i < |s| && s[i] == '|'
    ensures var r := Concatenation(s, i, trailing, acc);
      r.tree.Some? && Depth(s, i, r.pos) == 0 ==>
        Unparse(r.tree.value) == UnparseAll(acc) + s[i..r.pos]
    decreases |s| - i, 1
  {
    var right := Regexp(s, i + 1, trailing);
    assert Concatenation(s, i, trailing, acc).pos == right.pos;
    RegexpRoundTrip(s, i + 1, trailing);
    DepthSplit(s, i, i + 1, right.pos);
    assert s[i..right.pos] == ['|'] + s[i + 1..right.pos];
  }

  lemma {:induction false} SubexpRoundTrip(s: seq<CChar>, i: nat)
    requires i <= |s|
    ensures Subexp(s, i).tree.Some? ==> UnparseItem(Subexp(s, i).tree.value) == s[i..Subexp(s, i).pos]
    decreases |s| - i, 1
  {
    var a := Atom(s, i);
    AtomRoundTrip(s, i);
    if a.tree.Some? && a.pos < |s| && IsQuantifier(s[a.pos]) {
      assert s[i..a.pos + 1] == s[i..a.pos] + [s[a.pos]];
    }
  }

  lemma {:induction false} AtomRoundTrip(s: seq<CChar>, i: nat)
    requires i <= |s|
    ensures Atom(s, i).tree.Some? ==> UnparseItem(Atom(s, i).tree.value) == s[i..Atom(s, i).pos]
    decreases |s| - i, 0
  {
    if i < |s| && s[i] == '(' {
      var inner := Regexp(s, i + 1, true);
      RegexpStops(s, i + 1, true);
      RegexpShape(s, i + 1, true);
      RegexpRoundTrip(s, i + 1, true);
      if inner.pos < |s| && s[inner.pos] == ')' {
        assert s[i..inner.pos + 1] == ['('] + s[i + 1..inner.pos] + [')'];
      }
    }
  }

  // ---------------------------------------------------------------------
  // The converse: the parser reads every printed tree back to itself, so
  // the contract of `Parse` determines the tree it returns.

  /**
   * `parse` returns `t` exactly when `t` is a tree of the shape the parser
   * builds and prints back to the pattern: no two such trees print alike.
   */
  lemma ParseExactly(s: seq<CChar>, t: Re)
    ensures Parse(s) == Some(t) <==> IsRegexp(t) && Unparse(t) == s
  {
    if IsRegexp(t) && Unparse(t) == s {
      ParseUnparse(t);
    }
  }

  /** Parsing the text of a tree of the parser's shape gives that tree back. */
  lemma ParseUnparse(t: Re)
    requires IsRegexp(t)
    ensures Parse(Unparse(t)) == Some(t)
  {
    var s := Unparse(t);
    assert s[0..|s|] == s;
    RegexpParse(s, 0, false, t);
  }

  /** The first byte of an item's text: its literal, or the `(` of its group. */
  lemma ItemFirst(x: Re)
    requires IsItem(x)
    ensures |UnparseItem(x)| > 0
    ensures UnparseItem(x)[0] == if Operand(x).Char? then Operand(x).c else '('
  {
  }

  lemma SliceSplit(s: seq<CChar>, i: nat, u: seq<CChar>, v: seq<CChar>)
    requires i + |u + v| <= |s| && s[i..i + |u + v|] == u + v
    ensures s[i..i + |u|] == u && s[i + |u|..i + |u| + |v|] == v
  {
    assert s[i..i + |u|] == (u + v)[..|u|];
    assert s[i + |u|..i + |u| + |v|] == (u + v)[|u|..];
  }

  /**
   * `regexp` reads the text of a tree of its shape back to that tree when
   * the text ends the input, or (trailing allowed) stops at a `)`.
   */
  lemma {:induction false} RegexpParse(s: seq<CChar>, i: nat, trailing: bool, t: Re)
    requires IsRegexp(t)
    requires i + |Unparse(t)| <= |s| && s[i..i + |Unparse(t)|] == Unparse(t)
    requires i + |Unparse(t)| == |s| || (trailing && s[i + |Unparse(t)|] == ')')
    ensures Regexp(s, i, trailing) == Parsed(Some(t), i + |Unparse(t)|)
    decreases t, 1
  {
    if t.Concat? {
      ConcatParse(s, i, trailing, t);
    } else {
      AltParse(s, i, trailing, t);
    }
  }

  /** The concatenation case of `RegexpParse`: the loop stops at the end or at `)`. */
  lemma {:induction false} ConcatParse(s: seq<CChar>, i: nat, trailing: bool, t: Re)
    requires IsRegexp(t) && t.Concat?
    requires i + |Unparse(t)| <= |s| && s[i..i + |Unparse(t)|] == Unparse(t)
    requires i + |Unparse(t)| == |s| || (trailing && s[i + |Unparse(t)|] == ')')
    ensures Regexp(s, i, trailing) == Parsed(Some(t), i + |Unparse(t)|)
    decreases t, 0
  {
    var j := i + |Unparse(t)|;
    ConcatenationParse(s, i, trailing, [], t.res);
    assert [] + t.res == t.res;
    if j < |s| {
      assert Atom(s, j) == Parsed(None, j);
    }
  }

  /** The alternation case of `RegexpParse`: the loop stops at `|`, and the rest is the right side. */
  lemma {:induction false} AltParse(s: seq<CChar>, i: nat, trailing: bool, t: Re)
    requires IsRegexp(t) && t.Alt?
    requires i + |Unparse(t)| <= |s| && s[i..i + |Unparse(t)|] == Unparse(t)
    requires i + |Unparse(t)| == |s| || (trailing && s[i + |Unparse(t)|] == ')')
    ensures Regexp(s, i, trailing) == Parsed(Some(t), i + |Unparse(t)|)
    decreases t, 0
  {
    var l, rr := t.left, t.right;
    assert IsAtom(t) && IsAtom(l);
    var j := AltText(s, i, t);
    assert IsRegexp(rr) && Concat(l.res) == l;
    RegexpParse(s, j + 1, trailing, rr);
    ConcatenationParse(s, i, trailing, [], l.res);
    AlternativeStep(s, i, j, trailing, l.res, rr, i + |Unparse(t)|);
  }

  /** Where the `|` of an alternation's text falls. */
  lemma AltText(s: seq<CChar>, i: nat, t: Re) returns (j: nat)
    requires t.Alt? && t.left.Concat?
    requires i + |Unparse(t)| <= |s| && s[i..i + |Unparse(t)|] == Unparse(t)
    ensures j == i + |UnparseAll(t.left.res)| && j < |s| && s[j] == '|'
    ensures s[i..j] == UnparseAll(t.left.res)
    ensures j + 1 + |Unparse(t.right)| == i + |Unparse(t)|
    ensures s[j + 1..j + 1 + |Unparse(t.right)|] == Unparse(t.right)
  {
    var u, v := UnparseAll(t.left.res), Unparse(t.right);
    assert Unparse(t) == u + (['|'] + v);
    j := i + |u|;
    SliceSplit(s, i, u, ['|'] + v);
    SliceSplit(s, j, ['|'], v);
  }

  /**
   * A loop of `regexp` that pushes `acc` and reaches `|` ends there, and the
   * right side is parsed by `regexp` again.
   */
  lemma AlternativeStep(s: seq<CChar>, i: nat, j: nat, trailing: bool, acc: seq<Re>, rr: Re, k: nat)
    requires i <= j < |s| && s[j] == '|'
    requires Concatenation(s, i, trailing, []) == Concatenation(s, j, trailing, [] + acc)
    requires Regexp(s, j + 1, trailing) == Parsed(Some(rr), k)
    ensures Regexp(s, i, trailing) == Parsed(Some(Alt(Concat(acc), rr)), k)
  {
    assert [] + acc == acc;
  }

  /**
   * The loop of `regexp` reads the text of items `rest` to those items,
   * in order, when a quantifier byte never follows an item left without
   * one.
   */
  lemma {:induction false} ConcatenationParse(s: seq<CChar>, i: nat, trailing: bool, acc: seq<Re>, rest: seq<Re>)
    requires forall k :: 0 <= k < |rest| ==> IsItem(rest[k])
    requires QuantifiersBound(rest)
    requires i + |UnparseAll(rest)| <= |s| && s[i..i + |UnparseAll(rest)|] == UnparseAll(rest)
    requires rest != [] && !IsQuantified(rest[|rest| - 1]) && i + |UnparseAll(rest)| < |s| ==>
               !IsQuantifier(s[i + |UnparseAll(rest)|])
    ensures Concatenation(s, i, trailing, acc) == Concatenation(s, i + |UnparseAll(rest)|, trailing, acc + rest)
    decreases rest, 4
  {
    if rest == [] {
      assert acc + rest == acc && i + |UnparseAll(rest)| == i;
    } else {
      var k := ItemsText(s, i, rest);
      ConcatenationParse(s, i, trailing, acc, rest[..|rest| - 1]);
      LastItemParse(s, k, trailing, acc, rest, i + |UnparseAll(rest)|);
    }
  }

  /** The last turn of the loop in `ConcatenationParse`: the last item of `rest`. */
  lemma LastItemParse(s: seq<CChar>, k: nat, trailing: bool, acc: seq<Re>, rest: seq<Re>, j: nat)
    requires rest != [] && IsItem(rest[|rest| - 1])
    requires k < |s| && s[k] != '|'
    requires j == k + |UnparseItem(rest[|rest| - 1])| && j <= |s|
    requires s[k..j] == UnparseItem(rest[|rest| - 1])
    requires !IsQuantified(rest[|rest| - 1]) && j < |s| ==> !IsQuantifier(s[j])
    ensures Concatenation(s, k, trailing, acc + rest[..|rest| - 1]) == Concatenation(s, j, trailing, acc + rest)
    decreases rest, 3
  {
    var init, last := rest[..|rest| - 1], rest[|rest| - 1];
    assert acc + init + [last] == acc + rest;
    ItemParse(s, k, last);
    LoopStep(s, k, trailing, acc + init, last, j);
  }

  /**
   * Where the text of the last item of `rest` starts, and that the text
   * before it satisfies what `ConcatenationParse` asks of its items.
   */
  lemma ItemsText(s: seq<CChar>, i: nat, rest: seq<Re>) returns (k: nat)
    requires rest != []
    requires forall m :: 0 <= m < |rest| ==> IsItem(rest[m])
    requires QuantifiersBound(rest)
    requires i + |UnparseAll(rest)| <= |s| && s[i..i + |UnparseAll(rest)|] == UnparseAll(rest)
    ensures var init, last := rest[..|rest| - 1], rest[|rest| - 1];
      && (forall m :: 0 <= m < |init| ==> IsItem(init[m])) && QuantifiersBound(init)
      && IsItem(last)
      && k == i + |UnparseAll(init)| && k < |s| && s[k] != '|'
      && s[i..k] == UnparseAll(init)
      && k + |UnparseItem(last)| == i + |UnparseAll(rest)|
      && s[k..k + |UnparseItem(last)|] == UnparseItem(last)
      && (init != [] && !IsQuantified(init[|init| - 1]) ==> !IsQuantifier(s[k]))
  {
    var init, last := rest[..|rest| - 1], rest[|rest| - 1];
    var u, v := UnparseAll(init), UnparseItem(last);
    assert UnparseAll(rest) == u + v;
    SliceSplit(s, i, u, v);
    k := i + |u|;
    assert forall m :: 0 <= m < |init| ==> init[m] == rest[m];
    ItemFirst(last);
    assert s[k] == v[0];
    if Operand(last).Char? {
      assert IsAtom(Operand(last));
    }
  }

  /** One more turn of the loop of `regexp`, pushing the item `subexp` read. */
  lemma LoopStep(s: seq<CChar>, k: nat, trailing: bool, acc: seq<Re>, last: Re, j: nat)
    requires k < |s| && s[k] != '|'
    requires Subexp(s, k) == Parsed(Some(last), j)
    ensures Concatenation(s, k, trailing, acc) == Concatenation(s, j, trailing, acc + [last])
  {
  }

  /** `subexp` reads an item's text back to the item. */
  lemma {:induction false} ItemParse(s: seq<CChar>, i: nat, x: Re)
    requires IsItem(x)
    requires i + |UnparseItem(x)| <= |s| && s[i..i + |UnparseItem(x)|] == UnparseItem(x)
    requires !IsQuantified(x) && i + |UnparseItem(x)| < |s| ==> !IsQuantifier(s[i + |UnparseItem(x)|])
    ensures Subexp(s, i) == Parsed(Some(x), i + |UnparseItem(x)|)
    decreases x, 3
  {
    if IsQuantified(x) {
      var a := x.re;
      var w := UnparseItem(a);
      SliceSplit(s, i, w, [UnparseItem(x)[|w|]]);
      AtomParse(s, i, a);
    } else {
      AtomParse(s, i, x);
    }
  }

  /** `atom` reads a literal or a group back to itself. */
  lemma {:induction false} AtomParse(s: seq<CChar>, i: nat, x: Re)
    requires IsAtom(x)
    requires i + |UnparseItem(x)| <= |s| && s[i..i + |UnparseItem(x)|] == UnparseItem(x)
    ensures Atom(s, i) == Parsed(Some(x), i + |UnparseItem(x)|)
    decreases x, 2
  {
    if !x.Char? {
      GroupText(s, i, x);
      RegexpParse(s, i + 1, true, x);
      GroupStep(s, i, x, i + 1 + |Unparse(x)|);
    } else {
      assert s[i] == UnparseItem(x)[0];
    }
  }

  /** A group's text is its regexp text between `(` and `)`. */
  lemma GroupText(s: seq<CChar>, i: nat, x: Re)
    requires x.Concat? || x.Alt?
    requires i + |UnparseItem(x)| <= |s| && s[i..i + |UnparseItem(x)|] == UnparseItem(x)
    ensures i < |s| && s[i] == '('
    ensures i + 1 + |Unparse(x)| < |s| && s[i + 1 + |Unparse(x)|] == ')'
    ensures s[i + 1..i + 1 + |Unparse(x)|] == Unparse(x)
    ensures |UnparseItem(x)| == |Unparse(x)| + 2
  {
    assert UnparseItem(x) == ['('] + Unparse(x) + [')'];
    SliceSplit(s, i, ['('] + Unparse(x), [')']);
    SliceSplit(s, i, ['('], Unparse(x));
  }

  /** `atom` at `(` parses the group and takes its `)`. */
  lemma GroupStep(s: seq<CChar>, i: nat, x: Re, k: nat)
    requires i < |s| && s[i] == '(' && k < |s| && s[k] == ')'
    requires Regexp(s, i + 1, true) == Parsed(Some(x), k)
    ensures Atom(s, i) == Parsed(Some(x), k + 1)
  {
  }

  // ---------------------------------------------------------------------
  // Runs of ordinary bytes.

  /** A byte that `atom` takes as a literal and that no quantifier can be. */
  predicate Plain(c: CChar) {
    c != '(' && c != ')' && c != '|' && !IsQuantifier(c)
  }

  /** One literal node per byte of `w`. */
  function Literal(w: seq<CChar>): seq<Re> {
    seq(|w|, k requires 0 <= k < |w| => Char(w[k]))
  }

  /**
   * The `while` loop of `regexp` turns a run of plain bytes that no
   * quantifier follows into one literal child per byte, in order.
   */
  lemma {:induction false} LiteralRun(s: seq<CChar>, i: nat, n: nat, trailing: bool, acc: seq<Re>)
    requires i + n <= |s|
    requires forall k :: i <= k < i + n ==> Plain(s[k])
    requires i + n < |s| ==> !IsQuantifier(s[i + n])
    ensures Concatenation(s, i, trailing, acc) == Concatenation(s, i + n, trailing, acc + Literal(s[i..i + n]))
    decreases n
  {
    if n > 0 {
      assert i + 1 < |s| ==> !IsQuantifier(s[i + 1]);
      assert Subexp(s, i) == Parsed(Some(Char(s[i])), i + 1);
      assert Concatenation(s, i, trailing, acc) == Concatenation(s, i + 1, trailing, acc + [Char(s[i])]);
      LiteralRun(s, i + 1, n - 1, trailing, acc + [Char(s[i])]);
      assert [Char(s[i])] + Literal(s[i + 1..i + n]) == Literal(s[i..i + n]);
      assert acc + [Char(s[i])] + Literal(s[i + 1..i + n]) == acc + Literal(s[i..i + n]);
    } else {
      assert acc + Literal(s[i..i]) == acc;
    }
  }
}
