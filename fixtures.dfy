/**
 * The fixture of test.c:12-19 and a few patterns that show how the parser
 * reads quantifiers, alternation and parentheses.
 */
module Fixtures {
  import opened Wrappers
  import opened Syntax
  import opened Parser
  import opened Matcher
  import opened Semantics
  import opened Engine

  /** The tree of a pattern `u(v|w)x` whose four parts are runs of plain bytes. */
  function Grouped(u: seq<CChar>, v: seq<CChar>, w: seq<CChar>, x: seq<CChar>): Re {
    Concat(Literal(u) + [Alt(Concat(Literal(v)), Concat(Literal(w)))] + Literal(x))
  }

  /** Such a tree matches exactly the two strings `uvx` and `uwx`. */
  lemma GroupedLanguage(u: seq<CChar>, v: seq<CChar>, w: seq<CChar>, x: seq<CChar>, s: seq<CChar>, j: nat)
    requires j <= |s|
    ensures Lang(Grouped(u, v, w, x), s, 0, j) <==> s[..j] == u + v + x || s[..j] == u + w + x
  {
    if Lang(Grouped(u, v, w, x), s, 0, j) {
      GroupedSpells(u, v, w, x, s, j);
    }
    if s[..j] == u + v + x {
      GroupedMatches(u, v, w, x, v, s, j);
    }
    if s[..j] == u + w + x {
      GroupedMatches(u, v, w, x, w, s, j);
    }
  }

  lemma GroupedSpells(u: seq<CChar>, v: seq<CChar>, w: seq<CChar>, x: seq<CChar>, s: seq<CChar>, j: nat)
    requires j <= |s| && Lang(Grouped(u, v, w, x), s, 0, j)
    ensures s[..j] == u + v + x || s[..j] == u + w + x
  {
    var alt := Alt(Concat(Literal(v)), Concat(Literal(w)));
    var k0, k1 := SplitThree(Literal(u), [alt], Literal(x), s, j);
    LangLiteral(u, s, 0, k0);
    LangLiteral(x, s, k1, j);
    LangSingle(alt, s, k0, k1);
    EitherSpells(v, w, s, k0, k1);
    JoinThree(s, k0, k1, j);
  }

  lemma JoinThree(s: seq<CChar>, k0: nat, k1: nat, j: nat)
    requires k0 <= k1 <= j <= |s|
    ensures s[..j] == s[0..k0] + s[k0..k1] + s[k1..j]
  {
  }

  lemma SplitThree(a: seq<Re>, b: seq<Re>, c: seq<Re>, s: seq<CChar>, j: nat) returns (k0: nat, k1: nat)
    requires j <= |s| && LangAll(a + b + c, s, 0, j)
    ensures k0 <= k1 <= j && LangAll(a, s, 0, k0) && LangAll(b, s, k0, k1) && LangAll(c, s, k1, j)
  {
    k1 := LangAllSplit(a + b, c, s, 0, j);
    k0 := LangAllSplit(a, b, s, 0, k1);
  }

  /** The group `(v|w)` of two runs of plain bytes matches exactly `v` and `w`. */
  lemma EitherSpells(v: seq<CChar>, w: seq<CChar>, s: seq<CChar>, i: nat, j: nat)
    requires i <= j <= |s| && Lang(Alt(Concat(Literal(v)), Concat(Literal(w))), s, i, j)
    ensures s[i..j] == v || s[i..j] == w
  {
    if Lang(Concat(Literal(v)), s, i, j) {
      assert LangAll(Literal(v), s, i, j);
      LangLiteral(v, s, i, j);
    } else {
      assert LangAll(Literal(w), s, i, j);
      LangLiteral(w, s, i, j);
    }
  }

  lemma GroupedMatches(u: seq<CChar>, v: seq<CChar>, w: seq<CChar>, x: seq<CChar>, y: seq<CChar>, s: seq<CChar>, j: nat)
    requires j <= |s| && (y == v || y == w) && s[..j] == u + y + x
    ensures Lang(Grouped(u, v, w, x), s, 0, j)
  {
    var alt := Alt(Concat(Literal(v)), Concat(Literal(w)));
    var a, b, c := Literal(u), [alt], Literal(x);
    var k0, k1 := |u|, |u| + |y|;
    SliceThree(u, y, x, s, j);
    LangLiteral(u, s, 0, k0);
    LangLiteral(y, s, k0, k1);
    LangSingle(alt, s, k0, k1);
    LangAllAppend(a, b, s, 0, k0, k1);
    LangLiteral(x, s, k1, j);
    LangAllAppend(a + b, c, s, 0, k1, j);
  }

  lemma SliceThree(u: seq<CChar>, y: seq<CChar>, x: seq<CChar>, s: seq<CChar>, j: nat)
    requires j <= |s| && s[..j] == u + y + x
    ensures s[0..|u|] == u && s[|u|..|u| + |y|] == y && s[|u| + |y|..j] == x
  {
    assert s[0..|u|] == s[..j][0..|u|];
    assert s[|u|..|u| + |y|] == s[..j][|u|..|u| + |y|];
    assert s[|u| + |y|..j] == s[..j][|u| + |y|..j];
  }

  /** The pattern text `u(v|w)x`. */
  function GroupedText(u: seq<CChar>, v: seq<CChar>, w: seq<CChar>, x: seq<CChar>): seq<CChar> {
    u + ['('] + v + ['|'] + w + [')'] + x
  }

  predicate AllPlain(w: seq<CChar>) {
    forall k :: 0 <= k < |w| ==> Plain(w[k])
  }

  /** Where the parts of `u(v|w)x` sit: the `(` at o, the `|` at b, the `)` at c. */
  lemma GroupedLayout(u: seq<CChar>, v: seq<CChar>, w: seq<CChar>, x: seq<CChar>)
    requires AllPlain(u) && AllPlain(v) && AllPlain(w) && AllPlain(x)
    ensures var p, o := GroupedText(u, v, w, x), |u|;
      var b := o + 1 + |v|;
      var c := b + 1 + |w|;
      && |p| == c + 1 + |x|
      && p[o] == '(' && p[b] == '|' && p[c] == ')'
      && p[..o] == u && p[o + 1..b] == v && p[b + 1..c] == w && p[c + 1..] == x
      && (forall k :: 0 <= k < o ==> Plain(p[k]))
      && (forall k :: o + 1 <= k < b ==> Plain(p[k]))
      && (forall k :: b + 1 <= k < c ==> Plain(p[k]))
      && (forall k :: c + 1 <= k < |p| ==> Plain(p[k]))
  {
    var p, o := GroupedText(u, v, w, x), |u|;
    var b := o + 1 + |v|;
    var c := b + 1 + |w|;
    forall k | 0 <= k < |p|
      ensures k < o ==> p[k] == u[k]
      ensures o + 1 <= k < b ==> p[k] == v[k - o - 1]
      ensures b + 1 <= k < c ==> p[k] == w[k - b - 1]
      ensures c + 1 <= k ==> p[k] == x[k - c - 1]
    {
    }
  }

  /** `parse` reads `u(v|w)x`, for runs of plain bytes, as `Grouped(u, v, w, x)`. */
  lemma GroupedParses(u: seq<CChar>, v: seq<CChar>, w: seq<CChar>, x: seq<CChar>)
    requires AllPlain(u) && AllPlain(v) && AllPlain(w) && AllPlain(x)
    ensures Parse(GroupedText(u, v, w, x)) == Some(Grouped(u, v, w, x))
  {
    var p, o := GroupedText(u, v, w, x), |u|;
    GroupedLayout(u, v, w, x);
    LiteralRun(p, 0, o, false, []);
    assert p[0..o] == u;
    assert [] + Literal(u) == Literal(u);
    GroupThenRun(p, o, |v|, |w|, Literal(u));
    assert p[o + 1..o + 1 + |v|] == v;
    assert p[o + |v| + 2..o + |v| + 2 + |w|] == w;
    assert p[o + |v| + |w| + 3..] == x;
  }

  /**
   * At the top level, a group `(v|w)` at `o` followed by a run of plain bytes
   * to the end adds one `Alt` item and then the literals of the run.
   */
  lemma GroupThenRun(s: seq<CChar>, o: nat, m: nat, n: nat, acc: seq<Re>)
    requires o + m + n + 2 < |s|
    requires s[o] == '(' && s[o + m + 1] == '|' && s[o + m + n + 2] == ')'
    requires forall k :: o + 1 <= k < o + m + 1 ==> Plain(s[k])
    requires forall k :: o + m + 2 <= k < o + m + n + 2 ==> Plain(s[k])
    requires forall k :: o + m + n + 3 <= k < |s| ==> Plain(s[k])
    ensures Concatenation(s, o, false, acc) ==
      Parsed(Some(Concat(acc + [Alt(Concat(Literal(s[o + 1..o + m + 1])), Concat(Literal(s[o + m + 2..o + m + n + 2])))]
                         + Literal(s[o + m + n + 3..]))), |s|)
  {
    var c := o + m + n + 2;
    var group := Alt(Concat(Literal(s[o + 1..o + m + 1])), Concat(Literal(s[o + m + 2..c])));
    GroupBody(s, o, m, n);
    assert Concatenation(s, o, false, acc) == Concatenation(s, c + 1, false, acc + [group]);
    LiteralRun(s, c + 1, |s| - c - 1, false, acc + [group]);
    assert s[c + 1..c + 1 + (|s| - c - 1)] == s[c + 1..];
  }

  /**
   * A group `(v|w)` of two runs of plain bytes at `o`, not followed by a
   * quantifier, is one `Alt` item.
   */
  lemma GroupBody(s: seq<CChar>, o: nat, m: nat, n: nat)
    requires o + m + n + 2 < |s|
    requires s[o] == '(' && s[o + m + 1] == '|' && s[o + m + n + 2] == ')'
    requires forall k :: o + 1 <= k < o + m + 1 ==> Plain(s[k])
    requires forall k :: o + m + 2 <= k < o + m + n + 2 ==> Plain(s[k])
    requires o + m + n + 3 < |s| ==> !IsQuantifier(s[o + m + n + 3])
    ensures Subexp(s, o) ==
      Parsed(Some(Alt(Concat(Literal(s[o + 1..o + m + 1])), Concat(Literal(s[o + m + 2..o + m + n + 2])))), o + m + n + 3)
  {
    var b, c := o + m + 1, o + m + n + 2;
    var v, w := s[o + 1..b], s[b + 1..c];
    var group := Alt(Concat(Literal(v)), Concat(Literal(w)));
    RunBeforeClose(s, b + 1, n);
    LiteralRun(s, o + 1, m, true, []);
    assert [] + Literal(v) == Literal(v);
    assert Concatenation(s, b, true, Literal(v)) == Parsed(Some(group), c);
    assert Atom(s, o) == Parsed(Some(group), c + 1);
  }

  /** Inside a group, a run of plain bytes up to a `)` is a concatenation of its literals. */
  lemma RunBeforeClose(s: seq<CChar>, i: nat, n: nat)
    requires i + n < |s| && s[i + n] == ')'
    requires forall k :: i <= k < i + n ==> Plain(s[k])
    ensures Regexp(s, i, true) == Parsed(Some(Concat(Literal(s[i..i + n]))), i + n)
  {
    LiteralRun(s, i, n, true, []);
    assert [] + Literal(s[i..i + n]) == Literal(s[i..i + n]);
    assert Atom(s, i + n) == Parsed(None, i + n);
  }

  /**
   * For `u(v|w)x`, whenever `re_match` returns it accepts exactly the inputs
   * that begin with `uvx` or with `uwx`.
   */
  lemma GroupedMatch(u: seq<CChar>, v: seq<CChar>, w: seq<CChar>, x: seq<CChar>, s: seq<CChar>, fuel: nat)
    requires AllPlain(u) && AllPlain(v) && AllPlain(w) && AllPlain(x)
    ensures Parse(GroupedText(u, v, w, x)) == Some(Grouped(u, v, w, x))
    ensures DoMatch(Compiled(Grouped(u, v, w, x)), 0, s, 0, fuel) != OutOfFuel ==>
      (DoMatch(Compiled(Grouped(u, v, w, x)), 0, s, 0, fuel) == Accept <==>
       exists j :: 0 <= j <= |s| && (s[..j] == u + v + x || s[..j] == u + w + x))
  {
    GroupedParses(u, v, w, x);
    var g := Compiled(Grouped(u, v, w, x));
    if DoMatch(g, 0, s, 0, fuel) != OutOfFuel {
      MatchMeaning(GroupedText(u, v, w, x), s, fuel);
      if DoMatch(g, 0, s, 0, fuel) == Accept {
        var j :| 0 <= j <= |s| && Lang(Grouped(u, v, w, x), s, 0, j);
        GroupedLanguage(u, v, w, x, s, j);
      } else {
        forall j | 0 <= j <= |s|
          ensures !(s[..j] == u + v + x || s[..j] == u + w + x)
        {
          GroupedLanguage(u, v, w, x, s, j);
        }
      }
    }
  }

  /**
   * test.c:12-19: the pattern `this (is|was) fun` compiles, and whenever
   * `re_match` returns it accepts `this is fun` and `this was fun` and
   * rejects `this fun` and `thi was is fun`.
   */
  lemma FunFixture(p: seq<CChar>, yes1: seq<CChar>, yes2: seq<CChar>, no1: seq<CChar>, no2: seq<CChar>, fuel: nat)
    requires p == "this (is|was) fun"
    requires yes1 == "this is fun" && yes2 == "this was fun" && no1 == "this fun" && no2 == "thi was is fun"
    ensures Parse(p).Some?
    ensures DoMatch(Compiled(Parse(p).value), 0, yes1, 0, fuel) != Reject
    ensures DoMatch(Compiled(Parse(p).value), 0, yes2, 0, fuel) != Reject
    ensures DoMatch(Compiled(Parse(p).value), 0, no1, 0, fuel) != Accept
    ensures DoMatch(Compiled(Parse(p).value), 0, no2, 0, fuel) != Accept
  {
    var u: seq<CChar>, v: seq<CChar>, w: seq<CChar>, x: seq<CChar> := "this ", "is", "was", " fun";
    assert AllPlain(u) && AllPlain(v) && AllPlain(w) && AllPlain(x);
    assert p == GroupedText(u, v, w, x);
    GroupedParses(u, v, w, x);
    FunAccepts(u, v, w, x, yes1, yes2, fuel);
    FunRejects(u, v, w, x, no1, no2, fuel);
  }

  lemma FunAccepts(u: seq<CChar>, v: seq<CChar>, w: seq<CChar>, x: seq<CChar>, yes1: seq<CChar>, yes2: seq<CChar>, fuel: nat)
    requires u == "this " && v == "is" && w == "was" && x == " fun"
    requires AllPlain(u) && AllPlain(v) && AllPlain(w) && AllPlain(x)
    requires yes1 == "this is fun" && yes2 == "this was fun"
    ensures DoMatch(Compiled(Grouped(u, v, w, x)), 0, yes1, 0, fuel) != Reject
    ensures DoMatch(Compiled(Grouped(u, v, w, x)), 0, yes2, 0, fuel) != Reject
  {
    GroupedMatch(u, v, w, x, yes1, fuel);
    assert yes1[..11] == u + v + x;
    GroupedMatch(u, v, w, x, yes2, fuel);
    assert yes2[..12] == u + w + x;
  }

  lemma FunRejects(u: seq<CChar>, v: seq<CChar>, w: seq<CChar>, x: seq<CChar>, no1: seq<CChar>, no2: seq<CChar>, fuel: nat)
    requires u == "this " && v == "is" && w == "was" && x == " fun"
    requires AllPlain(u) && AllPlain(v) && AllPlain(w) && AllPlain(x)
    requires no1 == "this fun" && no2 == "thi was is fun"
    ensures DoMatch(Compiled(Grouped(u, v, w, x)), 0, no1, 0, fuel) != Accept
    ensures DoMatch(Compiled(Grouped(u, v, w, x)), 0, no2, 0, fuel) != Accept
  {
    GroupedMatch(u, v, w, x, no1, fuel);
    GroupedMatch(u, v, w, x, no2, fuel);
    forall j | 0 <= j <= |no2|
      ensures no2[..j] != u + v + x && no2[..j] != u + w + x
    {
      if j > 3 {
        assert no2[..j][3] == ' ';
      }
    }
  }

  /** A quantifier in atom position is a literal: `a**` is `a*` followed by a literal `*`. */
  lemma QuantifierAsLiteral(p: seq<CChar>)
    requires p == "a**"
    ensures Parse(p) == Some(Concat([Star(Char('a')), Char('*')]))
  {
    var star, lit := Star(Char('a')), Char('*');
    assert |p| == 3 && p[0] == 'a' && p[1] == '*' && p[2] == '*';
    assert Atom(p, 0) == Parsed(Some(Char('a')), 1);
    assert Subexp(p, 0) == Parsed(Some(star), 2);
    assert [] + [star] == [star];
    assert Concatenation(p, 0, false, []) == Concatenation(p, 2, false, [star]);
    assert Atom(p, 2) == Parsed(Some(lit), 3);
    assert Subexp(p, 2) == Parsed(Some(lit), 3);
    assert [star] + [lit] == [star, lit];
    assert Concatenation(p, 2, false, [star]) == Concatenation(p, 3, false, [star, lit]);
  }

  /** `|` associates to the right: `a|b|c` is `a|(b|c)`. */
  lemma AltRightAssociative(p: seq<CChar>)
    requires p == "a|b|c"
    ensures Parse(p) == Some(Alt(Concat([Char('a')]), Alt(Concat([Char('b')]), Concat([Char('c')]))))
  {
    var a, b, c := Char('a'), Char('b'), Char('c');
    assert |p| == 5 && p[0] == 'a' && p[1] == '|' && p[2] == 'b' && p[3] == '|' && p[4] == 'c';
    assert [] + [a] == [a] && [] + [b] == [b] && [] + [c] == [c];
    assert Subexp(p, 4) == Parsed(Some(c), 5);
    assert Concatenation(p, 4, false, []) == Concatenation(p, 5, false, [c]);
    assert Regexp(p, 4, false) == Parsed(Some(Concat([c])), 5);
    assert Subexp(p, 2) == Parsed(Some(b), 3);
    assert Concatenation(p, 2, false, []) == Concatenation(p, 3, false, [b]);
    assert Regexp(p, 2, false) == Parsed(Some(Alt(Concat([b]), Concat([c]))), 5);
    assert Subexp(p, 0) == Parsed(Some(a), 1);
    assert Concatenation(p, 0, false, []) == Concatenation(p, 1, false, [a]);
  }

  /** An unterminated `(` and an unmatched `)` both make `parse` fail. */
  lemma UnbalancedFails(p: seq<CChar>, q: seq<CChar>)
    requires p == "(ab" && q == "a)"
    ensures Parse(p) == None && Parse(q) == None
  {
    assert Depth(p, 0, 3) == 1;
    assert Depth(q, 0, 2) == -1;
  }
}
