/**
 * The backtracking matcher of re.c:318-360.
 *
 * `domatch` need not terminate: a loop whose body can match the empty
 * string leaves an epsilon cycle in the table, and the recursion then goes
 * round it for ever. `DoMatch` therefore takes a bound on the depth of the
 * recursion and answers `OutOfFuel` where the C call would still be running.
 * `Accepts` is the relation the search explores: some path of edges from
 * the state and position reaches a state with no edges.
 */
module Matcher {
  import opened Wrappers
  import opened Syntax
  import opened Automaton

  datatype Outcome = Accept | Reject | OutOfFuel

  /**
   * `charmatch(&s, t)`: an epsilon edge is always taken and consumes
   * nothing; a literal edge is taken only when the next byte equals its
   * label, and then consumes that byte. At the end of the input (the NUL)
   * no literal matches.
   */
  function CharMatch(s: seq<CChar>, i: nat, t: Label): (r: Option<nat>)
    requires i <= |s|
    ensures r.Some? <==> t.Epsilon? || (i < |s| && s[i] == t.c)
    ensures r.Some? ==> r.value == if t.Epsilon? then i else i + 1
    ensures r.Some? ==> r.value <= |s|
  {
    if t.Epsilon? then Some(i)
    else if i == |s| || s[i] != t.c then None
    else Some(i + 1)
  }

  /**
   * `domatch(state, s)` with state `q` of table `g` and the input from
   * position `i`, recursing at most `fuel` deep. A state whose `one` is
   * empty accepts whatever input is left; otherwise `one` is tried, and
   * `two`, if present, is tried from the saved position only when `one`
   * failed, without looking at its label. An `Accept` is sound whenever
   * every `two` edge is epsilon: some path of at most `fuel` edges then
   * leads to a state with no edges.
   */
  function DoMatch(g: seq<State>, q: nat, s: seq<CChar>, i: nat, fuel: nat): (r: Outcome)
    requires Valid(g) && q < |g| && i <= |s|
    ensures SecondEpsilon(g) && r == Accept ==> AcceptsWithin(g, q, s, i, fuel)
    decreases fuel
  {
    if fuel == 0 then OutOfFuel
    else match g[q].one
      case None => Accept
      case Some(e1) =>
        var first :=
          match CharMatch(s, i, e1.guard)
          case None => Reject
          case Some(j) => DoMatch(g, e1.target, s, j, fuel - 1);
        if first != Reject then first
        else match g[q].two
          case None => Reject
          case Some(e2) =>
            var second := DoMatch(g, e2.target, s, i, fuel - 1);
            assert SecondEpsilon(g) && second == Accept ==> Via(g, g[q].two, s, i, fuel - 1);
            second
  }

  /** Taking edge `e` (if there is one) at position `i` leads to acceptance within `n` steps. */
  ghost predicate Via(g: seq<State>, e: Option<Edge>, s: seq<CChar>, i: nat, n: nat)
    requires Valid(g) && i <= |s|
    requires e.Some? ==> e.value.target < |g|
    decreases n, 1
  {
    && e.Some?
    && CharMatch(s, i, e.value.guard).Some?
    && AcceptsWithin(g, e.value.target, s, CharMatch(s, i, e.value.guard).value, n)
  }

  /** A path of at most `n` edges leads from state `q` at position `i` to a state with no edges. */
  ghost predicate AcceptsWithin(g: seq<State>, q: nat, s: seq<CChar>, i: nat, n: nat)
    requires Valid(g) && q < |g| && i <= |s|
    decreases n, 0
  {
    || g[q].one.None?
    || (n > 0 && (Via(g, g[q].one, s, i, n - 1) || Via(g, g[q].two, s, i, n - 1)))
  }

  ghost predicate Accepts(g: seq<State>, q: nat, s: seq<CChar>, i: nat)
    requires Valid(g) && q < |g| && i <= |s|
  {
    exists n: nat :: AcceptsWithin(g, q, s, i, n)
  }

  /** More fuel never changes an answer `domatch` has already given. */
  lemma {:induction false} DoMatchMonotone(g: seq<State>, q: nat, s: seq<CChar>, i: nat, fuel: nat, more: nat)
    requires Valid(g) && q < |g| && i <= |s| && fuel <= more
    requires DoMatch(g, q, s, i, fuel) != OutOfFuel
    ensures DoMatch(g, q, s, i, more) == DoMatch(g, q, s, i, fuel)
    decreases fuel
  {
    if g[q].one.Some? {
      var e1 := g[q].one.value;
      var m1 := CharMatch(s, i, e1.guard);
      if m1.Some? {
        DoMatchMonotone(g, e1.target, s, m1.value, fuel - 1, more - 1);
      }
      if (m1.None? || DoMatch(g, e1.target, s, m1.value, fuel - 1) == Reject) && g[q].two.Some? {
        DoMatchMonotone(g, g[q].two.value.target, s, i, fuel - 1, more - 1);
      }
    }
  }

  /** When `domatch` answers false, no accepting path exists, however long. */
  lemma {:induction false} DoMatchComplete(g: seq<State>, q: nat, s: seq<CChar>, i: nat, fuel: nat, n: nat)
    requires Valid(g) && SecondEpsilon(g) && q < |g| && i <= |s|
    requires DoMatch(g, q, s, i, fuel) == Reject
    ensures !AcceptsWithin(g, q, s, i, n)
    decreases n
  {
    var e1 := g[q].one.value;
    var m1 := CharMatch(s, i, e1.guard);
    if n > 0 {
      if m1.Some? {
        DoMatchComplete(g, e1.target, s, m1.value, fuel - 1, n - 1);
      }
      if g[q].two.Some? {
        DoMatchComplete(g, g[q].two.value.target, s, i, fuel - 1, n - 1);
      }
    }
  }

  /**
   * Whenever `domatch` returns, its answer is exactly whether some path of
   * edges leads to a state with no edges: the search is exhaustive, and the
   * order of `one` and `two` decides only which path is found first. This
   * needs every `two` edge to be epsilon, as in every table `tonfa` builds,
   * since `domatch` follows `two` without checking its label.
   */
  lemma DoMatchDecides(g: seq<State>, q: nat, s: seq<CChar>, i: nat, fuel: nat)
    requires Valid(g) && SecondEpsilon(g) && q < |g| && i <= |s|
    requires DoMatch(g, q, s, i, fuel) != OutOfFuel
    ensures DoMatch(g, q, s, i, fuel) == Accept <==> Accepts(g, q, s, i)
  {
    if DoMatch(g, q, s, i, fuel) != Accept {
      forall n: nat
        ensures !AcceptsWithin(g, q, s, i, n)
      {
        DoMatchComplete(g, q, s, i, fuel, n);
      }
    }
  }

  /** A state with no edges accepts at once, whatever input is left. */
  lemma EdgelessAccepts(g: seq<State>, q: nat, s: seq<CChar>, i: nat, fuel: nat)
    requires Valid(g) && q < |g| && i <= |s| && Edgeless(g[q]) && fuel > 0
    ensures DoMatch(g, q, s, i, fuel) == Accept
  {
  }

  /**
   * Matching is anchored at the start only: an accepting path over `s` is
   * still one when more input follows.
   */
  lemma {:induction false} AcceptsExtend(g: seq<State>, q: nat, s: seq<CChar>, t: seq<CChar>, i: nat, n: nat)
    requires Valid(g) && q < |g| && i <= |s|
    requires AcceptsWithin(g, q, s, i, n)
    ensures AcceptsWithin(g, q, s + t, i, n)
    decreases n
  {
    if g[q].one.Some? {
      var e := if Via(g, g[q].one, s, i, n - 1) then g[q].one.value else g[q].two.value;
      var j := CharMatch(s, i, e.guard).value;
      assert CharMatch(s + t, i, e.guard) == Some(j);
      AcceptsExtend(g, e.target, s, t, j, n - 1);
    }
  }
}
