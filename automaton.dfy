/**
 * The state table that `tonfa` builds (re.c:41-51, re.c:62-200), as values.
 *
 * The C table is a vector of pointers to `struct st`; here it is a sequence
 * of states and an edge names its target by index. A NULL `s` pointer is
 * an empty slot (`None`). The label NFA_EPSILON (re.c:13-15) is its own
 * constructor, so it cannot be confused with a byte.
 */
module Automaton {
  import opened Wrappers
  import opened Syntax

  datatype Label = Epsilon | Lit(c: CChar)

  datatype Edge = Edge(target: nat, guard: Label)

  /** `struct st`: the slots `one` and `two`, tried in that order. */
  datatype State = State(one: Option<Edge>, two: Option<Edge>)

  /** What `addstate` appends: both pointers NULL. */
  const Fresh := State(None, None)

  predicate Edgeless(st: State) {
    st.one.None? && st.two.None?
  }

  /** The edges of a state in the order the matcher tries them. */
  function Edges(st: State): seq<Edge> {
    (if st.one.Some? then [st.one.value] else []) + (if st.two.Some? then [st.two.value] else [])
  }

  /**
   * The two-edge invariant: `two` is only ever filled after `one`, and every
   * edge points at a state of the table (of `n` states).
   */
  predicate ValidState(st: State, n: nat) {
    && (st.two.Some? ==> st.one.Some?)
    && (st.one.Some? ==> st.one.value.target < n)
    && (st.two.Some? ==> st.two.value.target < n)
  }

  predicate Valid(g: seq<State>) {
    forall q :: 0 <= q < |g| ==> ValidState(g[q], |g|)
  }

  /**
   * Every `two` edge is an epsilon edge. `tonfa` only ever adds a second
   * edge with label NFA_EPSILON, which is why `domatch` can follow `two`
   * without looking at its label (re.c:349-350).
   */
  predicate SecondEpsilon(g: seq<State>) {
    forall q :: 0 <= q < |g| && g[q].two.Some? ==> g[q].two.value.guard.Epsilon?
  }

  /** A state that `transition` can still give an edge without failing its assertion. */
  predicate HasRoom(st: State) {
    st.two.None?
  }

  lemma ValidAppend(g: seq<State>, k: nat)
    requires Valid(g)
    ensures Valid(g + seq(k, _ => Fresh))
  {
    var h := g + seq(k, _ => Fresh);
    forall q | 0 <= q < |h|
      ensures ValidState(h[q], |h|)
    {
      if q < |g| {
        assert h[q] == g[q] && ValidState(g[q], |g|);
      }
    }
  }

  /**
   * `transition(nfa, from, to, type)`: fill `one` if it is empty, otherwise
   * `two`. A full state is the C assertion failure, excluded by the
   * precondition. The new edge goes to the end of the state's edge list, so
   * the order of the calls is the order of priority, and no existing edge
   * is overwritten.
   */
  function Link(g: seq<State>, from: nat, to: nat, guard: Label): (r: seq<State>)
    requires Valid(g) && from < |g| && to < |g| && HasRoom(g[from])
    ensures Valid(r) && |r| == |g|
    ensures Edges(r[from]) == Edges(g[from]) + [Edge(to, guard)]
    ensures forall q :: 0 <= q < |g| && q != from ==> r[q] == g[q]
    ensures SecondEpsilon(g) && (guard.Epsilon? || g[from].one.None?) ==> SecondEpsilon(r)
  {
    var st := g[from];
    var e := Some(Edge(to, guard));
    var r := g[from := if st.one.None? then st.(one := e) else st.(two := e)];
    assert forall q :: 0 <= q < |r| ==> ValidState(r[q], |r|) by {
      forall q | 0 <= q < |r|
        ensures ValidState(r[q], |r|)
      {
        if q != from {
          assert r[q] == g[q] && ValidState(g[q], |g|);
        }
      }
    }
    r
  }

  lemma AppendSecondEpsilon(g: seq<State>, k: nat)
    requires Valid(g) && SecondEpsilon(g)
    ensures Valid(g + seq(k, _ => Fresh)) && SecondEpsilon(g + seq(k, _ => Fresh))
  {
    ValidAppend(g, k);
    var h := g + seq(k, _ => Fresh);
    forall q | 0 <= q < |h| && h[q].two.Some?
      ensures h[q].two.value.guard.Epsilon?
    {
      assert q < |g|;
      assert h[q] == g[q];
    }
  }

  /** A compiled fragment: the table after `tonfa` and the state it returned. */
  datatype Fragment = Fragment(states: seq<State>, exit: nat)

  /**
   * What every call `tonfa(nfa, start, re)` guarantees, given a valid table
   * `g` whose state `start` has no edges yet: the table stays valid (no
   * `transition` ever finds a full state) and every second edge stays an
   * epsilon edge, states are only appended, only
   * `start` and the new states get edges, and the returned exit is `start`
   * itself or a new state, and has no edges.
   */
  ghost predicate Extends(g: seq<State>, start: nat, f: Fragment) {
    && Valid(f.states) && SecondEpsilon(f.states) && |g| <= |f.states|
    && f.exit < |f.states| && Edgeless(f.states[f.exit])
    && (f.exit == start || |g| <= f.exit)
    && forall q :: 0 <= q < |g| && q != start ==> f.states[q] == g[q]
  }

  /** `tonfa(nfa, start, re)` (re.c:93-200). */
  function Build(g: seq<State>, start: nat, re: Re): (f: Fragment)
    requires Valid(g) && SecondEpsilon(g) && start < |g| && Edgeless(g[start])
    ensures Extends(g, start, f)
    decreases re, 2
  {
    match re
    case Char(c) =>
      AppendSecondEpsilon(g, 1);
      assert g + [Fresh] == g + seq(1, _ => Fresh);
      Fragment(Link(g + [Fresh], start, |g|, Lit(c)), |g|)
    case Alt(_, _) => BuildAlt(g, start, re)
    case Star(_) => BuildStar(g, start, re)
    case Plus(_) => BuildPlus(g, start, re)
    case Optional(_) => BuildOptional(g, start, re)
    case Concat(res) => BuildAll(g, start, res)
  }

  /** The RE_ALT case: exit `c`, left entry `a`, right entry `b`. */
  function BuildAlt(g: seq<State>, start: nat, re: Re): (f: Fragment)
    requires Valid(g) && SecondEpsilon(g) && start < |g| && Edgeless(g[start]) && re.Alt?
    ensures Extends(g, start, f)
    decreases re, 1
  {
    var c, a, b := |g|, |g| + 1, |g| + 2;
    var g1 := g + [Fresh, Fresh, Fresh];
    assert Valid(g1) && SecondEpsilon(g1) by { AppendSecondEpsilon(g, 3); assert g1 == g + seq(3, _ => Fresh); }
    var left := Build(g1, a, re.left);
    assert left.states[b] == g1[b];
    var right := Build(left.states, b, re.right);
    assert left.exit != right.exit && start != left.exit && start != right.exit;
    assert right.states[left.exit] == left.states[left.exit] && right.states[start] == g[start];
    var g2 := Link(right.states, left.exit, c, Epsilon);
    var g3 := Link(g2, right.exit, c, Epsilon);
    var g4 := Link(g3, start, a, Epsilon);
    Fragment(Link(g4, start, b, Epsilon), c)
  }

  /** The RE_STAR case: exit `b`, operand entry `a`. */
  function BuildStar(g: seq<State>, start: nat, re: Re): (f: Fragment)
    requires Valid(g) && SecondEpsilon(g) && start < |g| && Edgeless(g[start]) && re.Star?
    ensures Extends(g, start, f)
    decreases re, 1
  {
    var b, a := |g|, |g| + 1;
    var g1 := g + [Fresh, Fresh];
    assert Valid(g1) && SecondEpsilon(g1) by { AppendSecondEpsilon(g, 2); assert g1 == g + seq(2, _ => Fresh); }
    var body := Build(g1, a, re.re);
    var g2 := Link(body.states, body.exit, a, Epsilon);
    var g3 := Link(g2, body.exit, b, Epsilon);
    var g4 := Link(g3, start, a, Epsilon);
    Fragment(Link(g4, start, b, Epsilon), b)
  }

  /** The RE_PLUS case: as RE_STAR without the edge from `start` to the exit. */
  function BuildPlus(g: seq<State>, start: nat, re: Re): (f: Fragment)
    requires Valid(g) && SecondEpsilon(g) && start < |g| && Edgeless(g[start]) && re.Plus?
    ensures Extends(g, start, f)
    decreases re, 1
  {
    var b, a := |g|, |g| + 1;
    var g1 := g + [Fresh, Fresh];
    assert Valid(g1) && SecondEpsilon(g1) by { AppendSecondEpsilon(g, 2); assert g1 == g + seq(2, _ => Fresh); }
    var body := Build(g1, a, re.re);
    var g2 := Link(body.states, body.exit, a, Epsilon);
    var g3 := Link(g2, body.exit, b, Epsilon);
    Fragment(Link(g3, start, a, Epsilon), b)
  }

  /** The RE_OPTION case: the skip edge is added before the edge into the operand. */
  function BuildOptional(g: seq<State>, start: nat, re: Re): (f: Fragment)
    requires Valid(g) && SecondEpsilon(g) && start < |g| && Edgeless(g[start]) && re.Optional?
    ensures Extends(g, start, f)
    decreases re, 1
  {
    var b, a := |g|, |g| + 1;
    var g1 := g + [Fresh, Fresh];
    assert Valid(g1) && SecondEpsilon(g1) by { AppendSecondEpsilon(g, 2); assert g1 == g + seq(2, _ => Fresh); }
    var body := Build(g1, a, re.re);
    var g2 := Link(body.states, body.exit, b, Epsilon);
    var g3 := Link(g2, start, b, Epsilon);
    Fragment(Link(g3, start, a, Epsilon), b)
  }

  /** The RE_CONCAT loop: each child starts where the previous one ended. */
  function BuildAll(g: seq<State>, start: nat, res: seq<Re>): (f: Fragment)
    requires Valid(g) && SecondEpsilon(g) && start < |g| && Edgeless(g[start])
    ensures Extends(g, start, f)
    decreases res, 0
  {
    if res == [] then
      Fragment(g, start)
    else
      var prefix := BuildAll(g, start, res[..|res| - 1]);
      Build(prefix.states, prefix.exit, res[|res| - 1])
  }
}

/**
 * How `tonfa` wires each node kind, and the order of the edges, which is
 * the order in which the matcher tries them.
 */
module Wiring {
  import opened Wrappers
  import opened Syntax
  import opened Automaton

  /**
   * Every state of `h` that has an edge is unchanged in `G`: later
   * construction steps only give edges to states that had none.
   */
  ghost predicate Keeps(h: seq<State>, G: seq<State>) {
    |h| <= |G| && forall q :: 0 <= q < |h| && !Edgeless(h[q]) ==> G[q] == h[q]
  }

  lemma KeepsTrans(h1: seq<State>, h2: seq<State>, h3: seq<State>)
    requires Keeps(h1, h2) && Keeps(h2, h3)
    ensures Keeps(h1, h3)
  {
  }

  /** `Build` of an alternation, given the fragments of its two sides. */
  lemma AltBuilt(g: seq<State>, start: nat, re: Re, left: Fragment, right: Fragment)
    requires Valid(g) && SecondEpsilon(g) && start < |g| && Edgeless(g[start]) && re.Alt?
    requires Valid(g + [Fresh, Fresh, Fresh]) && SecondEpsilon(g + [Fresh, Fresh, Fresh])
    requires left == Build(g + [Fresh, Fresh, Fresh], |g| + 1, re.left)
    requires right == Build(left.states, |g| + 2, re.right)
    ensures left.exit != right.exit && start != left.exit && start != right.exit
    ensures HasRoom(right.states[left.exit]) && HasRoom(right.states[right.exit]) && Edgeless(right.states[start])
    ensures var h1 := Link(right.states, left.exit, |g|, Epsilon);
      var h2 := Link(h1, right.exit, |g|, Epsilon);
      var h3 := Link(h2, start, |g| + 1, Epsilon);
      Build(g, start, re) == Fragment(Link(h3, start, |g| + 2, Epsilon), |g|)
  {
  }

  /** `Build` of a star, given the fragment of its operand. */
  lemma StarBuilt(g: seq<State>, start: nat, re: Re, body: Fragment)
    requires Valid(g) && SecondEpsilon(g) && start < |g| && Edgeless(g[start]) && re.Star?
    requires Valid(g + [Fresh, Fresh]) && SecondEpsilon(g + [Fresh, Fresh])
    requires body == Build(g + [Fresh, Fresh], |g| + 1, re.re)
    ensures start != body.exit && HasRoom(body.states[body.exit]) && Edgeless(body.states[start])
    ensures var h1 := Link(body.states, body.exit, |g| + 1, Epsilon);
      var h2 := Link(h1, body.exit, |g|, Epsilon);
      var h3 := Link(h2, start, |g| + 1, Epsilon);
      Build(g, start, re) == Fragment(Link(h3, start, |g|, Epsilon), |g|)
  {
  }

  /** `Build` of a plus, given the fragment of its operand. */
  lemma PlusBuilt(g: seq<State>, start: nat, re: Re, body: Fragment)
    requires Valid(g) && SecondEpsilon(g) && start < |g| && Edgeless(g[start]) && re.Plus?
    requires Valid(g + [Fresh, Fresh]) && SecondEpsilon(g + [Fresh, Fresh])
    requires body == Build(g + [Fresh, Fresh], |g| + 1, re.re)
    ensures start != body.exit && HasRoom(body.states[body.exit]) && Edgeless(body.states[start])
    ensures var h1 := Link(body.states, body.exit, |g| + 1, Epsilon);
      var h2 := Link(h1, body.exit, |g|, Epsilon);
      Build(g, start, re) == Fragment(Link(h2, start, |g| + 1, Epsilon), |g|)
  {
  }

  /** `Build` of an option, given the fragment of its operand. */
  lemma OptionalBuilt(g: seq<State>, start: nat, re: Re, body: Fragment)
    requires Valid(g) && SecondEpsilon(g) && start < |g| && Edgeless(g[start]) && re.Optional?
    requires Valid(g + [Fresh, Fresh]) && SecondEpsilon(g + [Fresh, Fresh])
    requires body == Build(g + [Fresh, Fresh], |g| + 1, re.re)
    ensures start != body.exit && HasRoom(body.states[body.exit]) && Edgeless(body.states[start])
    ensures var h1 := Link(body.states, body.exit, |g|, Epsilon);
      var h2 := Link(h1, start, |g|, Epsilon);
      Build(g, start, re) == Fragment(Link(h2, start, |g| + 1, Epsilon), |g|)
  {
  }

  /** A literal: one edge from `start`, labelled with the byte, to a new exit. */
  lemma CharWiring(g: seq<State>, start: nat, re: Re)
    requires Valid(g) && SecondEpsilon(g) && start < |g| && Edgeless(g[start]) && re.Char?
    ensures Build(g, start, re).exit == |g| && Build(g, start, re).states[|g|..] == [Fresh]
    ensures Build(g, start, re).states[start] == State(Some(Edge(|g|, Lit(re.c))), None)
    ensures forall q :: 0 <= q < |g| && q != start ==> Build(g, start, re).states[q] == g[q]
  {
  }

  /**
   * An alternation: `one` of `start` enters the left side and `two` the
   * right side, so the left side is preferred; both sides end in the new
   * exit.
   */
  lemma AltWiring(g: seq<State>, start: nat, re: Re) returns (g1: seq<State>, left: Fragment, right: Fragment)
    requires Valid(g) && SecondEpsilon(g) && start < |g| && Edgeless(g[start]) && re.Alt?
    ensures g1 == g + [Fresh, Fresh, Fresh] && Valid(g1) && SecondEpsilon(g1)
    ensures left == Build(g1, |g| + 1, re.left)
    ensures Extends(g1, |g| + 1, left) && Valid(left.states) && SecondEpsilon(left.states)
    ensures left.states[|g| + 2] == Fresh
    ensures right == Build(left.states, |g| + 2, re.right) && Extends(left.states, |g| + 2, right)
    ensures |Build(g, start, re).states| == |right.states|
    ensures Build(g, start, re).exit == |g|
    ensures Build(g, start, re).states[start] == State(Some(Edge(|g| + 1, Epsilon)), Some(Edge(|g| + 2, Epsilon)))
    ensures Build(g, start, re).states[left.exit] == State(Some(Edge(|g|, Epsilon)), None)
    ensures Build(g, start, re).states[right.exit] == State(Some(Edge(|g|, Epsilon)), None)
  {
    g1 := g + [Fresh, Fresh, Fresh];
    AppendSecondEpsilon(g, 3);
    assert g1 == g + seq(3, _ => Fresh);
    left := Build(g1, |g| + 1, re.left);
    right := Build(left.states, |g| + 2, re.right);
    AltBuilt(g, start, re, left, right);
    var h1 := Link(right.states, left.exit, |g|, Epsilon);
    var h2 := Link(h1, right.exit, |g|, Epsilon);
    var h3 := Link(h2, start, |g| + 1, Epsilon);
    var G := Link(h3, start, |g| + 2, Epsilon);
    assert G[left.exit] == h1[left.exit] && G[right.exit] == h2[right.exit];
  }

  /** Both sides of an alternation keep every edge they were built with. */
  lemma AltKeeps(g: seq<State>, start: nat, re: Re, left: Fragment, right: Fragment)
    requires Valid(g) && SecondEpsilon(g) && start < |g| && Edgeless(g[start]) && re.Alt?
    requires Valid(g + [Fresh, Fresh, Fresh]) && SecondEpsilon(g + [Fresh, Fresh, Fresh])
    requires left == Build(g + [Fresh, Fresh, Fresh], |g| + 1, re.left)
    requires right == Build(left.states, |g| + 2, re.right)
    ensures Keeps(left.states, Build(g, start, re).states)
    ensures Keeps(right.states, Build(g, start, re).states)
  {
    AltBuilt(g, start, re, left, right);
    var h1 := Link(right.states, left.exit, |g|, Epsilon);
    var h2 := Link(h1, right.exit, |g|, Epsilon);
    var h3 := Link(h2, start, |g| + 1, Epsilon);
    var G := Link(h3, start, |g| + 2, Epsilon);
    assert Keeps(right.states, G) by {
      forall q | 0 <= q < |right.states| && !Edgeless(right.states[q])
        ensures G[q] == right.states[q]
      {
        assert q != start && q != left.exit && q != right.exit;
      }
    }
    assert Keeps(left.states, right.states) by {
      forall q | 0 <= q < |left.states| && !Edgeless(left.states[q])
        ensures right.states[q] == left.states[q]
      {
        assert q != |g| + 2;
      }
    }
  }

  /**
   * A star: `start` first enters the operand and only then skips it; the
   * operand's end first loops back and only then leaves, so repetition is
   * greedy.
   */
  lemma StarWiring(g: seq<State>, start: nat, re: Re) returns (g1: seq<State>, body: Fragment)
    requires Valid(g) && SecondEpsilon(g) && start < |g| && Edgeless(g[start]) && re.Star?
    ensures g1 == g + [Fresh, Fresh] && Valid(g1) && SecondEpsilon(g1)
    ensures body == Build(g1, |g| + 1, re.re) && Extends(g1, |g| + 1, body)
    ensures Keeps(body.states, Build(g, start, re).states)
    ensures Build(g, start, re).exit == |g|
    ensures Build(g, start, re).states[start] == State(Some(Edge(|g| + 1, Epsilon)), Some(Edge(|g|, Epsilon)))
    ensures Build(g, start, re).states[body.exit] == State(Some(Edge(|g| + 1, Epsilon)), Some(Edge(|g|, Epsilon)))
  {
    g1 := g + [Fresh, Fresh];
    AppendSecondEpsilon(g, 2);
    assert g1 == g + seq(2, _ => Fresh);
    body := Build(g1, |g| + 1, re.re);
  }

  /** A plus: as a star, except that `start` has no edge that skips the operand. */
  lemma PlusWiring(g: seq<State>, start: nat, re: Re) returns (g1: seq<State>, body: Fragment)
    requires Valid(g) && SecondEpsilon(g) && start < |g| && Edgeless(g[start]) && re.Plus?
    ensures g1 == g + [Fresh, Fresh] && Valid(g1) && SecondEpsilon(g1)
    ensures body == Build(g1, |g| + 1, re.re) && Extends(g1, |g| + 1, body)
    ensures Keeps(body.states, Build(g, start, re).states)
    ensures Build(g, start, re).exit == |g|
    ensures Build(g, start, re).states[start] == State(Some(Edge(|g| + 1, Epsilon)), None)
    ensures Build(g, start, re).states[body.exit] == State(Some(Edge(|g| + 1, Epsilon)), Some(Edge(|g|, Epsilon)))
  {
    g1 := g + [Fresh, Fresh];
    AppendSecondEpsilon(g, 2);
    assert g1 == g + seq(2, _ => Fresh);
    body := Build(g1, |g| + 1, re.re);
  }

  /**
   * An option: `start` first skips the operand and only then enters it, so
   * `?` is lazy; the operand's end leads to the exit.
   */
  lemma OptionalWiring(g: seq<State>, start: nat, re: Re) returns (g1: seq<State>, body: Fragment)
    requires Valid(g) && SecondEpsilon(g) && start < |g| && Edgeless(g[start]) && re.Optional?
    ensures g1 == g + [Fresh, Fresh] && Valid(g1) && SecondEpsilon(g1)
    ensures body == Build(g1, |g| + 1, re.re) && Extends(g1, |g| + 1, body)
    ensures Keeps(body.states, Build(g, start, re).states)
    ensures Build(g, start, re).exit == |g|
    ensures Build(g, start, re).states[start] == State(Some(Edge(|g|, Epsilon)), Some(Edge(|g| + 1, Epsilon)))
    ensures Build(g, start, re).states[body.exit] == State(Some(Edge(|g|, Epsilon)), None)
  {
    g1 := g + [Fresh, Fresh];
    AppendSecondEpsilon(g, 2);
    assert g1 == g + seq(2, _ => Fresh);
    body := Build(g1, |g| + 1, re.re);
  }

  /**
   * A concatenation: an empty one returns `start` and changes nothing;
   * otherwise the last child starts at the exit of the others.
   */
  lemma ConcatWiring(g: seq<State>, start: nat, res: seq<Re>) returns (prefix: Fragment)
    requires Valid(g) && SecondEpsilon(g) && start < |g| && Edgeless(g[start])
    ensures res == [] ==> BuildAll(g, start, res) == Fragment(g, start)
    ensures res != [] ==>
      && prefix == BuildAll(g, start, res[..|res| - 1])
      && Extends(g, start, prefix)
      && BuildAll(g, start, res) == Build(prefix.states, prefix.exit, res[|res| - 1])
      && Keeps(prefix.states, BuildAll(g, start, res).states)
  {
    prefix := if res == [] then Fragment(g, start) else BuildAll(g, start, res[..|res| - 1]);
  }
}
