/**
 * What a pattern tree means, independently of the automaton, and the proof
 * that the table `tonfa` builds accepts exactly that: from the start state
 * and input position `i`, a path of edges reaches the fragment's exit at
 * position `j` exactly when s[i..j] is in the language of the tree.
 */
module Semantics {
  import opened Wrappers
  import opened Syntax
  import opened Automaton
  import opened Wiring
  import opened Matcher
  import opened Parser

  /** s[i..j] is in the language of `re`. */
  ghost predicate Lang(re: Re, s: seq<CChar>, i: nat, j: nat)
    requires i <= j <= |s|
    decreases re, 0, 0
  {
    match re
    case Char(c) => j == i + 1 && s[i] == c
    case Alt(l, r) => Lang(l, s, i, j) || Lang(r, s, i, j)
    case Star(x) => Repeat(x, s, i, j)
    case Plus(x) => exists k :: i <= k <= j && Lang(x, s, i, k) && Repeat(x, s, k, j)
    case Optional(x) => i == j || Lang(x, s, i, j)
    case Concat(res) => LangAll(res, s, i, j)
  }

  /** s[i..j] splits into zero or more pieces, each in the language of `x`. */
  ghost predicate Repeat(x: Re, s: seq<CChar>, i: nat, j: nat)
    requires i <= j <= |s|
    decreases x, 1, j - i
  {
    i == j || exists k :: i < k <= j && Lang(x, s, i, k) && Repeat(x, s, k, j)
  }

  /** s[i..j] splits into one piece per child, in order, each in that child's language. */
  ghost predicate LangAll(res: seq<Re>, s: seq<CChar>, i: nat, j: nat)
    requires i <= j <= |s|
    decreases res, 0, 0
  {
    if res == [] then i == j
    else
      var init, last := res[..|res| - 1], res[|res| - 1];
      exists k :: i <= k <= j && LangAll(init, s, i, k) && Lang(last, s, k, j)
  }


  // ---------------------------------------------------------------------
  // The wiring of an alternation and of a star, read off any table `G`
  // that keeps the compiled fragment.

  lemma AltIn(g: seq<State>, start: nat, re: Re, G: seq<State>) returns (g1: seq<State>, left: Fragment, right: Fragment)
    requires Valid(g) && SecondEpsilon(g) && start < |g| && Edgeless(g[start]) && re.Alt?
    requires Valid(G) && Keeps(Build(g, start, re).states, G)
    ensures g1 == g + [Fresh, Fresh, Fresh] && Valid(g1) && SecondEpsilon(g1)
    ensures left == Build(g1, |g| + 1, re.left) && Extends(g1, |g| + 1, left)
    ensures Valid(left.states) && SecondEpsilon(left.states) && left.states[|g| + 2] == Fresh
    ensures right == Build(left.states, |g| + 2, re.right) && Extends(left.states, |g| + 2, right)
    ensures Keeps(left.states, G) && Keeps(right.states, G)
    ensures Build(g, start, re).exit == |g|
    ensures G[start] == State(Some(Edge(|g| + 1, Epsilon)), Some(Edge(|g| + 2, Epsilon)))
    ensures G[left.exit] == State(Some(Edge(|g|, Epsilon)), None)
    ensures G[right.exit] == State(Some(Edge(|g|, Epsilon)), None)
  {
    var f := Build(g, start, re);
    g1, left, right := AltWiring(g, start, re);
    AltKeeps(g, start, re, left, right);
    KeepsTrans(left.states, f.states, G);
    KeepsTrans(right.states, f.states, G);
    assert G[start] == f.states[start];
    assert G[left.exit] == f.states[left.exit];
    assert G[right.exit] == f.states[right.exit];
  }

  lemma StarIn(g: seq<State>, start: nat, re: Re, G: seq<State>) returns (g1: seq<State>, body: Fragment)
    requires Valid(g) && SecondEpsilon(g) && start < |g| && Edgeless(g[start]) && re.Star?
    requires Valid(G) && Keeps(Build(g, start, re).states, G)
    ensures g1 == g + [Fresh, Fresh] && Valid(g1) && SecondEpsilon(g1)
    ensures body == Build(g1, |g| + 1, re.re) && Extends(g1, |g| + 1, body)
    ensures Keeps(body.states, G)
    ensures Build(g, start, re).exit == |g|
    ensures G[start] == State(Some(Edge(|g| + 1, Epsilon)), Some(Edge(|g|, Epsilon)))
    ensures G[body.exit] == State(Some(Edge(|g| + 1, Epsilon)), Some(Edge(|g|, Epsilon)))
  {
    var f := Build(g, start, re);
    g1, body := StarWiring(g, start, re);
    KeepsTrans(body.states, f.states, G);
    assert G[start] == f.states[start];
    assert G[body.exit] == f.states[body.exit];
  }

  lemma PlusIn(g: seq<State>, start: nat, re: Re, G: seq<State>) returns (g1: seq<State>, body: Fragment)
    requires Valid(g) && SecondEpsilon(g) && start < |g| && Edgeless(g[start]) && re.Plus?
    requires Valid(G) && Keeps(Build(g, start, re).states, G)
    ensures g1 == g + [Fresh, Fresh] && Valid(g1) && SecondEpsilon(g1)
    ensures body == Build(g1, |g| + 1, re.re) && Extends(g1, |g| + 1, body)
    ensures Keeps(body.states, G)
    ensures Build(g, start, re).exit == |g|
    ensures G[start] == State(Some(Edge(|g| + 1, Epsilon)), None)
    ensures G[body.exit] == State(Some(Edge(|g| + 1, Epsilon)), Some(Edge(|g|, Epsilon)))
  {
    var f := Build(g, start, re);
    g1, body := PlusWiring(g, start, re);
    KeepsTrans(body.states, f.states, G);
    assert G[start] == f.states[start];
    assert G[body.exit] == f.states[body.exit];
  }

  lemma OptionalIn(g: seq<State>, start: nat, re: Re, G: seq<State>) returns (g1: seq<State>, body: Fragment)
    requires Valid(g) && SecondEpsilon(g) && start < |g| && Edgeless(g[start]) && re.Optional?
    requires Valid(G) && Keeps(Build(g, start, re).states, G)
    ensures g1 == g + [Fresh, Fresh] && Valid(g1) && SecondEpsilon(g1)
    ensures body == Build(g1, |g| + 1, re.re) && Extends(g1, |g| + 1, body)
    ensures Keeps(body.states, G)
    ensures Build(g, start, re).exit == |g|
    ensures G[start] == State(Some(Edge(|g|, Epsilon)), Some(Edge(|g| + 1, Epsilon)))
    ensures G[body.exit] == State(Some(Edge(|g|, Epsilon)), None)
  {
    var f := Build(g, start, re);
    g1, body := OptionalWiring(g, start, re);
    KeepsTrans(body.states, f.states, G);
    assert G[start] == f.states[start];
    assert G[body.exit] == f.states[body.exit];
  }

  // ---------------------------------------------------------------------
  // Soundness: an accepting path from the start of a fragment first
  // passes its exit at a position that ends a match of the tree.

  lemma {:induction false} Sound(g: seq<State>, start: nat, re: Re, G: seq<State>, s: seq<CChar>, i: nat, n: nat)
    returns (j: nat, m: nat)
    requires Valid(g) && SecondEpsilon(g) && start < |g| && Edgeless(g[start])
    requires Valid(G) && Keeps(Build(g, start, re).states, G)
    requires i <= |s| && AcceptsWithin(G, start, s, i, n)
    ensures i <= j <= |s| && m <= n && Lang(re, s, i, j)
    ensures AcceptsWithin(G, Build(g, start, re).exit, s, j, m)
    decreases re, n, 2
  {
    match re
    case Char(c) =>
      CharWiring(g, start, re);
      assert G[start] == Build(g, start, re).states[start];
      j, m := i + 1, n - 1;
    case Alt(_, _) => j, m := SoundAlt(g, start, re, G, s, i, n);
    case Star(_) => j, m := SoundStar(g, start, re, G, s, i, n);
    case Plus(_) => j, m := SoundPlus(g, start, re, G, s, i, n);
    case Optional(_) => j, m := SoundOptional(g, start, re, G, s, i, n);
    case Concat(res) => j, m := SoundAll(g, start, res, G, s, i, n);
  }

  lemma {:induction false} SoundAlt(g: seq<State>, start: nat, re: Re, G: seq<State>, s: seq<CChar>, i: nat, n: nat)
    returns (j: nat, m: nat)
    requires Valid(g) && SecondEpsilon(g) && start < |g| && Edgeless(g[start]) && re.Alt?
    requires Valid(G) && Keeps(Build(g, start, re).states, G)
    requires i <= |s| && AcceptsWithin(G, start, s, i, n)
    ensures i <= j <= |s| && m <= n && Lang(re, s, i, j)
    ensures AcceptsWithin(G, Build(g, start, re).exit, s, j, m)
    decreases re, n, 1
  {
    if n > 0 && Via(G, G[start].one, s, i, n - 1) {
      j, m := SoundLeft(g, start, re, G, s, i, n);
    } else {
      j, m := SoundRight(g, start, re, G, s, i, n);
    }
  }

  /** A path that leaves `start` by `one` goes through the left side. */
  lemma {:induction false} SoundLeft(g: seq<State>, start: nat, re: Re, G: seq<State>, s: seq<CChar>, i: nat, n: nat)
    returns (j: nat, m: nat)
    requires Valid(g) && SecondEpsilon(g) && start < |g| && Edgeless(g[start]) && re.Alt?
    requires Valid(G) && Keeps(Build(g, start, re).states, G)
    requires i <= |s| && n > 0 && Via(G, G[start].one, s, i, n - 1)
    ensures i <= j <= |s| && m <= n && Lang(re, s, i, j)
    ensures AcceptsWithin(G, Build(g, start, re).exit, s, j, m)
    decreases re, n, 0
  {
    var g1, left, right := AltIn(g, start, re, G);
    assert AcceptsWithin(G, |g| + 1, s, i, n - 1);
    j, m := SoundSide(g1, |g| + 1, re.left, |g|, G, s, i, n - 1);
  }

  /** Any other accepting path from `start` leaves it by `two`, through the right side. */
  lemma {:induction false} SoundRight(g: seq<State>, start: nat, re: Re, G: seq<State>, s: seq<CChar>, i: nat, n: nat)
    returns (j: nat, m: nat)
    requires Valid(g) && SecondEpsilon(g) && start < |g| && Edgeless(g[start]) && re.Alt?
    requires Valid(G) && Keeps(Build(g, start, re).states, G)
    requires i <= |s| && AcceptsWithin(G, start, s, i, n) && !(n > 0 && Via(G, G[start].one, s, i, n - 1))
    ensures i <= j <= |s| && m <= n && Lang(re, s, i, j)
    ensures AcceptsWithin(G, Build(g, start, re).exit, s, j, m)
    decreases re, n, 0
  {
    var g1, left, right := AltIn(g, start, re, G);
    assert Via(G, G[start].two, s, i, n - 1);
    assert AcceptsWithin(G, |g| + 2, s, i, n - 1);
    j, m := SoundSide(left.states, |g| + 2, re.right, |g|, G, s, i, n - 1);
  }

  lemma {:induction false} SoundStar(g: seq<State>, start: nat, re: Re, G: seq<State>, s: seq<CChar>, i: nat, n: nat)
    returns (j: nat, m: nat)
    requires Valid(g) && SecondEpsilon(g) && start < |g| && Edgeless(g[start]) && re.Star?
    requires Valid(G) && Keeps(Build(g, start, re).states, G)
    requires i <= |s| && AcceptsWithin(G, start, s, i, n)
    ensures i <= j <= |s| && m <= n && Lang(re, s, i, j)
    ensures AcceptsWithin(G, Build(g, start, re).exit, s, j, m)
    decreases re, n, 0
  {
    var g1, body := StarIn(g, start, re, G);
    if Via(G, G[start].one, s, i, n - 1) {
      j, m := LoopSound(g1, |g| + 1, re.re, |g|, G, s, i, n - 1);
    } else {
      j, m := i, n - 1;
    }
  }

  lemma {:induction false} SoundPlus(g: seq<State>, start: nat, re: Re, G: seq<State>, s: seq<CChar>, i: nat, n: nat)
    returns (j: nat, m: nat)
    requires Valid(g) && SecondEpsilon(g) && start < |g| && Edgeless(g[start]) && re.Plus?
    requires Valid(G) && Keeps(Build(g, start, re).states, G)
    requires i <= |s| && AcceptsWithin(G, start, s, i, n)
    ensures i <= j <= |s| && m <= n && Lang(re, s, i, j)
    ensures AcceptsWithin(G, Build(g, start, re).exit, s, j, m)
    decreases re, n, 0
  {
    var g1, body := PlusIn(g, start, re, G);
    var k, m1 := Sound(g1, |g| + 1, re.re, G, s, i, n - 1);
    j, m := TailSound(g1, |g| + 1, re.re, |g|, G, s, k, m1);
  }

  lemma {:induction false} SoundOptional(g: seq<State>, start: nat, re: Re, G: seq<State>, s: seq<CChar>, i: nat, n: nat)
    returns (j: nat, m: nat)
    requires Valid(g) && SecondEpsilon(g) && start < |g| && Edgeless(g[start]) && re.Optional?
    requires Valid(G) && Keeps(Build(g, start, re).states, G)
    requires i <= |s| && AcceptsWithin(G, start, s, i, n)
    ensures i <= j <= |s| && m <= n && Lang(re, s, i, j)
    ensures AcceptsWithin(G, Build(g, start, re).exit, s, j, m)
    decreases re, n, 0
  {
    var g1, body := OptionalIn(g, start, re, G);
    if Via(G, G[start].one, s, i, n - 1) {
      j, m := i, n - 1;
    } else {
      assert Via(G, G[start].two, s, i, n - 1);
      assert AcceptsWithin(G, |g| + 1, s, i, n - 1);
      j, m := SoundSide(g1, |g| + 1, re.re, |g|, G, s, i, n - 1);
    }
  }

  lemma {:induction false} SoundAll(g: seq<State>, start: nat, res: seq<Re>, G: seq<State>, s: seq<CChar>, i: nat, n: nat)
    returns (j: nat, m: nat)
    requires Valid(g) && SecondEpsilon(g) && start < |g| && Edgeless(g[start])
    requires Valid(G) && Keeps(BuildAll(g, start, res).states, G)
    requires i <= |s| && AcceptsWithin(G, start, s, i, n)
    ensures i <= j <= |s| && m <= n && LangAll(res, s, i, j)
    ensures AcceptsWithin(G, BuildAll(g, start, res).exit, s, j, m)
    decreases res, n, 0
  {
    var prefix := ConcatWiring(g, start, res);
    if res == [] {
      j, m := i, n;
    } else {
      KeepsTrans(prefix.states, BuildAll(g, start, res).states, G);
      var k, m1 := SoundAll(g, start, res[..|res| - 1], G, s, i, n);
      j, m := Sound(prefix.states, prefix.exit, res[|res| - 1], G, s, k, m1);
    }
  }

  /**
   * Inside a star or plus whose operand starts at `a` and whose exit is
   * `b`: a path from `a` reaches `b` after one or more repetitions of the
   * operand.
   */
  lemma {:induction false} LoopSound(g1: seq<State>, a: nat, x: Re, b: nat, G: seq<State>, s: seq<CChar>, i: nat, n: nat)
    returns (j: nat, m: nat)
    requires Valid(g1) && SecondEpsilon(g1) && a < |g1| && Edgeless(g1[a]) && b < |g1|
    requires Valid(G) && Keeps(Build(g1, a, x).states, G)
    requires G[Build(g1, a, x).exit] == State(Some(Edge(a, Epsilon)), Some(Edge(b, Epsilon)))
    requires i <= |s| && AcceptsWithin(G, a, s, i, n)
    ensures i <= j <= |s| && m <= n && Repeat(x, s, i, j) && AcceptsWithin(G, b, s, j, m)
    decreases x, n, 3
  {
    var k, m1 := Sound(g1, a, x, G, s, i, n);
    j, m := TailSound(g1, a, x, b, G, s, k, m1);
  }

  /**
   * A side of an alternation, or the operand of an option: its exit has one
   * edge, to `c`, so a path through it reaches `c` one step after the end
   * of a match.
   */
  lemma {:induction false} SoundSide(g1: seq<State>, a: nat, x: Re, c: nat, G: seq<State>, s: seq<CChar>, i: nat, n: nat)
    returns (j: nat, m: nat)
    requires Valid(g1) && SecondEpsilon(g1) && a < |g1| && Edgeless(g1[a])
    requires Valid(G) && Keeps(Build(g1, a, x).states, G) && c < |G|
    requires G[Build(g1, a, x).exit] == State(Some(Edge(c, Epsilon)), None)
    requires i <= |s| && AcceptsWithin(G, a, s, i, n)
    ensures i <= j <= |s| && m < n && Lang(x, s, i, j) && AcceptsWithin(G, c, s, j, m)
    decreases x, n, 3
  {
    var m1;
    j, m1 := Sound(g1, a, x, G, s, i, n);
    assert Via(G, G[Build(g1, a, x).exit].one, s, j, m1 - 1);
    m := m1 - 1;
  }

  /** The same from the operand's end, which loops back to `a` before it tries `b`. */
  lemma {:induction false} TailSound(g1: seq<State>, a: nat, x: Re, b: nat, G: seq<State>, s: seq<CChar>, k: nat, n: nat)
    returns (j: nat, m: nat)
    requires Valid(g1) && SecondEpsilon(g1) && a < |g1| && Edgeless(g1[a]) && b < |g1|
    requires Valid(G) && Keeps(Build(g1, a, x).states, G)
    requires G[Build(g1, a, x).exit] == State(Some(Edge(a, Epsilon)), Some(Edge(b, Epsilon)))
    requires k <= |s| && AcceptsWithin(G, Build(g1, a, x).exit, s, k, n)
    ensures k <= j <= |s| && m <= n && Repeat(x, s, k, j) && AcceptsWithin(G, b, s, j, m)
    decreases x, n, 2
  {
    var t := Build(g1, a, x).exit;
    if Via(G, G[t].one, s, k, n - 1) {
      j, m := LoopSound(g1, a, x, b, G, s, k, n - 1);
    } else {
      j, m := k, n - 1;
    }
  }

  // ---------------------------------------------------------------------
  // Completeness: every match of the tree gives a path from the start to
  // the exit of its fragment.

  lemma {:induction false} Complete(g: seq<State>, start: nat, re: Re, G: seq<State>, s: seq<CChar>, i: nat, j: nat, m: nat)
    returns (n: nat)
    requires Valid(g) && SecondEpsilon(g) && start < |g| && Edgeless(g[start])
    requires Valid(G) && Keeps(Build(g, start, re).states, G)
    requires i <= j <= |s| && Lang(re, s, i, j)
    requires AcceptsWithin(G, Build(g, start, re).exit, s, j, m)
    ensures AcceptsWithin(G, start, s, i, n)
    decreases re, 1, 0
  {
    match re
    case Char(c) =>
      CharWiring(g, start, re);
      assert G[start] == Build(g, start, re).states[start];
      n := m + 1;
    case Alt(_, _) => n := CompleteAlt(g, start, re, G, s, i, j, m);
    case Star(_) => n := CompleteStar(g, start, re, G, s, i, j, m);
    case Plus(_) => n := CompletePlus(g, start, re, G, s, i, j, m);
    case Optional(_) => n := CompleteOptional(g, start, re, G, s, i, j, m);
    case Concat(res) => n := CompleteAll(g, start, res, G, s, i, j, m);
  }

  lemma {:induction false} CompleteAlt(g: seq<State>, start: nat, re: Re, G: seq<State>, s: seq<CChar>, i: nat, j: nat, m: nat)
    returns (n: nat)
    requires Valid(g) && SecondEpsilon(g) && start < |g| && Edgeless(g[start]) && re.Alt?
    requires Valid(G) && Keeps(Build(g, start, re).states, G)
    requires i <= j <= |s| && Lang(re, s, i, j)
    requires AcceptsWithin(G, Build(g, start, re).exit, s, j, m)
    ensures AcceptsWithin(G, start, s, i, n)
    decreases re, 0, 1
  {
    if Lang(re.left, s, i, j) {
      n := CompleteLeft(g, start, re, G, s, i, j, m);
    } else {
      n := CompleteRight(g, start, re, G, s, i, j, m);
    }
  }

  /** A match of the left side is reached through `one` of `start`. */
  lemma {:induction false} CompleteLeft(g: seq<State>, start: nat, re: Re, G: seq<State>, s: seq<CChar>, i: nat, j: nat, m: nat)
    returns (n: nat)
    requires Valid(g) && SecondEpsilon(g) && start < |g| && Edgeless(g[start]) && re.Alt?
    requires Valid(G) && Keeps(Build(g, start, re).states, G)
    requires i <= j <= |s| && Lang(re.left, s, i, j)
    requires AcceptsWithin(G, Build(g, start, re).exit, s, j, m)
    ensures AcceptsWithin(G, start, s, i, n)
    decreases re, 0, 0
  {
    var g1, left, right := AltIn(g, start, re, G);
    var n1 := CompleteSide(g1, |g| + 1, re.left, |g|, G, s, i, j, m);
    assert Via(G, G[start].one, s, i, n1);
    n := n1 + 1;
  }

  /** A match of the right side is reached through `two` of `start`. */
  lemma {:induction false} CompleteRight(g: seq<State>, start: nat, re: Re, G: seq<State>, s: seq<CChar>, i: nat, j: nat, m: nat)
    returns (n: nat)
    requires Valid(g) && SecondEpsilon(g) && start < |g| && Edgeless(g[start]) && re.Alt?
    requires Valid(G) && Keeps(Build(g, start, re).states, G)
    requires i <= j <= |s| && Lang(re.right, s, i, j)
    requires AcceptsWithin(G, Build(g, start, re).exit, s, j, m)
    ensures AcceptsWithin(G, start, s, i, n)
    decreases re, 0, 0
  {
    var g1, left, right := AltIn(g, start, re, G);
    var n1 := CompleteSide(left.states, |g| + 2, re.right, |g|, G, s, i, j, m);
    assert Via(G, G[start].two, s, i, n1);
    n := n1 + 1;
  }

  lemma {:induction false} CompleteStar(g: seq<State>, start: nat, re: Re, G: seq<State>, s: seq<CChar>, i: nat, j: nat, m: nat)
    returns (n: nat)
    requires Valid(g) && SecondEpsilon(g) && start < |g| && Edgeless(g[start]) && re.Star?
    requires Valid(G) && Keeps(Build(g, start, re).states, G)
    requires i <= j <= |s| && Lang(re, s, i, j)
    requires AcceptsWithin(G, Build(g, start, re).exit, s, j, m)
    ensures AcceptsWithin(G, start, s, i, n)
    decreases re, 0, 0
  {
    var g1, body := StarIn(g, start, re, G);
    if i == j {
      assert Via(G, G[start].two, s, i, m);
      n := m + 1;
    } else {
      assert Repeat(re.re, s, i, j);
      var k :| i < k <= j && Lang(re.re, s, i, k) && Repeat(re.re, s, k, j);
      var n1 := TailComplete(g1, |g| + 1, re.re, |g|, G, s, k, j, m);
      var n2 := Complete(g1, |g| + 1, re.re, G, s, i, k, n1);
      assert Via(G, G[start].one, s, i, n2);
      n := n2 + 1;
    }
  }

  lemma {:induction false} CompletePlus(g: seq<State>, start: nat, re: Re, G: seq<State>, s: seq<CChar>, i: nat, j: nat, m: nat)
    returns (n: nat)
    requires Valid(g) && SecondEpsilon(g) && start < |g| && Edgeless(g[start]) && re.Plus?
    requires Valid(G) && Keeps(Build(g, start, re).states, G)
    requires i <= j <= |s| && Lang(re, s, i, j)
    requires AcceptsWithin(G, Build(g, start, re).exit, s, j, m)
    ensures AcceptsWithin(G, start, s, i, n)
    decreases re, 0, 0
  {
    var g1, body := PlusIn(g, start, re, G);
    var k :| i <= k <= j && Lang(re.re, s, i, k) && Repeat(re.re, s, k, j);
    var n1 := TailComplete(g1, |g| + 1, re.re, |g|, G, s, k, j, m);
    var n2 := Complete(g1, |g| + 1, re.re, G, s, i, k, n1);
    assert Via(G, G[start].one, s, i, n2);
    n := n2 + 1;
  }

  lemma {:induction false} CompleteOptional(g: seq<State>, start: nat, re: Re, G: seq<State>, s: seq<CChar>, i: nat, j: nat, m: nat)
    returns (n: nat)
    requires Valid(g) && SecondEpsilon(g) && start < |g| && Edgeless(g[start]) && re.Optional?
    requires Valid(G) && Keeps(Build(g, start, re).states, G)
    requires i <= j <= |s| && Lang(re, s, i, j)
    requires AcceptsWithin(G, Build(g, start, re).exit, s, j, m)
    ensures AcceptsWithin(G, start, s, i, n)
    decreases re, 0, 0
  {
    var g1, body := OptionalIn(g, start, re, G);
    if i == j {
      n := m + 1;
    } else {
      var n1 := CompleteSide(g1, |g| + 1, re.re, |g|, G, s, i, j, m);
      assert Via(G, G[start].two, s, i, n1);
      n := n1 + 1;
    }
  }

  lemma {:induction false} CompleteSide(g1: seq<State>, a: nat, x: Re, c: nat, G: seq<State>, s: seq<CChar>, i: nat, j: nat, m: nat)
    returns (n: nat)
    requires Valid(g1) && SecondEpsilon(g1) && a < |g1| && Edgeless(g1[a])
    requires Valid(G) && Keeps(Build(g1, a, x).states, G) && c < |G|
    requires G[Build(g1, a, x).exit] == State(Some(Edge(c, Epsilon)), None)
    requires i <= j <= |s| && Lang(x, s, i, j) && AcceptsWithin(G, c, s, j, m)
    ensures AcceptsWithin(G, a, s, i, n)
    decreases x, 1, 1
  {
    assert Via(G, G[Build(g1, a, x).exit].one, s, j, m);
    n := Complete(g1, a, x, G, s, i, j, m + 1);
  }

  lemma {:induction false} CompleteAll(g: seq<State>, start: nat, res: seq<Re>, G: seq<State>, s: seq<CChar>, i: nat, j: nat, m: nat)
    returns (n: nat)
    requires Valid(g) && SecondEpsilon(g) && start < |g| && Edgeless(g[start])
    requires Valid(G) && Keeps(BuildAll(g, start, res).states, G)
    requires i <= j <= |s| && LangAll(res, s, i, j)
    requires AcceptsWithin(G, BuildAll(g, start, res).exit, s, j, m)
    ensures AcceptsWithin(G, start, s, i, n)
    decreases res, 0, 0
  {
    var prefix := ConcatWiring(g, start, res);
    if res == [] {
      n := m;
    } else {
      KeepsTrans(prefix.states, BuildAll(g, start, res).states, G);
      var k :| i <= k <= j && LangAll(res[..|res| - 1], s, i, k) && Lang(res[|res| - 1], s, k, j);
      var n1 := Complete(prefix.states, prefix.exit, res[|res| - 1], G, s, k, j, m);
      n := CompleteAll(g, start, res[..|res| - 1], G, s, i, k, n1);
    }
  }

  /** From the operand's end at `k`, repetitions up to `j` and then `b` can be followed. */
  lemma {:induction false} TailComplete(g1: seq<State>, a: nat, x: Re, b: nat, G: seq<State>, s: seq<CChar>, k: nat, j: nat, m: nat)
    returns (n: nat)
    requires Valid(g1) && SecondEpsilon(g1) && a < |g1| && Edgeless(g1[a]) && b < |g1|
    requires Valid(G) && Keeps(Build(g1, a, x).states, G)
    requires G[Build(g1, a, x).exit] == State(Some(Edge(a, Epsilon)), Some(Edge(b, Epsilon)))
    requires k <= j <= |s| && Repeat(x, s, k, j) && AcceptsWithin(G, b, s, j, m)
    ensures AcceptsWithin(G, Build(g1, a, x).exit, s, k, n)
    decreases x, 2, j - k
  {
    if k == j {
      n := m + 1;
    } else {
      var k2 :| k < k2 <= j && Lang(x, s, k, k2) && Repeat(x, s, k2, j);
      var n1 := TailComplete(g1, a, x, b, G, s, k2, j, m);
      var n2 := Complete(g1, a, x, G, s, k, k2, n1);
      n := n2 + 1;
    }
  }

  /**
   * The table built for a tree from a single start state 0 has an accepting
   * path over `s` exactly when some prefix of `s` is in the tree's language.
   */
  lemma BuildCorrect(re: Re, s: seq<CChar>)
    ensures Accepts(Build([Fresh], 0, re).states, 0, s, 0) <==>
            exists j :: 0 <= j <= |s| && Lang(re, s, 0, j)
  {
    if Accepts(Build([Fresh], 0, re).states, 0, s, 0) {
      BuildSound(re, s);
    }
    if exists j :: 0 <= j <= |s| && Lang(re, s, 0, j) {
      var j :| 0 <= j <= |s| && Lang(re, s, 0, j);
      BuildComplete(re, s, j);
    }
  }

  lemma BuildSound(re: Re, s: seq<CChar>)
    requires Accepts(Build([Fresh], 0, re).states, 0, s, 0)
    ensures exists j :: 0 <= j <= |s| && Lang(re, s, 0, j)
  {
    var f := Build([Fresh], 0, re);
    var n :| AcceptsWithin(f.states, 0, s, 0, n);
    assert Keeps(f.states, f.states);
    var j, m := Sound([Fresh], 0, re, f.states, s, 0, n);
    assert 0 <= j <= |s| && Lang(re, s, 0, j);
  }

  lemma BuildComplete(re: Re, s: seq<CChar>, j: nat)
    requires j <= |s| && Lang(re, s, 0, j)
    ensures Accepts(Build([Fresh], 0, re).states, 0, s, 0)
  {
    var f := Build([Fresh], 0, re);
    assert Keeps(f.states, f.states);
    assert AcceptsWithin(f.states, f.exit, s, j, 0);
    var n := Complete([Fresh], 0, re, f.states, s, 0, j, 0);
    assert AcceptsWithin(f.states, 0, s, 0, n);
  }

  // ---------------------------------------------------------------------
  // Concatenation and literal runs.

  /** Matches of two sequences of children, one after the other, match their concatenation. */
  lemma {:induction false} LangAllAppend(a: seq<Re>, b: seq<Re>, s: seq<CChar>, i: nat, k: nat, j: nat)
    requires i <= k <= j <= |s| && LangAll(a, s, i, k) && LangAll(b, s, k, j)
    ensures LangAll(a + b, s, i, j)
    decreases |b|
  {
    if b == [] {
      assert a + b == a;
    } else {
      var k2 :| k <= k2 <= j && LangAll(b[..|b| - 1], s, k, k2) && Lang(b[|b| - 1], s, k2, j);
      LangAllAppend(a, b[..|b| - 1], s, i, k, k2);
      assert (a + b)[..|a + b| - 1] == a + b[..|b| - 1];
      assert (a + b)[|a + b| - 1] == b[|b| - 1];
    }
  }

  /** Conversely, a match of a concatenation splits into matches of its two parts. */
  lemma {:induction false} LangAllSplit(a: seq<Re>, b: seq<Re>, s: seq<CChar>, i: nat, j: nat) returns (k: nat)
    requires i <= j <= |s| && LangAll(a + b, s, i, j)
    ensures i <= k <= j && LangAll(a, s, i, k) && LangAll(b, s, k, j)
    decreases |b|
  {
    if b == [] {
      assert a + b == a;
      k := j;
    } else {
      assert (a + b)[..|a + b| - 1] == a + b[..|b| - 1];
      assert (a + b)[|a + b| - 1] == b[|b| - 1];
      var k2 :| i <= k2 <= j && LangAll(a + b[..|b| - 1], s, i, k2) && Lang(b[|b| - 1], s, k2, j);
      k := LangAllSplit(a, b[..|b| - 1], s, i, k2);
    }
  }

  /** A run of literal nodes matches exactly the bytes it was parsed from. */
  lemma {:induction false} LangLiteral(w: seq<CChar>, s: seq<CChar>, i: nat, j: nat)
    requires i <= j <= |s|
    ensures LangAll(Literal(w), s, i, j) <==> j == i + |w| && s[i..j] == w
    decreases |w|
  {
    if w != [] {
      var u, c := w[..|w| - 1], w[|w| - 1];
      var lit := Literal(w);
      assert lit[..|lit| - 1] == Literal(u);
      assert lit[|lit| - 1] == Char(c);
      if LangAll(Literal(w), s, i, j) {
        var init, last := lit[..|lit| - 1], lit[|lit| - 1];
        assert LangAll(lit, s, i, j);
        var k :| i <= k <= j && LangAll(init, s, i, k) && Lang(last, s, k, j);
        LangLiteral(u, s, i, k);
        assert s[i..j] == s[i..k] + [s[k]];
      }
      if j == i + |w| && s[i..j] == w {
        assert s[i..j - 1] == u;
        LangLiteral(u, s, i, j - 1);
        assert Lang(Char(c), s, j - 1, j);
      }
    }
  }

  /** A concatenation of one child matches what that child matches. */
  lemma LangSingle(x: Re, s: seq<CChar>, i: nat, j: nat)
    requires i <= j <= |s|
    ensures LangAll([x], s, i, j) <==> Lang(x, s, i, j)
  {
    var init, last := [x][..0], [x][0];
    assert init == [] && last == x;
    if Lang(x, s, i, j) {
      assert LangAll(init, s, i, i) && Lang(last, s, i, j);
    }
  }
}
