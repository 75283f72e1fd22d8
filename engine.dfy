/**
 * `re_compile` and `re_match` together (re.c:356-384): what the library
 * answers for a pattern and an input, and the fixture of test.c:12-19.
 */
module Engine {
  import opened Wrappers
  import opened Syntax
  import opened Parser
  import opened Automaton
  import opened Matcher
  import opened Semantics
  import opened Compiler

  /** The table `re_compile` builds for a parsed tree: state 0, then `tonfa(nfa, 0, re)`. */
  function Compiled(re: Re): (g: seq<State>)
    ensures Valid(g) && SecondEpsilon(g) && 0 < |g|
  {
    Build([Fresh], 0, re).states
  }

  /**
   * `re_compile(s)`: NULL, and no automaton, when the pattern does not
   * parse; otherwise a new automaton whose entry is state 0.
   */
  method Compile(p: seq<CChar>) returns (nfa: Nfa?)
    ensures nfa == null <==> !Balanced(p)
    ensures nfa != null ==> fresh(nfa) && Parse(p).Some? && nfa.states == Compiled(Parse(p).value)
  {
    var n := new Nfa();
    var tree := Parse(p);
    if tree.None? {
      return null;
    }
    var zero := n.AddState();
    assert n.states == [Fresh];
    var exit := n.ToNfa(zero, tree.value);
    nfa := n;
  }

  /**
   * What `re_match(re_compile(p), s)` answers whenever it returns: true
   * exactly when some prefix of `s` is a string of the pattern. The match
   * is anchored at the start of the input and not at its end.
   */
  lemma MatchMeaning(p: seq<CChar>, s: seq<CChar>, fuel: nat)
    requires Parse(p).Some?
    requires DoMatch(Compiled(Parse(p).value), 0, s, 0, fuel) != OutOfFuel
    ensures DoMatch(Compiled(Parse(p).value), 0, s, 0, fuel) == Accept <==>
            exists j :: 0 <= j <= |s| && Lang(Parse(p).value, s, 0, j)
  {
    var re := Parse(p).value;
    DoMatchDecides(Compiled(re), 0, s, 0, fuel);
    BuildCorrect(re, s);
  }

  /** The empty pattern compiles to the single state 0, with no edges, which matches every input. */
  lemma EmptyPatternMatchesAll(s: seq<CChar>, fuel: nat)
    requires 0 < fuel
    ensures Parse([]) == Some(Concat([]))
    ensures Compiled(Concat([])) == [Fresh]
    ensures DoMatch(Compiled(Concat([])), 0, s, 0, fuel) == Accept
  {
  }

  /** The table of `()*`: the operand's end is the operand's start, so state 2 loops to itself first. */
  const LoopTable := [State(Some(Edge(2, Epsilon)), Some(Edge(1, Epsilon))), Fresh,
                      State(Some(Edge(2, Epsilon)), Some(Edge(1, Epsilon)))]

  /**
   * A star whose operand matches the empty string makes `domatch` go round
   * an epsilon cycle without end: for `()*` no bound on the recursion is
   * enough, whatever the input.
   */
  lemma EmptyLoopDiverges(s: seq<CChar>, fuel: nat)
    ensures Parse("()*") == Some(Concat([Star(Concat([]))]))
    ensures Compiled(Concat([Star(Concat([]))])) == LoopTable
    ensures DoMatch(LoopTable, 0, s, 0, fuel) == OutOfFuel
  {
    EmptyLoopParses("()*");
    EmptyLoopTable();
    if fuel > 0 {
      SelfLoop(LoopTable, 2, s, 0, fuel - 1);
    }
  }

  lemma EmptyLoopParses(p: seq<CChar>)
    requires p == "()*"
    ensures Parse(p) == Some(Concat([Star(Concat([]))]))
  {
    assert Atom(p, 1) == Parsed(None, 1);
    assert Concatenation(p, 1, true, []) == Parsed(Some(Concat([])), 1);
    assert Atom(p, 0) == Parsed(Some(Concat([])), 2);
    assert Subexp(p, 0) == Parsed(Some(Star(Concat([]))), 3);
    assert [] + [Star(Concat([]))] == [Star(Concat([]))];
    assert Concatenation(p, 0, false, []) == Parsed(Some(Concat([Star(Concat([]))])), 3);
  }

  lemma EmptyLoopTable()
    ensures Compiled(Concat([Star(Concat([]))])) == LoopTable
  {
    var g1 := [Fresh, Fresh, Fresh];
    assert BuildAll(g1, 2, []) == Fragment(g1, 2);
  }

  /** A state whose `one` is an epsilon edge to itself: no recursion bound is enough. */
  lemma {:induction false} SelfLoop(g: seq<State>, q: nat, s: seq<CChar>, i: nat, fuel: nat)
    requires Valid(g) && q < |g| && i <= |s| && g[q].one == Some(Edge(q, Epsilon))
    ensures DoMatch(g, q, s, i, fuel) == OutOfFuel
    decreases fuel
  {
    if fuel > 0 {
      SelfLoop(g, q, s, i, fuel - 1);
    }
  }
}
