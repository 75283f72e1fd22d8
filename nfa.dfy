/**
 * `struct re_nfa` and the procedures that fill it in place (re.c:49-51,
 * re.c:62-200). Each method is proved to leave exactly the table that the
 * functions of module Automaton describe, so everything proved there about
 * `Link` and `Build` holds of the object.
 */
module Compiler {
  import opened Wrappers
  import opened Syntax
  import opened Automaton
  import opened Matcher
  import opened Wiring

  class Nfa {
    /** `nfa->states`, the growing vector of states; state 0 is the entry. */
    var states: seq<State>

    /** `vec_init(nfa->states)`: an empty table. */
    constructor ()
      ensures states == []
    {
      states := [];
    }

    /** `addstate`: append a state with no edges and return its index, the old size. */
    method AddState() returns (k: nat)
      modifies this
      ensures states == old(states) + [Fresh]
      ensures k == |old(states)| && states[k] == Fresh
    {
      k := |states|;
      states := states + [Fresh];
    }

    /** `transition`: add an edge from `from` to `to` in the first empty slot of `from`. */
    method Transition(from: nat, to: nat, guard: Label)
      requires Valid(states) && from < |states| && to < |states| && HasRoom(states[from])
      modifies this
      ensures states == Link(old(states), from, to, guard)
    {
      var st := states[from];
      var e := Some(Edge(to, guard));
      if st.one.None? {
        states := states[from := st.(one := e)];
      } else {
        states := states[from := st.(two := e)];
      }
    }

    /**
     * `re_match(nfa, s)`: run `domatch` from state 0 over the whole input,
     * recursing at most `fuel` deep. Whenever it returns, its answer is
     * whether some path of edges leads from state 0 to a state with no edges.
     */
    function Match(s: seq<CChar>, fuel: nat): (r: Outcome)
      reads this
      requires Valid(states) && 0 < |states|
      ensures SecondEpsilon(states) && r != OutOfFuel ==> (r == Accept <==> Accepts(states, 0, s, 0))
    {
      var r := DoMatch(states, 0, s, 0, fuel);
      assert SecondEpsilon(states) && r != OutOfFuel ==> (r == Accept <==> Accepts(states, 0, s, 0)) by {
        if SecondEpsilon(states) && r != OutOfFuel {
          DoMatchDecides(states, 0, s, 0, fuel);
        }
      }
      r
    }

    /**
     * `tonfa(nfa, start, re)`: compile `re` so that it begins at `start`,
     * and return the state where it ends. Each arm of the C `switch` is a
     * method of its own below.
     */
    method ToNfa(start: nat, re: Re) returns (exit: nat)
      requires Valid(states) && SecondEpsilon(states) && start < |states| && Edgeless(states[start])
      modifies this
      ensures Fragment(states, exit) == Build(old(states), start, re)
      decreases re, 1
    {
      match re
      case Char(c) =>
        var g := states;
        var a := AddState();
        AppendSecondEpsilon(g, 1);
        assert g + [Fresh] == g + seq(1, _ => Fresh);
        Transition(start, a, Lit(c));
        exit := a;
      case Alt(_, _) => exit := ToNfaAlt(start, re);
      case Star(_) => exit := ToNfaStar(start, re);
      case Plus(_) => exit := ToNfaPlus(start, re);
      case Optional(_) => exit := ToNfaOptional(start, re);
      case Concat(res) => exit := ToNfaConcat(start, res);
    }

    /** The RE_ALT arm. */
    method ToNfaAlt(start: nat, re: Re) returns (exit: nat)
      requires Valid(states) && SecondEpsilon(states) && start < |states| && Edgeless(states[start]) && re.Alt?
      modifies this
      ensures Fragment(states, exit) == Build(old(states), start, re)
      decreases re, 0
    {
      var g := states;
      var c := AddState();
      var a := AddState();
      var b := AddState();
      assert states == g + [Fresh, Fresh, Fresh];
      AppendSecondEpsilon(g, 3);
      assert states == g + seq(3, _ => Fresh);
      var t := ToNfa(a, re.left);
      ghost var left := Fragment(states, t);
      var v := ToNfa(b, re.right);
      assert c == |g| && a == |g| + 1 && b == |g| + 2;
      AltBuilt(g, start, re, left, Fragment(states, v));
      JoinAlt(start, a, b, c, t, v);
      exit := c;
    }

    /**
     * The four `transition` calls that end the RE_ALT arm: both sides lead
     * to the exit `c`, then `start` enters the left side and then the right.
     */
    method JoinAlt(start: nat, a: nat, b: nat, c: nat, t: nat, v: nat)
      requires Valid(states) && start < |states| && a < |states| && b < |states| && c < |states|
      requires t < |states| && v < |states| && t != v && start != t && start != v
      requires HasRoom(states[t]) && HasRoom(states[v]) && Edgeless(states[start])
      modifies this
      ensures var h1 := Link(old(states), t, c, Epsilon);
        var h2 := Link(h1, v, c, Epsilon);
        var h3 := Link(h2, start, a, Epsilon);
        states == Link(h3, start, b, Epsilon)
    {
      Transition(t, c, Epsilon);
      Transition(v, c, Epsilon);
      Transition(start, a, Epsilon);
      Transition(start, b, Epsilon);
    }

    /** The RE_STAR arm. */
    method ToNfaStar(start: nat, re: Re) returns (exit: nat)
      requires Valid(states) && SecondEpsilon(states) && start < |states| && Edgeless(states[start]) && re.Star?
      modifies this
      ensures Fragment(states, exit) == Build(old(states), start, re)
      decreases re, 0
    {
      var g := states;
      var b := AddState();
      var a := AddState();
      assert states == g + [Fresh, Fresh];
      AppendSecondEpsilon(g, 2);
      assert states == g + seq(2, _ => Fresh);
      var t := ToNfa(a, re.re);
      StarBuilt(g, start, re, Fragment(states, t));
      Transition(t, a, Epsilon);
      Transition(t, b, Epsilon);
      Transition(start, a, Epsilon);
      Transition(start, b, Epsilon);
      exit := b;
    }

    /** The RE_PLUS arm. */
    method ToNfaPlus(start: nat, re: Re) returns (exit: nat)
      requires Valid(states) && SecondEpsilon(states) && start < |states| && Edgeless(states[start]) && re.Plus?
      modifies this
      ensures Fragment(states, exit) == Build(old(states), start, re)
      decreases re, 0
    {
      var g := states;
      var b := AddState();
      var a := AddState();
      assert states == g + [Fresh, Fresh];
      AppendSecondEpsilon(g, 2);
      assert states == g + seq(2, _ => Fresh);
      var t := ToNfa(a, re.re);
      PlusBuilt(g, start, re, Fragment(states, t));
      Transition(t, a, Epsilon);
      Transition(t, b, Epsilon);
      Transition(start, a, Epsilon);
      exit := b;
    }

    /** The RE_OPTION arm. */
    method ToNfaOptional(start: nat, re: Re) returns (exit: nat)
      requires Valid(states) && SecondEpsilon(states) && start < |states| && Edgeless(states[start]) && re.Optional?
      modifies this
      ensures Fragment(states, exit) == Build(old(states), start, re)
      decreases re, 0
    {
      var g := states;
      var b := AddState();
      var a := AddState();
      assert states == g + [Fresh, Fresh];
      AppendSecondEpsilon(g, 2);
      assert states == g + seq(2, _ => Fresh);
      var t := ToNfa(a, re.re);
      OptionalBuilt(g, start, re, Fragment(states, t));
      Transition(t, b, Epsilon);
      Transition(start, b, Epsilon);
      Transition(start, a, Epsilon);
      exit := b;
    }

    /** The RE_CONCAT arm: the `for` loop that threads `t` through the children. */
    method ToNfaConcat(start: nat, res: seq<Re>) returns (exit: nat)
      requires Valid(states) && SecondEpsilon(states) && start < |states| && Edgeless(states[start])
      modifies this
      ensures Fragment(states, exit) == BuildAll(old(states), start, res)
      decreases res, 0
    {
      var g := states;
      exit := start;
      for k := 0 to |res|
        invariant Fragment(states, exit) == BuildAll(g, start, res[..k])
      {
        assert res[..k + 1][..k] == res[..k];
        exit := ToNfa(exit, res[k]);
      }
      assert res[..|res|] == res;
    }
  }
}
