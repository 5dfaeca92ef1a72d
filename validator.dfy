/** Shape and graph checks on a DFA configuration (src/automaton/dfa/validator.py). */
module Validator {
  import opened Wrappers
  import opened Dfa

  /** The critical problems that make validation raise. */
  datatype ConfigError =
    | EmptyStartState
    | EmptyFinalStates
    | EmptyTransitions
    | EmptyTransitionField(index: nat)
    | EmptyClassName

  /** Problems that are only reported. */
  datatype Warning =
    | LongLiteral(index: nat, symbol: Symbol)
    | UnreachableWarning(states: set<State>)
    | DeadWarning(states: set<State>)

  datatype ValidationReport = ValidationReport(
    states: set<State>,
    reachableStates: set<State>,
    deadStates: set<State>,
    unreachableStates: set<State>)

  /** Some configured transition goes from `a` to `c` (whatever its input symbol). */
  ghost predicate Edge(ts: seq<Transition>, a: State, c: State) {
    exists i :: 0 <= i < |ts| && ts[i].0 == a && ts[i].2 == c
  }

  /** `p` follows configured transitions, ignoring input symbols. */
  ghost predicate EdgePath(ts: seq<Transition>, p: seq<State>) {
    |p| >= 1 && forall i :: 0 <= i < |p| - 1 ==> Edge(ts, p[i], p[i + 1])
  }

  /** `b` can be reached from `a` along configured transitions (in zero or more steps). */
  ghost predicate Reaches(ts: seq<Transition>, a: State, b: State) {
    exists p :: EdgePath(ts, p) && p[0] == a && p[|p| - 1] == b
  }

  /** `_infer_states`: the start state, every final state and both ends of every
      transition. */
  function InferStates(start: State, finals: set<State>, ts: seq<Transition>): (r: set<State>)
    ensures start in r && finals <= r
    ensures forall i :: 0 <= i < |ts| ==> ts[i].0 in r && ts[i].2 in r
    ensures forall s :: s in r ==>
              s == start || s in finals || exists i :: 0 <= i < |ts| && (ts[i].0 == s || ts[i].2 == s)
  {
    {start} + finals + (set i | 0 <= i < |ts| :: ts[i].0) + (set i | 0 <= i < |ts| :: ts[i].2)
  }

  // ---------------------------------------------------------------------------
  // Adjacency dictionaries and the worklist search over them

  type Graph = map<State, set<State>>

  /** `graph.get(s, set())`. */
  function Succ(g: Graph, s: State): set<State> {
    if s in g then g[s] else {}
  }

  /** Adding the transition at index `k` to those before it adds exactly its edge. */
  lemma EdgeExtend(ts: seq<Transition>, k: nat, a: State, c: State)
    requires k < |ts|
    ensures Edge(ts[..k + 1], a, c) <==> Edge(ts[..k], a, c) || (ts[k].0 == a && ts[k].2 == c)
  {
    if Edge(ts[..k + 1], a, c) && !(ts[k].0 == a && ts[k].2 == c) {
      var i :| 0 <= i < k + 1 && ts[..k + 1][i].0 == a && ts[..k + 1][i].2 == c;
      assert ts[..k][i] == ts[i];
    }
    if Edge(ts[..k], a, c) {
      var i :| 0 <= i < k && ts[..k][i].0 == a && ts[..k][i].2 == c;
      assert ts[..k + 1][i] == ts[i];
    }
    if ts[k].0 == a && ts[k].2 == c {
      assert ts[..k + 1][k] == ts[k];
    }
  }

  /** The adjacency dictionary of the transitions, from source to target
      (`graph.setdefault(a, set()).add(c)`). */
  method ForwardGraph(ts: seq<Transition>) returns (g: Graph)
    ensures forall a, c :: c in Succ(g, a) <==> Edge(ts, a, c)
  {
    g := map[];
    var k := 0;
    while k < |ts|
      invariant 0 <= k <= |ts|
      invariant forall a, c :: c in Succ(g, a) <==> Edge(ts[..k], a, c)
    {
      var (a0, _, c0) := ts[k];
      var g' := g[a0 := Succ(g, a0) + {c0}];
      forall a, c
        ensures c in Succ(g', a) <==> Edge(ts[..k + 1], a, c)
      {
        EdgeExtend(ts, k, a, c);
      }
      g := g';
      k := k + 1;
    }
    assert ts[..k] == ts;
  }

  /** The adjacency dictionary of the transitions, from target back to source. */
  method ReverseGraph(ts: seq<Transition>) returns (g: Graph)
    ensures forall a, c :: c in Succ(g, a) <==> Edge(ts, c, a)
  {
    g := map[];
    var k := 0;
    while k < |ts|
      invariant 0 <= k <= |ts|
      invariant forall a, c :: c in Succ(g, a) <==> Edge(ts[..k], c, a)
    {
      var (a0, _, c0) := ts[k];
      var g' := g[c0 := Succ(g, c0) + {a0}];
      forall a, c
        ensures c in Succ(g', a) <==> Edge(ts[..k + 1], c, a)
      {
        EdgeExtend(ts, k, c, a);
      }
      g := g';
      k := k + 1;
    }
    assert ts[..k] == ts;
  }

  ghost predicate GraphPath(g: Graph, p: seq<State>) {
    |p| >= 1 && forall i :: 0 <= i < |p| - 1 ==> p[i + 1] in Succ(g, p[i])
  }

  /** `x` is reachable in `g` from one of `roots`. */
  ghost predicate GraphReachable(g: Graph, roots: set<State>, x: State) {
    exists p :: GraphPath(g, p) && p[0] in roots && p[|p| - 1] == x
  }

  lemma ReachableStep(g: Graph, roots: set<State>, s: State, t: State)
    requires GraphReachable(g, roots, s) && t in Succ(g, s)
    ensures GraphReachable(g, roots, t)
  {
    var p :| GraphPath(g, p) && p[0] in roots && p[|p| - 1] == s;
    var q := p + [t];
    assert GraphPath(g, q) && q[0] in roots && q[|q| - 1] == t;
  }

  /** Every state on the worklist is reachable from the roots. */
  ghost predicate StackReachable(g: Graph, roots: set<State>, stack: seq<State>) {
    forall i :: 0 <= i < |stack| ==> GraphReachable(g, roots, stack[i])
  }

  /** Every state marked seen is reachable from the roots. */
  ghost predicate SeenReachable(g: Graph, roots: set<State>, seen: set<State>) {
    forall s :: s in seen ==> GraphReachable(g, roots, s)
  }

  /** Each successor of a seen state is seen or still on the worklist. */
  ghost predicate Covered(g: Graph, seen: set<State>, stack: seq<State>) {
    forall s, t :: s in seen && t in Succ(g, s) ==> t in seen || t in stack
  }

  /** Every state some edge of `g` leads to. */
  ghost function Targets(g: Graph): (r: set<State>)
    ensures forall s, t :: s in g && t in g[s] ==> t in r
    decreases |g.Keys|
  {
    if g.Keys == {} then {}
    else
      var k :| k in g.Keys;
      var rest := g - {k};
      assert |rest.Keys| < |g.Keys| by { assert rest.Keys == g.Keys - {k}; }
      assert forall s :: s in rest ==> rest[s] == g[s];
      g[k] + Targets(rest)
  }

  /** The inner loop of the search: push every successor of `s` that is not seen. */
  method PushSuccessors(g: Graph, ghost roots: set<State>, s: State, seen: set<State>, stack: seq<State>)
    returns (stack': seq<State>)
    requires GraphReachable(g, roots, s)
    requires StackReachable(g, roots, stack)
    ensures StackReachable(g, roots, stack')
    ensures stack <= stack'
    ensures forall i :: |stack| <= i < |stack'| ==> stack'[i] in Succ(g, s)
    ensures forall t :: t in Succ(g, s) ==> t in seen || t in stack'
  {
    stack' := stack;
    var rest := Succ(g, s);
    while rest != {}
      invariant rest <= Succ(g, s)
      invariant StackReachable(g, roots, stack')
      invariant stack <= stack'
      invariant forall i :: |stack| <= i < |stack'| ==> stack'[i] in Succ(g, s)
      invariant forall t :: t in Succ(g, s) ==> t in seen || t in stack' || t in rest
      decreases rest
    {
      var nxt :| nxt in rest;
      if nxt !in seen {
        ReachableStep(g, roots, s, nxt);
        stack' := stack' + [nxt];
      }
      rest := rest - {nxt};
    }
  }

  /** What holds of the search after each step: the worklist and the seen set stay inside
      the finite set of states the roots and edges mention, each root is seen or pending,
      every successor of a seen state is seen or pending, and all of them are reachable. */
  ghost predicate SearchInvariant(g: Graph, roots: set<State>, seen: set<State>, stack: seq<State>) {
    && seen <= roots + Targets(g)
    && (forall i :: 0 <= i < |stack| ==> stack[i] in roots + Targets(g))
    && (forall r :: r in roots ==> r in seen || r in stack)
    && Covered(g, seen, stack)
    && StackReachable(g, roots, stack)
    && SeenReachable(g, roots, seen)
  }

  /** Popping a state that was already seen keeps the search invariant. */
  lemma SkipKeepsInvariant(g: Graph, roots: set<State>, seen: set<State>, stack: seq<State>)
    requires stack != [] && stack[|stack| - 1] in seen
    requires SearchInvariant(g, roots, seen, stack)
    ensures SearchInvariant(g, roots, seen, stack[..|stack| - 1])
  {
    var popped := stack[..|stack| - 1];
    forall t | t in stack
      ensures t in seen || t in popped
    {
      var i :| 0 <= i < |stack| && stack[i] == t;
      if i < |popped| {
        assert popped[i] == stack[i];
      }
    }
    assert forall i :: 0 <= i < |popped| ==> popped[i] == stack[i];
  }

  /** After popping the top of the worklist and pushing onto what is left, every state
      that was pending is the popped one or still pending. */
  lemma PoppedStaysPending(stack: seq<State>, pushed: seq<State>)
    requires stack != [] && stack[..|stack| - 1] <= pushed
    ensures forall t :: t in stack ==> t == stack[|stack| - 1] || t in pushed
  {
    forall t | t in stack
      ensures t == stack[|stack| - 1] || t in pushed
    {
      var i :| 0 <= i < |stack| && stack[i] == t;
      if i < |stack| - 1 {
        assert pushed[i] == stack[..|stack| - 1][i] == stack[i];
      }
    }
  }

  /** The pushed worklist stays inside the states the roots and edges mention. */
  lemma VisitBounded(g: Graph, roots: set<State>, stack: seq<State>, pushed: seq<State>)
    requires stack != [] && stack[..|stack| - 1] <= pushed
    requires forall i :: 0 <= i < |stack| ==> stack[i] in roots + Targets(g)
    requires forall i :: |stack| - 1 <= i < |pushed| ==> pushed[i] in Succ(g, stack[|stack| - 1])
    ensures forall i :: 0 <= i < |pushed| ==> pushed[i] in roots + Targets(g)
  {
    forall i | 0 <= i < |pushed|
      ensures pushed[i] in roots + Targets(g)
    {
      if i < |stack| - 1 {
        assert pushed[i] == stack[..|stack| - 1][i] == stack[i];
      } else {
        assert pushed[i] in Succ(g, stack[|stack| - 1]);
      }
    }
  }

  /** Marking the popped state seen keeps every successor of a seen state seen or pending,
      given that its own unseen successors were pushed. */
  lemma VisitCovered(g: Graph, seen: set<State>, stack: seq<State>, pushed: seq<State>)
    requires stack != [] && stack[..|stack| - 1] <= pushed
    requires Covered(g, seen, stack)
    requires forall t :: t in Succ(g, stack[|stack| - 1]) ==> t in seen || t in pushed
    ensures Covered(g, seen + {stack[|stack| - 1]}, pushed)
  {
    PoppedStaysPending(stack, pushed);
  }

  /** Marking the popped state seen and pushing its unseen successors keeps the
      search invariant. */
  lemma VisitKeepsInvariant(g: Graph, roots: set<State>, seen: set<State>, stack: seq<State>, pushed: seq<State>)
    requires stack != [] && stack[|stack| - 1] !in seen
    requires SearchInvariant(g, roots, seen, stack)
    requires StackReachable(g, roots, pushed)
    requires stack[..|stack| - 1] <= pushed
    requires forall i :: |stack| - 1 <= i < |pushed| ==> pushed[i] in Succ(g, stack[|stack| - 1])
    requires forall t :: t in Succ(g, stack[|stack| - 1]) ==> t in seen || t in pushed
    ensures SearchInvariant(g, roots, seen + {stack[|stack| - 1]}, pushed)
  {
    var s := stack[|stack| - 1];
    VisitBounded(g, roots, stack, pushed);
    VisitCovered(g, seen, stack, pushed);
    PoppedStaysPending(stack, pushed);
    assert s in roots + Targets(g) && GraphReachable(g, roots, s);
  }

  /** Marking one more state of the universe seen shrinks what is left unseen. */
  lemma MarkShrinks(universe: set<State>, seen: set<State>, s: State)
    requires s in universe && s !in seen
    ensures |universe - (seen + {s})| < |universe - seen|
  {
    var left := universe - (seen + {s});
    assert universe - seen == left + {s} && s !in left;
  }

  /** Popping the worklist keeps the rest of it reachable. */
  lemma PopKeepsReachable(g: Graph, roots: set<State>, stack: seq<State>)
    requires stack != [] && StackReachable(g, roots, stack)
    ensures StackReachable(g, roots, stack[..|stack| - 1])
  {
    assert forall i :: 0 <= i < |stack| - 1 ==> stack[..|stack| - 1][i] == stack[i];
  }

  /** One round of the search loop: pop the top of the worklist and, unless it was seen,
      mark it and push its unseen successors. */
  method ExploreStep(g: Graph, ghost roots: set<State>, seen: set<State>, stack: seq<State>)
    returns (seen': set<State>, stack': seq<State>)
    requires stack != []
    requires SearchInvariant(g, roots, seen, stack)
    ensures SearchInvariant(g, roots, seen', stack')
    ensures |roots + Targets(g) - seen'| < |roots + Targets(g) - seen| || (seen' == seen && |stack'| < |stack|)
  {
    var s := stack[|stack| - 1];
    var popped := stack[..|stack| - 1];
    if s in seen {
      SkipKeepsInvariant(g, roots, seen, stack);
      return seen, popped;
    }
    assert s in roots + Targets(g);
    MarkShrinks(roots + Targets(g), seen, s);
    PopKeepsReachable(g, roots, stack);
    var pushed := PushSuccessors(g, roots, s, seen, popped);
    VisitKeepsInvariant(g, roots, seen, stack, pushed);
    return seen + {s}, pushed;
  }

  /** The worklist search both `_reachable_states` and `_dead_states` run: pop a state,
      skip it if seen, otherwise mark it and push its unseen successors. The result is
      the set of states reachable from `roots`: it holds the roots, it is closed under
      the graph's edges, and each of its states has a path from a root. */
  method Explore(g: Graph, roots: set<State>, stack0: seq<State>) returns (seen: set<State>)
    requires forall x :: x in roots <==> x in stack0
    ensures roots <= seen
    ensures forall s, t :: s in seen && t in Succ(g, s) ==> t in seen
    ensures SeenReachable(g, roots, seen)
  {
    seen := {};
    var stack := stack0;
    forall i | 0 <= i < |stack0|
      ensures GraphReachable(g, roots, stack0[i])
    {
      assert GraphPath(g, [stack0[i]]);
    }
    while stack != []
      invariant SearchInvariant(g, roots, seen, stack)
      decreases |roots + Targets(g) - seen|, |stack|
    {
      seen, stack := ExploreStep(g, roots, seen, stack);
    }
    forall s, t | s in seen && t in Succ(g, s)
      ensures t in seen
    {
      assert Covered(g, seen, stack);
      assert t in seen || t in stack;
    }
  }

  /** `list(s)`: the elements of a set in some order. */
  method ListOf(s: set<State>) returns (r: seq<State>)
    ensures forall x :: x in s <==> x in r
  {
    r := [];
    var rest := s;
    while rest != {}
      invariant rest <= s
      invariant forall x :: x in s <==> x in r || x in rest
      invariant forall x :: x in r ==> x !in rest
      decreases rest
    {
      var x :| x in rest;
      r := r + [x];
      rest := rest - {x};
    }
  }

  lemma GraphPathIsEdgePath(ts: seq<Transition>, g: Graph, p: seq<State>)
    requires forall a, c :: c in Succ(g, a) <==> Edge(ts, a, c)
    ensures GraphPath(g, p) <==> EdgePath(ts, p)
  {
  }

  /** `_reachable_states`: the states reachable from the start state along transitions,
      ignoring input symbols. */
  method ReachableStates(start: State, ts: seq<Transition>) returns (seen: set<State>)
    ensures start in seen
    ensures forall a, c :: a in seen && Edge(ts, a, c) ==> c in seen
    ensures forall s :: s in seen ==> Reaches(ts, start, s)
  {
    var g := ForwardGraph(ts);
    seen := Explore(g, {start}, [start]);
    ForwardSearchSound(ts, g, start, seen);
  }

  /** What the forward search finds is reachable along transitions. */
  lemma ForwardSearchSound(ts: seq<Transition>, g: Graph, start: State, seen: set<State>)
    requires forall a, c :: c in Succ(g, a) <==> Edge(ts, a, c)
    requires SeenReachable(g, {start}, seen)
    ensures forall s :: s in seen ==> Reaches(ts, start, s)
  {
    forall s | s in seen
      ensures Reaches(ts, start, s)
    {
      var p :| GraphPath(g, p) && p[0] in {start} && p[|p| - 1] == s;
      GraphPathIsEdgePath(ts, g, p);
    }
  }

  function Reverse(p: seq<State>): (r: seq<State>)
    ensures |r| == |p|
    ensures forall i :: 0 <= i < |p| ==> r[i] == p[|p| - 1 - i]
  {
    if p == [] then [] else Reverse(p[1..]) + [p[0]]
  }

  /** A path in the reversed graph read backwards is a path along transitions. */
  lemma ReversedPath(ts: seq<Transition>, g: Graph, p: seq<State>)
    requires forall a, c :: c in Succ(g, a) <==> Edge(ts, c, a)
    requires GraphPath(g, p)
    ensures EdgePath(ts, Reverse(p))
  {
    var r := Reverse(p);
    forall i | 0 <= i < |r| - 1
      ensures Edge(ts, r[i], r[i + 1])
    {
      var j := |p| - 2 - i;
      assert r[i] == p[j + 1] && r[i + 1] == p[j];
    }
  }

  /** A set closed under reversed edges that holds `p`'s last state holds all of `p`. */
  lemma {:induction false} ClosedBackwards(ts: seq<Transition>, g: Graph, c: set<State>, p: seq<State>, k: nat)
    requires forall a, b :: b in Succ(g, a) <==> Edge(ts, b, a)
    requires forall s, t :: s in c && t in Succ(g, s) ==> t in c
    requires EdgePath(ts, p) && p[|p| - 1] in c && k < |p|
    ensures p[k] in c
    decreases |p| - k
  {
    if k < |p| - 1 {
      ClosedBackwards(ts, g, c, p, k + 1);
      assert Edge(ts, p[k], p[k + 1]);
      assert p[k] in Succ(g, p[k + 1]);
    }
  }

  /** Some final state can be reached from `x`. */
  ghost predicate ReachesFinal(ts: seq<Transition>, finals: set<State>, x: State) {
    exists f :: f in finals && Reaches(ts, x, f)
  }

  /** A state the backward search finds can reach a final state. */
  lemma FoundReachesFinal(ts: seq<Transition>, g: Graph, finals: set<State>, x: State)
    requires forall a, c :: c in Succ(g, a) <==> Edge(ts, c, a)
    requires GraphReachable(g, finals, x)
    ensures ReachesFinal(ts, finals, x)
  {
    var p :| GraphPath(g, p) && p[0] in finals && p[|p| - 1] == x;
    ReversedPath(ts, g, p);
    var r := Reverse(p);
    assert r[0] == x && r[|r| - 1] == p[0];
  }

  /** A state that can reach a final state lies in any set that holds the final states
      and is closed under reversed edges. */
  lemma ReachesFinalFound(ts: seq<Transition>, g: Graph, finals: set<State>, c: set<State>, x: State)
    requires forall a, b :: b in Succ(g, a) <==> Edge(ts, b, a)
    requires forall s, t :: s in c && t in Succ(g, s) ==> t in c
    requires finals <= c
    requires ReachesFinal(ts, finals, x)
    ensures x in c
  {
    var f :| f in finals && Reaches(ts, x, f);
    var p :| EdgePath(ts, p) && p[0] == x && p[|p| - 1] == f;
    ClosedBackwards(ts, g, c, p, 0);
  }

  /** Every state the backward search finds can reach a final state. */
  lemma AllFoundReachFinal(ts: seq<Transition>, g: Graph, finals: set<State>, c: set<State>)
    requires forall a, b :: b in Succ(g, a) <==> Edge(ts, b, a)
    requires SeenReachable(g, finals, c)
    ensures forall x :: x in c ==> ReachesFinal(ts, finals, x)
  {
    forall x | x in c
      ensures ReachesFinal(ts, finals, x)
    {
      FoundReachesFinal(ts, g, finals, x);
    }
  }

  /** Every state that can reach a final state is found by the backward search. */
  lemma AllReachingFinalFound(ts: seq<Transition>, g: Graph, finals: set<State>, c: set<State>)
    requires forall a, b :: b in Succ(g, a) <==> Edge(ts, b, a)
    requires forall s, t :: s in c && t in Succ(g, s) ==> t in c
    requires finals <= c
    ensures forall x :: ReachesFinal(ts, finals, x) ==> x in c
  {
    forall x | ReachesFinal(ts, finals, x)
      ensures x in c
    {
      ReachesFinalFound(ts, g, finals, c, x);
    }
  }

  /** `_dead_states`: the inferred states from which no final state can be reached. */
  method DeadStates(states: set<State>, finals: set<State>, ts: seq<Transition>) returns (dead: set<State>)
    ensures forall x :: x in dead <==> x in states && !ReachesFinal(ts, finals, x)
    ensures dead * finals == {}
  {
    var g := ReverseGraph(ts);
    var stack := ListOf(finals);
    var canReachFinal := Explore(g, finals, stack);
    dead := states - canReachFinal;
    AllFoundReachFinal(ts, g, finals, canReachFinal);
    AllReachingFinalFound(ts, g, finals, canReachFinal);
  }

  /** Every state a configuration names is among the inferred states, so the source's
      start-state, final-state and transition-endpoint existence checks never raise. */
  lemma InferredStatesCoverConfig(config: DFAConfig)
    ensures var states := InferStates(config.startState, config.finalStates.Keys, config.transitions);
            && config.startState in states
            && (forall f :: f in config.finalStates ==> f in states)
            && (forall i :: 0 <= i < |config.transitions| ==>
                  config.transitions[i].0 in states && config.transitions[i].2 in states)
  {
  }

  /** Where a warning falls in the order the warnings are emitted: literal symbols by
      the index of their transition, then the unreachable states, then the dead ones. */
  function WarningRank(ts: seq<Transition>, w: Warning): int {
    match w
    case LongLiteral(index, _) => index
    case UnreachableWarning(_) => |ts|
    case DeadWarning(_) => |ts| + 1
  }

  /** The warnings `validate_dfa_config` emits, in order: one per literal input symbol
      whose length is not one, then the unreachable states, then the dead states, each
      only when there are any. */
  method Warnings(ts: seq<Transition>, classes: map<string, CharClass>, unreachable: set<State>, dead: set<State>)
    returns (warnings: seq<Warning>)
    ensures UnreachableWarning(unreachable) in warnings <==> unreachable != {}
    ensures DeadWarning(dead) in warnings <==> dead != {}
    ensures forall w :: w in warnings && w.LongLiteral? ==>
              && w.index < |ts| && ts[w.index].1 == w.symbol
              && w.symbol !in classes && |w.symbol| != 1
    ensures forall i :: 0 <= i < |ts| && ts[i].1 !in classes && |ts[i].1| != 1 ==> LongLiteral(i, ts[i].1) in warnings
    ensures forall a, b :: 0 <= a < b < |warnings| ==> WarningRank(ts, warnings[a]) < WarningRank(ts, warnings[b])
  {
    warnings := [];
    var i := 0;
    while i < |ts|
      invariant 0 <= i <= |ts|
      invariant forall w :: w in warnings ==>
                  && w.LongLiteral? && w.index < i && ts[w.index].1 == w.symbol
                  && w.symbol !in classes && |w.symbol| != 1
      invariant forall k :: 0 <= k < i && ts[k].1 !in classes && |ts[k].1| != 1 ==> LongLiteral(k, ts[k].1) in warnings
      invariant forall a, b :: 0 <= a < b < |warnings| ==> WarningRank(ts, warnings[a]) < WarningRank(ts, warnings[b])
    {
      var sym := ts[i].1;
      if sym !in classes && |sym| != 1 {
        warnings := warnings + [LongLiteral(i, sym)];
      }
      i := i + 1;
    }
    if unreachable != {} {
      warnings := warnings + [UnreachableWarning(unreachable)];
    }
    if dead != {} {
      warnings := warnings + [DeadWarning(dead)];
    }
  }

  /** A transition with an empty state or symbol name. */
  predicate BadTransition(t: Transition) {
    t.0 == "" || t.1 == "" || t.2 == ""
  }

  /** `validate_dfa_config` without the regex compilation and the char-class overlap scan.
      It raises on the first critical problem, in the source's order, and otherwise
      reports the inferred, reachable, unreachable and dead states; unreachable and dead
      states, and literal symbols longer than one character, only give warnings. */
  method ValidateDfaConfig(config: DFAConfig) returns (r: Result<(ValidationReport, seq<Warning>), ConfigError>)
    ensures config.startState == "" ==> r == Err(EmptyStartState)
    ensures config.startState != "" && |config.finalStates| == 0 ==> r == Err(EmptyFinalStates)
    ensures config.startState != "" && |config.finalStates| > 0 && config.transitions == [] ==>
              r == Err(EmptyTransitions)
    ensures r.Err? && r.error.EmptyTransitionField? ==>
              var i := r.error.index;
              && i < |config.transitions| && BadTransition(config.transitions[i])
              && forall j :: 0 <= j < i ==> !BadTransition(config.transitions[j])
    ensures r.Ok? <==>
              && config.startState != "" && |config.finalStates| > 0 && config.transitions != []
              && (forall i :: 0 <= i < |config.transitions| ==> !BadTransition(config.transitions[i]))
              && "" !in config.charClasses
    ensures r.Ok? ==> ReportFor(config, r.value.0, r.value.1)
  {
    if config.startState == "" {
      return Err(EmptyStartState);
    }
    if |config.finalStates| == 0 {
      return Err(EmptyFinalStates);
    }
    if config.transitions == [] {
      return Err(EmptyTransitions);
    }
    var normalized: seq<Transition> := [];
    var i := 0;
    while i < |config.transitions|
      invariant 0 <= i <= |config.transitions|
      invariant normalized == config.transitions[..i]
      invariant forall j :: 0 <= j < i ==> !BadTransition(config.transitions[j])
    {
      if BadTransition(config.transitions[i]) {
        return Err(EmptyTransitionField(i));
      }
      normalized := normalized + [config.transitions[i]];
      i := i + 1;
    }
    assert normalized == config.transitions;

    if "" in config.charClasses {
      return Err(EmptyClassName);
    }
    var report, warnings := Analyse(config);
    return Ok((report, warnings));
  }

  /** What a successful validation reports: the inferred states; the reachable states,
      exactly those reachable from the start state; the unreachable states, the rest;
      the dead states, exactly the states from which no final state can be reached; and
      the warnings for literal symbols, unreachable states and dead states. */
  ghost predicate ReportFor(config: DFAConfig, rep: ValidationReport, warnings: seq<Warning>) {
    && rep.states == InferStates(config.startState, config.finalStates.Keys, config.transitions)
    && rep.unreachableStates == rep.states - rep.reachableStates
    && config.startState in rep.reachableStates
    && (forall s :: s in rep.reachableStates ==> Reaches(config.transitions, config.startState, s))
    && (forall a, c :: a in rep.reachableStates && Edge(config.transitions, a, c) ==> c in rep.reachableStates)
    && (forall x :: x in rep.deadStates <==>
          x in rep.states && !ReachesFinal(config.transitions, config.finalStates.Keys, x))
    && (UnreachableWarning(rep.unreachableStates) in warnings <==> rep.unreachableStates != {})
    && (DeadWarning(rep.deadStates) in warnings <==> rep.deadStates != {})
    && (forall w :: w in warnings && w.LongLiteral? ==>
          && w.index < |config.transitions| && config.transitions[w.index].1 == w.symbol
          && w.symbol !in config.charClasses && |w.symbol| != 1)
  }

  /** The graph part of `validate_dfa_config`, once the shape checks have passed. */
  method Analyse(config: DFAConfig) returns (report: ValidationReport, warnings: seq<Warning>)
    ensures ReportFor(config, report, warnings)
  {
    var ts := config.transitions;
    var states := InferStates(config.startState, config.finalStates.Keys, ts);
    // The source re-checks that the start state, each final state and both ends of
    // each transition are inferred states; by construction these checks cannot raise.
    InferredStatesCoverConfig(config);
    var reachable := ReachableStates(config.startState, ts);
    var unreachable := states - reachable;
    var dead := DeadStates(states, config.finalStates.Keys, ts);
    warnings := Warnings(ts, config.charClasses, unreachable, dead);
    report := ValidationReport(states, reachable, dead, unreachable);
  }
}
