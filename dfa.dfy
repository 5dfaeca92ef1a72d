/** A table-driven DFA with named character classes (src/automaton/dfa/dfa.py). */
module Dfa {
  import opened Wrappers
  import opened Tokens
  import opened Automata

  type State = string
  type Symbol = string
  type Key = (State, Symbol)

  /** A character class. The source compiles a regular expression per class and asks
      whether it matches at the start of the one-character input; here a class is that
      predicate on characters. */
  type CharClass = char -> bool

  type Transition = (State, Symbol, State)

  /** The configuration the lexer is built from. Final states carry the token kind
      they accept; an input symbol is a one-character literal or a class name. */
  datatype DFAConfig = DFAConfig(
    startState: State,
    finalStates: map<State, TokenType>,
    charClasses: map<string, CharClass>,
    transitions: seq<Transition>,
    keywords: seq<string>,
    reservedMap: map<string, TokenType>)

  /** The transition dictionary built from the configured list: a map from
      (state, symbol) to the next state, together with the order in which the keys
      were first inserted, which is the order a Python dict iterates in. */
  datatype Table = Table(next: map<Key, State>, order: seq<Key>)

  ghost predicate WellFormed(t: Table) {
    && (forall k :: k in t.next <==> k in t.order)
    && (forall i, j :: 0 <= i < j < |t.order| ==> t.order[i] != t.order[j])
  }

  function KeyOf(tr: Transition): Key {
    (tr.0, tr.1)
  }

  /** `d[(a, b)] = c`: a new key goes to the end of the order, an existing key keeps
      its place and takes the new value. */
  function Insert(t: Table, tr: Transition): Table {
    var k := KeyOf(tr);
    if k in t.next then Table(t.next[k := tr.2], t.order)
    else Table(t.next[k := tr.2], t.order + [k])
  }

  /** `{(a, b): c for a, b, c in transitions}`. */
  function TableOf(ts: seq<Transition>): Table
    decreases |ts|
  {
    if ts == [] then Table(map[], []) else Insert(TableOf(ts[..|ts| - 1]), ts[|ts| - 1])
  }

  /** The dictionary is consistent with its key order, and its keys are exactly the
      (state, symbol) pairs of the configured transitions. */
  lemma {:induction false} TableOfWellFormed(ts: seq<Transition>)
    ensures WellFormed(TableOf(ts))
    ensures forall k :: k in TableOf(ts).next <==> exists i :: 0 <= i < |ts| && KeyOf(ts[i]) == k
    decreases |ts|
  {
    if ts != [] {
      var init := ts[..|ts| - 1];
      TableOfWellFormed(init);
      forall k | k in TableOf(ts).next
        ensures exists i :: 0 <= i < |ts| && KeyOf(ts[i]) == k
      {
        if k != KeyOf(ts[|ts| - 1]) {
          var i :| 0 <= i < |init| && KeyOf(init[i]) == k;
          assert KeyOf(ts[i]) == k;
        }
      }
      forall k | exists i :: 0 <= i < |ts| && KeyOf(ts[i]) == k
        ensures k in TableOf(ts).next
      {
        var i :| 0 <= i < |ts| && KeyOf(ts[i]) == k;
        if i < |init| {
          assert KeyOf(init[i]) == k;
        }
      }
    }
  }

  /** A later transition with the same (state, symbol) overrides an earlier one: the
      dictionary holds the target of the last transition with that key. */
  lemma {:induction false} LaterDuplicateWins(ts: seq<Transition>, i: nat)
    requires i < |ts|
    requires forall j :: i < j < |ts| ==> KeyOf(ts[j]) != KeyOf(ts[i])
    ensures KeyOf(ts[i]) in TableOf(ts).next && TableOf(ts).next[KeyOf(ts[i])] == ts[i].2
    decreases |ts|
  {
    if i < |ts| - 1 {
      var init := ts[..|ts| - 1];
      assert forall j :: i < j < |init| ==> init[j] == ts[j];
      LaterDuplicateWins(init, i);
    }
  }

  /** Keys are iterated in the order of their first occurrence in the configuration:
      the key at place `p` occurs in the list before the key at a later place `q`
      occurs at all. */
  lemma {:induction false} OrderIsFirstOccurrence(ts: seq<Transition>, p: nat, q: nat)
    requires p < q < |TableOf(ts).order|
    ensures exists i :: 0 <= i < |ts| && KeyOf(ts[i]) == TableOf(ts).order[p] &&
              forall j :: 0 <= j <= i ==> KeyOf(ts[j]) != TableOf(ts).order[q]
    decreases |ts|
  {
    var init := ts[..|ts| - 1];
    var t0 := TableOf(init);
    TableOfWellFormed(init);
    if q < |t0.order| {
      OrderIsFirstOccurrence(init, p, q);
      var i :| 0 <= i < |init| && KeyOf(init[i]) == t0.order[p] &&
               forall j :: 0 <= j <= i ==> KeyOf(init[j]) != t0.order[q];
      assert KeyOf(ts[i]) == TableOf(ts).order[p];
      assert forall j :: 0 <= j <= i ==> ts[j] == init[j];
    } else {
      var k := KeyOf(ts[|ts| - 1]);
      assert k !in t0.next && TableOf(ts).order[q] == k;
      assert t0.order[p] in t0.order;
      var i :| 0 <= i < |init| && KeyOf(init[i]) == t0.order[p];
      assert KeyOf(ts[i]) == TableOf(ts).order[p];
      forall j | 0 <= j <= i
        ensures KeyOf(ts[j]) != k
      {
        assert ts[j] == init[j];
      }
    }
  }

  /** The char-class transition at place `j` of the key order applies to `c` in `q`. */
  predicate ClassMatches(t: Table, classes: map<string, CharClass>, q: State, c: char, j: nat)
    requires j < |t.order|
  {
    t.order[j].0 == q && t.order[j].1 in classes && classes[t.order[j].1](c)
  }

  /** The first char-class transition, from place `k` on, that applies to `c` in `q`. */
  function ClassMatchFrom(t: Table, classes: map<string, CharClass>, q: State, c: char, k: nat): Option<State>
    requires WellFormed(t)
    decreases |t.order| - k
  {
    if k >= |t.order| then None
    else if ClassMatches(t, classes, q, c, k) then
      assert t.order[k] in t.order;
      Some(t.next[t.order[k]])
    else ClassMatchFrom(t, classes, q, c, k + 1)
  }

  /** The state `step` moves to: the exact literal transition when there is one,
      otherwise the first applicable char-class transition, otherwise none. */
  function Next(t: Table, classes: map<string, CharClass>, q: State, c: char): Option<State>
    requires WellFormed(t)
  {
    if (q, [c]) in t.next then Some(t.next[(q, [c])]) else ClassMatchFrom(t, classes, q, c, 0)
  }

  /** The char-class fallback takes the FIRST applicable transition in key order. */
  lemma {:induction false} ClassMatchFromFirst(t: Table, classes: map<string, CharClass>, q: State, c: char, k: nat, j: nat)
    requires WellFormed(t) && k <= j < |t.order|
    requires ClassMatches(t, classes, q, c, j)
    requires forall i :: k <= i < j ==> !ClassMatches(t, classes, q, c, i)
    ensures ClassMatchFrom(t, classes, q, c, k) == Some(t.next[t.order[j]])
    decreases j - k
  {
    if k < j {
      ClassMatchFromFirst(t, classes, q, c, k + 1, j);
    }
  }

  /** The fallback succeeds exactly when some char-class transition from place `k`
      on applies. */
  lemma {:induction false} ClassMatchFromSome(t: Table, classes: map<string, CharClass>, q: State, c: char, k: nat)
    requires WellFormed(t)
    ensures ClassMatchFrom(t, classes, q, c, k).Some? <==>
              exists j :: k <= j < |t.order| && ClassMatches(t, classes, q, c, j)
    decreases |t.order| - k
  {
    if k < |t.order| {
      ClassMatchFromSome(t, classes, q, c, k + 1);
    }
  }

  class DFA {
    const config: DFAConfig
    const automaton: Automaton<State>
    const table: Table
    var current: State

    /** The automaton's start and final states are the configured ones, and the
        transition dictionary is the one built from the configured list. */
    ghost predicate Valid()
      reads this, automaton
    {
      && automaton.start == Some(config.startState)
      && automaton.finals == config.finalStates.Keys
      && table == TableOf(config.transitions)
      && WellFormed(table)
    }

    constructor (config: DFAConfig)
      ensures Valid() && fresh(automaton)
      ensures this.config == config && current == config.startState
    {
      this.config := config;
      var a := new Automaton<State>();
      a.SetStart(config.startState);
      var pending := config.finalStates.Keys;
      while pending != {}
        invariant pending <= config.finalStates.Keys
        invariant a.start == Some(config.startState)
        invariant a.finals == config.finalStates.Keys - pending
        decreases pending
      {
        var s :| s in pending;
        a.AddFinal(s);
        pending := pending - {s};
      }
      automaton := a;
      current := config.startState;
      table := TableOf(config.transitions);
      TableOfWellFormed(config.transitions);
    }

    /** Back to the configured start state. */
    method Reset()
      requires Valid()
      modifies this
      ensures Valid() && current == config.startState
    {
      current := automaton.StartState().value;
    }

    /** Takes the transition `Next` names for `c`, or stays put and returns `None`. */
    method Step(c: char) returns (r: Option<State>)
      requires Valid()
      modifies this
      ensures Valid()
      ensures r == Next(table, config.charClasses, old(current), c)
      ensures current == if r.Some? then r.value else old(current)
    {
      var key := (current, [c]);
      if key in table.next {
        current := table.next[key];
        return Some(current);
      }
      var k := 0;
      while k < |table.order|
        invariant 0 <= k <= |table.order|
        invariant current == old(current)
        invariant ClassMatchFrom(table, config.charClasses, current, c, 0) ==
                  ClassMatchFrom(table, config.charClasses, current, c, k)
      {
        var (state, sym) := table.order[k];
        if state == current && sym in config.charClasses && config.charClasses[sym](c) {
          assert table.order[k] in table.order;
          current := table.next[table.order[k]];
          return Some(current);
        }
        k := k + 1;
      }
      return None;
    }

    /** Whether `step(c)` would succeed from the current state; changes nothing. */
    predicate CanTransition(c: char)
      reads this, automaton
      requires Valid()
      ensures CanTransition(c) <==> Next(table, config.charClasses, current, c).Some?
    {
      ClassMatchFromSome(table, config.charClasses, current, c, 0);
      (current, [c]) in table.next ||
      exists j :: 0 <= j < |table.order| && ClassMatches(table, config.charClasses, current, c, j)
    }

    /** The token kind of the current state when it is final, `None` otherwise. */
    function GetTokenType(): (r: Option<TokenType>)
      reads this, automaton
      requires Valid()
      ensures r.Some? <==> automaton.IsFinal(current)
      ensures r.Some? ==> r.value == config.finalStates[current]
    {
      if current in config.finalStates then Some(config.finalStates[current]) else None
    }
  }
}
