/** Start-state and final-state bookkeeping shared by automata (src/automaton/abstract.py). */
module Automata {
  import opened Wrappers

  class Automaton<S(==,!new)> {
    var start: Option<S>
    var finals: set<S>

    /** A fresh automaton has no start state and no final states. */
    constructor ()
      ensures start == None && finals == {}
    {
      start := None;
      finals := {};
    }

    method SetStart(s: S)
      modifies this
      ensures start == Some(s) && finals == old(finals)
      ensures StartState() == Some(s)
    {
      start := Some(s);
    }

    /** Makes `s` final and leaves the finality of every other state as it was. */
    method AddFinal(s: S)
      modifies this
      ensures start == old(start) && finals == old(finals) + {s}
      ensures IsFinal(s)
      ensures forall t :: t != s ==> (IsFinal(t) <==> old(IsFinal(t)))
    {
      finals := finals + {s};
    }

    predicate IsFinal(s: S)
      reads this
    {
      s in finals
    }

    function StartState(): Option<S>
      reads this
    {
      start
    }

    /** An immutable snapshot of the final states: exactly the states that are final. */
    function FinalStates(): (r: set<S>)
      reads this
      ensures forall t :: t in r <==> IsFinal(t)
    {
      finals
    }
  }
}
