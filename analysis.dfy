/** What the semantic analyzer (src/semantic/visitor.py) computes, as functions: the
    outcome of visiting a statement, a declaration, a block or a program, and the
    state it leaves behind. The visitor raises at the first failing check, so each
    function stops at the first failure and hands back the state as it was then. */
module Analysis {
  import opened Wrappers
  import opened Strings
  import opened Types
  import opened Errors
  import opened Ast
  import opened SymbolTables
  import opened Typing

  /** What the analyzer threads from node to node: the tables as `lookup` reads them, the
      next variable address `dx`, and the type map. */
  datatype Env = Env(view: View, dx: int, typeMap: map<string, Type>)

  /** The outcome of a visit, and the state after it. */
  datatype Step = Step(outcome: Outcome<SemanticError>, env: Env)

  // ---------------------------------------------------------------------------
  // The table operations the visitor uses

  /** `enter(name, kind, type, level=l, ref=ref)`: a new entry in the block of level `l`,
      linked by the link rule and made that block's newest; a variable takes the address
      `dx` and counts into the block's variable size. */
  function EnterIn(e: Env, name: string, kind: ObjectKind, t: Type, l: nat, ref: int): (r: Env)
    requires ViewOk(e.view) && l < |e.view.display|
    ensures ViewOk(r.view) && r.typeMap == e.typeMap
    ensures r.view.level == e.view.level && r.view.display == e.view.display && |r.view.btab| == |e.view.btab|
    ensures |r.view.tab| == |e.view.tab| + 1 && e.view.tab <= r.view.tab && r.view.tab[|e.view.tab|].name == name
    ensures r.view.btab[r.view.display[l]].last == |e.view.tab|
  {
    var v := e.view;
    var b := v.display[l];
    var last := v.btab[b].last;
    var entry := SymbolEntry(name, kind, t, l, AddressFor(kind, None, e.dx), ref, true, LinkFor(kind, v.tab, last));
    var block := v.btab[b].(last := |v.tab|, vsze := v.btab[b].vsze + if kind == VARIABLE then 1 else 0);
    NewestKeepsLasts(v.tab, v.btab, b, entry, block);
    e.(view := v.(tab := v.tab + [entry], btab := v.btab[b := block]),
       dx := e.dx + if kind == VARIABLE then 1 else 0)
  }

  /** `enter(...)` with its defaults: at the current level, reference 0. */
  function EnterCurrent(e: Env, name: string, kind: ObjectKind, t: Type): (r: Env)
    requires ViewOk(e.view)
    ensures ViewOk(r.view) && r.typeMap == e.typeMap && e.view.tab <= r.view.tab && r.view.level == e.view.level
    ensures ScopeFind(r.view, name).Some? || |e.view.tab| == 0
  {
    var r := EnterIn(e, name, kind, t, e.view.level, 0);
    assert ChainFind(r.view.tab, |e.view.tab|, name) == Some(|e.view.tab|) || |e.view.tab| == 0;
    r
  }

  /** `enter_scope` when the display has room: one level down, a new empty block named
      by the display, and variable addresses from 3. */
  function OpenScope(e: Env): (r: Env)
    requires ViewOk(e.view) && e.view.level + 1 < |e.view.display|
    ensures ViewOk(r.view) && r.view.level == e.view.level + 1 && r.typeMap == e.typeMap
  {
    var v := e.view;
    e.(view := View(v.tab, v.btab + [EmptyBlock], v.display[v.level + 1 := |v.btab|], v.level + 1), dx := 3)
  }

  /** `exit_scope`: one level up, with `dx` the variable size of the block there; nothing
      at level 0. */
  function CloseScope(e: Env): (r: Env)
    requires ViewOk(e.view)
    ensures ViewOk(r.view) && r.typeMap == e.typeMap && r.view.tab == e.view.tab
    ensures e.view.level == 0 ==> r == e
    ensures e.view.level > 0 ==> r.view.level == e.view.level - 1
  {
    if e.view.level == 0 then e
    else
      var l := e.view.level - 1;
      e.(view := e.view.(level := l), dx := e.view.btab[e.view.display[l]].vsze)
  }

  // ---------------------------------------------------------------------------
  // Statements

  /** `visit` of a statement. Only `for` changes the state, by entering its control
      variable. */
  function StatementStep(e: Env, s: Statement): (r: Step)
    requires ViewOk(e.view)
    ensures ViewOk(r.env.view) && r.env.typeMap == e.typeMap && e.view.tab <= r.env.view.tab
    ensures r.env.view.level == e.view.level
    decreases s, 0
  {
    var v := e.view;
    match s
    case Compound(ss) => StatementsStep(e, ss)
    case Assignment(x, value) => Step(AssignmentCheck(v, x, value), e)
    case If(c, th, el) =>
      var cc := ConditionCheck(v, c, "if condition");
      if cc.Fail? then Step(cc, e)
      else
        var a := StatementStep(e, th);
        if a.outcome.Fail? || el.None? then a
        else
          var b := StatementStep(a.env, el.value);
          PrefixTransitive(e.view.tab, a.env.view.tab, b.env.view.tab);
          b
    case While(c, body) =>
      var cc := ConditionCheck(v, c, "while condition");
      if cc.Fail? then Step(cc, e) else StatementStep(e, body)
    case For(control, start, end, _, body) =>
      var bc := ForBoundsCheck(v, start, end);
      if bc.Fail? then Step(bc, e)
      else
        var e1 := if ScopeFind(v, control).None? then EnterCurrent(e, control, VARIABLE, IntegerType) else e;
        var b := StatementStep(e1, body);
        PrefixTransitive(e.view.tab, e1.view.tab, b.env.view.tab);
        b
    case Repeat(ss, c) =>
      var a := StatementsStep(e, ss);
      if a.outcome.Fail? then a else Step(ConditionCheck(a.env.view, c, "repeat condition"), a.env)
    case Case(selector, arms) =>
      var t := ExpressionType(v, selector);
      if t.Err? then Step(Fail(t.error), e) else ArmsStep(e, arms)
    case ProcedureCall(name, args) => Step(CallCheck(v, name, args), e)
    case Empty => Step(Pass, e)
  }

  /** `visit_compound_statement`: the statements in order, stopping at the first that
      fails. */
  function StatementsStep(e: Env, ss: seq<Statement>): (r: Step)
    requires ViewOk(e.view)
    ensures ViewOk(r.env.view) && r.env.typeMap == e.typeMap && e.view.tab <= r.env.view.tab
    ensures r.env.view.level == e.view.level
    decreases ss, 0
  {
    if |ss| == 0 then Step(Pass, e)
    else
      var a := StatementStep(e, ss[0]);
      if a.outcome.Fail? then a
      else
        var b := StatementsStep(a.env, ss[1..]);
        PrefixTransitive(e.view.tab, a.env.view.tab, b.env.view.tab);
        b
  }

  /** The arms of `visit_case_statement`: each arm's statement in order; the arms'
      constants are not visited. */
  function ArmsStep(e: Env, arms: seq<CaseArm>): (r: Step)
    requires ViewOk(e.view)
    ensures ViewOk(r.env.view) && r.env.typeMap == e.typeMap && e.view.tab <= r.env.view.tab
    ensures r.env.view.level == e.view.level
    decreases arms, 0
  {
    if |arms| == 0 then Step(Pass, e)
    else
      var a := StatementStep(e, arms[0].statement);
      if a.outcome.Fail? then a
      else
        var b := ArmsStep(a.env, arms[1..]);
        PrefixTransitive(e.view.tab, a.env.view.tab, b.env.view.tab);
        b
  }

  // ---------------------------------------------------------------------------
  // Declarations

  /** The identifier loop of a variable or parameter declaration: each name must be new
      in the current scope, and is entered as a variable of type `t`. */
  function VariablesStep(e: Env, ids: seq<string>, t: Type): (r: Step)
    requires ViewOk(e.view)
    ensures ViewOk(r.env.view) && r.env.typeMap == e.typeMap
    ensures e.view.tab <= r.env.view.tab && r.env.view.level == e.view.level
    ensures r.outcome.Fail? ==> exists k :: 0 <= k < |ids| && r.outcome.error == DuplicateDeclaration(ids[k])
    decreases |ids|
  {
    if |ids| == 0 then Step(Pass, e)
    else if ScopeFind(e.view, ids[0]).Some? then Step(Fail(DuplicateDeclaration(ids[0])), e)
    else
      var e1 := EnterIn(e, ids[0], VARIABLE, t, e.view.level, 0);
      var r := VariablesStep(e1, ids[1..], t);
      PrefixTransitive(e.view.tab, e1.view.tab, r.env.view.tab);
      assert r.outcome.Fail? ==> exists k :: 0 <= k < |ids[1..]| && r.outcome.error == DuplicateDeclaration(ids[1..][k]);
      r
  }

  /** `visit_var_declaration` and `visit_parameter`: the type, then the identifiers. */
  function VariableDeclarationStep(e: Env, ids: seq<string>, ts: TypeSpec): (r: Step)
    requires ViewOk(e.view)
    ensures ViewOk(r.env.view) && r.env.typeMap == e.typeMap
    ensures e.view.tab <= r.env.view.tab && r.env.view.level == e.view.level
  {
    var t := TypeSpecType(e.typeMap, e.view, ts);
    if t.Err? then Step(Fail(t.error), e) else VariablesStep(e, ids, t.value)
  }

  /** The parameter loop of a routine declaration. */
  function ParametersStep(e: Env, params: seq<Parameter>): (r: Step)
    requires ViewOk(e.view)
    ensures ViewOk(r.env.view) && r.env.typeMap == e.typeMap
    ensures e.view.tab <= r.env.view.tab && r.env.view.level == e.view.level
    decreases |params|
  {
    if |params| == 0 then Step(Pass, e)
    else
      var a := VariableDeclarationStep(e, params[0].identifiers, params[0].typeSpec);
      if a.outcome.Fail? then a
      else
        var b := ParametersStep(a.env, params[1..]);
        PrefixTransitive(e.view.tab, a.env.view.tab, b.env.view.tab);
        b
  }

  /** `visit` of a declaration. */
  function DeclarationStep(e: Env, d: Declaration): (r: Step)
    requires ViewOk(e.view)
    ensures ViewOk(r.env.view) && e.view.tab <= r.env.view.tab
    ensures r.outcome.Pass? ==> r.env.view.level == e.view.level
    decreases d, 0
  {
    var v := e.view;
    match d
    case VarDecl(decl) => VariableDeclarationStep(e, decl.identifiers, decl.typeSpec)
    case ConstDecl(id, value) =>
      if ScopeFind(v, id).Some? then Step(Fail(DuplicateDeclaration(id)), e)
      else Step(Pass, EnterCurrent(e, id, CONSTANT, InferConstType(value)))
    case TypeDecl(id, ts) =>
      if ScopeFind(v, id).Some? then Step(Fail(DuplicateDeclaration(id)), e)
      else
        var t := TypeSpecType(e.typeMap, v, ts);
        if t.Err? then Step(Fail(t.error), e)
        else Step(Pass, EnterCurrent(e.(typeMap := e.typeMap[Lower(id) := t.value]), id, TYPE, t.value))
    case ProcedureDecl(name, params, block) =>
      if ScopeFind(v, name).Some? then Step(Fail(DuplicateDeclaration(name)), e)
      else RoutineStep(e, name, PROCEDURE, VoidType, params, block)
    case FunctionDecl(name, params, returnType, block) =>
      if ScopeFind(v, name).Some? then Step(Fail(DuplicateDeclaration(name)), e)
      else
        var t := TypeSpecType(e.typeMap, v, returnType);
        if t.Err? then Step(Fail(t.error), e)
        else RoutineStep(e, name, FUNCTION, t.value, params, block)
  }

  /** What the two routine declarations share once the name is known to be new: the
      scope is opened (or the display overflows), the routine is entered in the
      enclosing block with the new block as its reference, then its parameters and its
      block are visited and the scope is closed. */
  function RoutineStep(e: Env, name: string, kind: ObjectKind, t: Type, params: seq<Parameter>, block: Block): (r: Step)
    requires ViewOk(e.view)
    ensures ViewOk(r.env.view) && e.view.tab <= r.env.view.tab
    ensures r.outcome.Fail? <==> e.view.level + 1 >= |e.view.display| || RoutineBodyStep(EnterIn(OpenScope(e), name, kind, t, e.view.level, |e.view.btab|), params, block).outcome.Fail?
    ensures r.outcome.Pass? ==> r.env.view.level == e.view.level
    decreases block, 3
  {
    var v := e.view;
    if v.level + 1 >= |v.display| then Step(Fail(DisplayOverflow(v.level + 1)), e)
    else
      var entered := EnterIn(OpenScope(e), name, kind, t, v.level, |v.btab|);
      var a := RoutineBodyStep(entered, params, block);
      PrefixTransitive(e.view.tab, entered.view.tab, a.env.view.tab);
      if a.outcome.Fail? then a else Step(Pass, CloseScope(a.env))
  }

  /** A routine whose scope fits in the display: its body is visited in the opened scope,
      after its own entry, and the scope is closed again only when the body passed. */
  lemma RoutineOpened(e: Env, name: string, kind: ObjectKind, t: Type, params: seq<Parameter>, block: Block,
                      entered: Env)
    requires ViewOk(e.view) && e.view.level + 1 < |e.view.display|
    requires entered == EnterIn(OpenScope(e), name, kind, t, e.view.level, |e.view.btab|)
    ensures var a := RoutineBodyStep(entered, params, block);
            RoutineStep(e, name, kind, t, params, block) == if a.outcome.Fail? then a else Step(Pass, CloseScope(a.env))
  {
  }

  /** The parameters, then the block, inside the routine's scope. */
  function RoutineBodyStep(e: Env, params: seq<Parameter>, block: Block): (r: Step)
    requires ViewOk(e.view)
    ensures ViewOk(r.env.view) && e.view.tab <= r.env.view.tab
    ensures r.outcome.Pass? ==> r.env.view.level == e.view.level
    decreases block, 2
  {
    var a := ParametersStep(e, params);
    if a.outcome.Fail? then a
    else
      var b := BlockStep(a.env, block);
      PrefixTransitive(e.view.tab, a.env.view.tab, b.env.view.tab);
      b
  }

  /** The declarations of a block in order, stopping at the first that fails. */
  function DeclarationsStep(e: Env, ds: seq<Declaration>): (r: Step)
    requires ViewOk(e.view)
    ensures ViewOk(r.env.view) && e.view.tab <= r.env.view.tab
    ensures r.outcome.Pass? ==> r.env.view.level == e.view.level
    decreases ds, 0
  {
    if |ds| == 0 then Step(Pass, e)
    else
      var a := DeclarationStep(e, ds[0]);
      if a.outcome.Fail? then a
      else
        var b := DeclarationsStep(a.env, ds[1..]);
        PrefixTransitive(e.view.tab, a.env.view.tab, b.env.view.tab);
        b
  }

  /** `visit_block`: the declarations, then the compound statement. */
  function BlockStep(e: Env, b: Block): (r: Step)
    requires ViewOk(e.view)
    ensures ViewOk(r.env.view) && e.view.tab <= r.env.view.tab
    ensures r.outcome.Pass? ==> r.env.view.level == e.view.level
    decreases b, 1
  {
    var a := DeclarationsStep(e, b.declarations);
    if a.outcome.Fail? then a
    else
      var c := StatementsStep(a.env, b.body);
      PrefixTransitive(e.view.tab, a.env.view.tab, c.env.view.tab);
      c
  }

  /** `visit_program`: the program's name entered at level 0, then its block. */
  function ProgramStep(e: Env, p: Program): (r: Step)
    requires ViewOk(e.view)
    ensures ViewOk(r.env.view) && |r.env.view.tab| > |e.view.tab| && r.env.view.tab[|e.view.tab|].name == p.name
    ensures r.outcome.Pass? ==> r.env.view.level == e.view.level
  {
    var e1 := EnterIn(e, p.name, PROGRAM, VoidType, 0, 0);
    var r := BlockStep(e1, p.block);
    assert r.env.view.tab[|e.view.tab|] == e1.view.tab[|e.view.tab|];
    r
  }

  // ---------------------------------------------------------------------------
  // Stopping at the first failure

  /** One more statement after a list: it is visited only when the list passed, in the
      state the list left. */
  lemma {:induction false} StatementsSnoc(e: Env, ss: seq<Statement>, s: Statement)
    requires ViewOk(e.view)
    ensures var p := StatementsStep(e, ss);
            StatementsStep(e, ss + [s]) == if p.outcome.Fail? then p else StatementStep(p.env, s)
    decreases |ss|
  {
    if |ss| == 0 {
      assert ss + [s] == [s];
    } else {
      assert (ss + [s])[0] == ss[0] && (ss + [s])[1..] == ss[1..] + [s];
      var a := StatementStep(e, ss[0]);
      if a.outcome.Pass? {
        StatementsSnoc(a.env, ss[1..], s);
      }
    }
  }

  /** The state after the first `k` statements of a list. */
  function StatementsBefore(e: Env, ss: seq<Statement>, k: nat): Step
    requires ViewOk(e.view) && k <= |ss|
  {
    StatementsStep(e, ss[..k])
  }

  /** `visit_compound_statement` fails fast: the list passes exactly when every statement
      passes in the state the ones before it left, and a failure is the failure of the
      first statement that fails, every one before it having passed. */
  lemma {:induction false} StatementsFailFast(e: Env, ss: seq<Statement>)
    requires ViewOk(e.view)
    ensures var r := StatementsStep(e, ss);
            (r.outcome.Pass? <==>
               forall k :: 0 <= k < |ss| ==> StatementStep(StatementsBefore(e, ss, k).env, ss[k]).outcome.Pass?)
            && (r.outcome.Fail? ==>
                  exists k :: 0 <= k < |ss| && StatementsBefore(e, ss, k).outcome.Pass?
                              && r == StatementStep(StatementsBefore(e, ss, k).env, ss[k]))
    decreases |ss|
  {
    if |ss| > 0 {
      var n := |ss| - 1;
      var init := ss[..n];
      assert ss == init + [ss[n]];
      StatementsFailFast(e, init);
      StatementsSnoc(e, init, ss[n]);
      forall k | 0 <= k < n
        ensures StatementsBefore(e, ss, k) == StatementsBefore(e, init, k) && ss[k] == init[k]
      {
        assert ss[..k] == init[..k];
      }
      assert StatementsBefore(e, ss, n) == StatementsStep(e, init);
      var p := StatementsStep(e, init);
      if p.outcome.Fail? {
        var k :| 0 <= k < n && StatementsBefore(e, init, k).outcome.Pass?
                 && p == StatementStep(StatementsBefore(e, init, k).env, init[k]);
        assert StatementStep(StatementsBefore(e, ss, k).env, ss[k]).outcome.Fail?;
      }
    }
  }

  /** One more declaration after a list: it is visited only when the list passed, in the
      state the list left. */
  lemma {:induction false} DeclarationsSnoc(e: Env, ds: seq<Declaration>, d: Declaration)
    requires ViewOk(e.view)
    ensures var p := DeclarationsStep(e, ds);
            DeclarationsStep(e, ds + [d]) == if p.outcome.Fail? then p else DeclarationStep(p.env, d)
    decreases |ds|
  {
    if |ds| == 0 {
      assert ds + [d] == [d];
    } else {
      assert (ds + [d])[0] == ds[0] && (ds + [d])[1..] == ds[1..] + [d];
      var a := DeclarationStep(e, ds[0]);
      if a.outcome.Pass? {
        DeclarationsSnoc(a.env, ds[1..], d);
      }
    }
  }

  /** The state after the first `k` declarations of a list. */
  function DeclarationsBefore(e: Env, ds: seq<Declaration>, k: nat): Step
    requires ViewOk(e.view) && k <= |ds|
  {
    DeclarationsStep(e, ds[..k])
  }

  /** The declarations of a block fail fast: they pass exactly when each passes in the
      state the ones before it left, and a failure is that of the first one failing. */
  lemma {:induction false} DeclarationsFailFast(e: Env, ds: seq<Declaration>)
    requires ViewOk(e.view)
    ensures var r := DeclarationsStep(e, ds);
            (r.outcome.Pass? <==>
               forall k :: 0 <= k < |ds| ==> DeclarationStep(DeclarationsBefore(e, ds, k).env, ds[k]).outcome.Pass?)
            && (r.outcome.Fail? ==>
                  exists k :: 0 <= k < |ds| && DeclarationsBefore(e, ds, k).outcome.Pass?
                              && r == DeclarationStep(DeclarationsBefore(e, ds, k).env, ds[k]))
    decreases |ds|
  {
    if |ds| > 0 {
      var n := |ds| - 1;
      var init := ds[..n];
      assert ds == init + [ds[n]];
      DeclarationsFailFast(e, init);
      DeclarationsSnoc(e, init, ds[n]);
      forall k | 0 <= k < n
        ensures DeclarationsBefore(e, ds, k) == DeclarationsBefore(e, init, k) && ds[k] == init[k]
      {
        assert ds[..k] == init[..k];
      }
      assert DeclarationsBefore(e, ds, n) == DeclarationsStep(e, init);
      var p := DeclarationsStep(e, init);
      if p.outcome.Fail? {
        var k :| 0 <= k < n && DeclarationsBefore(e, init, k).outcome.Pass?
                 && p == DeclarationStep(DeclarationsBefore(e, init, k).env, init[k]);
        assert DeclarationStep(DeclarationsBefore(e, ds, k).env, ds[k]).outcome.Fail?;
      }
    }
  }

  lemma PrefixTransitive<T>(a: seq<T>, b: seq<T>, c: seq<T>)
    requires a <= b && b <= c
    ensures a <= c
  {
    assert a == b[..|a|] && b == c[..|b|];
  }
}
