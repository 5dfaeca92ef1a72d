/** The semantic analyzer (src/semantic/visitor.py): a visitor over the parse tree that
    fills the symbol table, checks types, and stops at the first error it raises. */
module Semantic {
  import opened Wrappers
  import opened Strings
  import opened Types
  import opened Errors
  import opened Ast
  import opened SymbolTables
  import opened Typing
  import opened Analysis

  /** Does entry `e` hold the builtin `b` at level 0? */
  predicate HoldsBuiltin(e: SymbolEntry, b: (string, ObjectKind, Type)) {
    e.name == b.0 && e.kind == b.1 && e.entryType == b.2 && e.level == 0
  }

  /** Does entry `e` hold `name` of kind `kind` with type `t` at level `level`? */
  predicate Holds(e: SymbolEntry, name: string, kind: ObjectKind, t: Type, level: int) {
    e.name == name && e.kind == kind && e.entryType == t && e.level == level
  }

  class SemanticVisitor {
    const table: SymbolTable
    var typeMap: map<string, Type>
    var currentFunctionType: Option<Type>

    /** The table is well formed and not empty, so no entry the analyzer makes lands on
        index 0, which ends every chain. */
    predicate Valid()
      reads table, table.display
    {
      table.Valid() && |table.tab| > 0
    }

    /** The state the analysis threads: the tables, `dx` and the type map. */
    function Current(): Env
      reads this`typeMap, table, table.display
      requires Valid()
    {
      Env(table.Snapshot(), table.dx, typeMap)
    }

    /** `__init__`: the five simple types in the type map, then the reserved words and
        the builtin routines entered at level 0, every one of them found by `lookup`. */
    constructor ()
      ensures Valid() && fresh(table) && fresh(table.display)
      ensures typeMap == InitialTypeMap && currentFunctionType == None
      ensures table.level == 0 && |table.tab| == |Builtins|
      ensures forall i :: 0 <= i < |Builtins| ==> HoldsBuiltin(table.tab[i], Builtins[i])
      ensures forall i :: 0 <= i < |Builtins| ==> Find(table.Snapshot(), Builtins[i].0).Some?
    {
      table := new SymbolTable();
      typeMap := InitialTypeMap;
      currentFunctionType := None;
      new;
      EnterBuiltins(ReservedWords);
      ghost var reserved := table.tab;
      EnterBuiltins(BuiltinRoutines);
      forall i | 0 <= i < |Builtins|
        ensures HoldsBuiltin(table.tab[i], Builtins[i])
      {
        if i < |ReservedWords| {
          assert table.tab[i] == reserved[i];
        }
      }
      forall i | 0 <= i < |Builtins|
        ensures Find(table.Snapshot(), Builtins[i].0).Some?
      {
        assert table.tab[i].level == 0 && table.tab[i].name == Builtins[i].0;
      }
    }

    /** One loop of `_init_builtins`: every entry entered at level 0, in order. */
    method EnterBuiltins(entries: seq<(string, ObjectKind, Type)>)
      requires table.Valid() && table.level == 0
      modifies table
      ensures table.Valid() && table.level == 0
      ensures |table.tab| == old(|table.tab|) + |entries| && old(table.tab) <= table.tab
      ensures forall k :: 0 <= k < |entries| ==> HoldsBuiltin(table.tab[old(|table.tab|) + k], entries[k])
    {
      ghost var n0 := |table.tab|;
      for k := 0 to |entries|
        invariant table.Valid() && table.level == 0
        invariant |table.tab| == n0 + k && old(table.tab) <= table.tab
        invariant forall m :: 0 <= m < k ==> HoldsBuiltin(table.tab[n0 + m], entries[m])
      {
        ghost var before := table.tab;
        var idx := table.Enter(entries[k].0, entries[k].1, entries[k].2, Some(0), 0, true, None);
        assert table.tab == before + [table.tab[idx]];
      }
    }

    /** `symbol_table.enter` with its defaults: at the current level, reference 0,
        normal, at the next address when a variable. The entry heads the current block's
        chain, followed by the chain its link starts. */
    method EnterHere(name: string, kind: ObjectKind, t: Type) returns (idx: nat)
      requires Valid()
      modifies table
      ensures Valid() && Kept(old(table.Snapshot()), table.Snapshot())
      ensures idx == old(|table.tab|) && |table.tab| == idx + 1 && table.tab == old(table.tab) + [table.tab[idx]]
      ensures Holds(table.tab[idx], name, kind, t, table.level)
      ensures table.btab[table.display[table.level]].last == idx
      ensures table.tab[idx].link == LinkFor(kind, old(table.tab), old(table.btab[table.display[table.level]].last))
      ensures Chain(table.tab, idx) == [idx] + Chain(old(table.tab), table.tab[idx].link)
      ensures ScopeFind(table.Snapshot(), name) == Some(idx)
      ensures Current() == EnterCurrent(old(Current()), name, kind, t)
      ensures table.tab[idx].link == old(table.btab[table.display[table.level]].last) ==>
                forall n :: n != name ==> ScopeFind(table.Snapshot(), n) == ScopeFind(old(table.Snapshot()), n)
    {
      ghost var v0 := table.Snapshot();
      var r := table.Enter(name, kind, t, None, 0, true, None);
      idx := r;
      EnterKept(v0, table.tab[idx], table.btab[table.display[table.level]]);
      ghost var last := v0.btab[v0.display[v0.level]].last;
      ChainAfterAppend(v0.tab, table.tab[idx], last);
      if table.tab[idx].link == last {
        forall n | n != name
          ensures ScopeFind(table.Snapshot(), n) == ScopeFind(v0, n)
        {
          ChainFindStable(v0.tab, [table.tab[idx]], last, n);
        }
      }
    }

    // -------------------------------------------------------------------------
    // Programs, blocks and declarations

    /** `visit_program`: the program's name at level 0, then its block. */
    method VisitProgram(p: Program) returns (r: Outcome<SemanticError>)
      requires Valid()
      modifies this, table, table.display
      ensures Valid() && old(table.tab) <= table.tab
      ensures |table.tab| > old(|table.tab|) && Holds(table.tab[old(|table.tab|)], p.name, PROGRAM, VoidType, 0)
      ensures r.Pass? ==> table.level == old(table.level)
      ensures Step(r, Current()) == ProgramStep(old(Current()), p)
    {
      ghost var e0 := Current();
      var idx := table.Enter(p.name, PROGRAM, VoidType, Some(0), 0, true, None);
      assert Current() == EnterIn(e0, p.name, PROGRAM, VoidType, 0, 0);
      r := VisitBlock(p.block);
    }

    /** `visit_block`: the declarations in order, then the compound statement. */
    method VisitBlock(b: Block) returns (r: Outcome<SemanticError>)
      requires Valid()
      modifies this, table, table.display
      ensures Valid() && old(table.tab) <= table.tab
      ensures r.Pass? ==> Kept(old(table.Snapshot()), table.Snapshot()) && currentFunctionType == old(currentFunctionType)
      ensures Step(r, Current()) == BlockStep(old(Current()), b)
      decreases b, 0
    {
      ghost var v0 := table.Snapshot();
      ghost var e0 := Current();
      KeptReflexive(v0);
      for i := 0 to |b.declarations|
        invariant Valid() && Kept(v0, table.Snapshot()) && currentFunctionType == old(currentFunctionType)
        invariant DeclarationsStep(e0, b.declarations) == DeclarationsStep(Current(), b.declarations[i..])
      {
        ghost var v1 := table.Snapshot();
        assert b.declarations[i..][1..] == b.declarations[i + 1..];
        r := VisitDeclaration(b.declarations[i]);
        if r.Fail? {
          PrefixTransitive(v0.tab, v1.tab, table.tab);
          return;
        }
        KeptTransitive(v0, v1, table.Snapshot());
      }
      ghost var v1 := table.Snapshot();
      r := VisitStatements(b.body);
      PrefixTransitive(v0.tab, v1.tab, table.tab);
      if r.Pass? {
        KeptTransitive(v0, v1, table.Snapshot());
      }
    }

    /** `visit`, for a declaration. */
    method VisitDeclaration(d: Declaration) returns (r: Outcome<SemanticError>)
      requires Valid()
      modifies this, table, table.display
      ensures Valid() && old(table.tab) <= table.tab
      ensures r.Pass? ==> Kept(old(table.Snapshot()), table.Snapshot()) && currentFunctionType == old(currentFunctionType)
      ensures Step(r, Current()) == DeclarationStep(old(Current()), d)
      decreases d, 1
    {
      match d
      case VarDecl(decl) => r := VisitVarDeclaration(decl);
      case ConstDecl(id, value) => r := VisitConstDeclaration(id, value);
      case TypeDecl(id, ts) => r := VisitTypeDeclaration(id, ts);
      case ProcedureDecl(name, params, block) => r := VisitProcedureDeclaration(name, params, block);
      case FunctionDecl(name, params, returnType, block) => r := VisitFunctionDeclaration(name, params, returnType, block);
    }

    /** `visit_var_declaration`: the type, then each identifier as a variable (the
        decorations on the node are not modelled). */
    method VisitVarDeclaration(decl: VarDeclaration) returns (r: Outcome<SemanticError>)
      requires Valid()
      modifies table
      ensures Valid() && old(table.tab) <= table.tab
      ensures r.Pass? ==> Kept(old(table.Snapshot()), table.Snapshot())
      ensures var t := TypeSpecType(typeMap, old(table.Snapshot()), decl.typeSpec);
              (t.Err? ==> r == Fail(t.error))
              && (r.Pass? ==> t.Ok? && VariablesEntered(old(table.Snapshot()), table.Snapshot(), decl.identifiers, t.value))
      ensures Step(r, Current()) == VariableDeclarationStep(old(Current()), decl.identifiers, decl.typeSpec)
    {
      var t := VisitTypeSpec(decl.typeSpec);
      if t.Err? {
        return Fail(t.error);
      }
      r := EnterVariables(decl.identifiers, t.value);
    }

    /** `visit_parameter`: the type, then each identifier as a variable. */
    method VisitParameter(p: Parameter) returns (r: Outcome<SemanticError>)
      requires Valid()
      modifies table
      ensures Valid() && old(table.tab) <= table.tab
      ensures r.Pass? ==> Kept(old(table.Snapshot()), table.Snapshot())
      ensures var t := TypeSpecType(typeMap, old(table.Snapshot()), p.typeSpec);
              (t.Err? ==> r == Fail(t.error))
              && (r.Pass? ==> t.Ok? && VariablesEntered(old(table.Snapshot()), table.Snapshot(), p.identifiers, t.value))
      ensures Step(r, Current()) == VariableDeclarationStep(old(Current()), p.identifiers, p.typeSpec)
    {
      var t := VisitTypeSpec(p.typeSpec);
      if t.Err? {
        return Fail(t.error);
      }
      r := EnterVariables(p.identifiers, t.value);
    }

    /** The identifier loop of a variable or parameter declaration: each name must be
        new in the current scope, and is entered as a variable of type `t`. */
    method EnterVariables(ids: seq<string>, t: Type) returns (r: Outcome<SemanticError>)
      requires Valid()
      modifies table
      ensures Valid() && old(table.tab) <= table.tab
      ensures r.Pass? ==> VariablesEntered(old(table.Snapshot()), table.Snapshot(), ids, t)
      ensures r.Fail? ==> exists k :: 0 <= k < |ids| && r.error == DuplicateDeclaration(ids[k])
      ensures Step(r, Current()) == VariablesStep(old(Current()), ids, t)
    {
      ghost var v0 := table.Snapshot();
      ghost var e0 := Current();
      KeptReflexive(v0);
      for k := 0 to |ids|
        invariant Valid() && VariablesEntered(v0, table.Snapshot(), ids[..k], t)
        invariant VariablesStep(e0, ids, t) == VariablesStep(Current(), ids[k..], t)
      {
        assert ids[k..][0] == ids[k] && ids[k..][1..] == ids[k + 1..];
        var found := table.LookupCurrentScope(ids[k]);
        if found.Some? {
          return Fail(DuplicateDeclaration(ids[k]));
        }
        EnterVariable(v0, ids[..k], ids[k], t);
        PrefixStep(ids, k);
      }
      assert ids[..|ids|] == ids;
      return Pass;
    }

    /** One turn of that loop, for a name not yet in the current scope: it is entered
        after the ones before it, and heads the current block's chain. */
    method EnterVariable(ghost v0: View, ghost done: seq<string>, id: string, t: Type)
      requires Valid() && |v0.tab| > 0 && VariablesEntered(v0, table.Snapshot(), done, t)
      requires CurrentScopeFind(id).None?
      modifies table
      ensures Valid() && VariablesEntered(v0, table.Snapshot(), done + [id], t)
      ensures Current() == EnterIn(old(Current()), id, VARIABLE, t, old(table.level), 0)
    {
      ghost var v1 := table.Snapshot();
      var idx := EnterHere(id, VARIABLE, t);
      VariableStep(v0, v1, table.Snapshot(), done, id, t);
    }

    /** `visit_const_declaration`: the name must be new in the current scope; it is
        entered as a constant of the type its value infers. */
    method VisitConstDeclaration(id: string, value: Literal) returns (r: Outcome<SemanticError>)
      requires Valid()
      modifies table
      ensures Valid() && old(table.tab) <= table.tab
      ensures old(CurrentScopeFind(id)).Some? ==> r == Fail(DuplicateDeclaration(id)) && unchanged(table)
      ensures old(CurrentScopeFind(id)).None? ==>
                r.Pass? && Kept(old(table.Snapshot()), table.Snapshot())
                && |table.tab| == old(|table.tab|) + 1
                && Holds(table.tab[old(|table.tab|)], id, CONSTANT, InferConstType(value), table.level)
      ensures Step(r, Current()) == DeclarationStep(old(Current()), ConstDecl(id, value))
    {
      var found := table.LookupCurrentScope(id);
      if found.Some? {
        return Fail(DuplicateDeclaration(id));
      }
      var idx := EnterHere(id, CONSTANT, InferConstType(value));
      return Pass;
    }

    /** `visit_type_declaration`: the name must be new in the current scope; its type
        goes into the type map under the lower-cased name, and into the table. */
    method VisitTypeDeclaration(id: string, ts: TypeSpec) returns (r: Outcome<SemanticError>)
      requires Valid()
      modifies this, table
      ensures Valid() && old(table.tab) <= table.tab && currentFunctionType == old(currentFunctionType)
      ensures old(CurrentScopeFind(id)).Some? ==> r == Fail(DuplicateDeclaration(id)) && unchanged(table) && unchanged(this)
      ensures var t := TypeSpecType(old(typeMap), old(table.Snapshot()), ts);
              old(CurrentScopeFind(id)).None? ==>
                (t.Err? ==> r == Fail(t.error))
                && (t.Ok? ==> r.Pass? && typeMap == old(typeMap)[Lower(id) := t.value]
                              && Kept(old(table.Snapshot()), table.Snapshot())
                              && |table.tab| == old(|table.tab|) + 1
                              && Holds(table.tab[old(|table.tab|)], id, TYPE, t.value, table.level))
      ensures Step(r, Current()) == DeclarationStep(old(Current()), TypeDecl(id, ts))
    {
      var found := table.LookupCurrentScope(id);
      if found.Some? {
        return Fail(DuplicateDeclaration(id));
      }
      var t := VisitTypeSpec(ts);
      if t.Err? {
        return Fail(t.error);
      }
      typeMap := typeMap[Lower(id) := t.value];
      var idx := EnterHere(id, TYPE, t.value);
      return Pass;
    }

    /** `visit_procedure_declaration`: the name must be new in the current scope; a new
        scope is opened, the procedure is entered in the enclosing block with the new
        block as its reference, then its parameters and block are visited and the scope
        is closed. Afterwards the procedure heads the enclosing block's chain. */
    method VisitProcedureDeclaration(name: string, params: seq<Parameter>, block: Block) returns (r: Outcome<SemanticError>)
      requires Valid()
      modifies this, table, table.display
      ensures Valid() && old(table.tab) <= table.tab
      ensures old(CurrentScopeFind(name)).Some? ==> r == Fail(DuplicateDeclaration(name)) && unchanged(table) && unchanged(table.display)
      ensures old(CurrentScopeFind(name)).None? && old(table.level) + 1 >= DisplaySize ==> r == Fail(DisplayOverflow(old(table.level) + 1))
      ensures r.Pass? ==> RoutineDeclared(old(table.Snapshot()), table.Snapshot(), name, PROCEDURE, VoidType)
      ensures r.Pass? ==> currentFunctionType == old(currentFunctionType)
      ensures Step(r, Current()) == DeclarationStep(old(Current()), ProcedureDecl(name, params, block))
      decreases block, 4
    {
      ghost var e0 := Current();
      var found := table.LookupCurrentScope(name);
      if found.Some? {
        assert DeclarationStep(e0, ProcedureDecl(name, params, block)) == Step(Fail(DuplicateDeclaration(name)), e0);
        return Fail(DuplicateDeclaration(name));
      }
      assert DeclarationStep(e0, ProcedureDecl(name, params, block)) == RoutineStep(e0, name, PROCEDURE, VoidType, params, block);
      r := VisitRoutine(name, PROCEDURE, VoidType, params, block);
    }

    /** `visit_function_declaration`: as for a procedure, with the return type visited
        before the scope opens, and the current function type set for the routine's
        parameters and block, then restored. */
    method VisitFunctionDeclaration(name: string, params: seq<Parameter>, returnType: TypeSpec, block: Block)
      returns (r: Outcome<SemanticError>)
      requires Valid()
      modifies this, table, table.display
      ensures Valid() && old(table.tab) <= table.tab
      ensures old(CurrentScopeFind(name)).Some? ==> r == Fail(DuplicateDeclaration(name)) && unchanged(table) && unchanged(table.display)
      ensures var t := TypeSpecType(old(typeMap), old(table.Snapshot()), returnType);
              old(CurrentScopeFind(name)).None? ==>
                (t.Err? ==> r == Fail(t.error))
                && (r.Pass? ==> t.Ok? && RoutineDeclared(old(table.Snapshot()), table.Snapshot(), name, FUNCTION, t.value))
      ensures r.Pass? ==> currentFunctionType == old(currentFunctionType)
      ensures Step(r, Current()) == DeclarationStep(old(Current()), FunctionDecl(name, params, returnType, block))
      decreases block, 4
    {
      ghost var e0 := Current();
      var found := table.LookupCurrentScope(name);
      if found.Some? {
        assert DeclarationStep(e0, FunctionDecl(name, params, returnType, block)) == Step(Fail(DuplicateDeclaration(name)), e0);
        return Fail(DuplicateDeclaration(name));
      }
      var t := VisitTypeSpec(returnType);
      assert Current() == e0 && t == TypeSpecType(e0.typeMap, e0.view, returnType);
      if t.Err? {
        assert DeclarationStep(e0, FunctionDecl(name, params, returnType, block)) == Step(Fail(t.error), e0);
        return Fail(t.error);
      }
      assert DeclarationStep(e0, FunctionDecl(name, params, returnType, block))
          == RoutineStep(e0, name, FUNCTION, t.value, params, block);
      r := VisitRoutine(name, FUNCTION, t.value, params, block);
    }

    /** What the two routine declarations share, from the opening of the scope on. */
    method VisitRoutine(name: string, kind: ObjectKind, t: Type, params: seq<Parameter>, block: Block)
      returns (r: Outcome<SemanticError>)
      requires Valid() && kind in {PROCEDURE, FUNCTION}
      modifies this, table, table.display
      ensures Valid() && old(table.tab) <= table.tab
      ensures old(table.level) + 1 >= DisplaySize ==> r == Fail(DisplayOverflow(old(table.level) + 1))
      ensures r.Pass? ==> RoutineDeclared(old(table.Snapshot()), table.Snapshot(), name, kind, t)
      ensures r.Pass? ==> currentFunctionType == old(currentFunctionType)
      ensures Step(r, Current()) == RoutineStep(old(Current()), name, kind, t, params, block)
      decreases block, 3
    {
      ghost var v0 := table.Snapshot();
      ghost var e0 := Current();
      ghost var e, entered;
      r, e, entered := OpenRoutine(name, kind, t);
      if r.Fail? {
        return;
      }
      ghost var v1 := table.Snapshot();
      RoutineOpened(e0, name, kind, t, params, block, Current());
      r := VisitInScope(kind, t, params, block);
      PrefixTransitive(v0.tab, v1.tab, table.tab);
      if r.Pass? {
        RoutineRound(v0, v1, table.Snapshot().(level := v1.level), e, entered, name, kind, t);
      }
    }

    /** Inside the routine's scope: for a function, its type becomes the current function
        type; the parameters and block are visited; when they passed, the scope is closed
        and the saved function type put back. */
    method VisitInScope(kind: ObjectKind, t: Type, params: seq<Parameter>, block: Block) returns (r: Outcome<SemanticError>)
      requires Valid() && table.level > 0
      modifies this, table, table.display
      ensures Valid() && old(table.tab) <= table.tab
      ensures r.Pass? ==> table.level == old(table.level) - 1
                          && Kept(old(table.Snapshot()), table.Snapshot().(level := old(table.level)))
      ensures r.Pass? ==> currentFunctionType == old(currentFunctionType)
      ensures var a := RoutineBodyStep(old(Current()), params, block);
              Step(r, Current()) == if a.outcome.Fail? then a else Step(Pass, CloseScope(a.env))
      decreases block, 2
    {
      var saved := currentFunctionType;
      if kind == FUNCTION {
        currentFunctionType := Some(t);
      }
      r := VisitRoutineBody(params, block);
      if r.Fail? {
        return;
      }
      LeaveScope();
      if kind == FUNCTION {
        currentFunctionType := saved;
      }
    }

    /** `exit_scope`, seen on the analysis state. */
    method LeaveScope()
      requires Valid() && table.level > 0
      modifies table
      ensures Valid() && table.tab == old(table.tab) && table.level == old(table.level) - 1
      ensures table.Snapshot().(level := old(table.level)) == old(table.Snapshot())
      ensures Current() == CloseScope(old(Current()))
    {
      table.ExitScope();
    }

    /** The parameters, then the block, inside the routine's scope. */
    method VisitRoutineBody(params: seq<Parameter>, block: Block) returns (r: Outcome<SemanticError>)
      requires Valid()
      modifies this, table, table.display
      ensures Valid() && old(table.tab) <= table.tab
      ensures r.Pass? ==> Kept(old(table.Snapshot()), table.Snapshot()) && currentFunctionType == old(currentFunctionType)
      ensures Step(r, Current()) == RoutineBodyStep(old(Current()), params, block)
      decreases block, 1
    {
      ghost var v1 := table.Snapshot();
      r := VisitParameters(params);
      if r.Fail? {
        return;
      }
      ghost var v2 := table.Snapshot();
      r := VisitBlock(block);
      PrefixTransitive(v1.tab, v2.tab, table.tab);
      if r.Pass? {
        KeptTransitive(v1, v2, table.Snapshot());
      }
    }

    /** `enter_scope`, then the routine's entry in the enclosing block (one level up),
        with the new block as its reference. */
    method OpenRoutine(name: string, kind: ObjectKind, t: Type)
      returns (r: Outcome<SemanticError>, ghost e: SymbolEntry, ghost entered: BlockEntry)
      requires Valid() && kind in {PROCEDURE, FUNCTION}
      modifies table, table.display
      ensures Valid()
      ensures r.Pass? <==> old(table.level) + 1 < DisplaySize
      ensures r.Fail? ==> r == Fail(DisplayOverflow(old(table.level) + 1)) && unchanged(table) && unchanged(table.display)
      ensures r.Pass? ==>
                var v0 := old(table.Snapshot());
                Holds(e, name, kind, t, v0.level) && e.ref == |v0.btab| && entered.last == |v0.tab|
                && table.Snapshot() == View(v0.tab + [e], (v0.btab + [EmptyBlock])[v0.display[v0.level] := entered],
                                            v0.display[v0.level + 1 := |v0.btab|], v0.level + 1)
      ensures r.Pass? ==> Current() == EnterIn(OpenScope(old(Current())), name, kind, t, old(table.level), old(|table.btab|))
    {
      ghost var v0 := table.Snapshot();
      e, entered := v0.tab[0], EmptyBlock;
      r := table.EnterScope();
      if r.Fail? {
        return;
      }
      var blockIdx := table.display[table.level];
      var idx := table.Enter(name, kind, t, Some(table.level - 1), blockIdx, true, None);
      e := table.tab[idx];
      entered := table.btab[v0.display[v0.level]];
    }

    /** The parameter loop of a routine declaration. */
    method VisitParameters(params: seq<Parameter>) returns (r: Outcome<SemanticError>)
      requires Valid()
      modifies table
      ensures Valid() && old(table.tab) <= table.tab
      ensures r.Pass? ==> Kept(old(table.Snapshot()), table.Snapshot())
      ensures Step(r, Current()) == ParametersStep(old(Current()), params)
    {
      ghost var v0 := table.Snapshot();
      ghost var e0 := Current();
      KeptReflexive(v0);
      r := Pass;
      for i := 0 to |params|
        invariant Valid() && Kept(v0, table.Snapshot()) && r == Pass
        invariant ParametersStep(e0, params) == ParametersStep(Current(), params[i..])
      {
        assert params[i..][0] == params[i] && params[i..][1..] == params[i + 1..];
        ghost var v1 := table.Snapshot();
        r := VisitParameter(params[i]);
        if r.Fail? {
          PrefixTransitive(v0.tab, v1.tab, table.tab);
          return;
        }
        KeptTransitive(v0, v1, table.Snapshot());
      }
    }

    /** `lookup_current_scope` on the present state. */
    function CurrentScopeFind(name: string): Option<nat>
      reads this, table, table.display
      requires Valid()
    {
      ScopeFind(table.Snapshot(), name)
    }

    // -------------------------------------------------------------------------
    // Type specifications

    /** `visit`, for a type specification: only array entries are added to the table. */
    method VisitTypeSpec(ts: TypeSpec) returns (r: Result<Type, SemanticError>)
      requires Valid()
      modifies table
      ensures Valid() && table.Snapshot() == old(table.Snapshot()) && old(table.atab) <= table.atab
      ensures table.dx == old(table.dx)
      ensures r == TypeSpecType(typeMap, table.Snapshot(), ts)
      decreases ts, 1
    {
      match ts
      case SimpleType(name) => r := VisitSimpleType(name);
      case ArrayType(_, _) => r := VisitArrayType(ts);
      case RecordType(_) => r := VisitRecordType(ts);
    }

    /** `visit_simple_type`. */
    method VisitSimpleType(name: string) returns (r: Result<Type, SemanticError>)
      requires Valid()
      ensures r == SimpleTypeType(typeMap, table.Snapshot(), name)
    {
      var typeName := Lower(name);
      if typeName in typeMap {
        return Ok(typeMap[typeName]);
      }
      var idx := table.Lookup(name);
      if idx.Some? {
        var entry := table.tab[idx.value];
        if entry.kind == TYPE {
          return Ok(entry.entryType);
        }
      }
      return Err(UndeclaredIdentifier(name));
    }

    /** `visit_array_type`: the element type, then the index (a range of constant
        bounds, or an index type with bounds 0 and 0), and an array entry. */
    method VisitArrayType(ts: TypeSpec) returns (r: Result<Type, SemanticError>)
      requires Valid() && ts.ArrayType?
      modifies table
      ensures Valid() && table.Snapshot() == old(table.Snapshot()) && old(table.atab) <= table.atab
      ensures table.dx == old(table.dx)
      ensures r == TypeSpecType(typeMap, table.Snapshot(), ts)
      decreases ts, 0
    {
      var et := VisitTypeSpec(ts.elementType);
      if et.Err? {
        return et;
      }
      if ts.indexType.RawIndex? {
        return Err(MissingAttribute("accept"));
      }
      var indexType, low, high := IntegerType, 0, 0;
      if ts.indexType.Range? {
        low := EvaluateBound(ts.indexType.start);
        high := EvaluateBound(ts.indexType.end);
      } else {
        var it := VisitTypeSpec(ts.indexType.spec);
        if it.Err? {
          return it;
        }
        indexType := it.value;
      }
      var elementSize := TypeSize(et.value);
      var a := table.EnterArray(indexType, et.value, low, high, elementSize);
      return Ok(ArrayOf(indexType, et.value, low, high));
    }

    /** `visit_record_type`: the fields dict with running offsets, rejecting a name
        already in it. No field entries are made in the table. */
    method VisitRecordType(ts: TypeSpec) returns (r: Result<Type, SemanticError>)
      requires Valid() && ts.RecordType?
      modifies table
      ensures Valid() && table.Snapshot() == old(table.Snapshot()) && old(table.atab) <= table.atab
      ensures table.dx == old(table.dx)
      ensures r == TypeSpecType(typeMap, table.Snapshot(), ts)
      decreases ts, 0
    {
      ghost var v := table.Snapshot();
      var fields: map<string, (Type, int)> := map[];
      var offset := 0;
      ghost var pairs: seq<(string, Type)> := [];
      for i := 0 to |ts.fields|
        invariant Valid() && table.Snapshot() == v && old(table.atab) <= table.atab && table.dx == old(table.dx)
        invariant fields == FieldsMap(pairs) && offset == FieldsSize(pairs)
        invariant RecordPairs(typeMap, v, ts.fields, 0, []) == RecordPairs(typeMap, v, ts.fields, i, pairs)
      {
        ghost var atab0 := table.atab;
        var ft := VisitTypeSpec(ts.fields[i].typeSpec);
        PrefixTransitive(old(table.atab), atab0, table.atab);
        if ft.Err? {
          return Err(ft.error);
        }
        var added := AddFields(ts.fields[i].identifiers, ft.value, fields, offset, pairs);
        if added.Err? {
          return Err(added.error);
        }
        pairs := AddNames(ts.fields[i].identifiers, ft.value, 0, pairs).value;
        fields, offset := added.value.0, added.value.1;
      }
      return Ok(Type(INTEGER, None, Some(RecordInfo(fields, offset))));
    }

    /** The inner loop of `visit_record_type`: one field declaration's names, each at
        the running offset, unless a name is already in the dict. */
    method AddFields(names: seq<string>, t: Type, fields: map<string, (Type, int)>, offset: int,
                     ghost pairs: seq<(string, Type)>)
      returns (r: Result<(map<string, (Type, int)>, int), SemanticError>)
      requires fields == FieldsMap(pairs) && offset == FieldsSize(pairs)
      ensures var a := AddNames(names, t, 0, pairs);
              (a.Err? ==> r == Err(a.error)) && (a.Ok? ==> r == Ok((FieldsMap(a.value), FieldsSize(a.value))))
    {
      var fieldSize := TypeSize(t);
      var fs, off := fields, offset;
      ghost var ps := pairs;
      for j := 0 to |names|
        invariant fs == FieldsMap(ps) && off == FieldsSize(ps)
        invariant AddNames(names, t, 0, pairs) == AddNames(names, t, j, ps)
      {
        if names[j] in fs {
          return Err(DuplicateDeclaration(names[j]));
        }
        AppendField(ps, (names[j], t));
        fs := fs[names[j] := (t, off)];
        off := off + fieldSize;
        ps := ps + [(names[j], t)];
      }
      return Ok((fs, off));
    }

    // -------------------------------------------------------------------------
    // Statements

    /** `visit`, for a statement. */
    method VisitStatement(s: Statement) returns (r: Outcome<SemanticError>)
      requires Valid()
      modifies table
      ensures Valid() && old(table.tab) <= table.tab
      ensures r.Pass? ==> Kept(old(table.Snapshot()), table.Snapshot())
      ensures Step(r, Current()) == StatementStep(old(Current()), s)
      decreases s, 1
    {
      match s
      case Compound(ss) => r := VisitStatements(ss);
      case Assignment(x, e) =>
        r := VisitAssignment(x, e);
        KeptReflexive(table.Snapshot());
      case If(_, _, _) => r := VisitIf(s);
      case While(_, _) => r := VisitWhile(s);
      case For(_, _, _, _, _) => r := VisitFor(s);
      case Repeat(_, _) => r := VisitRepeat(s);
      case Case(_, _) => r := VisitCase(s);
      case ProcedureCall(name, args) =>
        r := VisitProcedureCall(name, args);
        KeptReflexive(table.Snapshot());
      case Empty =>
        r := Pass;
        KeptReflexive(table.Snapshot());
    }

    /** `visit_compound_statement`: the statements in order. */
    method VisitStatements(ss: seq<Statement>) returns (r: Outcome<SemanticError>)
      requires Valid()
      modifies table
      ensures Valid() && old(table.tab) <= table.tab
      ensures r.Pass? ==> Kept(old(table.Snapshot()), table.Snapshot())
      ensures Step(r, Current()) == StatementsStep(old(Current()), ss)
      decreases ss, 1
    {
      ghost var v0 := table.Snapshot();
      ghost var e0 := Current();
      KeptReflexive(v0);
      r := Pass;
      for i := 0 to |ss|
        invariant Valid() && Kept(v0, table.Snapshot()) && r == Pass
        invariant StatementsStep(e0, ss) == StatementsStep(Current(), ss[i..])
      {
        assert ss[i..][0] == ss[i] && ss[i..][1..] == ss[i + 1..];
        ghost var v1 := table.Snapshot();
        r := VisitStatement(ss[i]);
        if r.Fail? {
          PrefixTransitive(v0.tab, v1.tab, table.tab);
          return;
        }
        KeptTransitive(v0, v1, table.Snapshot());
      }
    }

    /** `visit_assignment_statement`. */
    method VisitAssignment(target: Expression, value: Expression) returns (r: Outcome<SemanticError>)
      requires Valid()
      ensures r == AssignmentCheck(table.Snapshot(), target, value)
    {
      var tt := VisitExpression(target);
      var vt := VisitExpression(value);
      r := AssignmentOutcome(tt, vt);
    }

    /** The condition test of `if`, `while` and `repeat`. */
    method VisitCondition(condition: Expression, context: string) returns (r: Outcome<SemanticError>)
      requires Valid()
      ensures r == ConditionCheck(table.Snapshot(), condition, context)
    {
      var t := VisitExpression(condition);
      r := ConditionOutcome(t, context);
    }

    /** `visit_if_statement`: the condition first, then the branches. */
    method VisitIf(s: Statement) returns (r: Outcome<SemanticError>)
      requires Valid() && s.If?
      modifies table
      ensures Valid() && old(table.tab) <= table.tab
      ensures r.Pass? ==> Kept(old(table.Snapshot()), table.Snapshot())
      ensures var c := ConditionCheck(old(table.Snapshot()), s.condition, "if condition");
              (c.Fail? ==> r == c && unchanged(table)) && (r.Pass? ==> c.Pass?)
      ensures Step(r, Current()) == StatementStep(old(Current()), s)
      decreases s, 0
    {
      r := VisitCondition(s.condition, "if condition");
      if r.Fail? {
        return;
      }
      ghost var v0 := table.Snapshot();
      r := VisitStatement(s.thenStatement);
      if r.Fail? || s.elseStatement.None? {
        return;
      }
      ghost var v1 := table.Snapshot();
      r := VisitStatement(s.elseStatement.value);
      PrefixTransitive(v0.tab, v1.tab, table.tab);
      if r.Pass? {
        KeptTransitive(v0, v1, table.Snapshot());
      }
    }

    /** `visit_while_statement`: the condition first, then the body. */
    method VisitWhile(s: Statement) returns (r: Outcome<SemanticError>)
      requires Valid() && s.While?
      modifies table
      ensures Valid() && old(table.tab) <= table.tab
      ensures r.Pass? ==> Kept(old(table.Snapshot()), table.Snapshot())
      ensures var c := ConditionCheck(old(table.Snapshot()), s.condition, "while condition");
              (c.Fail? ==> r == c && unchanged(table)) && (r.Pass? ==> c.Pass?)
      ensures Step(r, Current()) == StatementStep(old(Current()), s)
      decreases s, 0
    {
      r := VisitCondition(s.condition, "while condition");
      if r.Fail? {
        return;
      }
      r := VisitStatement(s.body);
    }

    /** `visit_repeat_statement`: the statements, then the condition, which is typed
        against the table as they left it. */
    method VisitRepeat(s: Statement) returns (r: Outcome<SemanticError>)
      requires Valid() && s.Repeat?
      modifies table
      ensures Valid() && old(table.tab) <= table.tab
      ensures r.Pass? ==> Kept(old(table.Snapshot()), table.Snapshot())
      ensures r.Pass? ==> ConditionCheck(table.Snapshot(), s.condition, "repeat condition").Pass?
      ensures Step(r, Current()) == StatementStep(old(Current()), s)
      decreases s, 0
    {
      r := VisitStatements(s.statements);
      if r.Fail? {
        return;
      }
      r := VisitCondition(s.condition, "repeat condition");
    }

    /** `visit_for_statement`: both bounds typed and ordinal; the control variable is
        entered as an integer variable unless the current scope already has the name;
        then the body. */
    method VisitFor(s: Statement) returns (r: Outcome<SemanticError>)
      requires Valid() && s.For?
      modifies table
      ensures Valid() && old(table.tab) <= table.tab
      ensures r.Pass? ==> Kept(old(table.Snapshot()), table.Snapshot())
      ensures var c := ForBoundsCheck(old(table.Snapshot()), s.startExpr, s.endExpr);
              (c.Fail? ==> r == c && unchanged(table)) && (r.Pass? ==> c.Pass?)
      ensures r.Pass? && old(CurrentScopeFind(s.control)).None? ==>
                |table.tab| > old(|table.tab|) && Holds(table.tab[old(|table.tab|)], s.control, VARIABLE, IntegerType, table.level)
      ensures Step(r, Current()) == StatementStep(old(Current()), s)
      decreases s, 0
    {
      r := VisitForBounds(s.startExpr, s.endExpr);
      if r.Fail? {
        return;
      }
      ghost var v0 := table.Snapshot();
      KeptReflexive(v0);
      var found := table.LookupCurrentScope(s.control);
      if found.None? {
        var idx := EnterHere(s.control, VARIABLE, IntegerType);
      }
      ghost var v1 := table.Snapshot();
      r := VisitStatement(s.body);
      PrefixTransitive(v0.tab, v1.tab, table.tab);
      if r.Pass? {
        KeptTransitive(v0, v1, table.Snapshot());
      }
    }

    /** The bound tests of `visit_for_statement`. */
    method VisitForBounds(start: Expression, end: Expression) returns (r: Outcome<SemanticError>)
      requires Valid()
      ensures r == ForBoundsCheck(table.Snapshot(), start, end)
    {
      var st := VisitExpression(start);
      var et := VisitExpression(end);
      r := ForBoundsOutcome(st, et);
    }

    /** `visit_case_statement`: the selector, then each arm's statement; the arms'
        constants are not checked. */
    method VisitCase(s: Statement) returns (r: Outcome<SemanticError>)
      requires Valid() && s.Case?
      modifies table
      ensures Valid() && old(table.tab) <= table.tab
      ensures r.Pass? ==> Kept(old(table.Snapshot()), table.Snapshot())
      ensures var t := ExpressionType(old(table.Snapshot()), s.expression);
              (t.Err? ==> r == Fail(t.error) && unchanged(table)) && (r.Pass? ==> t.Ok?)
      ensures Step(r, Current()) == StatementStep(old(Current()), s)
      decreases s, 0
    {
      var t := VisitExpression(s.expression);
      if t.Err? {
        return Fail(t.error);
      }
      ghost var v0 := table.Snapshot();
      ghost var e0 := Current();
      KeptReflexive(v0);
      r := Pass;
      for i := 0 to |s.cases|
        invariant Valid() && Kept(v0, table.Snapshot()) && r == Pass
        invariant ArmsStep(e0, s.cases) == ArmsStep(Current(), s.cases[i..])
      {
        assert s.cases[i..][0] == s.cases[i] && s.cases[i..][1..] == s.cases[i + 1..];
        ghost var v1 := table.Snapshot();
        r := VisitStatement(s.cases[i].statement);
        if r.Fail? {
          PrefixTransitive(v0.tab, v1.tab, table.tab);
          return;
        }
        KeptTransitive(v0, v1, table.Snapshot());
      }
    }

    /** `visit_procedure_call`. */
    method VisitProcedureCall(name: string, args: seq<Expression>) returns (r: Outcome<SemanticError>)
      requires Valid()
      ensures r == CallCheck(table.Snapshot(), name, args)
    {
      var idx := table.Lookup(name);
      if idx.None? {
        return Fail(UndeclaredIdentifier(name));
      }
      if table.tab[idx.value].kind != PROCEDURE {
        return Fail(InvalidFunctionCall("'" + name + "' is not a procedure"));
      }
      r := VisitArguments(args);
    }

    /** The argument loop of a call: each argument is visited, for its errors only. */
    method VisitArguments(args: seq<Expression>) returns (r: Outcome<SemanticError>)
      requires Valid()
      ensures r == ArgumentsOk(table.Snapshot(), args, 0)
      decreases args, 0
    {
      for k := 0 to |args|
        invariant ArgumentsOk(table.Snapshot(), args, 0) == ArgumentsOk(table.Snapshot(), args, k)
      {
        var t := VisitExpression(args[k]);
        if t.Err? {
          return Fail(t.error);
        }
      }
      return Pass;
    }

    // -------------------------------------------------------------------------
    // Expressions

    /** `visit`, for an expression: the table is only read. */
    method VisitExpression(e: Expression) returns (r: Result<Type, SemanticError>)
      requires Valid()
      ensures r == ExpressionType(table.Snapshot(), e)
      decreases e, 1
    {
      match e
      case BinaryOp(left, op, right) =>
        var lt := VisitExpression(left);
        if lt.Err? {
          return lt;
        }
        var rt := VisitExpression(right);
        if rt.Err? {
          return rt;
        }
        r := BinaryOpType(op, lt.value, rt.value);
      case UnaryOp(op, operand) =>
        var t := VisitExpression(operand);
        if t.Err? {
          return t;
        }
        r := UnaryOpType(op, t.value);
      case Variable(_, _, _) => r := VisitVariable(e);
      case Number(n) => r := if n.IntValue? then Ok(IntegerType) else Ok(RealType);
      case String(_) => r := Ok(StringType);
      case Char(_) => r := Ok(CharType);
      case Boolean(_) => r := Ok(BooleanType);
      case Parenthesized(_) => r := Err(MissingAttribute("visit_parenthesized_expression"));
      case FunctionCall(name, args) =>
        var idx := table.Lookup(name);
        if idx.None? {
          return Err(UndeclaredIdentifier(name));
        }
        var entry := table.tab[idx.value];
        if entry.kind != FUNCTION {
          return Err(InvalidFunctionCall("'" + name + "' is not a function"));
        }
        var a := VisitArguments(args);
        if a.Fail? {
          return Err(a.error);
        }
        r := Ok(entry.entryType);
    }

    /** `visit_variable`. */
    method VisitVariable(e: Expression) returns (r: Result<Type, SemanticError>)
      requires Valid() && e.Variable?
      ensures r == ExpressionType(table.Snapshot(), e)
      decreases e, 0
    {
      var idx := table.Lookup(e.name);
      if idx.None? {
        return Err(UndeclaredIdentifier(e.name));
      }
      var varType := table.tab[idx.value].entryType;
      if e.index.Some? {
        if !IsArray(varType) {
          return Err(InvalidArrayIndex("'" + e.name + "' is not an array"));
        }
        var it := VisitExpression(e.index.value);
        if it.Err? {
          return it;
        }
        if !IsOrdinal(it.value) {
          return Err(InvalidArrayIndex("index must be ordinal type"));
        }
        return Ok(varType.arrayInfo.value.elementType);
      }
      if e.field.Some? && e.field.value != "" {
        if !IsRecord(varType) || e.field.value !in varType.recordInfo.value.fields {
          return Err(InvalidRecordAccess(e.name, e.field.value));
        }
        return Ok(varType.recordInfo.value.fields[e.field.value].0);
      }
      return Ok(varType);
    }
  }

  // ---------------------------------------------------------------------------
  // What a declaration leaves behind

  /** After a variable or parameter declaration: the view kept, one variable entry of type
      `t` per identifier at the current level, in order, each found in the current
      scope, and no identifier twice. */
  predicate VariablesEntered(v0: View, v1: View, ids: seq<string>, t: Type) {
    VariablesAppended(v0, v1, ids, t)
    && (forall k :: 0 <= k < |ids| ==> ScopeFind(v1, ids[k]).Some?)
    && (forall a, b :: 0 <= a < b < |ids| ==> ids[a] != ids[b])
  }

  /** The entries part of that: the view kept, the variables appended in order at the
      current level, the last of them the newest entry of the current block. */
  predicate VariablesAppended(v0: View, v1: View, ids: seq<string>, t: Type) {
    Kept(v0, v1) && |v1.tab| == |v0.tab| + |ids|
    && (forall k :: 0 <= k < |ids| ==> Holds(v1.tab[|v0.tab| + k], ids[k], VARIABLE, t, v1.level))
    && (|ids| > 0 ==> v1.btab[v1.display[v1.level]].last == |v0.tab| + |ids| - 1)
  }

  lemma AppendedStep(v0: View, v1: View, v2: View, done: seq<string>, id: string, t: Type)
    requires VariablesAppended(v0, v1, done, t)
    requires Kept(v1, v2) && |v2.tab| == |v1.tab| + 1 && Holds(v2.tab[|v1.tab|], id, VARIABLE, t, v2.level)
    requires v2.btab[v2.display[v2.level]].last == |v1.tab|
    ensures VariablesAppended(v0, v2, done + [id], t)
  {
    var n0 := |v0.tab|;
    KeptTransitive(v0, v1, v2);
    var ids := done + [id];
    forall m | 0 <= m < |ids|
      ensures Holds(v2.tab[n0 + m], ids[m], VARIABLE, t, v2.level)
    {
      if m < |done| {
        assert v2.tab[n0 + m] == v1.tab[n0 + m];
      }
    }
  }

  /** Entering one more fresh variable after `done` keeps the declaration's facts. */
  lemma VariableStep(v0: View, v1: View, v2: View, done: seq<string>, id: string, t: Type)
    requires |v0.tab| > 0 && VariablesEntered(v0, v1, done, t) && ScopeFind(v1, id).None?
    requires Kept(v1, v2) && |v2.tab| == |v1.tab| + 1 && Holds(v2.tab[|v1.tab|], id, VARIABLE, t, v2.level)
    requires v2.btab[v2.display[v2.level]].last == |v1.tab| && ScopeFind(v2, id) == Some(|v1.tab|)
    requires v2.tab[|v1.tab|].link == LinkFor(VARIABLE, v1.tab, v1.btab[v1.display[v1.level]].last)
    requires v2.tab[|v1.tab|].link == v1.btab[v1.display[v1.level]].last ==>
               forall n :: n != id ==> ScopeFind(v2, n) == ScopeFind(v1, n)
    ensures VariablesEntered(v0, v2, done + [id], t)
  {
    AppendedStep(v0, v1, v2, done, id, t);
    LinkedToPrevious(v0, v1, done, t, v2.tab[|v1.tab|].link);
    EarlierStillFound(v1, v2, done, id);
    FreshNameIsNew(v1, done, id);
  }

  /** A variable entered after other variables links to the newest of them. */
  lemma LinkedToPrevious(v0: View, v1: View, done: seq<string>, t: Type, link: nat)
    requires |v0.tab| > 0 && VariablesAppended(v0, v1, done, t)
    requires link == LinkFor(VARIABLE, v1.tab, v1.btab[v1.display[v1.level]].last)
    ensures |done| > 0 ==> link == v1.btab[v1.display[v1.level]].last
  {
    if |done| > 0 {
      assert Holds(v1.tab[|v0.tab| + |done| - 1], done[|done| - 1], VARIABLE, t, v1.level);
    }
  }

  /** The names entered before stay found when the new entry links to the old head. */
  lemma EarlierStillFound(v1: View, v2: View, done: seq<string>, id: string)
    requires ViewOk(v1) && ViewOk(v2) && ScopeFind(v2, id).Some?
    requires forall m :: 0 <= m < |done| ==> ScopeFind(v1, done[m]).Some?
    requires ScopeFind(v1, id).None?
    requires |done| > 0 ==> forall n :: n != id ==> ScopeFind(v2, n) == ScopeFind(v1, n)
    ensures forall m :: 0 <= m < |done + [id]| ==> ScopeFind(v2, (done + [id])[m]).Some?
  {
    forall m | 0 <= m < |done + [id]|
      ensures ScopeFind(v2, (done + [id])[m]).Some?
    {
      if m < |done| {
        assert (done + [id])[m] == done[m];
        assert ScopeFind(v1, done[m]).Some?;
      }
    }
  }

  /** A name not found in the scope differs from every name found there. */
  lemma FreshNameIsNew(v1: View, done: seq<string>, id: string)
    requires ViewOk(v1) && ScopeFind(v1, id).None?
    requires forall m :: 0 <= m < |done| ==> ScopeFind(v1, done[m]).Some?
    requires forall a, b :: 0 <= a < b < |done| ==> done[a] != done[b]
    ensures forall a, b :: 0 <= a < b < |done + [id]| ==> (done + [id])[a] != (done + [id])[b]
  {
    forall a, b | 0 <= a < b < |done + [id]|
      ensures (done + [id])[a] != (done + [id])[b]
    {
      assert ScopeFind(v1, done[a]).Some?;
    }
  }

  /** After a routine declaration: the view kept, the routine's entry made at the level
      of the declaration with the routine's own new block as reference, and the routine
      heading the current block's chain, so `lookup_current_scope` finds it. */
  predicate RoutineDeclared(v0: View, v1: View, name: string, kind: ObjectKind, t: Type) {
    Kept(v0, v1) && |v1.tab| > |v0.tab|
    && Holds(v1.tab[|v0.tab|], name, kind, t, v0.level) && v1.tab[|v0.tab|].ref == |v0.btab|
    && ChainFind(v1.tab, v1.btab[v1.display[v1.level]].last, name) == Some(|v0.tab|)
  }

  /** A routine's scope opened with its entry, worked in, and closed again leaves the
      routine declared in the enclosing scope. */
  lemma RoutineRound(v0: View, v1: View, v3: View, e: SymbolEntry, entered: BlockEntry, name: string, kind: ObjectKind, t: Type)
    requires ViewOk(v0) && ScopesIncrease(v0.display, v0.level) && v0.level + 1 < |v0.display| && |v0.tab| > 0
    requires Holds(e, name, kind, t, v0.level) && e.ref == |v0.btab| && entered.last == |v0.tab|
    requires v1 == View(v0.tab + [e], (v0.btab + [EmptyBlock])[v0.display[v0.level] := entered],
                        v0.display[v0.level + 1 := |v0.btab|], v0.level + 1)
    requires Kept(v1, v3)
    ensures RoutineDeclared(v0, v3.(level := v0.level), name, kind, t)
  {
    ScopeRoundKept(v0, v1, v3, e, entered);
    assert v3.tab[|v0.tab|] == v1.tab[|v0.tab|] == e;
    assert v3.btab[v3.display[v0.level]].last == |v0.tab|;
    assert ChainFind(v3.tab, |v0.tab|, name) == Some(|v0.tab|);
  }

  lemma PrefixStep<T>(s: seq<T>, k: nat)
    requires k < |s|
    ensures s[..k + 1] == s[..k] + [s[k]]
  {
  }

  /** Appending a field to the pairs extends the fields dict and the offset as
      `visit_record_type` does. */
  lemma AppendField(pairs: seq<(string, Type)>, p: (string, Type))
    ensures FieldsMap(pairs + [p]) == FieldsMap(pairs)[p.0 := (p.1, FieldsSize(pairs))]
    ensures FieldsSize(pairs + [p]) == FieldsSize(pairs) + TypeSize(p.1)
  {
    assert (pairs + [p])[..|pairs|] == pairs;
  }
}
