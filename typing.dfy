/** The typing rules of the semantic analyzer (src/semantic/visitor.py) that compute
    without changing the analyzer's state: constant and operator typing, type sizes, array
    bounds, record layout, and the typing of expressions against a symbol-table snapshot. */
module Typing {
  import opened Wrappers
  import opened Strings
  import opened Types
  import opened Errors
  import opened Ast
  import opened SymbolTables

  // ---------------------------------------------------------------------------
  // Constants, sizes and bounds

  /** `_infer_const_type`: the type of a constant declaration's raw value. */
  function InferConstType(v: Literal): (t: Type)
    ensures IsSimple(t)
    ensures t.kind == BOOLEAN <==> v.LBool?
    ensures t.kind == INTEGER <==> v.LInt?
    ensures t.kind == REAL <==> v.LReal?
    ensures t.kind == CHAR <==> v.LStr? && |v.s| == 1
    ensures t.kind == STRING <==> v.LStr? && |v.s| != 1
  {
    match v
    case LBool(_) => BooleanType
    case LInt(_) => IntegerType
    case LReal(_) => RealType
    case LStr(s) => if |s| == 1 then CharType else StringType
  }

  /** `_get_type_size`: an array's or a record's size, 1 for anything else. */
  function TypeSize(t: Type): int {
    if IsArray(t) then t.arrayInfo.value.size
    else if IsRecord(t) then t.recordInfo.value.size
    else 1
  }

  /** The array type `visit_array_type` builds: kind INTEGER, sized by its element. */
  function ArrayOf(indexType: Type, elementType: Type, low: int, high: int): (t: Type)
    ensures IsArray(t) && !IsRecord(t) && t.kind == INTEGER
    ensures t.arrayInfo.value.elementType == elementType && t.arrayInfo.value.indexType == indexType
    ensures TypeSize(t) == (high - low + 1) * TypeSize(elementType)
  {
    var size := TypeSize(elementType);
    Type(INTEGER, Some(ArrayInfo(indexType, elementType, low, high, size, (high - low + 1) * size)), None)
  }

  /** The size of an array of arrays multiplies out. */
  lemma NestedArraySize(ix: Type, el: Type, low1: int, high1: int, low2: int, high2: int)
    ensures TypeSize(ArrayOf(ix, ArrayOf(ix, el, low2, high2), low1, high1))
            == (high1 - low1 + 1) * ((high2 - low2 + 1) * TypeSize(el))
  {
  }

  /** `_evaluate_const_expr`: an integer, or a node whose `value` is an integer (a
      Python bool counts as 0 or 1); anything else is 0. */
  function EvaluateConstExpr(e: Expression): int {
    match e
    case Number(IntValue(i)) => i
    case Boolean(b) => if b then 1 else 0
    case _ => 0
  }

  /** A raw bound: an integer as it is (a bool again as 0 or 1), anything else through
      `_evaluate_const_expr`, which gives 0. */
  function LiteralBound(l: Literal): int {
    match l
    case LInt(i) => i
    case LBool(b) => if b then 1 else 0
    case _ => 0
  }

  /** The value `visit_array_type` takes for one bound of a range. */
  function EvaluateBound(b: Bound): int {
    match b
    case BoundNode(e) => EvaluateConstExpr(e)
    case BoundValue(l) => LiteralBound(l)
  }

  /** An integer bound has the same value whether the parser left it raw or wrapped it
      in a Number node, and a bound naming a constant counts as 0. */
  lemma BoundsByValue(i: int, name: string)
    ensures EvaluateBound(BoundValue(LInt(i))) == EvaluateBound(BoundNode(Number(IntValue(i)))) == i
    ensures EvaluateBound(BoundNode(Variable(name, None, None))) == 0
  {
  }

  // ---------------------------------------------------------------------------
  // Operators

  const ArithmeticOps: set<string> := {"+", "-", "*", "/"}
  const IntegerOps: set<string> := {"div", "mod", "bagi"}
  const LogicalOps: set<string> := {"and", "or", "dan", "atau"}
  const RelationalOps: set<string> := {"=", "<>", "<", "<=", ">", ">="}

  /** The typing of `visit_binary_op`, given the operand types. */
  function BinaryOpType(op: string, l: Type, r: Type): (res: Result<Type, SemanticError>)
    ensures res.Ok? ==> IsSimple(res.value) && res.value.kind in {INTEGER, REAL, BOOLEAN}
    ensures res.Ok? ==> op in ArithmeticOps + IntegerOps + LogicalOps + RelationalOps
    ensures res.Ok? ==> (res.value.kind == BOOLEAN <==> op in LogicalOps + RelationalOps)
  {
    if op in ArithmeticOps then
      if !IsNumeric(l) || !IsNumeric(r) then Err(InvalidOperation(op, Repr(l) + " and " + Repr(r)))
      else if l.kind == REAL || r.kind == REAL then Ok(RealType)
      else Ok(IntegerType)
    else if op in IntegerOps then
      if l.kind != INTEGER || r.kind != INTEGER then Err(InvalidOperation(op, Repr(l) + " and " + Repr(r)))
      else Ok(IntegerType)
    else if op in LogicalOps then
      if l.kind != BOOLEAN || r.kind != BOOLEAN then Err(InvalidOperation(op, Repr(l) + " and " + Repr(r)))
      else Ok(BooleanType)
    else if op in RelationalOps then
      if !Compatible(l, r) then Err(TypeMismatch(Repr(l), Repr(r), "comparison " + op))
      else Ok(BooleanType)
    else Err(InvalidOperation(op, "unknown"))
  }

  /** `+ - * /` need two numeric operands and give REAL exactly when one of them is. */
  lemma ArithmeticTyping(op: string, l: Type, r: Type)
    requires op in ArithmeticOps
    ensures BinaryOpType(op, l, r).Ok? <==> IsNumeric(l) && IsNumeric(r)
    ensures BinaryOpType(op, l, r).Ok? ==> (BinaryOpType(op, l, r).value.kind == REAL <==> l.kind == REAL || r.kind == REAL)
  {
  }

  /** `div`, `mod` and `bagi` need two INTEGER operands and give INTEGER. */
  lemma IntegerOperatorTyping(op: string, l: Type, r: Type)
    requires op in IntegerOps
    ensures BinaryOpType(op, l, r).Ok? <==> l.kind == INTEGER && r.kind == INTEGER
    ensures BinaryOpType(op, l, r).Ok? ==> BinaryOpType(op, l, r).value == IntegerType
  {
  }

  /** `and`, `or`, `dan` and `atau` need two BOOLEAN operands and give BOOLEAN. */
  lemma LogicalTyping(op: string, l: Type, r: Type)
    requires op in LogicalOps
    ensures BinaryOpType(op, l, r).Ok? <==> l.kind == BOOLEAN && r.kind == BOOLEAN
    ensures BinaryOpType(op, l, r).Ok? ==> BinaryOpType(op, l, r).value == BooleanType
  {
  }

  /** A comparison needs the right operand to be acceptable where the left is expected,
      and gives BOOLEAN. */
  lemma ComparisonTyping(op: string, l: Type, r: Type)
    requires op in RelationalOps
    ensures BinaryOpType(op, l, r).Ok? <==> Compatible(l, r)
    ensures BinaryOpType(op, l, r).Ok? ==> BinaryOpType(op, l, r).value == BooleanType
  {
  }

  /** Comparison is directional: a real may be compared with an integer, not the other
      way round. */
  lemma ComparisonIsDirectional()
    ensures BinaryOpType("<", RealType, IntegerType) == Ok(BooleanType)
    ensures BinaryOpType("<", IntegerType, RealType) == Err(TypeMismatch("integer", "real", "comparison <"))
  {
    assert "<" !in ArithmeticOps + IntegerOps + LogicalOps && "<" in RelationalOps;
    assert Repr(IntegerType) == "integer" && Repr(RealType) == "real";
    assert "comparison " + "<" == "comparison <";
  }

  /** Array and record types have kind INTEGER, so arithmetic accepts them. */
  lemma ArithmeticAcceptsArrays(el: Type, low: int, high: int)
    ensures BinaryOpType("+", ArrayOf(IntegerType, el, low, high), IntegerType) == Ok(IntegerType)
  {
  }

  /** Any other operator is rejected as unknown. */
  lemma UnknownOperatorRejected(op: string, l: Type, r: Type)
    requires op !in ArithmeticOps + IntegerOps + LogicalOps + RelationalOps
    ensures BinaryOpType(op, l, r) == Err(InvalidOperation(op, "unknown"))
  {
  }

  /** The typing of `visit_unary_op`, given the operand type. */
  function UnaryOpType(op: string, t: Type): (res: Result<Type, SemanticError>)
    ensures res.Ok? ==> op in {"+", "-", "not"}
    ensures res.Ok? && op != "not" ==> res.value == t && IsNumeric(t)
    ensures res.Ok? && op == "not" ==> res.value == BooleanType && t.kind == BOOLEAN
  {
    if op == "+" || op == "-" then
      if !IsNumeric(t) then Err(InvalidOperation(op, Repr(t))) else Ok(t)
    else if op == "not" then
      if t.kind != BOOLEAN then Err(InvalidOperation(op, Repr(t))) else Ok(BooleanType)
    else Err(InvalidOperation(op, "unknown"))
  }

  /** Only the spelling `not` negates: the keyword `tidak` is an unknown unary operator. */
  lemma OnlyNotNegates()
    ensures UnaryOpType("not", BooleanType) == Ok(BooleanType)
    ensures UnaryOpType("tidak", BooleanType) == Err(InvalidOperation("tidak", "unknown"))
  {
  }

  // ---------------------------------------------------------------------------
  // Expressions

  /** The type `visit` returns for an expression, or the error it raises, against the
      symbol table as it stands: typing an expression changes no table. */
  function ExpressionType(v: View, e: Expression): (r: Result<Type, SemanticError>)
    requires ViewOk(v)
    ensures r.Ok? && (e.BinaryOp? || e.Number? || e.String? || e.Char? || e.Boolean?) ==> IsSimple(r.value)
    decreases e, 0
  {
    match e
    case BinaryOp(left, op, right) =>
      (var lt :- ExpressionType(v, left);
       var rt :- ExpressionType(v, right);
       BinaryOpType(op, lt, rt))
    case UnaryOp(op, operand) =>
      (var t :- ExpressionType(v, operand);
       UnaryOpType(op, t))
    case Variable(name, index, field) =>
      (match Find(v, name)
       case None => Err(UndeclaredIdentifier(name))
       case Some(i) => VariableType(v, name, v.tab[i].entryType, index, field))
    case Number(n) => if n.IntValue? then Ok(IntegerType) else Ok(RealType)
    case String(_) => Ok(StringType)
    case Char(_) => Ok(CharType)
    case Boolean(_) => Ok(BooleanType)
    case Parenthesized(_) => Err(MissingAttribute("visit_parenthesized_expression"))
    case FunctionCall(name, args) =>
      (match Find(v, name)
       case None => Err(UndeclaredIdentifier(name))
       case Some(i) =>
         if v.tab[i].kind != FUNCTION then Err(InvalidFunctionCall("'" + name + "' is not a function"))
         else
           match ArgumentsOk(v, args, 0)
           case Fail(x) => Err(x)
           case Pass => Ok(v.tab[i].entryType))
  }

  /** `visit_variable` once the name is found with type `t`: an index needs an array
      and an ordinal index, and gives the element type; otherwise a (non-empty) field
      needs a record holding it, and gives the field's type. */
  function VariableType(v: View, name: string, t: Type, index: Option<Expression>, field: Option<string>): (r: Result<Type, SemanticError>)
    requires ViewOk(v)
    ensures r.Ok? && index.Some? ==> IsArray(t) && r.value == t.arrayInfo.value.elementType
    ensures r.Ok? && index.None? && field.Some? && field.value != "" ==>
              IsRecord(t) && field.value in t.recordInfo.value.fields && r.value == t.recordInfo.value.fields[field.value].0
    ensures index.None? && (field.None? || field == Some("")) ==> r == Ok(t)
    decreases index, 1
  {
    if index.Some? then
      if !IsArray(t) then Err(InvalidArrayIndex("'" + name + "' is not an array"))
      else
        var it :- ExpressionType(v, index.value);
        if !IsOrdinal(it) then Err(InvalidArrayIndex("index must be ordinal type"))
        else Ok(t.arrayInfo.value.elementType)
    else if field.Some? && field.value != "" then
      if !IsRecord(t) || field.value !in t.recordInfo.value.fields then Err(InvalidRecordAccess(name, field.value))
      else Ok(t.recordInfo.value.fields[field.value].0)
    else Ok(t)
  }

  /** Visits the arguments from `k` on, in order, for their errors only. */
  function ArgumentsOk(v: View, args: seq<Expression>, k: nat): Outcome<SemanticError>
    requires ViewOk(v)
    decreases args, |args| - k
  {
    if k >= |args| then Pass
    else
      match ExpressionType(v, args[k])
      case Err(x) => Fail(x)
      case Ok(_) => ArgumentsOk(v, args, k + 1)
  }

  /** Does the expression contain no parenthesized subexpression? */
  predicate NoParens(e: Expression)
    decreases e
  {
    match e
    case BinaryOp(l, _, r) => NoParens(l) && NoParens(r)
    case UnaryOp(_, x) => NoParens(x)
    case Variable(_, index, _) => index.Some? ==> NoParens(index.value)
    case Parenthesized(_) => false
    case FunctionCall(_, args) => forall i :: 0 <= i < |args| ==> NoParens(args[i])
    case _ => true
  }

  /** The analyzer defines no handler for parenthesized expressions, so every expression
      it accepts is free of them. */
  lemma {:induction false} TypedHasNoParens(v: View, e: Expression)
    requires ViewOk(v) && ExpressionType(v, e).Ok?
    ensures NoParens(e)
    decreases e, 0
  {
    match e
    case BinaryOp(l, _, r) =>
      TypedHasNoParens(v, l);
      TypedHasNoParens(v, r);
    case UnaryOp(_, x) =>
      TypedHasNoParens(v, x);
    case Variable(name, index, field) =>
      if index.Some? {
        TypedHasNoParens(v, index.value);
      }
    case FunctionCall(name, args) =>
      ArgumentsHaveNoParens(v, args, 0);
    case _ =>
  }

  lemma {:induction false} ArgumentsHaveNoParens(v: View, args: seq<Expression>, k: nat)
    requires ViewOk(v) && ArgumentsOk(v, args, k).Pass?
    ensures forall i :: k <= i < |args| ==> NoParens(args[i])
    decreases args, |args| - k
  {
    if k < |args| {
      TypedHasNoParens(v, args[k]);
      ArgumentsHaveNoParens(v, args, k + 1);
    }
  }

  /** Arguments that pass each type on their own. */
  lemma {:induction false} PassedArgumentsType(v: View, args: seq<Expression>, k: nat)
    requires ViewOk(v) && ArgumentsOk(v, args, k).Pass?
    ensures forall i :: k <= i < |args| ==> ExpressionType(v, args[i]).Ok?
    decreases |args| - k
  {
    if k < |args| {
      PassedArgumentsType(v, args, k + 1);
    }
  }

  /** Arguments that each type pass together. */
  lemma {:induction false} TypedArgumentsPass(v: View, args: seq<Expression>, k: nat)
    requires ViewOk(v) && forall i :: k <= i < |args| ==> ExpressionType(v, args[i]).Ok?
    ensures ArgumentsOk(v, args, k).Pass?
    decreases |args| - k
  {
    if k < |args| {
      TypedArgumentsPass(v, args, k + 1);
    }
  }

  // ---------------------------------------------------------------------------
  // Record layout

  /** The total size of fields laid out one after another. */
  function FieldsSize(pairs: seq<(string, Type)>): int {
    if |pairs| == 0 then 0 else FieldsSize(pairs[..|pairs| - 1]) + TypeSize(pairs[|pairs| - 1].1)
  }

  /** The `fields` dict `visit_record_type` builds: each field with its type and the
      running offset before it. */
  function FieldsMap(pairs: seq<(string, Type)>): map<string, (Type, int)> {
    if |pairs| == 0 then map[]
    else
      var init := pairs[..|pairs| - 1];
      var last := pairs[|pairs| - 1];
      FieldsMap(init)[last.0 := (last.1, FieldsSize(init))]
  }

  predicate DistinctNames(pairs: seq<(string, Type)>) {
    forall a, b :: 0 <= a < b < |pairs| ==> pairs[a].0 != pairs[b].0
  }

  /** The dict holds exactly the names of the fields. */
  lemma {:induction false} FieldsMapKeys(pairs: seq<(string, Type)>)
    ensures FieldsMap(pairs).Keys == set k | 0 <= k < |pairs| :: pairs[k].0
    decreases |pairs|
  {
    if |pairs| > 0 {
      var init := pairs[..|pairs| - 1];
      FieldsMapKeys(init);
      assert forall k :: 0 <= k < |init| ==> init[k] == pairs[k];
      assert (set k | 0 <= k < |pairs| :: pairs[k].0) == (set k | 0 <= k < |init| :: init[k].0) + {pairs[|pairs| - 1].0};
    }
  }

  /** With distinct names every field is in the dict with its own type, at the sum of
      the sizes of the fields before it. */
  lemma {:induction false} FieldsLaidOut(pairs: seq<(string, Type)>)
    requires DistinctNames(pairs)
    ensures forall k :: 0 <= k < |pairs| ==> pairs[k].0 in FieldsMap(pairs) && FieldsMap(pairs)[pairs[k].0] == (pairs[k].1, FieldsSize(pairs[..k]))
    decreases |pairs|
  {
    if |pairs| > 0 {
      var init := pairs[..|pairs| - 1];
      assert DistinctNames(init) by {
        forall a, b | 0 <= a < b < |init| ensures init[a].0 != init[b].0 {
          assert init[a] == pairs[a] && init[b] == pairs[b];
        }
      }
      FieldsLaidOut(init);
      forall k | 0 <= k < |pairs|
        ensures pairs[k].0 in FieldsMap(pairs) && FieldsMap(pairs)[pairs[k].0] == (pairs[k].1, FieldsSize(pairs[..k]))
      {
        if k < |init| {
          assert pairs[k] == init[k] && pairs[..k] == init[..k];
          assert pairs[k].0 != pairs[|pairs| - 1].0;
        } else {
          assert pairs[..k] == init;
        }
      }
    }
  }

  /** The record type `visit_record_type` builds from its (name, type) pairs. */
  function RecordOf(pairs: seq<(string, Type)>): (t: Type)
    ensures IsRecord(t) && !IsArray(t) && t.kind == INTEGER
  {
    Type(INTEGER, None, Some(RecordInfo(FieldsMap(pairs), FieldsSize(pairs))))
  }

  // ---------------------------------------------------------------------------
  // Type specifications

  /** The type `visit` returns for a type specification, or the error it raises, given
      the type map and the symbol table; visiting one only ever adds array entries. */
  function TypeSpecType(tm: map<string, Type>, v: View, ts: TypeSpec): (r: Result<Type, SemanticError>)
    requires ViewOk(v)
    ensures r.Ok? && ts.ArrayType? ==> IsArray(r.value) && r.value.kind == INTEGER
    ensures r.Ok? && ts.RecordType? ==> IsRecord(r.value) && r.value.kind == INTEGER
    decreases ts, 1
  {
    match ts
    case SimpleType(name) => SimpleTypeType(tm, v, name)
    case ArrayType(ix, el) =>
      (var et :- TypeSpecType(tm, v, el);
       match ix
       case Range(lo, hi) => Ok(ArrayOf(IntegerType, et, EvaluateBound(lo), EvaluateBound(hi)))
       case IndexType(spec) =>
         (var it :- TypeSpecType(tm, v, spec);
          Ok(ArrayOf(it, et, 0, 0)))
       case RawIndex(_) => Err(MissingAttribute("accept")))
    case RecordType(fields) =>
      (var pairs :- RecordPairs(tm, v, fields, 0, []);
       Ok(RecordOf(pairs)))
  }

  /** `visit_simple_type`: the type map by lower-cased name first, then a TYPE entry of
      the table by the name as written. */
  function SimpleTypeType(tm: map<string, Type>, v: View, name: string): (r: Result<Type, SemanticError>)
    requires ViewOk(v)
    ensures Lower(name) in tm ==> r == Ok(tm[Lower(name)])
    ensures r.Err? ==> r.error == UndeclaredIdentifier(name)
    ensures Lower(name) !in tm && r.Ok? ==>
              exists i :: Find(v, name) == Some(i) && v.tab[i].kind == TYPE && r.value == v.tab[i].entryType
  {
    if Lower(name) in tm then Ok(tm[Lower(name)])
    else
      match Find(v, name)
      case Some(i) => if v.tab[i].kind == TYPE then Ok(v.tab[i].entryType) else Err(UndeclaredIdentifier(name))
      case None => Err(UndeclaredIdentifier(name))
  }

  /** The (name, type) pairs of a record's field declarations from `i` on, after `acc`,
      or the first error: a field type that fails, or a name already taken. */
  function RecordPairs(tm: map<string, Type>, v: View, fields: seq<VarDeclaration>, i: nat, acc: seq<(string, Type)>)
    : (r: Result<seq<(string, Type)>, SemanticError>)
    requires ViewOk(v)
    ensures r.Ok? ==> acc <= r.value
    decreases fields, |fields| - i
  {
    if i >= |fields| then Ok(acc)
    else
      var ft :- TypeSpecType(tm, v, fields[i].typeSpec);
      var acc' :- AddNames(fields[i].identifiers, ft, 0, acc);
      RecordPairs(tm, v, fields, i + 1, acc')
  }

  /** One field declaration's names from `j` on, each with type `t`, unless a name is
      already a key of the fields so far. */
  function AddNames(names: seq<string>, t: Type, j: nat, acc: seq<(string, Type)>): (r: Result<seq<(string, Type)>, SemanticError>)
    requires j <= |names|
    ensures r.Ok? ==> r.value == acc + seq(|names| - j, k requires 0 <= k < |names| - j => (names[j + k], t))
    ensures r.Err? ==> exists k :: j <= k < |names| && r.error == DuplicateDeclaration(names[k])
    decreases |names| - j
  {
    if j == |names| then assert acc + [] == acc; Ok(acc)
    else if names[j] in FieldsMap(acc) then Err(DuplicateDeclaration(names[j]))
    else
      var r := AddNames(names, t, j + 1, acc + [(names[j], t)]);
      assert r.Ok? ==> r.value == acc + seq(|names| - j, k requires 0 <= k < |names| - j => (names[j + k], t));
      r
  }

  /** A name added to the record is new, so the pairs stay distinct. */
  lemma {:induction false} AddNamesDistinct(names: seq<string>, t: Type, j: nat, acc: seq<(string, Type)>)
    requires j <= |names| && DistinctNames(acc) && AddNames(names, t, j, acc).Ok?
    ensures DistinctNames(AddNames(names, t, j, acc).value)
    decreases |names| - j
  {
    if j < |names| {
      var acc' := acc + [(names[j], t)];
      assert names[j] !in FieldsMap(acc);
      assert AddNames(names, t, j, acc) == AddNames(names, t, j + 1, acc');
      FieldsMapKeys(acc);
      forall a, b | 0 <= a < b < |acc'| ensures acc'[a].0 != acc'[b].0 {
        if b == |acc| {
          assert acc[a].0 in FieldsMap(acc).Keys;
        } else {
          assert acc'[a] == acc[a] && acc'[b] == acc[b];
        }
      }
      AddNamesDistinct(names, t, j + 1, acc');
    }
  }

  lemma {:induction false} RecordPairsDistinct(tm: map<string, Type>, v: View, fields: seq<VarDeclaration>, i: nat, acc: seq<(string, Type)>)
    requires ViewOk(v) && DistinctNames(acc) && RecordPairs(tm, v, fields, i, acc).Ok?
    ensures DistinctNames(RecordPairs(tm, v, fields, i, acc).value)
    decreases |fields| - i
  {
    if i < |fields| {
      var ft := TypeSpecType(tm, v, fields[i].typeSpec).value;
      AddNamesDistinct(fields[i].identifiers, ft, 0, acc);
      RecordPairsDistinct(tm, v, fields, i + 1, AddNames(fields[i].identifiers, ft, 0, acc).value);
    }
  }

  /** A record type that types holds each of its fields with the field's own type, at the
      sum of the sizes of the fields declared before it, and its size is the sum of all. */
  lemma RecordLayout(tm: map<string, Type>, v: View, fields: seq<VarDeclaration>)
    requires ViewOk(v) && RecordPairs(tm, v, fields, 0, []).Ok?
    ensures var pairs := RecordPairs(tm, v, fields, 0, []).value;
            var t := TypeSpecType(tm, v, RecordType(fields)).value;
            t.recordInfo.value.size == FieldsSize(pairs)
            && forall k :: 0 <= k < |pairs| ==>
                 pairs[k].0 in t.recordInfo.value.fields
                 && t.recordInfo.value.fields[pairs[k].0] == (pairs[k].1, FieldsSize(pairs[..k]))
  {
    var pairs := RecordPairs(tm, v, fields, 0, []).value;
    RecordPairsDistinct(tm, v, fields, 0, []);
    FieldsLaidOut(pairs);
  }

  // ---------------------------------------------------------------------------
  // Statement checks that read the table only

  /** `visit_assignment_statement`: the target, then the value, then the value's type
      must be acceptable where the target's is expected. */
  function AssignmentCheck(v: View, target: Expression, value: Expression): (r: Outcome<SemanticError>)
    requires ViewOk(v)
    ensures r.Pass? <==> ExpressionType(v, target).Ok? && ExpressionType(v, value).Ok?
                         && Compatible(ExpressionType(v, target).value, ExpressionType(v, value).value)
  {
    AssignmentOutcome(ExpressionType(v, target), ExpressionType(v, value))
  }

  /** The assignment rule, given what typing the two sides gave. */
  function AssignmentOutcome(target: Result<Type, SemanticError>, value: Result<Type, SemanticError>): Outcome<SemanticError> {
    match target
    case Err(x) => Fail(x)
    case Ok(tt) =>
      match value
      case Err(x) => Fail(x)
      case Ok(vt) => if Compatible(tt, vt) then Pass else Fail(TypeMismatch(Repr(tt), Repr(vt), "assignment"))
  }

  /** The condition of `if`, `while` and `repeat`: it must type, with kind BOOLEAN
      (the source's `==` on types compares kinds only). */
  function ConditionCheck(v: View, condition: Expression, context: string): (r: Outcome<SemanticError>)
    requires ViewOk(v)
    ensures r.Pass? <==> ExpressionType(v, condition).Ok? && ExpressionType(v, condition).value.kind == BOOLEAN
  {
    ConditionOutcome(ExpressionType(v, condition), context)
  }

  /** The condition rule, given what typing the condition gave. */
  function ConditionOutcome(condition: Result<Type, SemanticError>, context: string): Outcome<SemanticError> {
    match condition
    case Err(x) => Fail(x)
    case Ok(t) => if t.kind == BOOLEAN then Pass else Fail(TypeMismatch("boolean", Repr(t), context))
  }

  /** The bounds of `for`: both are typed first, then each must be ordinal. */
  function ForBoundsCheck(v: View, start: Expression, end: Expression): (r: Outcome<SemanticError>)
    requires ViewOk(v)
    ensures r.Pass? <==> ExpressionType(v, start).Ok? && ExpressionType(v, end).Ok?
                         && IsOrdinal(ExpressionType(v, start).value) && IsOrdinal(ExpressionType(v, end).value)
  {
    ForBoundsOutcome(ExpressionType(v, start), ExpressionType(v, end))
  }

  /** The bounds rule, given what typing the two bounds gave. */
  function ForBoundsOutcome(start: Result<Type, SemanticError>, end: Result<Type, SemanticError>): Outcome<SemanticError> {
    match start
    case Err(x) => Fail(x)
    case Ok(st) =>
      match end
      case Err(x) => Fail(x)
      case Ok(et) =>
        if !IsOrdinal(st) then Fail(TypeMismatch("ordinal type", Repr(st), "for start"))
        else if !IsOrdinal(et) then Fail(TypeMismatch("ordinal type", Repr(et), "for end"))
        else Pass
  }

  /** `visit_procedure_call`: the name must be a PROCEDURE, then every argument types. */
  function CallCheck(v: View, name: string, args: seq<Expression>): (r: Outcome<SemanticError>)
    requires ViewOk(v)
    ensures r.Pass? ==> Find(v, name).Some? && v.tab[Find(v, name).value].kind == PROCEDURE
    ensures Find(v, name).None? ==> r == Fail(UndeclaredIdentifier(name))
  {
    match Find(v, name)
    case None => Fail(UndeclaredIdentifier(name))
    case Some(i) =>
      if v.tab[i].kind != PROCEDURE then Fail(InvalidFunctionCall("'" + name + "' is not a procedure"))
      else ArgumentsOk(v, args, 0)
  }

  /** A procedure call passes exactly when the name is a procedure and each argument types. */
  lemma CallPasses(v: View, name: string, args: seq<Expression>)
    requires ViewOk(v)
    ensures CallCheck(v, name, args).Pass? <==>
              Find(v, name).Some? && v.tab[Find(v, name).value].kind == PROCEDURE
              && forall i :: 0 <= i < |args| ==> ExpressionType(v, args[i]).Ok?
  {
    if CallCheck(v, name, args).Pass? {
      PassedArgumentsType(v, args, 0);
    } else if Find(v, name).Some? && v.tab[Find(v, name).value].kind == PROCEDURE
              && forall i :: 0 <= i < |args| ==> ExpressionType(v, args[i]).Ok? {
      TypedArgumentsPass(v, args, 0);
    }
  }

  /** No name can be both called as a procedure and used as a function. */
  lemma ProcedureOrFunction(v: View, name: string, args: seq<Expression>, args': seq<Expression>)
    requires ViewOk(v)
    ensures !(CallCheck(v, name, args).Pass? && ExpressionType(v, FunctionCall(name, args')).Ok?)
  {
  }

  // ---------------------------------------------------------------------------
  // Builtins

  /** The reserved words `_init_builtins` enters first, at level 0. */
  const ReservedWords: seq<(string, ObjectKind, Type)> := [
    ("salah", CONSTANT, BooleanType), ("benar", CONSTANT, BooleanType),
    ("integer", TYPE, IntegerType), ("real", TYPE, RealType), ("boolean", TYPE, BooleanType),
    ("char", TYPE, CharType), ("string", TYPE, StringType),
    ("dan", PROCEDURE, VoidType), ("atau", PROCEDURE, VoidType), ("tidak", PROCEDURE, VoidType),
    ("bagi", PROCEDURE, VoidType), ("mod", PROCEDURE, VoidType), ("program", PROCEDURE, VoidType),
    ("variabel", PROCEDURE, VoidType), ("konstanta", PROCEDURE, VoidType), ("tipe", PROCEDURE, VoidType),
    ("prosedur", PROCEDURE, VoidType), ("fungsi", PROCEDURE, VoidType), ("mulai", PROCEDURE, VoidType),
    ("selesai", PROCEDURE, VoidType), ("jika", PROCEDURE, VoidType), ("maka", PROCEDURE, VoidType),
    ("selain-itu", PROCEDURE, VoidType), ("selama", PROCEDURE, VoidType), ("lakukan", PROCEDURE, VoidType),
    ("untuk", PROCEDURE, VoidType), ("ke", PROCEDURE, VoidType), ("turun-ke", PROCEDURE, VoidType),
    ("larik", PROCEDURE, VoidType)
  ]

  /** The builtin routines, entered after the reserved words. */
  const BuiltinRoutines: seq<(string, ObjectKind, Type)> := [
    ("write", PROCEDURE, VoidType), ("writeln", PROCEDURE, VoidType),
    ("read", PROCEDURE, VoidType), ("readln", PROCEDURE, VoidType),
    ("abs", FUNCTION, IntegerType), ("sqr", FUNCTION, IntegerType), ("sqrt", FUNCTION, RealType),
    ("sin", FUNCTION, RealType), ("cos", FUNCTION, RealType), ("exp", FUNCTION, RealType),
    ("ln", FUNCTION, RealType), ("odd", FUNCTION, BooleanType), ("ord", FUNCTION, IntegerType),
    ("chr", FUNCTION, CharType), ("succ", FUNCTION, IntegerType), ("pred", FUNCTION, IntegerType)
  ]

  const Builtins: seq<(string, ObjectKind, Type)> := ReservedWords + BuiltinRoutines

  /** The initial `type_map`, keyed by lower-case name. */
  const InitialTypeMap: map<string, Type> := map[
    "integer" := IntegerType, "real" := RealType, "boolean" := BooleanType,
    "char" := CharType, "string" := StringType]
}
