/** `to_dict` of the expression nodes (src/parse_tree/expression.py) and of raw values, a
    reader that decodes those dicts back into nodes, and the round trip between the two.
    The one thing `to_dict` forgets is an empty-string `Variable.field`, which it omits
    because the empty string is falsy; `NormExpression` erases it on the node side. */
module ExpressionJson {
  import opened Wrappers
  import opened JsonValues
  import opened Ast

  // ---------------------------------------------------------------------------
  // Raw values

  function LiteralToJson(l: Literal): Json {
    match l
    case LBool(b) => JBool(b)
    case LInt(i) => JInt(i)
    case LReal(r) => JReal(r)
    case LStr(s) => JStr(s)
  }

  function LiteralFromJson(j: Json): (r: Option<Literal>)
    ensures r.Some? ==> LiteralToJson(r.value) == j
  {
    match j
    case JBool(b) => Some(LBool(b))
    case JInt(i) => Some(LInt(i))
    case JReal(r) => Some(LReal(r))
    case JStr(s) => Some(LStr(s))
    case _ => None
  }

  function LiteralsToJson(ls: seq<Literal>): (j: Json)
    ensures j.JArr? && |j.items| == |ls|
    ensures forall i :: 0 <= i < |ls| ==> j.items[i] == LiteralToJson(ls[i])
  {
    JArr(seq(|ls|, i requires 0 <= i < |ls| => LiteralToJson(ls[i])))
  }

  function LiteralsFromJson(j: Json): (r: Option<seq<Literal>>)
    ensures r.Some? ==> LiteralsToJson(r.value) == j
  {
    if j.JArr? && forall i :: 0 <= i < |j.items| ==> LiteralFromJson(j.items[i]).Some? then
      var ls := seq(|j.items|, i requires 0 <= i < |j.items| => LiteralFromJson(j.items[i]).value);
      assert LiteralsToJson(ls).items == j.items;
      Some(ls)
    else None
  }

  lemma LiteralsRoundTrip(ls: seq<Literal>)
    ensures LiteralsFromJson(LiteralsToJson(ls)) == Some(ls)
  {
    var j := LiteralsToJson(ls);
    assert forall i :: 0 <= i < |j.items| ==> LiteralFromJson(j.items[i]) == Some(ls[i]);
    var back := seq(|j.items|, i requires 0 <= i < |j.items| => LiteralFromJson(j.items[i]).value);
    assert back == ls;
  }

  function NumberToJson(v: NumberValue): Json {
    match v
    case IntValue(i) => JInt(i)
    case RealValue(r) => JReal(r)
  }

  function NumberFromJson(j: Json): Option<NumberValue> {
    match j
    case JInt(i) => Some(IntValue(i))
    case JReal(r) => Some(RealValue(r))
    case _ => None
  }

  // ---------------------------------------------------------------------------
  // Expressions (src/parse_tree/expression.py)

  /** `Expression.to_dict`. `Variable` adds `index` when it is set and `field` when it is
      a non-empty string. */
  function ExpressionToDict(e: Expression): Json
    decreases e
  {
    match e
    case BinaryOp(l, op, r) =>
      JObj([Field("type", JStr("BinaryOp")), Field("operator", JStr(op)), Field("left", ExpressionToDict(l)), Field("right", ExpressionToDict(r))])
    case UnaryOp(op, x) =>
      JObj([Field("type", JStr("UnaryOp")), Field("operator", JStr(op)), Field("operand", ExpressionToDict(x))])
    case Variable(n, index, field) =>
      VariableDict(n, if index.Some? then Some(ExpressionToDict(index.value)) else None, field)
    case Number(v) => JObj([Field("type", JStr("Number")), Field("value", NumberToJson(v))])
    case String(s) => JObj([Field("type", JStr("String")), Field("value", JStr(s))])
    case Char(s) => JObj([Field("type", JStr("Char")), Field("value", JStr(s))])
    case Boolean(b) => JObj([Field("type", JStr("Boolean")), Field("value", JBool(b))])
    case Parenthesized(x) => JObj([Field("type", JStr("ParenthesizedExpression")), Field("expression", ExpressionToDict(x))])
    case FunctionCall(n, args) =>
      JObj([Field("type", JStr("FunctionCall")), Field("name", JStr(n)), Field("arguments", ExpressionsToJson(args))])
  }

  /** A list of expressions, serialised in order. */
  function ExpressionsToJson(es: seq<Expression>): (j: Json)
    ensures j.JArr? && |j.items| == |es|
    decreases es
  {
    JArr(seq(|es|, i requires 0 <= i < |es| => ExpressionToDict(es[i])))
  }

  /** `Variable.to_dict`, given the dict of the index, if any: `index` is added when it
      is set and `field` when it is a non-empty string. */
  function VariableDict(n: string, index: Option<Json>, field: Option<string>): Json {
    var head := [Field("type", JStr("Variable")), Field("name", JStr(n))];
    var withField := field.Some? && field.value != "";
    if index.Some? && withField then JObj(head + [Field("index", index.value), Field("field", JStr(field.value))])
    else if index.Some? then JObj(head + [Field("index", index.value)])
    else if withField then JObj(head + [Field("field", JStr(field.value))])
    else JObj(head)
  }

  /** Decodes an expression dict, by its `type` tag. The reader expects the keys in the
      order `to_dict` inserts them. */
  function ExpressionFromDict(j: Json): Option<Expression>
    decreases j, 1
  {
    if TagIs(j, "BinaryOp") then BinaryOpFromDict(j)
    else if TagIs(j, "UnaryOp") then UnaryOpFromDict(j)
    else if TagIs(j, "Variable") then VariableFromDict(j)
    else if TagIs(j, "Number") then
      if Shaped(j, "Number", ["value"]) then
        match NumberFromJson(j.fields[1].value)
        case Some(v) => Some(Number(v))
        case None => None
      else None
    else if TagIs(j, "String") then
      if Shaped(j, "String", ["value"]) && j.fields[1].value.JStr? then Some(String(j.fields[1].value.s)) else None
    else if TagIs(j, "Char") then
      if Shaped(j, "Char", ["value"]) && j.fields[1].value.JStr? then Some(Char(j.fields[1].value.s)) else None
    else if TagIs(j, "Boolean") then
      if Shaped(j, "Boolean", ["value"]) && j.fields[1].value.JBool? then Some(Boolean(j.fields[1].value.b)) else None
    else if TagIs(j, "ParenthesizedExpression") then
      if Shaped(j, "ParenthesizedExpression", ["expression"]) then
        match ExpressionFromDict(j.fields[1].value)
        case Some(x) => Some(Parenthesized(x))
        case None => None
      else None
    else if TagIs(j, "FunctionCall") then
      if Shaped(j, "FunctionCall", ["name", "arguments"]) && j.fields[1].value.JStr? then
        match ExpressionsFromJson(j.fields[2].value)
        case Some(args) => Some(FunctionCall(j.fields[1].value.s, args))
        case None => None
      else None
    else None
  }

  function BinaryOpFromDict(j: Json): Option<Expression>
    decreases j, 0
  {
    if Shaped(j, "BinaryOp", ["operator", "left", "right"]) && j.fields[1].value.JStr? then
      match (ExpressionFromDict(j.fields[2].value), ExpressionFromDict(j.fields[3].value))
      case (Some(l), Some(r)) => Some(BinaryOp(l, j.fields[1].value.s, r))
      case _ => None
    else None
  }

  function UnaryOpFromDict(j: Json): Option<Expression>
    decreases j, 0
  {
    if Shaped(j, "UnaryOp", ["operator", "operand"]) && j.fields[1].value.JStr? then
      match ExpressionFromDict(j.fields[2].value)
      case Some(x) => Some(UnaryOp(j.fields[1].value.s, x))
      case None => None
    else None
  }

  /** A Variable dict holds `index` and then `field` only when they were set; an empty
      `field` is never written, so it is refused here. */
  function VariableFromDict(j: Json): Option<Expression>
    decreases j, 0
  {
    if !(TagIs(j, "Variable") && |j.fields| >= 2 && j.fields[1].key == "name" && j.fields[1].value.JStr?) then None
    else
      var n := j.fields[1].value.s;
      var field := (f: Field) => f.key == "field" && f.value.JStr? && f.value.s != "";
      if |j.fields| == 2 then Some(Variable(n, None, None))
      else if |j.fields| == 3 && field(j.fields[2]) then Some(Variable(n, None, Some(j.fields[2].value.s)))
      else if |j.fields| == 3 && j.fields[2].key == "index" then
        match ExpressionFromDict(j.fields[2].value)
        case Some(x) => Some(Variable(n, Some(x), None))
        case None => None
      else if |j.fields| == 4 && j.fields[2].key == "index" && field(j.fields[3]) then
        match ExpressionFromDict(j.fields[2].value)
        case Some(x) => Some(Variable(n, Some(x), Some(j.fields[3].value.s)))
        case None => None
      else None
  }

  /** Decodes a list of expression dicts. */
  function ExpressionsFromJson(j: Json): Option<seq<Expression>>
    decreases j, 1
  {
    if j.JArr? && forall i :: 0 <= i < |j.items| ==> ExpressionFromDict(j.items[i]).Some? then
      Some(seq(|j.items|, i requires 0 <= i < |j.items| => ExpressionFromDict(j.items[i]).value))
    else None
  }

  /** An expression with every empty-string `field` replaced by `None`. */
  function NormExpression(e: Expression): Expression
    decreases e
  {
    match e
    case BinaryOp(l, op, r) => BinaryOp(NormExpression(l), op, NormExpression(r))
    case UnaryOp(op, x) => UnaryOp(op, NormExpression(x))
    case Variable(n, index, field) =>
      Variable(n, if index.Some? then Some(NormExpression(index.value)) else None, if field == Some("") then None else field)
    case Parenthesized(x) => Parenthesized(NormExpression(x))
    case FunctionCall(n, args) => FunctionCall(n, NormExpressions(args))
    case _ => e
  }

  function NormExpressions(es: seq<Expression>): (r: seq<Expression>)
    ensures |r| == |es|
    decreases es
  {
    seq(|es|, i requires 0 <= i < |es| => NormExpression(es[i]))
  }

  /** Decoding an expression's dict gives the expression back, up to an empty `field`. */
  lemma {:induction false} ExpressionRoundTrip(e: Expression)
    ensures ExpressionFromDict(ExpressionToDict(e)) == Some(NormExpression(e))
    decreases e
  {
    match e
    case BinaryOp(l, op, r) =>
      ExpressionRoundTrip(l);
      ExpressionRoundTrip(r);
      BinaryOpDecodes(op, ExpressionToDict(l), ExpressionToDict(r), NormExpression(l), NormExpression(r));
    case UnaryOp(op, x) =>
      ExpressionRoundTrip(x);
      UnaryOpDecodes(op, ExpressionToDict(x), NormExpression(x));
    case Variable(n, index, field) =>
      if index.Some? {
        ExpressionRoundTrip(index.value);
        VariableDecodes(n, Some(ExpressionToDict(index.value)), Some(NormExpression(index.value)), field);
      } else {
        VariableDecodes(n, None, None, field);
      }
    case Parenthesized(x) =>
      ExpressionRoundTrip(x);
      ParenthesizedDecodes(ExpressionToDict(x), NormExpression(x));
    case FunctionCall(n, args) =>
      ExpressionsRoundTrip(args);
      FunctionCallDecodes(n, ExpressionsToJson(args).items, NormExpressions(args));
    case _ =>
      LeafRoundTrip(e);
  }

  lemma BinaryOpDecodes(op: string, jl: Json, jr: Json, l: Expression, r: Expression)
    requires ExpressionFromDict(jl) == Some(l) && ExpressionFromDict(jr) == Some(r)
    ensures ExpressionFromDict(JObj([Field("type", JStr("BinaryOp")), Field("operator", JStr(op)), Field("left", jl), Field("right", jr)]))
            == Some(BinaryOp(l, op, r))
  {
    var j := JObj([Field("type", JStr("BinaryOp")), Field("operator", JStr(op)), Field("left", jl), Field("right", jr)]);
    assert Shaped(j, "BinaryOp", ["operator", "left", "right"]);
  }

  lemma UnaryOpDecodes(op: string, jx: Json, x: Expression)
    requires ExpressionFromDict(jx) == Some(x)
    ensures ExpressionFromDict(JObj([Field("type", JStr("UnaryOp")), Field("operator", JStr(op)), Field("operand", jx)]))
            == Some(UnaryOp(op, x))
  {
    var j := JObj([Field("type", JStr("UnaryOp")), Field("operator", JStr(op)), Field("operand", jx)]);
    assert !TagIs(j, "BinaryOp");
    assert Shaped(j, "UnaryOp", ["operator", "operand"]);
  }

  lemma VariableDecodes(n: string, jx: Option<Json>, x: Option<Expression>, field: Option<string>)
    requires jx.Some? <==> x.Some?
    requires jx.Some? ==> ExpressionFromDict(jx.value) == x
    ensures ExpressionFromDict(VariableDict(n, jx, field)) == Some(Variable(n, x, if field == Some("") then None else field))
  {
    var j := VariableDict(n, jx, field);
    assert !TagIs(j, "BinaryOp") && !TagIs(j, "UnaryOp") && TagIs(j, "Variable");
  }

  lemma ParenthesizedDecodes(jx: Json, x: Expression)
    requires ExpressionFromDict(jx) == Some(x)
    ensures ExpressionFromDict(JObj([Field("type", JStr("ParenthesizedExpression")), Field("expression", jx)])) == Some(Parenthesized(x))
  {
  }

  lemma FunctionCallDecodes(n: string, items: seq<Json>, args: seq<Expression>)
    requires ExpressionsFromJson(JArr(items)) == Some(args)
    ensures ExpressionFromDict(JObj([Field("type", JStr("FunctionCall")), Field("name", JStr(n)), Field("arguments", JArr(items))]))
            == Some(FunctionCall(n, args))
  {
  }

  lemma LeafRoundTrip(e: Expression)
    requires e.Number? || e.String? || e.Char? || e.Boolean?
    ensures ExpressionFromDict(ExpressionToDict(e)) == Some(NormExpression(e))
  {
    if e.Number? {
      assert NumberFromJson(NumberToJson(e.number)) == Some(e.number);
    }
  }

  lemma {:induction false} ExpressionsRoundTrip(es: seq<Expression>)
    ensures ExpressionsFromJson(ExpressionsToJson(es)) == Some(NormExpressions(es))
    decreases es
  {
    var items := ExpressionsToJson(es).items;
    forall i | 0 <= i < |es|
      ensures ExpressionFromDict(items[i]) == Some(NormExpression(es[i]))
    {
      ExpressionRoundTrip(es[i]);
    }
    var back := seq(|items|, i requires 0 <= i < |items| => ExpressionFromDict(items[i]).value);
    assert back == NormExpressions(es);
  }
}
