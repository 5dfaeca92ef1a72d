/** `to_dict` of the statement nodes (src/parse_tree/statement.py), the reader that decodes
    those dicts, and the round trip between the two. */
module StatementJson {
  import opened Wrappers
  import opened JsonValues
  import opened Ast
  import opened ExpressionJson

  /** `Statement.to_dict`. */
  function StatementToDict(s: Statement): Json
    decreases s
  {
    match s
    case Compound(ss) => CompoundDict(StatementsToJson(ss))
    case Assignment(v, x) =>
      JObj([Field("type", JStr("AssignmentStatement")), Field("variable", ExpressionToDict(v)), Field("expression", ExpressionToDict(x))])
    case If(c, t, e) =>
      IfDict(ExpressionToDict(c), StatementToDict(t), if e.Some? then Some(StatementToDict(e.value)) else None)
    case While(c, b) =>
      JObj([Field("type", JStr("WhileStatement")), Field("condition", ExpressionToDict(c)), Field("body", StatementToDict(b))])
    case For(v, a, b, d, body) =>
      JObj([Field("type", JStr("ForStatement")), Field("variable", JStr(v)), Field("start_expr", ExpressionToDict(a)),
            Field("end_expr", ExpressionToDict(b)), Field("direction", JStr(d)), Field("body", StatementToDict(body))])
    case Repeat(ss, c) =>
      JObj([Field("type", JStr("RepeatStatement")), Field("statements", StatementsToJson(ss)), Field("condition", ExpressionToDict(c))])
    case Case(x, arms) =>
      JObj([Field("type", JStr("CaseStatement")), Field("expression", ExpressionToDict(x)), Field("cases", CaseArmsToJson(arms))])
    case ProcedureCall(n, args) =>
      JObj([Field("type", JStr("ProcedureCall")), Field("name", JStr(n)), Field("arguments", ExpressionsToJson(args))])
    case Empty => JObj([Field("type", JStr("EmptyStatement"))])
  }

  /** `CompoundStatement.to_dict`, given its list of statement dicts. */
  function CompoundDict(statements: Json): Json {
    JObj([Field("type", JStr("CompoundStatement")), Field("statements", statements)])
  }

  /** `IfStatement.to_dict`: `else_statement` is added only when there is one. */
  function IfDict(condition: Json, thenDict: Json, elseDict: Option<Json>): Json {
    var head := [Field("type", JStr("IfStatement")), Field("condition", condition), Field("then_statement", thenDict)];
    if elseDict.Some? then JObj(head + [Field("else_statement", elseDict.value)]) else JObj(head)
  }

  function StatementsToJson(ss: seq<Statement>): (j: Json)
    ensures j.JArr? && |j.items| == |ss|
    decreases ss
  {
    JArr(seq(|ss|, i requires 0 <= i < |ss| => StatementToDict(ss[i])))
  }

  /** A case arm is a plain `{constants, statement}` dict, without a `type` key. */
  function CaseArmToDict(arm: CaseArm): Json
    decreases arm
  {
    JObj([Field("constants", LiteralsToJson(arm.constants)), Field("statement", StatementToDict(arm.statement))])
  }

  function CaseArmsToJson(arms: seq<CaseArm>): (j: Json)
    ensures j.JArr? && |j.items| == |arms|
    decreases arms
  {
    JArr(seq(|arms|, i requires 0 <= i < |arms| => CaseArmToDict(arms[i])))
  }

  /** Decodes a statement dict, by its `type` tag, with the keys in `to_dict` order. */
  function StatementFromDict(j: Json): Option<Statement>
    decreases j, 1
  {
    if TagIs(j, "CompoundStatement") then
      if Shaped(j, "CompoundStatement", ["statements"]) then
        match StatementsFromJson(j.fields[1].value)
        case Some(ss) => Some(Compound(ss))
        case None => None
      else None
    else if TagIs(j, "AssignmentStatement") then
      if Shaped(j, "AssignmentStatement", ["variable", "expression"]) then
        match (ExpressionFromDict(j.fields[1].value), ExpressionFromDict(j.fields[2].value))
        case (Some(v), Some(x)) => Some(Assignment(v, x))
        case _ => None
      else None
    else if TagIs(j, "IfStatement") then IfFromDict(j)
    else if TagIs(j, "WhileStatement") then
      if Shaped(j, "WhileStatement", ["condition", "body"]) then
        match (ExpressionFromDict(j.fields[1].value), StatementFromDict(j.fields[2].value))
        case (Some(c), Some(b)) => Some(While(c, b))
        case _ => None
      else None
    else if TagIs(j, "ForStatement") then ForFromDict(j)
    else if TagIs(j, "RepeatStatement") then
      if Shaped(j, "RepeatStatement", ["statements", "condition"]) then
        match (StatementsFromJson(j.fields[1].value), ExpressionFromDict(j.fields[2].value))
        case (Some(ss), Some(c)) => Some(Repeat(ss, c))
        case _ => None
      else None
    else if TagIs(j, "CaseStatement") then
      if Shaped(j, "CaseStatement", ["expression", "cases"]) then
        match (ExpressionFromDict(j.fields[1].value), CaseArmsFromJson(j.fields[2].value))
        case (Some(x), Some(arms)) => Some(Case(x, arms))
        case _ => None
      else None
    else if TagIs(j, "ProcedureCall") then
      if Shaped(j, "ProcedureCall", ["name", "arguments"]) && j.fields[1].value.JStr? then
        match ExpressionsFromJson(j.fields[2].value)
        case Some(args) => Some(ProcedureCall(j.fields[1].value.s, args))
        case None => None
      else None
    else if TagIs(j, "EmptyStatement") then
      if Shaped(j, "EmptyStatement", []) then Some(Empty) else None
    else None
  }

  function IfFromDict(j: Json): Option<Statement>
    decreases j, 0
  {
    if !(TagIs(j, "IfStatement") && |j.fields| >= 3 && j.fields[1].key == "condition" && j.fields[2].key == "then_statement") then None
    else
      match (ExpressionFromDict(j.fields[1].value), StatementFromDict(j.fields[2].value))
      case (Some(c), Some(t)) =>
        if |j.fields| == 3 then Some(If(c, t, None))
        else if |j.fields| == 4 && j.fields[3].key == "else_statement" then
          match StatementFromDict(j.fields[3].value)
          case Some(e) => Some(If(c, t, Some(e)))
          case None => None
        else None
      case _ => None
  }

  function ForFromDict(j: Json): Option<Statement>
    decreases j, 0
  {
    if Shaped(j, "ForStatement", ["variable", "start_expr", "end_expr", "direction", "body"])
       && j.fields[1].value.JStr? && j.fields[4].value.JStr? then
      match (ExpressionFromDict(j.fields[2].value), ExpressionFromDict(j.fields[3].value), StatementFromDict(j.fields[5].value))
      case (Some(a), Some(b), Some(body)) => Some(For(j.fields[1].value.s, a, b, j.fields[4].value.s, body))
      case _ => None
    else None
  }

  function StatementsFromJson(j: Json): Option<seq<Statement>>
    decreases j, 1
  {
    if j.JArr? && forall i :: 0 <= i < |j.items| ==> StatementFromDict(j.items[i]).Some? then
      Some(seq(|j.items|, i requires 0 <= i < |j.items| => StatementFromDict(j.items[i]).value))
    else None
  }

  function CaseArmFromDict(j: Json): Option<CaseArm>
    decreases j, 0
  {
    if j.JObj? && |j.fields| == 2 && j.fields[0].key == "constants" && j.fields[1].key == "statement" then
      match (LiteralsFromJson(j.fields[0].value), StatementFromDict(j.fields[1].value))
      case (Some(cs), Some(s)) => Some(CaseArm(cs, s))
      case _ => None
    else None
  }

  function CaseArmsFromJson(j: Json): Option<seq<CaseArm>>
    decreases j, 1
  {
    if j.JArr? && forall i :: 0 <= i < |j.items| ==> CaseArmFromDict(j.items[i]).Some? then
      Some(seq(|j.items|, i requires 0 <= i < |j.items| => CaseArmFromDict(j.items[i]).value))
    else None
  }

  // ---------------------------------------------------------------------------
  // The round trip

  /** A statement with every expression in it normalised. */
  function NormStatement(s: Statement): Statement
    decreases s
  {
    match s
    case Compound(ss) => Compound(NormStatements(ss))
    case Assignment(v, x) => Assignment(NormExpression(v), NormExpression(x))
    case If(c, t, e) => If(NormExpression(c), NormStatement(t), if e.Some? then Some(NormStatement(e.value)) else None)
    case While(c, b) => While(NormExpression(c), NormStatement(b))
    case For(v, a, b, d, body) => For(v, NormExpression(a), NormExpression(b), d, NormStatement(body))
    case Repeat(ss, c) => Repeat(NormStatements(ss), NormExpression(c))
    case Case(x, arms) => Case(NormExpression(x), NormCaseArms(arms))
    case ProcedureCall(n, args) => ProcedureCall(n, NormExpressions(args))
    case Empty => Empty
  }

  function NormStatements(ss: seq<Statement>): (r: seq<Statement>)
    ensures |r| == |ss|
    decreases ss
  {
    seq(|ss|, i requires 0 <= i < |ss| => NormStatement(ss[i]))
  }

  function NormCaseArms(arms: seq<CaseArm>): (r: seq<CaseArm>)
    ensures |r| == |arms|
    decreases arms
  {
    seq(|arms|, i requires 0 <= i < |arms| => CaseArm(arms[i].constants, NormStatement(arms[i].statement)))
  }

  /** Decoding a statement's dict gives the statement back, up to empty `field`s. */
  lemma {:induction false} StatementRoundTrip(s: Statement)
    ensures StatementFromDict(StatementToDict(s)) == Some(NormStatement(s))
    decreases s
  {
    match s
    case Compound(ss) =>
      StatementsRoundTrip(ss);
      CompoundDecodes(StatementsToJson(ss), NormStatements(ss));
    case Assignment(v, x) =>
      ExpressionRoundTrip(v);
      ExpressionRoundTrip(x);
      AssignmentDecodes(ExpressionToDict(v), ExpressionToDict(x), NormExpression(v), NormExpression(x));
    case If(c, t, e) =>
      ExpressionRoundTrip(c);
      StatementRoundTrip(t);
      if e.Some? {
        StatementRoundTrip(e.value);
        IfDecodes(ExpressionToDict(c), StatementToDict(t), Some(StatementToDict(e.value)), NormExpression(c), NormStatement(t), Some(NormStatement(e.value)));
      } else {
        IfDecodes(ExpressionToDict(c), StatementToDict(t), None, NormExpression(c), NormStatement(t), None);
      }
    case While(c, b) =>
      ExpressionRoundTrip(c);
      StatementRoundTrip(b);
      WhileDecodes(ExpressionToDict(c), StatementToDict(b), NormExpression(c), NormStatement(b));
    case For(v, a, b, d, body) =>
      ExpressionRoundTrip(a);
      ExpressionRoundTrip(b);
      StatementRoundTrip(body);
      ForDecodes(v, d, ExpressionToDict(a), ExpressionToDict(b), StatementToDict(body), NormExpression(a), NormExpression(b), NormStatement(body));
    case Repeat(ss, c) =>
      StatementsRoundTrip(ss);
      ExpressionRoundTrip(c);
      RepeatDecodes(StatementsToJson(ss), ExpressionToDict(c), NormStatements(ss), NormExpression(c));
    case Case(x, arms) =>
      ExpressionRoundTrip(x);
      CaseArmsRoundTrip(arms);
      CaseDecodes(ExpressionToDict(x), CaseArmsToJson(arms), NormExpression(x), NormCaseArms(arms));
    case ProcedureCall(n, args) =>
      ExpressionsRoundTrip(args);
      ProcedureCallDecodes(n, ExpressionsToJson(args), NormExpressions(args));
    case Empty =>
      EmptyDecodes();
  }

  lemma {:induction false} StatementsRoundTrip(ss: seq<Statement>)
    ensures StatementsFromJson(StatementsToJson(ss)) == Some(NormStatements(ss))
    decreases ss
  {
    var items := StatementsToJson(ss).items;
    forall i | 0 <= i < |ss|
      ensures StatementFromDict(items[i]) == Some(NormStatement(ss[i]))
    {
      StatementRoundTrip(ss[i]);
    }
    var back := seq(|items|, i requires 0 <= i < |items| => StatementFromDict(items[i]).value);
    assert back == NormStatements(ss);
  }

  lemma {:induction false} CaseArmsRoundTrip(arms: seq<CaseArm>)
    ensures CaseArmsFromJson(CaseArmsToJson(arms)) == Some(NormCaseArms(arms))
    decreases arms
  {
    var items := CaseArmsToJson(arms).items;
    forall i | 0 <= i < |arms|
      ensures CaseArmFromDict(items[i]) == Some(CaseArm(arms[i].constants, NormStatement(arms[i].statement)))
    {
      StatementRoundTrip(arms[i].statement);
      LiteralsRoundTrip(arms[i].constants);
      assert items[i] == CaseArmToDict(arms[i]);
      CaseArmDecodes(LiteralsToJson(arms[i].constants), StatementToDict(arms[i].statement),
                     arms[i].constants, NormStatement(arms[i].statement));
    }
    var back := seq(|items|, i requires 0 <= i < |items| => CaseArmFromDict(items[i]).value);
    assert back == NormCaseArms(arms);
  }

  lemma CaseArmDecodes(jc: Json, js: Json, cs: seq<Literal>, st: Statement)
    requires LiteralsFromJson(jc) == Some(cs) && StatementFromDict(js) == Some(st)
    ensures CaseArmFromDict(JObj([Field("constants", jc), Field("statement", js)])) == Some(CaseArm(cs, st))
  {
  }

  lemma CompoundDecodes(js: Json, ss: seq<Statement>)
    requires StatementsFromJson(js) == Some(ss)
    ensures StatementFromDict(CompoundDict(js)) == Some(Compound(ss))
  {
  }

  lemma AssignmentDecodes(jv: Json, jx: Json, v: Expression, x: Expression)
    requires ExpressionFromDict(jv) == Some(v) && ExpressionFromDict(jx) == Some(x)
    ensures StatementFromDict(JObj([Field("type", JStr("AssignmentStatement")), Field("variable", jv), Field("expression", jx)]))
            == Some(Assignment(v, x))
  {
    var j := JObj([Field("type", JStr("AssignmentStatement")), Field("variable", jv), Field("expression", jx)]);
    assert Shaped(j, "AssignmentStatement", ["variable", "expression"]);
  }

  lemma IfDecodes(jc: Json, jt: Json, je: Option<Json>, c: Expression, t: Statement, e: Option<Statement>)
    requires ExpressionFromDict(jc) == Some(c) && StatementFromDict(jt) == Some(t)
    requires je.Some? <==> e.Some?
    requires je.Some? ==> StatementFromDict(je.value) == e
    ensures StatementFromDict(IfDict(jc, jt, je)) == Some(If(c, t, e))
  {
    var j := IfDict(jc, jt, je);
    assert !TagIs(j, "CompoundStatement") && !TagIs(j, "AssignmentStatement") && TagIs(j, "IfStatement");
  }

  lemma WhileDecodes(jc: Json, jb: Json, c: Expression, b: Statement)
    requires ExpressionFromDict(jc) == Some(c) && StatementFromDict(jb) == Some(b)
    ensures StatementFromDict(JObj([Field("type", JStr("WhileStatement")), Field("condition", jc), Field("body", jb)]))
            == Some(While(c, b))
  {
    var j := JObj([Field("type", JStr("WhileStatement")), Field("condition", jc), Field("body", jb)]);
    assert Shaped(j, "WhileStatement", ["condition", "body"]);
  }

  lemma ForDecodes(v: string, d: string, ja: Json, jb: Json, jbody: Json, a: Expression, b: Expression, body: Statement)
    requires ExpressionFromDict(ja) == Some(a) && ExpressionFromDict(jb) == Some(b) && StatementFromDict(jbody) == Some(body)
    ensures StatementFromDict(JObj([Field("type", JStr("ForStatement")), Field("variable", JStr(v)), Field("start_expr", ja),
                                    Field("end_expr", jb), Field("direction", JStr(d)), Field("body", jbody)]))
            == Some(For(v, a, b, d, body))
  {
    var j := JObj([Field("type", JStr("ForStatement")), Field("variable", JStr(v)), Field("start_expr", ja),
                   Field("end_expr", jb), Field("direction", JStr(d)), Field("body", jbody)]);
    assert Shaped(j, "ForStatement", ["variable", "start_expr", "end_expr", "direction", "body"]);
    assert ForFromDict(j) == Some(For(v, a, b, d, body));
  }

  lemma RepeatDecodes(js: Json, jc: Json, ss: seq<Statement>, c: Expression)
    requires StatementsFromJson(js) == Some(ss) && ExpressionFromDict(jc) == Some(c)
    ensures StatementFromDict(JObj([Field("type", JStr("RepeatStatement")), Field("statements", js), Field("condition", jc)]))
            == Some(Repeat(ss, c))
  {
    var j := JObj([Field("type", JStr("RepeatStatement")), Field("statements", js), Field("condition", jc)]);
    assert Shaped(j, "RepeatStatement", ["statements", "condition"]);
  }

  lemma CaseDecodes(jx: Json, jarms: Json, x: Expression, arms: seq<CaseArm>)
    requires ExpressionFromDict(jx) == Some(x) && CaseArmsFromJson(jarms) == Some(arms)
    ensures StatementFromDict(JObj([Field("type", JStr("CaseStatement")), Field("expression", jx), Field("cases", jarms)]))
            == Some(Case(x, arms))
  {
    var j := JObj([Field("type", JStr("CaseStatement")), Field("expression", jx), Field("cases", jarms)]);
    assert Shaped(j, "CaseStatement", ["expression", "cases"]);
  }

  lemma ProcedureCallDecodes(n: string, jargs: Json, args: seq<Expression>)
    requires ExpressionsFromJson(jargs) == Some(args)
    ensures StatementFromDict(JObj([Field("type", JStr("ProcedureCall")), Field("name", JStr(n)), Field("arguments", jargs)]))
            == Some(ProcedureCall(n, args))
  {
    var j := JObj([Field("type", JStr("ProcedureCall")), Field("name", JStr(n)), Field("arguments", jargs)]);
    assert Shaped(j, "ProcedureCall", ["name", "arguments"]);
  }

  lemma EmptyDecodes()
    ensures StatementFromDict(JObj([Field("type", JStr("EmptyStatement"))])) == Some(Empty)
  {
    assert Shaped(JObj([Field("type", JStr("EmptyStatement"))]), "EmptyStatement", []);
  }
}
