/** The parse tree (the modules under src/parse_tree): one datatype per node family, one constructor
    per dataclass. Fields the source types as `Any` are given the shapes the front end
    puts there: literal values, or a node. */
module Ast {
  import opened Wrappers

  /** A raw constant value as the parser stores it (a Python bool, int, float or str).
      Floating-point values are kept as exact reals: no float arithmetic is modelled. */
  datatype Literal = LBool(b: bool) | LInt(i: int) | LReal(r: real) | LStr(s: string)

  /** The value of a Number node: a Python int or a float. */
  datatype NumberValue = IntValue(i: int) | RealValue(r: real)

  /** src/parse_tree/expression.py. `Variable.index` and `Variable.field` default to
      `None`. */
  datatype Expression =
    | BinaryOp(left: Expression, operator: string, right: Expression)
    | UnaryOp(operator: string, operand: Expression)
    | Variable(name: string, index: Option<Expression>, field: Option<string>)
    | Number(number: NumberValue)
    | String(text: string)
    | Char(character: string)
    | Boolean(truth: bool)
    | Parenthesized(expression: Expression)
    | FunctionCall(name: string, arguments: seq<Expression>)

  /** One arm of a case statement: its constants and its statement. */
  datatype CaseArm = CaseArm(constants: seq<Literal>, statement: Statement)

  /** src/parse_tree/statement.py. `IfStatement.else_statement` defaults to `None`. The
      assignment target is typed as a Variable in the source; any expression is allowed
      here, since nothing in the front end relies on it. */
  datatype Statement =
    | Compound(statements: seq<Statement>)
    | Assignment(variable: Expression, expression: Expression)
    | If(condition: Expression, thenStatement: Statement, elseStatement: Option<Statement>)
    | While(condition: Expression, body: Statement)
    | For(control: string, startExpr: Expression, endExpr: Expression, direction: string, body: Statement)
    | Repeat(statements: seq<Statement>, condition: Expression)
    | Case(expression: Expression, cases: seq<CaseArm>)
    | ProcedureCall(name: string, arguments: seq<Expression>)
    | Empty

  /** A bound of an array range: a node, or a raw value. */
  datatype Bound = BoundNode(node: Expression) | BoundValue(value: Literal)

  /** An array's index: a `(start, end)` range tuple, a type specification, or a raw
      value. */
  datatype IndexSpec = Range(start: Bound, end: Bound) | IndexType(spec: TypeSpec) | RawIndex(raw: Literal)

  /** src/parse_tree/declaration.py, the TypeSpec family. */
  datatype TypeSpec =
    | SimpleType(name: string)
    | ArrayType(indexType: IndexSpec, elementType: TypeSpec)
    | RecordType(fields: seq<VarDeclaration>)

  /** `VarDeclaration`: identifiers sharing one type specification. */
  datatype VarDeclaration = VarDeclaration(identifiers: seq<string>, typeSpec: TypeSpec)

  /** `Parameter`: formal parameters sharing one type specification. */
  datatype Parameter = Parameter(identifiers: seq<string>, typeSpec: TypeSpec)

  /** The declarations a block may hold. */
  datatype Declaration =
    | VarDecl(decl: VarDeclaration)
    | ConstDecl(identifier: string, value: Literal)
    | TypeDecl(identifier: string, typeSpec: TypeSpec)
    | ProcedureDecl(name: string, parameters: seq<Parameter>, block: Block)
    | FunctionDecl(name: string, parameters: seq<Parameter>, returnType: TypeSpec, block: Block)

  /** src/parse_tree/program.py. A block's compound statement is kept as its list of
      statements. */
  datatype Block = Block(declarations: seq<Declaration>, body: seq<Statement>)

  datatype Program = Program(name: string, block: Block)

  // ---------------------------------------------------------------------------
  // `accept`: the visitor method each node dispatches to

  function ExpressionHandler(e: Expression): string {
    match e
    case BinaryOp(_, _, _) => "visit_binary_op"
    case UnaryOp(_, _) => "visit_unary_op"
    case Variable(_, _, _) => "visit_variable"
    case Number(_) => "visit_number"
    case String(_) => "visit_string"
    case Char(_) => "visit_char"
    case Boolean(_) => "visit_boolean"
    case Parenthesized(_) => "visit_parenthesized_expression"
    case FunctionCall(_, _) => "visit_function_call"
  }

  function StatementHandler(s: Statement): string {
    match s
    case Compound(_) => "visit_compound_statement"
    case Assignment(_, _) => "visit_assignment_statement"
    case If(_, _, _) => "visit_if_statement"
    case While(_, _) => "visit_while_statement"
    case For(_, _, _, _, _) => "visit_for_statement"
    case Repeat(_, _) => "visit_repeat_statement"
    case Case(_, _) => "visit_case_statement"
    case ProcedureCall(_, _) => "visit_procedure_call"
    case Empty => "visit_empty_statement"
  }

  function DeclarationHandler(d: Declaration): string {
    match d
    case VarDecl(_) => "visit_var_declaration"
    case ConstDecl(_, _) => "visit_const_declaration"
    case TypeDecl(_, _) => "visit_type_declaration"
    case ProcedureDecl(_, _, _) => "visit_procedure_declaration"
    case FunctionDecl(_, _, _, _) => "visit_function_declaration"
  }

  function TypeSpecHandler(t: TypeSpec): string {
    match t
    case SimpleType(_) => "visit_simple_type"
    case ArrayType(_, _) => "visit_array_type"
    case RecordType(_) => "visit_record_type"
  }

  /** The `visit_*` methods the semantic visitor defines (src/semantic/visitor.py). */
  const VisitorMethods: set<string> := {
    "visit_program", "visit_block", "visit_var_declaration", "visit_const_declaration",
    "visit_type_declaration", "visit_procedure_declaration", "visit_function_declaration",
    "visit_parameter", "visit_simple_type", "visit_array_type", "visit_record_type",
    "visit_compound_statement", "visit_assignment_statement", "visit_if_statement",
    "visit_while_statement", "visit_for_statement", "visit_repeat_statement",
    "visit_case_statement", "visit_procedure_call", "visit_empty_statement",
    "visit_binary_op", "visit_unary_op", "visit_variable", "visit_number", "visit_string",
    "visit_char", "visit_boolean", "visit_function_call"
  }

  /** Every node dispatches to a method the visitor defines, except a parenthesized
      expression, whose `visit_parenthesized_expression` does not exist. */
  lemma OnlyParenthesizedLacksHandler(e: Expression, s: Statement, d: Declaration, t: TypeSpec)
    ensures ExpressionHandler(e) in VisitorMethods <==> !e.Parenthesized?
    ensures StatementHandler(s) in VisitorMethods
    ensures DeclarationHandler(d) in VisitorMethods
    ensures TypeSpecHandler(t) in VisitorMethods
  {
  }
}
