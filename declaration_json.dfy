/** `to_dict` of the declaration and program nodes (src/parse_tree/declaration.py and
    src/parse_tree/program.py), the reader that decodes those dicts, and the round trip. */
module DeclarationJson {
  import opened Wrappers
  import opened JsonValues
  import opened Ast
  import opened ExpressionJson
  import opened StatementJson

  // ---------------------------------------------------------------------------
  // Type specifications

  /** `TypeSpec.to_dict`. */
  function TypeSpecToDict(t: TypeSpec): Json
    decreases t
  {
    match t
    case SimpleType(n) => JObj([Field("type", JStr("SimpleType")), Field("name", JStr(n))])
    case ArrayType(ix, el) =>
      JObj([Field("type", JStr("ArrayType")), Field("index_type", IndexToJson(ix)), Field("element_type", TypeSpecToDict(el))])
    case RecordType(fs) => JObj([Field("type", JStr("RecordType")), Field("fields", VarDeclarationsToJson(fs))])
  }

  /** `index_type` of an array: a range tuple becomes a `Range` dict, a node its own dict,
      and a raw value stays as it is. */
  function IndexToJson(ix: IndexSpec): Json
    decreases ix
  {
    match ix
    case Range(a, b) => JObj([Field("type", JStr("Range")), Field("start", BoundToJson(a)), Field("end", BoundToJson(b))])
    case IndexType(t) => TypeSpecToDict(t)
    case RawIndex(l) => LiteralToJson(l)
  }

  function BoundToJson(b: Bound): Json {
    match b
    case BoundNode(e) => ExpressionToDict(e)
    case BoundValue(l) => LiteralToJson(l)
  }

  function VarDeclarationToDict(v: VarDeclaration): Json
    decreases v
  {
    JObj([Field("type", JStr("VarDeclaration")), Field("identifiers", Strings(v.identifiers)), Field("type_spec", TypeSpecToDict(v.typeSpec))])
  }

  function VarDeclarationsToJson(vs: seq<VarDeclaration>): (j: Json)
    ensures j.JArr? && |j.items| == |vs|
    decreases vs
  {
    JArr(seq(|vs|, i requires 0 <= i < |vs| => VarDeclarationToDict(vs[i])))
  }

  function TypeSpecFromDict(j: Json): Option<TypeSpec>
    decreases j, 1
  {
    if Shaped(j, "SimpleType", ["name"]) && j.fields[1].value.JStr? then Some(SimpleType(j.fields[1].value.s))
    else if Shaped(j, "ArrayType", ["index_type", "element_type"]) then
      match (IndexFromJson(j.fields[1].value), TypeSpecFromDict(j.fields[2].value))
      case (Some(ix), Some(el)) => Some(ArrayType(ix, el))
      case _ => None
    else if Shaped(j, "RecordType", ["fields"]) then
      match VarDeclarationsFromJson(j.fields[1].value)
      case Some(fs) => Some(RecordType(fs))
      case None => None
    else None
  }

  /** A `Range` dict is a range; any other dict a type specification; anything else a raw
      value. */
  function IndexFromJson(j: Json): Option<IndexSpec>
    decreases j, 2
  {
    if TagIs(j, "Range") then
      if Shaped(j, "Range", ["start", "end"]) then
        match (BoundFromJson(j.fields[1].value), BoundFromJson(j.fields[2].value))
        case (Some(a), Some(b)) => Some(Range(a, b))
        case _ => None
      else None
    else if j.JObj? then
      match TypeSpecFromDict(j)
      case Some(t) => Some(IndexType(t))
      case None => None
    else
      match LiteralFromJson(j)
      case Some(l) => Some(RawIndex(l))
      case None => None
  }

  function BoundFromJson(j: Json): Option<Bound> {
    if j.JObj? then
      match ExpressionFromDict(j)
      case Some(e) => Some(BoundNode(e))
      case None => None
    else
      match LiteralFromJson(j)
      case Some(l) => Some(BoundValue(l))
      case None => None
  }

  function VarDeclarationFromDict(j: Json): Option<VarDeclaration>
    decreases j, 0
  {
    if Shaped(j, "VarDeclaration", ["identifiers", "type_spec"]) then
      match (StringsFrom(j.fields[1].value), TypeSpecFromDict(j.fields[2].value))
      case (Some(ids), Some(t)) => Some(VarDeclaration(ids, t))
      case _ => None
    else None
  }

  function VarDeclarationsFromJson(j: Json): Option<seq<VarDeclaration>>
    decreases j, 0
  {
    if j.JArr? && forall i :: 0 <= i < |j.items| ==> VarDeclarationFromDict(j.items[i]).Some? then
      Some(seq(|j.items|, i requires 0 <= i < |j.items| => VarDeclarationFromDict(j.items[i]).value))
    else None
  }

  function NormTypeSpec(t: TypeSpec): TypeSpec
    decreases t
  {
    match t
    case SimpleType(n) => t
    case ArrayType(ix, el) => ArrayType(NormIndex(ix), NormTypeSpec(el))
    case RecordType(fs) => RecordType(NormVarDeclarations(fs))
  }

  function NormIndex(ix: IndexSpec): IndexSpec
    decreases ix
  {
    match ix
    case Range(a, b) => Range(NormBound(a), NormBound(b))
    case IndexType(t) => IndexType(NormTypeSpec(t))
    case RawIndex(_) => ix
  }

  function NormBound(b: Bound): Bound {
    match b
    case BoundNode(e) => BoundNode(NormExpression(e))
    case BoundValue(_) => b
  }

  function NormVarDeclarations(vs: seq<VarDeclaration>): (r: seq<VarDeclaration>)
    ensures |r| == |vs|
    decreases vs
  {
    seq(|vs|, i requires 0 <= i < |vs| => VarDeclaration(vs[i].identifiers, NormTypeSpec(vs[i].typeSpec)))
  }

  /** Decoding a type specification's dict gives it back, up to empty `field`s in its
      bounds. */
  lemma {:induction false} TypeSpecRoundTrip(t: TypeSpec)
    ensures TypeSpecFromDict(TypeSpecToDict(t)) == Some(NormTypeSpec(t))
    decreases t
  {
    match t
    case SimpleType(n) =>
      assert Shaped(TypeSpecToDict(t), "SimpleType", ["name"]);
    case ArrayType(ix, el) =>
      IndexRoundTrip(ix);
      TypeSpecRoundTrip(el);
      ArrayTypeDecodes(IndexToJson(ix), TypeSpecToDict(el), NormIndex(ix), NormTypeSpec(el));
    case RecordType(fs) =>
      VarDeclarationsRoundTrip(fs);
      RecordTypeDecodes(VarDeclarationsToJson(fs), NormVarDeclarations(fs));
  }

  lemma {:induction false} IndexRoundTrip(ix: IndexSpec)
    ensures IndexFromJson(IndexToJson(ix)) == Some(NormIndex(ix))
    decreases ix
  {
    match ix
    case Range(a, b) =>
      BoundRoundTrip(a);
      BoundRoundTrip(b);
      RangeDecodes(BoundToJson(a), BoundToJson(b), NormBound(a), NormBound(b));
    case IndexType(t) =>
      TypeSpecRoundTrip(t);
      TypeSpecDictIsNotRange(t);
    case RawIndex(l) =>
      LiteralRoundTrip(l);
  }

  lemma {:induction false} VarDeclarationsRoundTrip(vs: seq<VarDeclaration>)
    ensures VarDeclarationsFromJson(VarDeclarationsToJson(vs)) == Some(NormVarDeclarations(vs))
    decreases vs
  {
    var items := VarDeclarationsToJson(vs).items;
    forall i | 0 <= i < |vs|
      ensures VarDeclarationFromDict(items[i]) == Some(VarDeclaration(vs[i].identifiers, NormTypeSpec(vs[i].typeSpec)))
    {
      assert items[i] == VarDeclarationToDict(vs[i]);
      TypeSpecRoundTrip(vs[i].typeSpec);
      VarDeclarationDecodes(vs[i].identifiers, TypeSpecToDict(vs[i].typeSpec), NormTypeSpec(vs[i].typeSpec));
    }
    var back := seq(|items|, i requires 0 <= i < |items| => VarDeclarationFromDict(items[i]).value);
    assert back == NormVarDeclarations(vs);
  }

  lemma BoundRoundTrip(b: Bound)
    ensures BoundFromJson(BoundToJson(b)) == Some(NormBound(b))
  {
    match b
    case BoundNode(e) =>
      ExpressionRoundTrip(e);
      ExpressionDictIsObject(e);
    case BoundValue(l) =>
      LiteralRoundTrip(l);
  }

  lemma LiteralRoundTrip(l: Literal)
    ensures LiteralFromJson(LiteralToJson(l)) == Some(l)
    ensures !LiteralToJson(l).JObj?
  {
  }

  lemma ExpressionDictIsObject(e: Expression)
    ensures ExpressionToDict(e).JObj?
  {
    match e
    case Variable(n, x, f) =>
      assert ExpressionToDict(e) == VariableDict(n, if x.Some? then Some(ExpressionToDict(x.value)) else None, f);
    case _ =>
  }

  lemma TypeSpecDictIsNotRange(t: TypeSpec)
    ensures TypeSpecToDict(t).JObj? && !TagIs(TypeSpecToDict(t), "Range")
  {
  }

  lemma ArrayTypeDecodes(jix: Json, jel: Json, ix: IndexSpec, el: TypeSpec)
    requires IndexFromJson(jix) == Some(ix) && TypeSpecFromDict(jel) == Some(el)
    ensures TypeSpecFromDict(JObj([Field("type", JStr("ArrayType")), Field("index_type", jix), Field("element_type", jel)]))
            == Some(ArrayType(ix, el))
  {
    var j := JObj([Field("type", JStr("ArrayType")), Field("index_type", jix), Field("element_type", jel)]);
    assert Shaped(j, "ArrayType", ["index_type", "element_type"]);
  }

  lemma RecordTypeDecodes(jfs: Json, fs: seq<VarDeclaration>)
    requires VarDeclarationsFromJson(jfs) == Some(fs)
    ensures TypeSpecFromDict(JObj([Field("type", JStr("RecordType")), Field("fields", jfs)])) == Some(RecordType(fs))
  {
    assert Shaped(JObj([Field("type", JStr("RecordType")), Field("fields", jfs)]), "RecordType", ["fields"]);
  }

  lemma RangeDecodes(ja: Json, jb: Json, a: Bound, b: Bound)
    requires BoundFromJson(ja) == Some(a) && BoundFromJson(jb) == Some(b)
    ensures IndexFromJson(JObj([Field("type", JStr("Range")), Field("start", ja), Field("end", jb)])) == Some(Range(a, b))
  {
    assert Shaped(JObj([Field("type", JStr("Range")), Field("start", ja), Field("end", jb)]), "Range", ["start", "end"]);
  }

  lemma VarDeclarationDecodes(ids: seq<string>, jt: Json, t: TypeSpec)
    requires TypeSpecFromDict(jt) == Some(t)
    ensures VarDeclarationFromDict(JObj([Field("type", JStr("VarDeclaration")), Field("identifiers", Strings(ids)), Field("type_spec", jt)]))
            == Some(VarDeclaration(ids, t))
  {
    var j := JObj([Field("type", JStr("VarDeclaration")), Field("identifiers", Strings(ids)), Field("type_spec", jt)]);
    assert Shaped(j, "VarDeclaration", ["identifiers", "type_spec"]);
    StringsRoundTrip(ids);
  }

  // ---------------------------------------------------------------------------
  // Declarations, blocks and the program

  function ParameterToDict(p: Parameter): Json {
    JObj([Field("type", JStr("Parameter")), Field("identifiers", Strings(p.identifiers)), Field("type_spec", TypeSpecToDict(p.typeSpec))])
  }

  function ParametersToJson(ps: seq<Parameter>): (j: Json)
    ensures j.JArr? && |j.items| == |ps|
  {
    JArr(seq(|ps|, i requires 0 <= i < |ps| => ParameterToDict(ps[i])))
  }

  function DeclarationToDict(d: Declaration): Json
    decreases d
  {
    match d
    case VarDecl(v) => VarDeclarationToDict(v)
    case ConstDecl(id, v) =>
      JObj([Field("type", JStr("ConstDeclaration")), Field("identifier", JStr(id)), Field("value", LiteralToJson(v))])
    case TypeDecl(id, t) =>
      JObj([Field("type", JStr("TypeDeclaration")), Field("identifier", JStr(id)), Field("type_spec", TypeSpecToDict(t))])
    case ProcedureDecl(n, ps, b) =>
      JObj([Field("type", JStr("ProcedureDeclaration")), Field("name", JStr(n)), Field("parameters", ParametersToJson(ps)),
            Field("block", BlockToDict(b))])
    case FunctionDecl(n, ps, rt, b) =>
      JObj([Field("type", JStr("FunctionDeclaration")), Field("name", JStr(n)), Field("parameters", ParametersToJson(ps)),
            Field("return_type", TypeSpecToDict(rt)), Field("block", BlockToDict(b))])
  }

  function DeclarationsToJson(ds: seq<Declaration>): (j: Json)
    ensures j.JArr? && |j.items| == |ds|
    decreases ds
  {
    JArr(seq(|ds|, i requires 0 <= i < |ds| => DeclarationToDict(ds[i])))
  }

  /** `Block.to_dict`: the compound statement is written as a `CompoundStatement` dict. */
  function BlockToDict(b: Block): Json
    decreases b
  {
    JObj([Field("type", JStr("Block")), Field("declarations", DeclarationsToJson(b.declarations)),
          Field("compound_statement", CompoundDict(StatementsToJson(b.body)))])
  }

  function ProgramToDict(p: Program): Json {
    JObj([Field("type", JStr("Program")), Field("name", JStr(p.name)), Field("block", BlockToDict(p.block))])
  }

  function ParameterFromDict(j: Json): Option<Parameter> {
    if Shaped(j, "Parameter", ["identifiers", "type_spec"]) then
      match (StringsFrom(j.fields[1].value), TypeSpecFromDict(j.fields[2].value))
      case (Some(ids), Some(t)) => Some(Parameter(ids, t))
      case _ => None
    else None
  }

  function ParametersFromJson(j: Json): Option<seq<Parameter>> {
    if j.JArr? && forall i :: 0 <= i < |j.items| ==> ParameterFromDict(j.items[i]).Some? then
      Some(seq(|j.items|, i requires 0 <= i < |j.items| => ParameterFromDict(j.items[i]).value))
    else None
  }

  function DeclarationFromDict(j: Json): Option<Declaration>
    decreases j, 1
  {
    if TagIs(j, "VarDeclaration") then
      match VarDeclarationFromDict(j)
      case Some(v) => Some(VarDecl(v))
      case None => None
    else if TagIs(j, "ConstDeclaration") then
      if Shaped(j, "ConstDeclaration", ["identifier", "value"]) && j.fields[1].value.JStr? then
        match LiteralFromJson(j.fields[2].value)
        case Some(v) => Some(ConstDecl(j.fields[1].value.s, v))
        case None => None
      else None
    else if TagIs(j, "TypeDeclaration") then
      if Shaped(j, "TypeDeclaration", ["identifier", "type_spec"]) && j.fields[1].value.JStr? then
        match TypeSpecFromDict(j.fields[2].value)
        case Some(t) => Some(TypeDecl(j.fields[1].value.s, t))
        case None => None
      else None
    else if TagIs(j, "ProcedureDeclaration") then
      if Shaped(j, "ProcedureDeclaration", ["name", "parameters", "block"]) && j.fields[1].value.JStr? then
        match (ParametersFromJson(j.fields[2].value), BlockFromDict(j.fields[3].value))
        case (Some(ps), Some(b)) => Some(ProcedureDecl(j.fields[1].value.s, ps, b))
        case _ => None
      else None
    else if TagIs(j, "FunctionDeclaration") then FunctionFromDict(j)
    else None
  }

  function FunctionFromDict(j: Json): Option<Declaration>
    decreases j, 0
  {
    if Shaped(j, "FunctionDeclaration", ["name", "parameters", "return_type", "block"]) && j.fields[1].value.JStr? then
      match (ParametersFromJson(j.fields[2].value), TypeSpecFromDict(j.fields[3].value), BlockFromDict(j.fields[4].value))
      case (Some(ps), Some(rt), Some(b)) => Some(FunctionDecl(j.fields[1].value.s, ps, rt, b))
      case _ => None
    else None
  }

  function DeclarationsFromJson(j: Json): Option<seq<Declaration>>
    decreases j, 2
  {
    if j.JArr? && forall i :: 0 <= i < |j.items| ==> DeclarationFromDict(j.items[i]).Some? then
      Some(seq(|j.items|, i requires 0 <= i < |j.items| => DeclarationFromDict(j.items[i]).value))
    else None
  }

  /** The compound statement of a block must decode to a compound statement. */
  function BlockFromDict(j: Json): Option<Block>
    decreases j, 2
  {
    if Shaped(j, "Block", ["declarations", "compound_statement"]) then
      match (DeclarationsFromJson(j.fields[1].value), StatementFromDict(j.fields[2].value))
      case (Some(ds), Some(Compound(ss))) => Some(Block(ds, ss))
      case _ => None
    else None
  }

  function ProgramFromDict(j: Json): Option<Program> {
    if Shaped(j, "Program", ["name", "block"]) && j.fields[1].value.JStr? then
      match BlockFromDict(j.fields[2].value)
      case Some(b) => Some(Program(j.fields[1].value.s, b))
      case None => None
    else None
  }

  function NormParameters(ps: seq<Parameter>): (r: seq<Parameter>)
    ensures |r| == |ps|
  {
    seq(|ps|, i requires 0 <= i < |ps| => Parameter(ps[i].identifiers, NormTypeSpec(ps[i].typeSpec)))
  }

  function NormDeclaration(d: Declaration): Declaration
    decreases d
  {
    match d
    case VarDecl(v) => VarDecl(VarDeclaration(v.identifiers, NormTypeSpec(v.typeSpec)))
    case ConstDecl(_, _) => d
    case TypeDecl(id, t) => TypeDecl(id, NormTypeSpec(t))
    case ProcedureDecl(n, ps, b) => ProcedureDecl(n, NormParameters(ps), NormBlock(b))
    case FunctionDecl(n, ps, rt, b) => FunctionDecl(n, NormParameters(ps), NormTypeSpec(rt), NormBlock(b))
  }

  function NormDeclarations(ds: seq<Declaration>): (r: seq<Declaration>)
    ensures |r| == |ds|
    decreases ds
  {
    seq(|ds|, i requires 0 <= i < |ds| => NormDeclaration(ds[i]))
  }

  function NormBlock(b: Block): Block
    decreases b
  {
    Block(NormDeclarations(b.declarations), NormStatements(b.body))
  }

  lemma ParametersRoundTrip(ps: seq<Parameter>)
    ensures ParametersFromJson(ParametersToJson(ps)) == Some(NormParameters(ps))
  {
    var items := ParametersToJson(ps).items;
    forall i | 0 <= i < |ps|
      ensures ParameterFromDict(items[i]) == Some(Parameter(ps[i].identifiers, NormTypeSpec(ps[i].typeSpec)))
    {
      TypeSpecRoundTrip(ps[i].typeSpec);
      StringsRoundTrip(ps[i].identifiers);
      var j := items[i];
      assert Shaped(j, "Parameter", ["identifiers", "type_spec"]);
    }
    var back := seq(|items|, i requires 0 <= i < |items| => ParameterFromDict(items[i]).value);
    assert back == NormParameters(ps);
  }

  /** Decoding a declaration's dict gives it back, up to empty `field`s. */
  lemma {:induction false} DeclarationRoundTrip(d: Declaration)
    ensures DeclarationFromDict(DeclarationToDict(d)) == Some(NormDeclaration(d))
    decreases d
  {
    match d
    case VarDecl(v) =>
      TypeSpecRoundTrip(v.typeSpec);
      VarDeclarationDecodes(v.identifiers, TypeSpecToDict(v.typeSpec), NormTypeSpec(v.typeSpec));
    case ConstDecl(id, v) =>
      LiteralRoundTrip(v);
      ConstDecodes(id, LiteralToJson(v), v);
    case TypeDecl(id, t) =>
      TypeSpecRoundTrip(t);
      TypeDeclDecodes(id, TypeSpecToDict(t), NormTypeSpec(t));
    case ProcedureDecl(n, ps, b) =>
      ParametersRoundTrip(ps);
      BlockRoundTrip(b);
      ProcedureDecodes(n, ParametersToJson(ps), BlockToDict(b), NormParameters(ps), NormBlock(b));
    case FunctionDecl(n, ps, rt, b) =>
      ParametersRoundTrip(ps);
      TypeSpecRoundTrip(rt);
      BlockRoundTrip(b);
      FunctionDecodes(n, ParametersToJson(ps), TypeSpecToDict(rt), BlockToDict(b), NormParameters(ps), NormTypeSpec(rt), NormBlock(b));
  }

  lemma {:induction false} DeclarationsRoundTrip(ds: seq<Declaration>)
    ensures DeclarationsFromJson(DeclarationsToJson(ds)) == Some(NormDeclarations(ds))
    decreases ds
  {
    var items := DeclarationsToJson(ds).items;
    forall i | 0 <= i < |ds|
      ensures DeclarationFromDict(items[i]) == Some(NormDeclaration(ds[i]))
    {
      DeclarationRoundTrip(ds[i]);
    }
    var back := seq(|items|, i requires 0 <= i < |items| => DeclarationFromDict(items[i]).value);
    assert back == NormDeclarations(ds);
  }

  lemma {:induction false} BlockRoundTrip(b: Block)
    ensures BlockFromDict(BlockToDict(b)) == Some(NormBlock(b))
    decreases b
  {
    DeclarationsRoundTrip(b.declarations);
    StatementsRoundTrip(b.body);
    CompoundDecodes(StatementsToJson(b.body), NormStatements(b.body));
    BlockDecodes(DeclarationsToJson(b.declarations), CompoundDict(StatementsToJson(b.body)), NormDeclarations(b.declarations), NormStatements(b.body));
  }

  /** Decoding a program's dict gives the program back, up to empty `field`s. */
  lemma ProgramRoundTrip(p: Program)
    ensures ProgramFromDict(ProgramToDict(p)) == Some(Program(p.name, NormBlock(p.block)))
  {
    BlockRoundTrip(p.block);
    assert Shaped(ProgramToDict(p), "Program", ["name", "block"]);
  }

  lemma ConstDecodes(id: string, jv: Json, v: Literal)
    requires LiteralFromJson(jv) == Some(v)
    ensures DeclarationFromDict(JObj([Field("type", JStr("ConstDeclaration")), Field("identifier", JStr(id)), Field("value", jv)]))
            == Some(ConstDecl(id, v))
  {
    assert Shaped(JObj([Field("type", JStr("ConstDeclaration")), Field("identifier", JStr(id)), Field("value", jv)]),
                  "ConstDeclaration", ["identifier", "value"]);
  }

  lemma TypeDeclDecodes(id: string, jt: Json, t: TypeSpec)
    requires TypeSpecFromDict(jt) == Some(t)
    ensures DeclarationFromDict(JObj([Field("type", JStr("TypeDeclaration")), Field("identifier", JStr(id)), Field("type_spec", jt)]))
            == Some(TypeDecl(id, t))
  {
    assert Shaped(JObj([Field("type", JStr("TypeDeclaration")), Field("identifier", JStr(id)), Field("type_spec", jt)]),
                  "TypeDeclaration", ["identifier", "type_spec"]);
  }

  lemma ProcedureDecodes(n: string, jps: Json, jb: Json, ps: seq<Parameter>, b: Block)
    requires ParametersFromJson(jps) == Some(ps) && BlockFromDict(jb) == Some(b)
    ensures DeclarationFromDict(JObj([Field("type", JStr("ProcedureDeclaration")), Field("name", JStr(n)), Field("parameters", jps), Field("block", jb)]))
            == Some(ProcedureDecl(n, ps, b))
  {
    var j := JObj([Field("type", JStr("ProcedureDeclaration")), Field("name", JStr(n)), Field("parameters", jps), Field("block", jb)]);
    assert Shaped(j, "ProcedureDeclaration", ["name", "parameters", "block"]);
  }

  lemma FunctionDecodes(n: string, jps: Json, jrt: Json, jb: Json, ps: seq<Parameter>, rt: TypeSpec, b: Block)
    requires ParametersFromJson(jps) == Some(ps) && TypeSpecFromDict(jrt) == Some(rt) && BlockFromDict(jb) == Some(b)
    ensures DeclarationFromDict(JObj([Field("type", JStr("FunctionDeclaration")), Field("name", JStr(n)), Field("parameters", jps),
                                      Field("return_type", jrt), Field("block", jb)]))
            == Some(FunctionDecl(n, ps, rt, b))
  {
    var j := JObj([Field("type", JStr("FunctionDeclaration")), Field("name", JStr(n)), Field("parameters", jps),
                   Field("return_type", jrt), Field("block", jb)]);
    assert Shaped(j, "FunctionDeclaration", ["name", "parameters", "return_type", "block"]);
    assert FunctionFromDict(j) == Some(FunctionDecl(n, ps, rt, b));
  }

  lemma BlockDecodes(jds: Json, jc: Json, ds: seq<Declaration>, ss: seq<Statement>)
    requires DeclarationsFromJson(jds) == Some(ds) && StatementFromDict(jc) == Some(Compound(ss))
    ensures BlockFromDict(JObj([Field("type", JStr("Block")), Field("declarations", jds), Field("compound_statement", jc)]))
            == Some(Block(ds, ss))
  {
    assert Shaped(JObj([Field("type", JStr("Block")), Field("declarations", jds), Field("compound_statement", jc)]),
                  "Block", ["declarations", "compound_statement"]);
  }
}
