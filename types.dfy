/** The semantic type model (src/semantic/types.py): a simple kind, optionally carrying
    array or record information, with the directional assignment-compatibility rule. */
module Types {
  import opened Wrappers
  import opened Strings

  datatype Kind = INTEGER | REAL | BOOLEAN | CHAR | STRING | VOID

  /** An array's index and element types, bounds and sizes. */
  datatype ArrayInfo = ArrayInfo(indexType: Type, elementType: Type, low: int, high: int, elementSize: int, size: int)

  /** A record's fields, each with its type and offset, and its total size. */
  datatype RecordInfo = RecordInfo(fields: map<string, (Type, int)>, size: int)

  /** A type: its kind plus the optional array and record information. The analyzer
      builds array and record types with kind INTEGER. */
  datatype Type = Type(kind: Kind, arrayInfo: Option<ArrayInfo>, recordInfo: Option<RecordInfo>)

  function Simple(k: Kind): (t: Type)
    ensures t.kind == k && IsSimple(t)
  {
    Type(k, None, None)
  }

  const IntegerType := Simple(INTEGER)
  const RealType := Simple(REAL)
  const BooleanType := Simple(BOOLEAN)
  const CharType := Simple(CHAR)
  const StringType := Simple(STRING)
  const VoidType := Simple(VOID)

  predicate IsSimple(t: Type) {
    t.arrayInfo.None? && t.recordInfo.None?
  }

  predicate IsArray(t: Type) {
    t.arrayInfo.Some?
  }

  predicate IsRecord(t: Type) {
    t.recordInfo.Some?
  }

  predicate IsNumeric(t: Type) {
    t.kind == INTEGER || t.kind == REAL
  }

  predicate IsOrdinal(t: Type) {
    t.kind == INTEGER || t.kind == BOOLEAN || t.kind == CHAR
  }

  /** `self.compatible_with(other)`: may a value of type `u` be used where `t` is expected? */
  predicate Compatible(t: Type, u: Type)
    decreases t
  {
    (t.kind == u.kind && (IsSimple(t) || (IsArray(t) && IsArray(u) && Compatible(t.arrayInfo.value.elementType, u.arrayInfo.value.elementType))))
    || (t.kind == REAL && u.kind == INTEGER)
  }

  /** `__eq__`: two types are equal when their kinds are. */
  predicate Same(t: Type, u: Type) {
    t.kind == u.kind
  }

  function KindName(k: Kind): string {
    match k
    case INTEGER => "integer"
    case REAL => "real"
    case BOOLEAN => "boolean"
    case CHAR => "char"
    case STRING => "string"
    case VOID => "void"
  }

  /** `__repr__`. */
  function Repr(t: Type): string
    decreases t
  {
    if IsArray(t) then "array of " + Repr(t.arrayInfo.value.elementType)
    else if IsRecord(t) then "record"
    else KindName(t.kind)
  }

  // ---------------------------------------------------------------------------
  // Properties of compatibility

  /** A simple type accepts every type of its kind, including the array and record
      types, which all have kind INTEGER. */
  lemma SimpleAcceptsSameKind(t: Type, u: Type)
    requires IsSimple(t) && t.kind == u.kind
    ensures Compatible(t, u)
  {
  }

  /** REAL accepts INTEGER, and INTEGER does not accept REAL. */
  lemma RealWidensInteger(t: Type, u: Type)
    requires t.kind == REAL && u.kind == INTEGER
    ensures Compatible(t, u) && !Compatible(u, t)
  {
  }

  /** A record type (one without array information) is compatible with nothing but
      through the REAL-accepts-INTEGER rule; in particular a record built by the
      analyzer (kind INTEGER) accepts nothing, not even itself. */
  lemma RecordAcceptsNothing(t: Type, u: Type)
    requires IsRecord(t) && !IsArray(t)
    ensures Compatible(t, u) <==> t.kind == REAL && u.kind == INTEGER
  {
  }

  /** Two array types of one kind are compatible exactly when their element types are. */
  lemma ArraysByElement(t: Type, u: Type)
    requires IsArray(t) && IsArray(u) && t.kind == u.kind
    ensures Compatible(t, u) <==> Compatible(t.arrayInfo.value.elementType, u.arrayInfo.value.elementType)
  {
  }

  /** Compatibility never relates two different kinds other than REAL and INTEGER. */
  lemma CompatibleKinds(t: Type, u: Type)
    requires Compatible(t, u)
    ensures t.kind == u.kind || (t.kind == REAL && u.kind == INTEGER)
  {
  }

  /** Compatible in both directions means equal. */
  lemma MutuallyCompatibleAreSame(t: Type, u: Type)
    requires Compatible(t, u) && Compatible(u, t)
    ensures Same(t, u)
  {
  }

  /** A type whose chain of element types ends in a simple type, never a record. */
  predicate EndsSimple(t: Type)
    decreases t
  {
    IsSimple(t) || (IsArray(t) && EndsSimple(t.arrayInfo.value.elementType))
  }

  /** A type accepts itself exactly when its element chain ends in a simple type: a
      record, or an array of records, does not even accept itself. */
  lemma {:induction false} CompatibleReflexive(t: Type)
    ensures Compatible(t, t) <==> EndsSimple(t)
    decreases t
  {
    if IsArray(t) {
      CompatibleReflexive(t.arrayInfo.value.elementType);
    }
  }

  /** Compatibility is transitive. */
  lemma {:induction false} CompatibleTransitive(a: Type, b: Type, c: Type)
    requires Compatible(a, b) && Compatible(b, c)
    ensures Compatible(a, c)
    decreases a
  {
    if a.kind == b.kind && !IsSimple(a) && IsArray(a) && IsArray(b) && b.kind == c.kind && IsArray(c) {
      CompatibleTransitive(a.arrayInfo.value.elementType, b.arrayInfo.value.elementType, c.arrayInfo.value.elementType);
    }
  }

  /** Equality by kind ignores structure: the INTEGER type equals a record type that
      it accepts but that does not accept it back. */
  lemma SameIgnoresStructure()
    ensures var rec := Type(INTEGER, None, Some(RecordInfo(map[], 0)));
            Same(IntegerType, rec) && Compatible(IntegerType, rec) && !Compatible(rec, IntegerType)
  {
  }

  /** The simple kinds render to distinct names, so `repr` tells simple types apart. */
  lemma ReprDistinguishesKinds(t: Type, u: Type)
    requires IsSimple(t) && IsSimple(u) && Repr(t) == Repr(u)
    ensures t.kind == u.kind
  {
  }

  /** Strips the array layers off a type. */
  function Innermost(t: Type): (r: Type)
    ensures !IsArray(r)
    decreases t
  {
    if IsArray(t) then Innermost(t.arrayInfo.value.elementType) else t
  }

  function ArrayDepth(t: Type): nat
    decreases t
  {
    if IsArray(t) then 1 + ArrayDepth(t.arrayInfo.value.elementType) else 0
  }

  function Prefixes(p: string, n: nat): string {
    if n == 0 then "" else p + Prefixes(p, n - 1)
  }

  /** `repr` names one "array of " per array layer, then the innermost type. */
  lemma {:induction false} ReprLayers(t: Type)
    ensures Repr(t) == Prefixes("array of ", ArrayDepth(t)) + Repr(Innermost(t))
    decreases t
  {
    if IsArray(t) {
      var e := t.arrayInfo.value.elementType;
      ReprLayers(e);
      assert Repr(t) == "array of " + (Prefixes("array of ", ArrayDepth(e)) + Repr(Innermost(e)));
    }
  }
}
