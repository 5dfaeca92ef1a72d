/** The error kinds raised by the front end (the modules under src/error). Message formatting is not
    modelled; each kind keeps the values its message is built from. */
module Errors {
  import opened Wrappers
  import opened Positions

  /** Raised by `Reader.expect`: the character wanted, the one found, and where. */
  datatype LexicalError = LexicalError(expected: char, got: Option<char>, position: Position)

  /** The semantic error taxonomy, plus the two internal failures the analyzer can hit:
      a missing attribute (a node kind without its `visit_*` handler, or a raw value
      visited as if it were a node), and a scope nesting deeper than the
      ten-slot display. */
  datatype SemanticError =
    | UndeclaredIdentifier(identifier: string)
    | DuplicateDeclaration(identifier: string)
    | TypeMismatch(expected: string, got: string, context: string)
    | InvalidOperation(operation: string, operandType: string)
    | InvalidArrayIndex(message: string)
    | InvalidRecordAccess(recordName: string, fieldName: string)
    | InvalidFunctionCall(message: string)
    | MissingAttribute(name: string)
    | DisplayOverflow(level: int)
}
