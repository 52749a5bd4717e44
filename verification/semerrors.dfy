/** The kinds of semantic diagnostic the checker reports. Locations and message texts are not
    modelled; a run's diagnostics are an ordered sequence of kinds. */
module SemErrors {

  datatype ErrorKind =
    | UndeclaredIdent
    | NonArrayInArrayAccess
    | NonIntegerIndexInArrayAccess
    | NonReferenceableLeftExpr
    | NonReferenceableExpression
    | IncompatibleAssignment
    | BooleanRequired
    | IncompatibleOperator
    | IncompatibleReturn
    | ReadWriteRequireBasic
    | IsNotCallable
    | IsNotFunction
    | NumberOfParameters
    /** The argument at 1-based `position` does not match its parameter. */
    | IncompatibleParameter(position: nat)
    | NoMainProperlyDeclared

  /** How many times kind k occurs in es. */
  function Occurrences(es: seq<ErrorKind>, k: ErrorKind): nat
  {
    multiset(es)[k]
  }
}
