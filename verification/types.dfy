/** The type algebra the checker works with: the type values the type manager creates, the
    predicates it answers, and the three relations whose definitions are not part of this model. */
module Types {

  /** One value per type the type manager can create. Arrays carry their element type and size,
      functions their parameter types in declaration order and their return type (Void for a
      procedure). Error is the sentinel given to ill-typed expressions. */
  datatype Type =
    | Integer
    | Float
    | Boolean
    | Character
    | Void
    | Array(elem: Type, size: nat)
    | Function(params: seq<Type>, ret: Type)
    | Error

  /** Integer or Float. */
  predicate IsNumeric(t: Type)
  {
    t.Integer? || t.Float?
  }

  /** The four scalar types that read and write accept. */
  predicate IsPrimitive(t: Type)
  {
    t.Integer? || t.Float? || t.Boolean? || t.Character?
  }

  /** A function type whose return type is Void; false for every non-function type. */
  predicate IsVoidFunction(t: Type)
  {
    t.Function? && t.ret.Void?
  }

  /** True when Error occurs anywhere inside t. */
  predicate MentionsError(t: Type)
  {
    match t
    case Error => true
    case Array(e, _) => MentionsError(e)
    case Function(ps, r) => MentionsError(r) || exists i :: 0 <= i < |ps| && MentionsError(ps[i])
    case _ => false
  }

  /** The type manager's equalTypes, copyableTypes(destination, source) and
      comparableTypes(left, right, operator). Their definitions are not part of this model, so
      every rule that consults them takes them as a parameter. */
  datatype Relations = Relations(
    equal: (Type, Type) -> bool,
    copyable: (Type, Type) -> bool,
    comparable: (Type, Type, string) -> bool)
}
