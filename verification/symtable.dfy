/** The part of the symbol table that the checker drives: the stack of active scopes and the
    current-function slot. How scopes store their symbols is not part of this model; name
    resolution reaches the rules as a lookup result. */
module SymTable {
  import opened Wrappers
  import opened Types

  /** Scope identifiers, assigned to programs and functions by an earlier pass. */
  type ScopeId = nat

  /** What a successful lookup yields: the symbol's type, and whether it is of the function class. */
  datatype Symbol = Symbol(ty: Type, isFunction: bool)

  /** The active scope stack (innermost last) and the signature of the function being checked. */
  datatype Table = Table(stack: seq<ScopeId>, currentFunction: Option<Type>)

  function PushThisScope(t: Table, sc: ScopeId): (r: Table)
    ensures r.stack == t.stack + [sc]
    ensures r.currentFunction == t.currentFunction
  {
    t.(stack := t.stack + [sc])
  }

  function PopScope(t: Table): (r: Table)
    requires |t.stack| > 0
    ensures r.stack + [t.stack[|t.stack| - 1]] == t.stack
    ensures r.currentFunction == t.currentFunction
  {
    t.(stack := t.stack[..|t.stack| - 1])
  }

  function SetCurrentFunctionTy(t: Table, f: Type): (r: Table)
    ensures r.stack == t.stack
    ensures r.currentFunction == Some(f)
  {
    t.(currentFunction := Some(f))
  }
}
