# Asl semantic type checking, modelled in Dafny

This project models the type-checking phase of the Asl teaching-language compiler: the listener
that walks the parse tree once, bottom-up, and gives every expression a type and an lvalue flag.
It also collects semantic diagnostics without stopping at the first one. Each `exit*` rule of the
listener is a pure Dafny function. It takes the decorations of the node's children and returns an
`Outcome`: the node's type, its lvalue flag (None where the rule writes none), and the diagnostics
the rule reports, in order. Statement rules return only their diagnostics.

Layout:

- `types.dfy` (`Types`): the type algebra. It has `Integer | Float | Boolean | Character | Void |
  Array | Function | Error`, the predicates `IsNumeric`, `IsPrimitive` and `IsVoidFunction`, and a
  `Relations` record. That record holds `equalTypes`, `copyableTypes` and `comparableTypes`, whose
  definitions lie outside this model, as function parameters.
- `semerrors.dfy` (`SemErrors`): the diagnostic kinds.
- `symtable.dfy` (`SymTable`): symbols, the active scope stack and the current-function slot.
- `rules.dfy` (`TypeCheck`): one function per listener rule, plus enterProgram/exitProgram and
  enterFunction/exitFunction over the scope stack.
- `reference.dfy` (`Reference`): an idealised discipline for the same rules, in which Error is
  absorbing. An operand, argument or value of type Error makes its node Error and draws no
  further diagnostic, because its cause was already reported or is silent by construction. Every
  fault draws exactly one diagnostic. An arithmetic, access, callee or arity fault also makes its
  node Error. A relational node stays Boolean, and a call whose non-Error argument mismatches its
  parameter keeps its return type. The lemmas say, for all inputs, exactly where the listener
  departs from it.
- `walk.dfy` (`Walk`, `WalkProperties`): a post-order walk over an expression, statement and
  program tree. It applies the rules and concatenates diagnostics in discovery order. The lemmas
  about it cover whole trees.

The listener itself departs from "Error is absorbing" in several places. The model keeps the
listener's behaviour in each case and states it as a lemma:

- after an arithmetic operator fault, the node is Integer, not Error;
- unary arithmetic on an Error operand is Float, with no diagnostic;
- relational nodes are always Boolean;
- `and`/`or` report a non-boolean operand even when the other operand is Error;
- an Error index still draws `nonIntegerIndexInArrayAccess`;
- a subscripted Error identifier in an expression still draws `nonArrayInArrayAccess`;
- a call with the wrong number of arguments keeps the declared return type, and a void callee
  then also draws `isNotFunction`;
- an Error argument is still checked against its parameter and draws `incompatibleParameter`
  whenever `equalTypes` rejects it;
- a call with an Error argument keeps the declared return type, and a void callee then also
  draws `isNotFunction`;
- a non-void function returning an Error value still draws `incompatibleReturn` whenever
  `equalTypes` rejects it.

As a consequence, one root cause can draw two diagnostics (`WalkProperties.OperatorFaultCascades`,
`WalkProperties.ArityMismatchCascades`, `WalkProperties.UndeclaredArgumentCascades`).

## Model

| member | source | states |
|---|---|---|
| TypeCheck.ExitArithmetic | asl/TypeCheckListener.cpp:271-301 | Binary: an Error operand makes the node Error with no diagnostic. Otherwise exactly one incompatibleOperator is reported iff an operand is non-numeric, or the operator is MOD with a non-Integer operand. The node is then Integer. Without a fault it is Integer iff both operands are Integer, and Float iff one is Float. Unary: a non-error, non-numeric operand draws one diagnostic and yields Integer. Otherwise the result is Integer for Integer and Float for Float or Error. The node is never an lvalue. |
| TypeCheck.ExitRelational | asl/TypeCheckListener.cpp:306-330 | The result is always Boolean and never an lvalue. `not` reports booleanRequired iff its operand is non-error and non-boolean. `and`/`or` report one incompatibleOperator iff some operand is non-error and non-boolean. Comparisons report one iff both operands are non-error and not comparableTypes. |
| TypeCheck.ExitValue | asl/TypeCheckListener.cpp:335-360 | A literal is never an lvalue and draws no diagnostic. An integer literal is Integer, a float literal Float, a character literal Character and a boolean literal Boolean. The type is Error exactly for an unrecognised literal. |
| TypeCheck.ExitParenthesis | asl/TypeCheckListener.cpp:444-449 | The child's type passes through unchanged. The node is not an lvalue and draws no diagnostic. |
| TypeCheck.ExitIdent | asl/TypeCheckListener.cpp:455-472 | An undeclared name is Error, is an lvalue and draws exactly one undeclaredIdent. A declared name gets its symbol's type, draws nothing, and is an lvalue iff it is not of function class. |
| TypeCheck.Access | asl/TypeCheckListener.cpp:412-438 | Indexed access. Without a subscript the identifier's type and lvalue flag pass through. A non-array base gives Error. A non-numeric index (Error included) gives Error and nonIntegerIndexInArrayAccess. An array with an acceptable index gives its element type with no diagnostic. nonArrayInArrayAccess is reported iff the base is a subscripted non-array, and the base is not Error where Error bases are exempt. Both faults can be reported, in that order. The lvalue flag is the identifier's. |
| TypeCheck.ExitLeftExpr | asl/TypeCheckListener.cpp:240-266 | An Error base never draws nonArrayInArrayAccess; another non-array base that is subscripted does. An Error index still gives Error and nonIntegerIndexInArrayAccess. A well-indexed array gives its element type. The lvalue flag is the identifier's. |
| TypeCheck.ExitExprIdent | asl/TypeCheckListener.cpp:412-438 | A subscripted non-array base, Error included, gives Error and nonArrayInArrayAccess. An Error index gives Error and nonIntegerIndexInArrayAccess. A well-indexed array gives its element type. The lvalue flag is the identifier's. |
| TypeCheck.ArgumentErrors | asl/TypeCheckListener.cpp:379-385 | Argument i is reported, as incompatibleParameter at position i+1, iff it is neither equalTypes to parameter i nor an Integer passed for a Float. Reports come in ascending position order, and only those positions are reported. |
| TypeCheck.ExitProcedure | asl/TypeCheckListener.cpp:366-392 | A non-function, non-error callee draws isNotCallable and gives Error. An Error callee gives Error silently. A function callee gives its declared return type. An arity mismatch draws exactly one numberOfParameters and checks no argument. Otherwise argument i is reported iff it mismatches parameter i, and only positions 1 to the argument count occur, ascending. The rule writes no lvalue flag. |
| TypeCheck.ExitProcExpr | asl/TypeCheckListener.cpp:397-407 | An Error procedure passes through silently. Otherwise a void-function callee draws exactly isNotFunction and gives Error, and any other callee passes the procedure's type through with no diagnostic. The rule writes no lvalue flag. |
| TypeCheck.ExitProcCall | asl/TypeCheckListener.cpp:183-188 | A call statement passes the procedure's type through and reports nothing. |
| TypeCheck.AssignSource | asl/TypeCheckListener.cpp:133-149 | The second form of assignment indexes the identifier by the expression. An Error identifier gives Error silently. Otherwise nonArrayInArrayAccess is reported iff the identifier is not an array, and nonIntegerIndexInArrayAccess iff the expression is not numeric, in that order. Either fault gives Error, and an array with a numeric index gives its element type. Without the identifier, the expression's type is used unchanged. |
| TypeCheck.ExitAssignStmt | asl/TypeCheckListener.cpp:129-156 | nonReferenceableLeftExpr is reported iff the left side is non-error and not an lvalue. In either form, the source's own diagnostics come first, then at most nonReferenceableLeftExpr and incompatibleAssignment, in that order. incompatibleAssignment is reported iff the left side and the source's type are non-error and not copyableTypes. In the plain form the source's type is the expression's. An Error left side adds nothing to the source's diagnostics. |
| TypeCheck.ExitIfStmt | asl/TypeCheckListener.cpp:161-166 | booleanRequired is reported, once, iff the condition is non-error and non-boolean. |
| TypeCheck.ExitWhileStmt | asl/TypeCheckListener.cpp:171-176 | booleanRequired is reported, once, iff the condition is non-error and non-boolean. |
| TypeCheck.ExitReadStmt | asl/TypeCheckListener.cpp:192-200 | readWriteRequireBasic is reported iff the target is non-error, non-primitive and not a function. nonReferenceableExpression is reported iff the target is non-error and not an lvalue. The two come in that order. |
| TypeCheck.ExitWriteExpr | asl/TypeCheckListener.cpp:205-210 | readWriteRequireBasic is reported, once, iff the value is non-error and non-primitive. |
| TypeCheck.ExitReturnExpr | asl/TypeCheckListener.cpp:216-228 | In a void function, incompatibleReturn is reported iff a value is returned. Otherwise it is reported iff the value is neither equalTypes to the return type nor an Integer returned from a Float function. |
| TypeCheck.ParamTypes | asl/TypeCheckListener.cpp:79-88 | The signature has one parameter per declared identifier, and each entry is the type of one of the declarations. |
| TypeCheck.ParamTypesInOrder | asl/TypeCheckListener.cpp:81-88 | The j-th identifier of the d-th declaration occupies the slot after all identifiers of earlier declarations, and that slot holds its declaration's type. |
| TypeCheck.EnterProgram | asl/TypeCheckListener.cpp:60-65 | The program's scope is pushed on the active stack. |
| TypeCheck.ExitProgram | asl/TypeCheckListener.cpp:66-72 | Earlier diagnostics are kept as a prefix. noMainProperlyDeclared is appended after all of them iff the symbol table says so. The program's scope is popped. |
| TypeCheck.EnterFunction | asl/TypeCheckListener.cpp:74-91 | The function's scope is pushed. The current function type becomes a function type with the declared return type, and its parameter list is exactly `ParamTypes` of the declarations, so ParamTypesInOrder fixes each slot. |
| TypeCheck.ExitFunction | asl/TypeCheckListener.cpp:93-96 | The function's scope is popped. |
| TypeCheck.ScopesBalance | asl/TypeCheckListener.cpp:60-96 | Entering and then leaving a program or a function restores the scope stack. |
| Reference.ArithmeticAgainstReference | asl/TypeCheckListener.cpp:271-301 | The listener reports exactly what the absorbing discipline reports. Types differ only after an operator fault (listener Integer, ideal Error) and for a unary operator on Error (listener Float, ideal Error). |
| Reference.RelationalAgainstReference | asl/TypeCheckListener.cpp:306-330 | Relational nodes are Boolean even where the ideal is Error. Diagnostics differ exactly for `and`/`or` with one Error operand and one non-error non-boolean operand. |
| Reference.LeftExprAgainstReference | asl/TypeCheckListener.cpp:240-266 | Same types as the absorbing access. Diagnostics differ exactly for an Error index, which draws one extra nonIntegerIndexInArrayAccess. |
| Reference.ExprIdentAgainstReference | asl/TypeCheckListener.cpp:412-438 | Same types as the absorbing access. Diagnostics differ exactly for a subscripted Error identifier, which still draws nonArrayInArrayAccess, or an Error index. |
| Reference.AbsorbingArgumentErrors | asl/TypeCheckListener.cpp:379-385 | The absorbing argument check skips Error arguments. Any other argument is reported at its position iff it is neither equalTypes to its parameter nor an Integer for a Float. Positions are ascending and within range. |
| Reference.ArgumentsAgreeWithoutErrorFaults | asl/TypeCheckListener.cpp:379-385 | When no Error argument is rejected by equalTypes, the listener's argument loop reports exactly the absorbing check's diagnostics. |
| Reference.ArgumentPositionAgainstReference | asl/TypeCheckListener.cpp:379-385 | At any one position, the listener reports incompatibleParameter iff the absorbing check does, or the argument is Error and equalTypes rejects it. |
| Reference.ArgumentsAgainstReference | asl/TypeCheckListener.cpp:379-385 | Position by position, the listener reports what the absorbing check reports, plus every Error argument that equalTypes rejects. The two lists differ iff such an argument exists. |
| Reference.ProcedureAgainstReference | asl/TypeCheckListener.cpp:366-392 | Diagnostics differ from the absorbing call exactly when the arity matches and some Error argument is rejected by equalTypes. Types differ exactly when the return type is not Error and either the arity is wrong or some argument is Error, because the listener keeps the return type where the ideal gives Error. |
| Reference.ProcExprAgainstReference | asl/TypeCheckListener.cpp:366-407 | A call in expression position against the absorbing one. Types differ exactly for a non-void, non-Error return type with a wrong arity or an Error argument. Diagnostics differ exactly in three cases. A void callee with a wrong arity or, at matching arity, with an Error argument, where the listener adds isNotFunction. Or, at matching arity, an Error argument that equalTypes rejects. |
| Reference.ReturnAgainstReference | asl/TypeCheckListener.cpp:216-228 | Return departs from the absorbing discipline exactly when a non-void function returns an Error value that equalTypes rejects. The listener then reports incompatibleReturn and the ideal reports nothing. |
| Reference.StatementsAbsorbError | asl/TypeCheckListener.cpp:150-210 | An Error condition, value, read target or assignment side draws no statement diagnostic. Return is the exception, covered by ReturnAgainstReference. |
| Walk.CheckExpr | asl/TypeCheckListener.cpp:240-472 | Checking an expression tree reports only expression diagnostics, and a relational root is Boolean. |
| Walk.CheckStmts | asl/TypeCheckListener.cpp:129-228 | A function body never reports noMainProperlyDeclared. |
| Walk.CheckProgram | asl/TypeCheckListener.cpp:60-96 | After a whole program the scope stack is as before. noMainProperlyDeclared is reported iff the symbol table says so, and then it is the last diagnostic, after every body diagnostic. |
| WalkProperties.ExprReportsUndeclaredOnce | asl/TypeCheckListener.cpp:455-472 | In any expression tree, the number of undeclaredIdent diagnostics equals the number of unresolved identifier nodes. This holds for callees too, whose decoration two rules read. |
| WalkProperties.StmtsReportUndeclaredOnce | asl/TypeCheckListener.cpp:455-472 | In any statement list, the number of undeclaredIdent diagnostics equals the number of unresolved identifier nodes. |
| WalkProperties.UnreportedErrorHasSilentSource | asl/TypeCheckListener.cpp:271-438 | An expression that is Error with no diagnostic owes it to one of two silent sources: an unrecognised literal, or a symbol declared with Error inside its type. The source sits in a position that carries types upward. |
| WalkProperties.NegatedUndeclaredIsFloat | asl/TypeCheckListener.cpp:289-296 | `-x` with `x` undeclared is Float, and undeclaredIdent is its only diagnostic. |
| WalkProperties.OperatorFaultCascades | asl/TypeCheckListener.cpp:276-280 | Take `b := true + 1` with `b` Boolean, and Integer not copyable to Boolean. It reports incompatibleOperator and then incompatibleAssignment, two diagnostics for one cause. |
| WalkProperties.ArityMismatchKeepsReturnType | asl/TypeCheckListener.cpp:374-388 | Calling a one-parameter Integer function with two arguments reports only numberOfParameters, and the call is Integer. |
| WalkProperties.ArityMismatchCascades | asl/TypeCheckListener.cpp:306-330 | Take `f(1, 2) == true`, with Integer and Boolean not comparable. The faulty call is Integer, so the comparison is checked too: numberOfParameters, then incompatibleOperator. |
| WalkProperties.UndeclaredArgumentCascades | asl/TypeCheckListener.cpp:379-385 | Take `f(x)`, with `x` undeclared and Error not equalTypes to Integer. It reports undeclaredIdent, then incompatibleParameter at position 1, two diagnostics for one cause. |

## Left out

- Symbol storage and lookup. How scopes store symbols, nearest-scope lookup and shadowing are not
  modelled. Name resolution is a parameter: `lookup` in a function body, and `resolve` over the
  active scope stack for a whole program. The symbol table's entry-point check is a boolean.
- The type manager's `equalTypes`, `copyableTypes` and `comparableTypes` are parameters. Their
  bodies are not part of this model. For the same reason, identity of array types (arrays are not
  interned) is left to `equalTypes`.
- `isVoidFunction` is taken to be false for a non-function type.
- The decoration store as a table keyed by node is not modelled. The walk hands each rule its
  children's decorations directly. Scope decorations are the scope identifiers in the tree.
- Diagnostic locations, message texts and `Errors.print()` (output) are not modelled. Diagnostics
  are an ordered sequence of kinds.
- The second form of assignment (`ctx->ident()` present) is modelled in the rule
  (`TypeCheck.AssignSource`, `TypeCheck.ExitAssignStmt`) but not built by the walk. The position of
  that identifier in the grammar is not known, so the walk has no order for its children.
- `return` without a value inside a non-void function is excluded by a precondition. The rule
  reads the type of the missing expression there.
- A parameter declaration with neither a type nor an array declaration is not modelled. The
  listener leaves its type uninitialised.
- The empty enter/exit hooks, `exitWriteString`, the debugging macros and the listener plumbing
  are not modelled: they have no checking behaviour.
- The walk visits an identifier before its index, and a callee before its arguments, following
  their order in the grammar rules the listener reads.
- TypeCheck.ExitLeftExpr: its contract states the access faults that set it apart from the
  expression form. The full case analysis is in `TypeCheck.Access`, which it calls.
- TypeCheck.ExitExprIdent: its contract states the access faults that set it apart from the
  left-hand form. The full case analysis is in `TypeCheck.Access`, which it calls.
