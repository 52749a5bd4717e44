/** The type-checking rules of the Asl listener, one function per rule. Each rule reads the
    decorations of its node's children (their types, and where needed their lvalue flags), and
    yields the node's own decorations together with the diagnostics it reports, in the order it
    reports them. Expression rules return an Outcome; statement rules only report. */
module TypeCheck {
  import opened Wrappers
  import opened Types
  import opened SemErrors
  import opened SymTable

  /** A rule's result: the type it decorates its node with, the lvalue flag it decorates it with
      (None when the rule writes no lvalue decoration), and the diagnostics it reports. */
  datatype Outcome = Outcome(ty: Type, isLValue: Option<bool>, errors: seq<ErrorKind>)

  /** Arithmetic operators; only MOD changes the checking. */
  datatype ArithOp = Plus | Minus | Times | Div | Mod

  /** Relational and boolean operators; Compare keeps the operator text that comparableTypes
      receives. */
  datatype RelOp = Not | And | Or | Compare(oper: string)

  /** The lexical class of a literal; Unrecognised stands for a value node with none of the four
      token kinds. */
  datatype Literal = IntVal | FloatVal | CharVal | BoolVal | Unrecognised

  /** What follows an identifier in an access: nothing, a bracketed integer literal, or a
      bracketed expression of the given type. */
  datatype Subscript = NoSubscript | ConstSubscript | ExprSubscript(indexTy: Type)

  /** The diagnostics are at most `first` followed by `second`, in that order. */
  predicate InOrder(es: seq<ErrorKind>, first: ErrorKind, second: ErrorKind)
  {
    es == [] || es == [first] || es == [second] || es == [first, second]
  }

  // ---------------------------------------------------------------------------------------------
  // Expressions
  // ---------------------------------------------------------------------------------------------

  /** Binary arithmetic when `t2` is present, unary otherwise (asl/TypeCheckListener.cpp, exitArithmetic). */
  function ExitArithmetic(op: ArithOp, t1: Type, t2: Option<Type>): (r: Outcome)
    ensures r.isLValue == Some(false)
    ensures r.errors == [] || r.errors == [IncompatibleOperator]
    // binary: an Error operand makes the node Error and silences the operator check
    ensures t2.Some? && (t1.Error? || t2.value.Error?) ==> r.ty == Error && r.errors == []
    // binary, both operands well typed: a fault is one diagnostic and yields Integer
    ensures t2.Some? && !t1.Error? && !t2.value.Error? ==>
      && (r.errors != [] <==>
            !IsNumeric(t1) || !IsNumeric(t2.value) || (op.Mod? && !(t1.Integer? && t2.value.Integer?)))
      && (r.errors != [] ==> r.ty == Integer)
      && (r.errors == [] ==> (r.ty == Integer <==> t1.Integer? && t2.value.Integer?))
      && (r.errors == [] ==> (r.ty == Float <==> t1.Float? || t2.value.Float?))
    // unary: a fault yields Integer; an Error operand yields Float without a diagnostic
    ensures t2.None? ==>
      && (r.errors != [] <==> !t1.Error? && !IsNumeric(t1))
      && (r.ty == Integer <==> t1.Integer? || r.errors != [])
      && (r.ty == Float <==> t1.Float? || t1.Error?)
  {
    match t2
    case Some(u) =>
      var (ty, errors) :=
        if !t1.Error? && !u.Error? && (!IsNumeric(t1) || !IsNumeric(u)) then (Integer, [IncompatibleOperator])
        else if !t1.Error? && !u.Error? && op.Mod? && (!t1.Integer? || !u.Integer?) then (Integer, [IncompatibleOperator])
        else if t1.Integer? && u.Integer? then (Integer, [])
        else (Float, []);
      Outcome(if t1.Error? || u.Error? then Error else ty, Some(false), errors)
    case None =>
      if !t1.Error? && !IsNumeric(t1) then Outcome(Integer, Some(false), [IncompatibleOperator])
      else Outcome(if t1.Integer? then Integer else Float, Some(false), [])
  }

  /** `not`, `and`/`or` and comparisons (exitRelational). NOT has one operand, every other
      operator two. */
  function ExitRelational(op: RelOp, t1: Type, t2: Option<Type>, rel: Relations): (r: Outcome)
    requires op.Not? <==> t2.None?
    ensures r.ty == Boolean && r.isLValue == Some(false)
    ensures op.Not? ==> r.errors == [] || r.errors == [BooleanRequired]
    ensures op.Not? ==> (r.errors != [] <==> !t1.Error? && !t1.Boolean?)
    ensures !op.Not? ==> r.errors == [] || r.errors == [IncompatibleOperator]
    ensures (op.And? || op.Or?) ==>
      (r.errors != [] <==> (!t1.Error? && !t1.Boolean?) || (!t2.value.Error? && !t2.value.Boolean?))
    ensures op.Compare? ==>
      (r.errors != [] <==> !t1.Error? && !t2.value.Error? && !rel.comparable(t1, t2.value, op.oper))
  {
    var errors :=
      match op
      case Not =>
        if !t1.Error? && !t1.Boolean? then [BooleanRequired] else []
      case And | Or =>
        if (!t1.Error? && !t1.Boolean?) || (!t2.value.Error? && !t2.value.Boolean?) then [IncompatibleOperator] else []
      case Compare(oper) =>
        if !t1.Error? && !t2.value.Error? && !rel.comparable(t1, t2.value, oper) then [IncompatibleOperator] else [];
    Outcome(Boolean, Some(false), errors)
  }

  /** A literal (exitValue). */
  function ExitValue(lit: Literal): (r: Outcome)
    ensures r.isLValue == Some(false) && r.errors == []
    ensures lit.IntVal? ==> r.ty == Integer
    ensures lit.FloatVal? ==> r.ty == Float
    ensures lit.CharVal? ==> r.ty == Character
    ensures lit.BoolVal? ==> r.ty == Boolean
    ensures r.ty.Error? <==> lit.Unrecognised?
  {
    match lit
    case IntVal => Outcome(Integer, Some(false), [])
    case FloatVal => Outcome(Float, Some(false), [])
    case CharVal => Outcome(Character, Some(false), [])
    case BoolVal => Outcome(Boolean, Some(false), [])
    case Unrecognised => Outcome(Error, Some(false), [])
  }

  /** A parenthesised expression (exitParenthesis). */
  function ExitParenthesis(t: Type): (r: Outcome)
    ensures r.ty == t && r.isLValue == Some(false) && r.errors == []
  {
    Outcome(t, Some(false), [])
  }

  /** An identifier, given the result of looking it up in the active scopes (exitIdent). */
  function ExitIdent(sym: Option<Symbol>): (r: Outcome)
    ensures r.isLValue.Some?
    ensures sym.None? ==> r.ty == Error && r.isLValue == Some(true) && r.errors == [UndeclaredIdent]
    ensures sym.Some? ==> r.ty == sym.value.ty && r.errors == []
    ensures sym.Some? ==> (r.isLValue == Some(true) <==> !sym.value.isFunction)
  {
    match sym
    case None => Outcome(Error, Some(true), [UndeclaredIdent])
    case Some(s) => Outcome(s.ty, Some(!s.isFunction), [])
  }

  /** The access shared by exitLeft_expr and exitExprIdent: an identifier of type `identTy`,
      optionally subscripted. `reportErrorBase` tells whether a subscripted Error-typed identifier
      still draws nonArrayInArrayAccess (it does in exitExprIdent and not in exitLeft_expr). */
  function Access(identTy: Type, identLValue: bool, sub: Subscript, reportErrorBase: bool): (r: Outcome)
    ensures r.isLValue == Some(identLValue)
    ensures sub.NoSubscript? ==> r.ty == identTy && r.errors == []
    ensures !sub.NoSubscript? && !identTy.Array? ==> r.ty == Error
    ensures sub.ExprSubscript? && !IsNumeric(sub.indexTy) ==> r.ty == Error
    ensures !sub.NoSubscript? && identTy.Array? && (sub.ConstSubscript? || IsNumeric(sub.indexTy)) ==>
      r.ty == identTy.elem && r.errors == []
    ensures NonArrayInArrayAccess in r.errors <==>
      !sub.NoSubscript? && !identTy.Array? && (reportErrorBase || !identTy.Error?)
    ensures NonIntegerIndexInArrayAccess in r.errors <==> sub.ExprSubscript? && !IsNumeric(sub.indexTy)
    ensures InOrder(r.errors, NonArrayInArrayAccess, NonIntegerIndexInArrayAccess)
  {
    match sub
    case NoSubscript => Outcome(identTy, Some(identLValue), [])
    case _ =>
      var (baseTy, baseErrors) :=
        if !identTy.Array? then (Error, if reportErrorBase || !identTy.Error? then [NonArrayInArrayAccess] else [])
        else (identTy.elem, []);
      var (ty, indexErrors) :=
        match sub
        case ExprSubscript(indexTy) =>
          if !IsNumeric(indexTy) then (Error, [NonIntegerIndexInArrayAccess]) else (baseTy, [])
        case _ => (baseTy, []);
      Outcome(ty, Some(identLValue), baseErrors + indexErrors)
  }

  /** The target of an assignment or read (exitLeft_expr): an Error-typed identifier draws no
      nonArrayInArrayAccess, but an Error-typed index still draws nonIntegerIndexInArrayAccess. */
  function ExitLeftExpr(identTy: Type, identLValue: bool, sub: Subscript): (r: Outcome)
    ensures r.isLValue == Some(identLValue)
    ensures identTy.Error? ==> NonArrayInArrayAccess !in r.errors
    ensures !sub.NoSubscript? && !identTy.Array? && !identTy.Error? ==> NonArrayInArrayAccess in r.errors
    ensures sub == ExprSubscript(Error) ==> r.ty == Error && NonIntegerIndexInArrayAccess in r.errors
    ensures !sub.NoSubscript? && identTy.Array? && (sub.ConstSubscript? || IsNumeric(sub.indexTy)) ==>
      r.ty == identTy.elem && r.errors == []
  {
    Access(identTy, identLValue, sub, false)
  }

  /** An identifier used as an expression (exitExprIdent): unlike exitLeft_expr, an Error-typed
      identifier that is subscripted still draws nonArrayInArrayAccess. */
  function ExitExprIdent(identTy: Type, identLValue: bool, sub: Subscript): (r: Outcome)
    ensures r.isLValue == Some(identLValue)
    ensures !sub.NoSubscript? && !identTy.Array? ==> r.ty == Error && NonArrayInArrayAccess in r.errors
    ensures sub == ExprSubscript(Error) ==> r.ty == Error && NonIntegerIndexInArrayAccess in r.errors
    ensures !sub.NoSubscript? && identTy.Array? && (sub.ConstSubscript? || IsNumeric(sub.indexTy)) ==>
      r.ty == identTy.elem && r.errors == []
  {
    Access(identTy, identLValue, sub, true)
  }

  /** An argument does not fit its parameter: not equalTypes, and not an Integer argument for a
      Float parameter. */
  predicate ArgumentMismatch(arg: Type, param: Type, rel: Relations)
  {
    !rel.equal(arg, param) && (!param.Float? || !arg.Integer?)
  }

  /** Every diagnostic is an incompatibleParameter and their positions strictly increase. */
  predicate AscendingParameterErrors(es: seq<ErrorKind>)
  {
    && (forall k :: 0 <= k < |es| ==> es[k].IncompatibleParameter?)
    && (forall a, b :: 0 <= a < b < |es| ==> es[a].position < es[b].position)
  }

  /** The argument loop of exitProcedure from argument `i` on: one incompatibleParameter, at
      1-based position, per mismatching argument, in argument order. */
  function ArgumentErrors(args: seq<Type>, params: seq<Type>, rel: Relations, i: nat): (r: seq<ErrorKind>)
    requires |args| == |params| && i <= |args|
    ensures AscendingParameterErrors(r)
    ensures forall k :: 0 <= k < |r| ==> i < r[k].position <= |args|
    ensures forall k :: i <= k < |args| ==>
      (IncompatibleParameter(k + 1) in r <==> ArgumentMismatch(args[k], params[k], rel))
    decreases |args| - i
  {
    if i == |args| then []
    else
      (if ArgumentMismatch(args[i], params[i], rel) then [IncompatibleParameter(i + 1)] else [])
      + ArgumentErrors(args, params, rel, i + 1)
  }

  /** A call's callee and arguments (exitProcedure). No lvalue decoration is written. */
  function ExitProcedure(calleeTy: Type, argTys: seq<Type>, rel: Relations): (r: Outcome)
    ensures r.isLValue.None?
    ensures !calleeTy.Function? && !calleeTy.Error? ==> r.ty == Error && r.errors == [IsNotCallable]
    ensures calleeTy.Error? ==> r.ty == Error && r.errors == []
    ensures calleeTy.Function? ==> r.ty == calleeTy.ret
    ensures calleeTy.Function? && |argTys| != |calleeTy.params| ==> r.errors == [NumberOfParameters]
    ensures calleeTy.Function? && |argTys| == |calleeTy.params| ==>
      && AscendingParameterErrors(r.errors)
      && (forall k :: 0 <= k < |r.errors| ==> 0 < r.errors[k].position <= |argTys|)
      && (forall i :: 0 <= i < |argTys| ==>
            (IncompatibleParameter(i + 1) in r.errors <==> ArgumentMismatch(argTys[i], calleeTy.params[i], rel)))
  {
    if !calleeTy.Function? && !calleeTy.Error? then Outcome(Error, None, [IsNotCallable])
    else if calleeTy.Error? then Outcome(Error, None, [])
    else if |argTys| != |calleeTy.params| then Outcome(calleeTy.ret, None, [NumberOfParameters])
    else Outcome(calleeTy.ret, None, ArgumentErrors(argTys, calleeTy.params, rel, 0))
  }

  /** A call in expression position (exitProcExpr), given the type of the procedure node and of
      the callee identifier. No lvalue decoration is written. */
  function ExitProcExpr(procTy: Type, identTy: Type): (r: Outcome)
    ensures r.isLValue.None?
    ensures procTy.Error? ==> r.ty == Error && r.errors == []
    ensures !procTy.Error? ==> (r.errors == [IsNotFunction] <==> IsVoidFunction(identTy))
    ensures !procTy.Error? && IsVoidFunction(identTy) ==> r.ty == Error
    ensures !procTy.Error? && !IsVoidFunction(identTy) ==> r.ty == procTy && r.errors == []
  {
    if !procTy.Error? && IsVoidFunction(identTy) then Outcome(Error, None, [IsNotFunction])
    else Outcome(procTy, None, [])
  }

  /** A call in statement position (exitProcCall): the procedure node's type passes through. */
  function ExitProcCall(procTy: Type): (r: Outcome)
    ensures r.ty == procTy && r.isLValue.None? && r.errors == []
  {
    Outcome(procTy, None, [])
  }

  // ---------------------------------------------------------------------------------------------
  // Statements
  // ---------------------------------------------------------------------------------------------

  /** The right-hand side of an assignment. With `ident` absent it is the expression's type. With
      `ident` present, the rule's second form, the identifier's type is indexed by the expression
      instead, reporting non-array and non-numeric-index faults unless the identifier is Error. */
  function AssignSource(exprTy: Type, ident: Option<Type>): (r: (Type, seq<ErrorKind>))
    ensures ident.None? ==> r.0 == exprTy && r.1 == []
    ensures ident.Some? && ident.value.Error? ==> r.0 == Error && r.1 == []
    ensures ident.Some? && !ident.value.Error? ==>
      && (NonArrayInArrayAccess in r.1 <==> !ident.value.Array?)
      && (NonIntegerIndexInArrayAccess in r.1 <==> !IsNumeric(exprTy))
      && (!ident.value.Array? || !IsNumeric(exprTy) ==> r.0 == Error)
      && (ident.value.Array? && IsNumeric(exprTy) ==> r.0 == ident.value.elem && r.1 == [])
    ensures InOrder(r.1, NonArrayInArrayAccess, NonIntegerIndexInArrayAccess)
  {
    match ident
    case None => (exprTy, [])
    case Some(it) =>
      var badIndex := !IsNumeric(exprTy);
      if it.Error? then (it, [])
      else
        var (t, baseErrors) :=
          if !it.Array? then (Error, [NonArrayInArrayAccess]) else (it.elem, []);
        if badIndex then (Error, baseErrors + [NonIntegerIndexInArrayAccess])
        else (t, baseErrors)
  }

  /** An assignment (exitAssignStmt), given the left side's type and lvalue flag, the expression's
      type, and the identifier's type when the rule's second form is used. */
  function ExitAssignStmt(leftTy: Type, leftLValue: bool, exprTy: Type, ident: Option<Type>, rel: Relations)
    : (r: seq<ErrorKind>)
    ensures NonReferenceableLeftExpr in r <==> !leftTy.Error? && !leftLValue
    ensures ident.None? ==>
      (IncompatibleAssignment in r <==> !leftTy.Error? && !exprTy.Error? && !rel.copyable(leftTy, exprTy))
    ensures ident.None? ==> InOrder(r, NonReferenceableLeftExpr, IncompatibleAssignment)
    ensures leftTy.Error? ==> r == AssignSource(exprTy, ident).1
    // in either form: the source's own diagnostics come first, then the assignment's, checked
    // against the type the source yields
    ensures var (srcTy, srcErrors) := AssignSource(exprTy, ident);
      && |srcErrors| <= |r| && r[..|srcErrors|] == srcErrors
      && InOrder(r[|srcErrors|..], NonReferenceableLeftExpr, IncompatibleAssignment)
      && (IncompatibleAssignment in r <==> !leftTy.Error? && !srcTy.Error? && !rel.copyable(leftTy, srcTy))
  {
    var (t2, sourceErrors) := AssignSource(exprTy, ident);
    sourceErrors
    + (if !leftTy.Error? && !leftLValue then [NonReferenceableLeftExpr] else [])
    + (if !leftTy.Error? && !t2.Error? && !rel.copyable(leftTy, t2) then [IncompatibleAssignment] else [])
  }

  /** The condition check shared by if and while. */
  function ConditionErrors(condTy: Type): (r: seq<ErrorKind>)
    ensures r == [] || r == [BooleanRequired]
    ensures r != [] <==> !condTy.Error? && !condTy.Boolean?
  {
    if !condTy.Error? && !condTy.Boolean? then [BooleanRequired] else []
  }

  /** An if statement's condition (exitIfStmt). */
  function ExitIfStmt(condTy: Type): (r: seq<ErrorKind>)
    ensures r == [] || r == [BooleanRequired]
    ensures r != [] <==> !condTy.Error? && !condTy.Boolean?
  {
    ConditionErrors(condTy)
  }

  /** A while statement's condition (exitWhileStmt). */
  function ExitWhileStmt(condTy: Type): (r: seq<ErrorKind>)
    ensures r == [] || r == [BooleanRequired]
    ensures r != [] <==> !condTy.Error? && !condTy.Boolean?
  {
    ConditionErrors(condTy)
  }

  /** A read statement's target (exitReadStmt). A function-typed target is accepted as a basic one. */
  function ExitReadStmt(targetTy: Type, targetLValue: bool): (r: seq<ErrorKind>)
    ensures ReadWriteRequireBasic in r <==>
      !targetTy.Error? && !IsPrimitive(targetTy) && !targetTy.Function?
    ensures NonReferenceableExpression in r <==> !targetTy.Error? && !targetLValue
    ensures InOrder(r, ReadWriteRequireBasic, NonReferenceableExpression)
  {
    (if !targetTy.Error? && !IsPrimitive(targetTy) && !targetTy.Function? then [ReadWriteRequireBasic] else [])
    + (if !targetTy.Error? && !targetLValue then [NonReferenceableExpression] else [])
  }

  /** A write statement's expression (exitWriteExpr). */
  function ExitWriteExpr(valueTy: Type): (r: seq<ErrorKind>)
    ensures r == [] || r == [ReadWriteRequireBasic]
    ensures r != [] <==> !valueTy.Error? && !IsPrimitive(valueTy)
  {
    if !valueTy.Error? && !IsPrimitive(valueTy) then [ReadWriteRequireBasic] else []
  }

  /** A return statement (exitReturnExpr_), given the current function's type and the returned
      expression's type if there is one. A return without a value in a non-void function is
      excluded: the rule reads the decoration of the missing expression. */
  function ExitReturnExpr(fnTy: Type, value: Option<Type>, rel: Relations): (r: seq<ErrorKind>)
    requires fnTy.Function?
    requires !IsVoidFunction(fnTy) ==> value.Some?
    ensures r == [] || r == [IncompatibleReturn]
    ensures IsVoidFunction(fnTy) ==> (r != [] <==> value.Some?)
    ensures !IsVoidFunction(fnTy) ==>
      (r != [] <==> !rel.equal(value.value, fnTy.ret) && !(value.value.Integer? && fnTy.ret.Float?))
  {
    if IsVoidFunction(fnTy) then
      if value.Some? then [IncompatibleReturn] else []
    else
      var t1 := value.value;
      var t2 := fnTy.ret;
      if !(t1.Integer? && t2.Float?) && !rel.equal(t1, t2) then [IncompatibleReturn] else []
  }

  // ---------------------------------------------------------------------------------------------
  // Programs and functions
  // ---------------------------------------------------------------------------------------------

  /** One parameter declaration: several identifiers sharing one declared type. */
  datatype ParamDecl = ParamDecl(ty: Type, ids: seq<string>)

  /** How many identifiers the declarations declare. */
  function IdCount(decls: seq<ParamDecl>): nat
  {
    if decls == [] then 0 else IdCount(decls[..|decls| - 1]) + |decls[|decls| - 1].ids|
  }

  /** The parameter list enterFunction builds: the declarations in order, each contributing its
      type once per identifier. */
  function ParamTypes(decls: seq<ParamDecl>): (r: seq<Type>)
    ensures |r| == IdCount(decls)
    ensures forall k :: 0 <= k < |r| ==> exists d :: 0 <= d < |decls| && r[k] == decls[d].ty
  {
    if decls == [] then []
    else
      var last := decls[|decls| - 1];
      ParamTypes(decls[..|decls| - 1]) + seq(|last.ids|, _ => last.ty)
  }

  /** The j-th identifier of the d-th declaration gets parameter slot IdCount(decls[..d]) + j, and
      that slot holds its declaration's type: the signature follows declaration order. */
  lemma {:induction false} ParamTypesInOrder(decls: seq<ParamDecl>, d: nat, j: nat)
    requires d < |decls| && j < |decls[d].ids|
    ensures IdCount(decls[..d]) + j < |ParamTypes(decls)|
    ensures ParamTypes(decls)[IdCount(decls[..d]) + j] == decls[d].ty
  {
    var n := |decls| - 1;
    var init := decls[..n];
    var last := decls[n];
    var front := ParamTypes(init);
    var tail := seq(|last.ids|, _ => last.ty);
    assert ParamTypes(decls) == front + tail;
    if d == n {
      assert IdCount(decls[..d]) == |front|;
      assert (front + tail)[|front| + j] == tail[j];
    } else {
      assert init[..d] == decls[..d];
      ParamTypesInOrder(init, d, j);
      var k := IdCount(decls[..d]) + j;
      assert k < |front| && front[k] == init[d].ty;
      assert (front + tail)[k] == front[k];
    }
  }

  /** enterProgram: activate the program's scope. */
  function EnterProgram(t: Table, sc: ScopeId): (r: Table)
    ensures r.stack == t.stack + [sc]
    ensures r.currentFunction == t.currentFunction
  {
    PushThisScope(t, sc)
  }

  /** exitProgram: report noMainProperlyDeclared, when the symbol table says so, after every
      diagnostic collected so far, then deactivate the program's scope. */
  function ExitProgram(t: Table, errors: seq<ErrorKind>, noMain: bool): (r: (Table, seq<ErrorKind>))
    requires |t.stack| > 0
    ensures r.0.stack + [t.stack[|t.stack| - 1]] == t.stack
    ensures |r.1| >= |errors| && r.1[..|errors|] == errors
    ensures noMain ==> r.1 == errors + [NoMainProperlyDeclared]
    ensures !noMain ==> r.1 == errors
  {
    (PopScope(t), if noMain then errors + [NoMainProperlyDeclared] else errors)
  }

  /** enterFunction: activate the function's scope and make its signature the current function type. */
  function EnterFunction(t: Table, sc: ScopeId, ret: Type, params: seq<ParamDecl>): (r: Table)
    ensures r.stack == t.stack + [sc]
    ensures r.currentFunction.Some? && r.currentFunction.value.Function?
    ensures r.currentFunction.value.ret == ret
    ensures |r.currentFunction.value.params| == IdCount(params)
    ensures r.currentFunction.value.params == ParamTypes(params)
  {
    SetCurrentFunctionTy(PushThisScope(t, sc), Function(ParamTypes(params), ret))
  }

  /** exitFunction: deactivate the function's scope. */
  function ExitFunction(t: Table): (r: Table)
    requires |t.stack| > 0
    ensures r.stack + [t.stack[|t.stack| - 1]] == t.stack
  {
    PopScope(t)
  }

  /** Entering and leaving a program, or a function, leaves the scope stack as it was. */
  lemma ScopesBalance(t: Table, sc: ScopeId, ret: Type, params: seq<ParamDecl>, errors: seq<ErrorKind>, noMain: bool)
    ensures ExitProgram(EnterProgram(t, sc), errors, noMain).0.stack == t.stack
    ensures ExitFunction(EnterFunction(t, sc, ret, params)).stack == t.stack
  {
  }
}
