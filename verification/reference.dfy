/** An idealised checking discipline in which Error is absorbing: an operand, argument or value of
    type Error makes the node Error and draws no further diagnostic, since its cause has already
    been reported (or was silent by construction). Every fault draws exactly one diagnostic; an
    arithmetic, access, callee or arity fault also makes the node Error, while a relational node
    stays Boolean and a call whose non-Error argument mismatches its parameter keeps its return
    type. The lemmas compare each rule of the listener with its idealised counterpart on all
    inputs and state exactly where the two part ways. */
module Reference {
  import opened Wrappers
  import opened Types
  import opened SemErrors
  import opened TypeCheck

  /** Arithmetic under the absorbing discipline. */
  function AbsorbingArithmetic(op: ArithOp, t1: Type, t2: Option<Type>): Outcome
  {
    match t2
    case Some(u) =>
      if t1.Error? || u.Error? then Outcome(Error, Some(false), [])
      else if !IsNumeric(t1) || !IsNumeric(u) || (op.Mod? && !(t1.Integer? && u.Integer?)) then
        Outcome(Error, Some(false), [IncompatibleOperator])
      else Outcome(if t1.Integer? && u.Integer? then Integer else Float, Some(false), [])
    case None =>
      if t1.Error? then Outcome(Error, Some(false), [])
      else if !IsNumeric(t1) then Outcome(Error, Some(false), [IncompatibleOperator])
      else Outcome(t1, Some(false), [])
  }

  /** The listener reports exactly what the absorbing discipline reports, and computes the same
      type except in two situations: after an operator fault it yields Integer instead of Error,
      and a unary operator on an Error operand yields Float instead of Error. */
  lemma ArithmeticAgainstReference(op: ArithOp, t1: Type, t2: Option<Type>)
    ensures ExitArithmetic(op, t1, t2).errors == AbsorbingArithmetic(op, t1, t2).errors
    ensures ExitArithmetic(op, t1, t2).isLValue == AbsorbingArithmetic(op, t1, t2).isLValue
    ensures ExitArithmetic(op, t1, t2).ty != AbsorbingArithmetic(op, t1, t2).ty <==>
      AbsorbingArithmetic(op, t1, t2).errors != [] || (t2.None? && t1.Error?)
    ensures AbsorbingArithmetic(op, t1, t2).errors != [] ==>
      ExitArithmetic(op, t1, t2).ty == Integer && AbsorbingArithmetic(op, t1, t2).ty == Error
    ensures t2.None? && t1.Error? ==>
      ExitArithmetic(op, t1, t2).ty == Float && AbsorbingArithmetic(op, t1, t2).ty == Error
  {
  }

  /** Relational and boolean operators under the absorbing discipline. */
  function AbsorbingRelational(op: RelOp, t1: Type, t2: Option<Type>, rel: Relations): Outcome
    requires op.Not? <==> t2.None?
  {
    if t1.Error? || (t2.Some? && t2.value.Error?) then Outcome(Error, Some(false), [])
    else
      match op
      case Not => Outcome(Boolean, Some(false), if !t1.Boolean? then [BooleanRequired] else [])
      case And | Or =>
        Outcome(Boolean, Some(false), if !t1.Boolean? || !t2.value.Boolean? then [IncompatibleOperator] else [])
      case Compare(oper) =>
        Outcome(Boolean, Some(false), if !rel.comparable(t1, t2.value, oper) then [IncompatibleOperator] else [])
  }

  /** The listener's relational node is always Boolean, where the absorbing discipline would give
      Error for an Error operand; and `and`/`or` report an operator fault from the one well-typed
      non-boolean operand even when the other operand is Error. Otherwise the two agree. */
  lemma RelationalAgainstReference(op: RelOp, t1: Type, t2: Option<Type>, rel: Relations)
    requires op.Not? <==> t2.None?
    ensures ExitRelational(op, t1, t2, rel).ty == Boolean
    ensures AbsorbingRelational(op, t1, t2, rel).ty == Error <==> t1.Error? || (t2.Some? && t2.value.Error?)
    ensures ExitRelational(op, t1, t2, rel).errors != AbsorbingRelational(op, t1, t2, rel).errors <==>
      && (op.And? || op.Or?)
      && ((t1.Error? && !t2.value.Error? && !t2.value.Boolean?) || (t2.value.Error? && !t1.Error? && !t1.Boolean?))
    ensures AbsorbingRelational(op, t1, t2, rel).errors == [] ||
      ExitRelational(op, t1, t2, rel).errors == AbsorbingRelational(op, t1, t2, rel).errors
  {
  }

  /** Subscripted access under the absorbing discipline: an Error identifier or an Error index
      draws nothing more; each genuine fault is reported, and both may be. */
  function AbsorbingAccess(identTy: Type, identLValue: bool, sub: Subscript): Outcome
  {
    match sub
    case NoSubscript => Outcome(identTy, Some(identLValue), [])
    case ConstSubscript =>
      if identTy.Error? then Outcome(Error, Some(identLValue), [])
      else if !identTy.Array? then Outcome(Error, Some(identLValue), [NonArrayInArrayAccess])
      else Outcome(identTy.elem, Some(identLValue), [])
    case ExprSubscript(indexTy) =>
      var baseErrors := if !identTy.Error? && !identTy.Array? then [NonArrayInArrayAccess] else [];
      var indexErrors := if !indexTy.Error? && !IsNumeric(indexTy) then [NonIntegerIndexInArrayAccess] else [];
      var ty := if identTy.Array? && IsNumeric(indexTy) then identTy.elem else Error;
      Outcome(ty, Some(identLValue), baseErrors + indexErrors)
  }

  /** exitLeft_expr agrees with the absorbing discipline on types, and on diagnostics except that
      an Error index still draws nonIntegerIndexInArrayAccess. */
  lemma LeftExprAgainstReference(identTy: Type, identLValue: bool, sub: Subscript)
    ensures ExitLeftExpr(identTy, identLValue, sub).ty == AbsorbingAccess(identTy, identLValue, sub).ty
    ensures ExitLeftExpr(identTy, identLValue, sub).isLValue == AbsorbingAccess(identTy, identLValue, sub).isLValue
    ensures ExitLeftExpr(identTy, identLValue, sub).errors != AbsorbingAccess(identTy, identLValue, sub).errors <==>
      sub == ExprSubscript(Error)
    ensures sub == ExprSubscript(Error) ==>
      ExitLeftExpr(identTy, identLValue, sub).errors ==
        AbsorbingAccess(identTy, identLValue, sub).errors + [NonIntegerIndexInArrayAccess]
  {
  }

  /** exitExprIdent agrees with the absorbing discipline on types, and on diagnostics except that
      a subscripted Error identifier still draws nonArrayInArrayAccess and an Error index still
      draws nonIntegerIndexInArrayAccess. */
  lemma ExprIdentAgainstReference(identTy: Type, identLValue: bool, sub: Subscript)
    ensures ExitExprIdent(identTy, identLValue, sub).ty == AbsorbingAccess(identTy, identLValue, sub).ty
    ensures ExitExprIdent(identTy, identLValue, sub).errors != AbsorbingAccess(identTy, identLValue, sub).errors <==>
      (!sub.NoSubscript? && identTy.Error?) || sub == ExprSubscript(Error)
    ensures !sub.NoSubscript? && identTy.Error? ==>
      NonArrayInArrayAccess in ExitExprIdent(identTy, identLValue, sub).errors
  {
  }

  /** The argument check under the absorbing discipline, for the arguments from 1-based position
      `offset + 1` on: an Error argument is skipped; any other argument is reported at its position
      when it neither equals its parameter nor is an Integer passed for a Float. */
  function AbsorbingArgumentErrors(args: seq<Type>, params: seq<Type>, rel: Relations, offset: nat)
    : (r: seq<ErrorKind>)
    requires |args| == |params|
    ensures forall k :: 0 <= k < |r| ==> r[k].IncompatibleParameter? && offset < r[k].position <= offset + |args|
    ensures forall a, b :: 0 <= a < b < |r| ==> r[a].position < r[b].position
    ensures forall k :: 0 <= k < |args| ==>
      (IncompatibleParameter(offset + k + 1) in r <==>
        !args[k].Error? && !rel.equal(args[k], params[k]) && !(args[k].Integer? && params[k].Float?))
    decreases |args|
  {
    if args == [] then []
    else
      var a := args[0];
      var p := params[0];
      (if !a.Error? && !rel.equal(a, p) && !(a.Integer? && p.Float?) then [IncompatibleParameter(offset + 1)] else [])
      + AbsorbingArgumentErrors(args[1..], params[1..], rel, offset + 1)
  }

  /** Where no Error argument mismatches its parameter, the listener's argument loop reports
      exactly what the absorbing check reports. */
  lemma {:induction false} ArgumentsAgreeWithoutErrorFaults(args: seq<Type>, params: seq<Type>, rel: Relations, i: nat)
    requires |args| == |params| && i <= |args|
    requires forall k :: i <= k < |args| ==> !(args[k].Error? && !rel.equal(Error, params[k]))
    ensures ArgumentErrors(args, params, rel, i) == AbsorbingArgumentErrors(args[i..], params[i..], rel, i)
    decreases |args| - i
  {
    if i < |args| {
      ArgumentsAgreeWithoutErrorFaults(args, params, rel, i + 1);
      assert args[i..][1..] == args[i + 1..];
      assert params[i..][1..] == params[i + 1..];
    }
  }

  /** At one position, the listener's argument loop reports what the absorbing check reports,
      and also an Error argument that is not equalTypes to its parameter. */
  lemma ArgumentPositionAgainstReference(args: seq<Type>, params: seq<Type>, rel: Relations, k: nat)
    requires |args| == |params| && k < |args|
    ensures IncompatibleParameter(k + 1) in ArgumentErrors(args, params, rel, 0) <==>
      IncompatibleParameter(k + 1) in AbsorbingArgumentErrors(args, params, rel, 0)
      || (args[k].Error? && !rel.equal(Error, params[k]))
  {
    var listener := ArgumentErrors(args, params, rel, 0);
    var ideal := AbsorbingArgumentErrors(args, params, rel, 0);
    assert IncompatibleParameter(k + 1) in listener <==> ArgumentMismatch(args[k], params[k], rel);
    assert IncompatibleParameter(0 + k + 1) in ideal <==>
      !args[k].Error? && !rel.equal(args[k], params[k]) && !(args[k].Integer? && params[k].Float?);
  }

  /** The listener's argument loop departs from the absorbing check exactly at the Error arguments
      that are not equalTypes to their parameter: each of those draws an incompatibleParameter the
      absorbing check does not report, and every other position is reported alike. */
  lemma ArgumentsAgainstReference(args: seq<Type>, params: seq<Type>, rel: Relations)
    requires |args| == |params|
    ensures forall k :: 0 <= k < |args| ==>
      (IncompatibleParameter(k + 1) in ArgumentErrors(args, params, rel, 0) <==>
        IncompatibleParameter(k + 1) in AbsorbingArgumentErrors(args, params, rel, 0)
        || (args[k].Error? && !rel.equal(Error, params[k])))
    ensures ArgumentErrors(args, params, rel, 0) != AbsorbingArgumentErrors(args, params, rel, 0) <==>
      exists k :: 0 <= k < |args| && args[k].Error? && !rel.equal(Error, params[k])
  {
    forall k | 0 <= k < |args|
      ensures IncompatibleParameter(k + 1) in ArgumentErrors(args, params, rel, 0) <==>
        IncompatibleParameter(k + 1) in AbsorbingArgumentErrors(args, params, rel, 0)
        || (args[k].Error? && !rel.equal(Error, params[k]))
    {
      ArgumentPositionAgainstReference(args, params, rel, k);
    }
    if !exists k :: 0 <= k < |args| && args[k].Error? && !rel.equal(Error, params[k]) {
      ArgumentsAgreeWithoutErrorFaults(args, params, rel, 0);
      assert args[0..] == args && params[0..] == params;
    } else {
      var k :| 0 <= k < |args| && args[k].Error? && !rel.equal(Error, params[k]);
      assert IncompatibleParameter(0 + k + 1) !in AbsorbingArgumentErrors(args, params, rel, 0);
    }
  }

  /** Some argument of a call is of type Error. */
  predicate HasErrorArgument(argTys: seq<Type>)
  {
    exists k :: 0 <= k < |argTys| && argTys[k].Error?
  }

  /** A call under the absorbing discipline: an arity mismatch makes the call Error; Error
      arguments are not checked against their parameters, and make the call Error. */
  function AbsorbingProcedure(calleeTy: Type, argTys: seq<Type>, rel: Relations): Outcome
  {
    if calleeTy.Error? then Outcome(Error, None, [])
    else if !calleeTy.Function? then Outcome(Error, None, [IsNotCallable])
    else if |argTys| != |calleeTy.params| then Outcome(Error, None, [NumberOfParameters])
    else
      Outcome(if HasErrorArgument(argTys) then Error else calleeTy.ret, None,
        AbsorbingArgumentErrors(argTys, calleeTy.params, rel, 0))
  }

  /** exitProcedure reports what the absorbing discipline reports except for Error arguments not
      equalTypes to their parameter, which it still reports. The types differ exactly when the
      arity is wrong or some argument is Error, and the declared return type is not itself Error:
      the listener keeps the return type in both cases. */
  lemma ProcedureAgainstReference(calleeTy: Type, argTys: seq<Type>, rel: Relations)
    ensures ExitProcedure(calleeTy, argTys, rel).errors != AbsorbingProcedure(calleeTy, argTys, rel).errors <==>
      && calleeTy.Function? && |argTys| == |calleeTy.params|
      && exists k :: 0 <= k < |argTys| && argTys[k].Error? && !rel.equal(Error, calleeTy.params[k])
    ensures ExitProcedure(calleeTy, argTys, rel).ty != AbsorbingProcedure(calleeTy, argTys, rel).ty <==>
      calleeTy.Function? && !calleeTy.ret.Error? && (|argTys| != |calleeTy.params| || HasErrorArgument(argTys))
  {
    if calleeTy.Function? && |argTys| == |calleeTy.params| {
      ArgumentsAgainstReference(argTys, calleeTy.params, rel);
    }
  }

  /** A call in expression position under the absorbing discipline: the call as above, then a
      void callee, when the call itself is not Error, is not a function. */
  function AbsorbingCallExpr(calleeTy: Type, argTys: seq<Type>, rel: Relations): Outcome
  {
    var p := AbsorbingProcedure(calleeTy, argTys, rel);
    if !p.ty.Error? && IsVoidFunction(calleeTy) then Outcome(Error, None, p.errors + [IsNotFunction]) else p
  }

  /** exitProcedure followed by exitProcExpr, against the absorbing call expression. The listener
      keeps the return type after an arity mismatch or an Error argument, so a non-void callee's
      call expression is typed where the ideal is Error, and a void callee's draws isNotFunction
      where the ideal draws nothing more; apart from that, only the Error arguments of
      exitProcedure differ. */
  lemma ProcExprAgainstReference(calleeTy: Type, argTys: seq<Type>, rel: Relations)
    ensures var p := ExitProcedure(calleeTy, argTys, rel);
      ExitProcExpr(p.ty, calleeTy).ty != AbsorbingCallExpr(calleeTy, argTys, rel).ty <==>
        && calleeTy.Function? && !IsVoidFunction(calleeTy) && !calleeTy.ret.Error?
        && (|argTys| != |calleeTy.params| || HasErrorArgument(argTys))
    ensures var p := ExitProcedure(calleeTy, argTys, rel);
      p.errors + ExitProcExpr(p.ty, calleeTy).errors != AbsorbingCallExpr(calleeTy, argTys, rel).errors <==>
        calleeTy.Function? &&
        if |argTys| != |calleeTy.params| then IsVoidFunction(calleeTy)
        else
          || (IsVoidFunction(calleeTy) && HasErrorArgument(argTys))
          || exists k :: 0 <= k < |argTys| && argTys[k].Error? && !rel.equal(Error, calleeTy.params[k])
    ensures calleeTy.Function? && |argTys| != |calleeTy.params| && IsVoidFunction(calleeTy) ==>
      var p := ExitProcedure(calleeTy, argTys, rel);
      && p.errors + ExitProcExpr(p.ty, calleeTy).errors == [NumberOfParameters, IsNotFunction]
      && AbsorbingCallExpr(calleeTy, argTys, rel).errors == [NumberOfParameters]
  {
    ProcedureAgainstReference(calleeTy, argTys, rel);
    var p := ExitProcedure(calleeTy, argTys, rel);
    var q := AbsorbingProcedure(calleeTy, argTys, rel);
    if calleeTy.Function? && |argTys| == |calleeTy.params| && IsVoidFunction(calleeTy) {
      if HasErrorArgument(argTys) {
        assert IsNotFunction in p.errors + [IsNotFunction];
        assert IsNotFunction !in q.errors;
      }
    }
  }

  /** A return under the absorbing discipline: returning a value from a void function is a fault
      whatever its type; an Error value returned from any other function draws nothing more. */
  function AbsorbingReturn(fnTy: Type, value: Option<Type>, rel: Relations): seq<ErrorKind>
    requires fnTy.Function?
    requires !IsVoidFunction(fnTy) ==> value.Some?
  {
    if IsVoidFunction(fnTy) then (if value.Some? then [IncompatibleReturn] else [])
    else if value.value.Error? then []
    else if !rel.equal(value.value, fnTy.ret) && !(value.value.Integer? && fnTy.ret.Float?) then [IncompatibleReturn]
    else []
  }

  /** exitReturnExpr_ departs from the absorbing discipline exactly when a non-void function
      returns an Error value that is not equalTypes to its return type: the listener still reports
      incompatibleReturn there. */
  lemma ReturnAgainstReference(fnTy: Type, value: Option<Type>, rel: Relations)
    requires fnTy.Function?
    requires !IsVoidFunction(fnTy) ==> value.Some?
    ensures ExitReturnExpr(fnTy, value, rel) != AbsorbingReturn(fnTy, value, rel) <==>
      !IsVoidFunction(fnTy) && value.value.Error? && !rel.equal(Error, fnTy.ret)
    ensures !IsVoidFunction(fnTy) && value.value.Error? && !rel.equal(Error, fnTy.ret) ==>
      ExitReturnExpr(fnTy, value, rel) == [IncompatibleReturn] && AbsorbingReturn(fnTy, value, rel) == []
  {
  }

  /** The statement rules other than return follow the absorbing discipline: a checked type that
      is Error draws no diagnostic from if, while, write, read, or the plain form of assignment.
      Return is compared in ReturnAgainstReference. */
  lemma StatementsAbsorbError(rel: Relations, t: Type, lvalue: bool)
    ensures ExitIfStmt(Error) == [] && ExitWhileStmt(Error) == [] && ExitWriteExpr(Error) == []
    ensures ExitReadStmt(Error, lvalue) == []
    ensures ExitAssignStmt(Error, lvalue, t, None, rel) == []
    ensures ExitAssignStmt(t, true, Error, None, rel) == []
  {
  }
}
