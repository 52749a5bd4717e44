/** One depth-first traversal of a program, applying the listener's rules bottom-up: every node's
    children are checked before the node, and diagnostics are collected in discovery order. The
    scope stack is pushed on entering the program and each function and popped on leaving them. */
module Walk {
  import opened Wrappers
  import opened Types
  import opened SemErrors
  import opened SymTable
  import opened TypeCheck

  // ---------------------------------------------------------------------------------------------
  // Syntax
  // ---------------------------------------------------------------------------------------------

  /** What follows an identifier in the tree: nothing, `[INTVAL]`, or `[expr]`. */
  datatype Index = NoIndex | ConstIndex | ExprIndex(index: Expr)

  datatype Expr =
    | Value(lit: Literal)
    | Parenthesis(inner: Expr)
    | Arithmetic(aop: ArithOp, left: Expr, right: Option<Expr>)
    | Relational(rop: RelOp, left: Expr, right: Option<Expr>)
    | ExprIdent(name: string, ix: Index)
    | ProcExpr(call: Call)

  /** A procedure node: the callee identifier and the argument expressions. */
  datatype Call = Call(callee: string, args: seq<Expr>)

  /** The target of an assignment or read. */
  datatype LeftExpr = LeftExpr(name: string, ix: Index)

  datatype Stmt =
    | Assign(target: LeftExpr, value: Expr)
    | If(cond: Expr, thenPart: seq<Stmt>, elsePart: seq<Stmt>)
    | While(cond: Expr, body: seq<Stmt>)
    | ProcCall(call: Call)
    | Read(target: LeftExpr)
    | Write(value: Expr)
    | WriteString(text: string)
    | Return(result: Option<Expr>)

  datatype FunctionDef = FunctionDef(scope: ScopeId, params: seq<ParamDecl>, ret: Type, body: seq<Stmt>)

  datatype Program = Program(scope: ScopeId, functions: seq<FunctionDef>)

  /** What the rules consult while checking one function body: name resolution in the active
      scopes, the type manager's relations, and the current function type. */
  datatype Env = Env(lookup: string -> Option<Symbol>, rel: Relations, fnTy: Type)

  /** What the walk of a whole program consults: resolution of a name against a scope stack, the
      type manager's relations, and the symbol table's verdict on the entry point. */
  datatype Context = Context(resolve: (seq<ScopeId>, string) -> Option<Symbol>, rel: Relations, noMain: bool)

  // ---------------------------------------------------------------------------------------------
  // Shape the grammar guarantees
  // ---------------------------------------------------------------------------------------------

  /** NOT has one operand and every other relational operator two. */
  predicate WellFormed(e: Expr)
    decreases e, 0
  {
    match e
    case Value(_) => true
    case Parenthesis(inner) => WellFormed(inner)
    case Arithmetic(_, l, r) => WellFormed(l) && (r.Some? ==> WellFormed(r.value))
    case Relational(op, l, r) => (op.Not? <==> r.None?) && WellFormed(l) && (r.Some? ==> WellFormed(r.value))
    case ExprIdent(_, ix) => WellFormedIndex(ix)
    case ProcExpr(c) => WellFormedArgs(c.args)
  }

  predicate WellFormedIndex(ix: Index)
    decreases ix, 0
  {
    ix.ExprIndex? ==> WellFormed(ix.index)
  }

  predicate WellFormedArgs(args: seq<Expr>)
    decreases args, 0
  {
    forall i :: 0 <= i < |args| ==> WellFormed(args[i])
  }

  /** Expressions are well formed, and a non-void function returns a value from every return. */
  predicate WellFormedStmt(s: Stmt, fnTy: Type)
    decreases s, 0
  {
    match s
    case Assign(t, v) => WellFormedIndex(t.ix) && WellFormed(v)
    case If(c, th, el) => WellFormed(c) && WellFormedStmts(th, fnTy) && WellFormedStmts(el, fnTy)
    case While(c, b) => WellFormed(c) && WellFormedStmts(b, fnTy)
    case ProcCall(call) => WellFormedArgs(call.args)
    case Read(t) => WellFormedIndex(t.ix)
    case Write(v) => WellFormed(v)
    case WriteString(_) => true
    case Return(v) => (v.Some? ==> WellFormed(v.value)) && (!IsVoidFunction(fnTy) ==> v.Some?)
  }

  predicate WellFormedStmts(ss: seq<Stmt>, fnTy: Type)
    decreases ss, 0
  {
    forall i :: 0 <= i < |ss| ==> WellFormedStmt(ss[i], fnTy)
  }

  predicate WellFormedProgram(p: Program)
  {
    forall i :: 0 <= i < |p.functions| ==>
      WellFormedStmts(p.functions[i].body, Function(ParamTypes(p.functions[i].params), p.functions[i].ret))
  }

  // ---------------------------------------------------------------------------------------------
  // Expressions
  // ---------------------------------------------------------------------------------------------

  /** The diagnostics an expression rule can report. */
  predicate ExpressionDiagnostic(k: ErrorKind)
  {
    || k.UndeclaredIdent? || k.NonArrayInArrayAccess? || k.NonIntegerIndexInArrayAccess?
    || k.IncompatibleOperator? || k.BooleanRequired? || k.IsNotCallable? || k.IsNotFunction?
    || k.NumberOfParameters? || k.IncompatibleParameter?
  }

  /** Prefixes the diagnostics of a node's children to those of the node's own rule. */
  function After(prior: seq<ErrorKind>, o: Outcome): (r: Outcome)
    ensures r.ty == o.ty && r.isLValue == o.isLValue
    ensures r.errors == prior + o.errors
  {
    o.(errors := prior + o.errors)
  }

  /** The decorations of an expression and every diagnostic of its subtree, in discovery order. */
  function CheckExpr(e: Expr, env: Env): (r: Outcome)
    requires WellFormed(e)
    ensures forall k :: k in r.errors ==> ExpressionDiagnostic(k)
    ensures e.Relational? ==> r.ty == Boolean
    decreases e, 1
  {
    match e
    case Value(lit) => ExitValue(lit)
    case Parenthesis(inner) =>
      var c := CheckExpr(inner, env);
      After(c.errors, ExitParenthesis(c.ty))
    case Arithmetic(op, l, r) =>
      var c1 := CheckExpr(l, env);
      if r.Some? then
        var c2 := CheckExpr(r.value, env);
        After(c1.errors + c2.errors, ExitArithmetic(op, c1.ty, Some(c2.ty)))
      else
        After(c1.errors, ExitArithmetic(op, c1.ty, None))
    case Relational(op, l, r) =>
      var c1 := CheckExpr(l, env);
      if r.Some? then
        var c2 := CheckExpr(r.value, env);
        After(c1.errors + c2.errors, ExitRelational(op, c1.ty, Some(c2.ty), env.rel))
      else
        After(c1.errors, ExitRelational(op, c1.ty, None, env.rel))
    case ExprIdent(name, ix) =>
      var id := ExitIdent(env.lookup(name));
      var (sub, indexErrors) := CheckIndex(ix, env);
      After(id.errors + indexErrors, ExitExprIdent(id.ty, id.isLValue.value, sub))
    case ProcExpr(call) =>
      var p := CheckCall(call, env);
      // the rule reads the callee identifier's decoration, already made while checking the call
      After(p.errors, ExitProcExpr(p.ty, ExitIdent(env.lookup(call.callee)).ty))
  }

  /** The subscript an index yields, with the diagnostics of the index expression. */
  function CheckIndex(ix: Index, env: Env): (r: (Subscript, seq<ErrorKind>))
    requires WellFormedIndex(ix)
    ensures forall k :: k in r.1 ==> ExpressionDiagnostic(k)
    ensures r.0.NoSubscript? <==> ix.NoIndex?
    ensures r.0.ConstSubscript? <==> ix.ConstIndex?
    decreases ix, 1
  {
    match ix
    case NoIndex => (NoSubscript, [])
    case ConstIndex => (ConstSubscript, [])
    case ExprIndex(i) =>
      var c := CheckExpr(i, env);
      (ExprSubscript(c.ty), c.errors)
  }

  /** The argument types, in order, and the diagnostics of all arguments. */
  function CheckArgs(args: seq<Expr>, env: Env): (r: (seq<Type>, seq<ErrorKind>))
    requires WellFormedArgs(args)
    ensures |r.0| == |args|
    ensures forall k :: k in r.1 ==> ExpressionDiagnostic(k)
    decreases args, 1
  {
    if args == [] then ([], [])
    else
      var c := CheckExpr(args[0], env);
      var rest := CheckArgs(args[1..], env);
      ([c.ty] + rest.0, c.errors + rest.1)
  }

  /** A procedure node: the callee identifier, then the arguments, then exitProcedure. */
  function CheckCall(call: Call, env: Env): (r: Outcome)
    requires WellFormedArgs(call.args)
    ensures forall k :: k in r.errors ==> ExpressionDiagnostic(k)
    decreases call, 1
  {
    var id := ExitIdent(env.lookup(call.callee));
    var (argTys, argErrors) := CheckArgs(call.args, env);
    After(id.errors + argErrors, ExitProcedure(id.ty, argTys, env.rel))
  }

  /** A left expression: the identifier, then the index, then exitLeft_expr. */
  function CheckLeftExpr(le: LeftExpr, env: Env): (r: Outcome)
    requires WellFormedIndex(le.ix)
    ensures r.isLValue.Some?
    ensures forall k :: k in r.errors ==> ExpressionDiagnostic(k)
  {
    var id := ExitIdent(env.lookup(le.name));
    var (sub, indexErrors) := CheckIndex(le.ix, env);
    After(id.errors + indexErrors, ExitLeftExpr(id.ty, id.isLValue.value, sub))
  }

  // ---------------------------------------------------------------------------------------------
  // Statements, functions, program
  // ---------------------------------------------------------------------------------------------

  /** Every diagnostic of a statement, its own after those of its children. */
  function CheckStmt(s: Stmt, env: Env): (r: seq<ErrorKind>)
    requires env.fnTy.Function? && WellFormedStmt(s, env.fnTy)
    ensures NoMainProperlyDeclared !in r
    decreases s, 1
  {
    match s
    case Assign(target, value) =>
      var l := CheckLeftExpr(target, env);
      var v := CheckExpr(value, env);
      l.errors + v.errors + ExitAssignStmt(l.ty, l.isLValue.value, v.ty, None, env.rel)
    case If(cond, th, el) =>
      var c := CheckExpr(cond, env);
      c.errors + CheckStmts(th, env) + CheckStmts(el, env) + ExitIfStmt(c.ty)
    case While(cond, body) =>
      var c := CheckExpr(cond, env);
      c.errors + CheckStmts(body, env) + ExitWhileStmt(c.ty)
    case ProcCall(call) =>
      var p := CheckCall(call, env);
      p.errors + ExitProcCall(p.ty).errors
    case Read(target) =>
      var l := CheckLeftExpr(target, env);
      l.errors + ExitReadStmt(l.ty, l.isLValue.value)
    case Write(value) =>
      var v := CheckExpr(value, env);
      v.errors + ExitWriteExpr(v.ty)
    case WriteString(_) => []
    case Return(result) =>
      if result.Some? then
        var v := CheckExpr(result.value, env);
        v.errors + ExitReturnExpr(env.fnTy, Some(v.ty), env.rel)
      else
        ExitReturnExpr(env.fnTy, None, env.rel)
  }

  function CheckStmts(ss: seq<Stmt>, env: Env): (r: seq<ErrorKind>)
    requires env.fnTy.Function? && WellFormedStmts(ss, env.fnTy)
    ensures NoMainProperlyDeclared !in r
    decreases ss, 1
  {
    if ss == [] then [] else CheckStmt(ss[0], env) + CheckStmts(ss[1..], env)
  }

  /** A function: enterFunction, its body resolved against the scope stack as it then stands,
      exitFunction. */
  function CheckFunction(f: FunctionDef, t: Table, ctx: Context): (r: (Table, seq<ErrorKind>))
    requires WellFormedStmts(f.body, Function(ParamTypes(f.params), f.ret))
    ensures r.0.stack == t.stack
    ensures NoMainProperlyDeclared !in r.1
  {
    var inside := EnterFunction(t, f.scope, f.ret, f.params);
    var env := Env(name => ctx.resolve(inside.stack, name), ctx.rel, inside.currentFunction.value);
    (ExitFunction(inside), CheckStmts(f.body, env))
  }

  /** The functions in order, threading the symbol table and concatenating their diagnostics. */
  function CheckFunctions(fs: seq<FunctionDef>, t: Table, ctx: Context): (r: (Table, seq<ErrorKind>))
    requires forall i :: 0 <= i < |fs| ==>
      WellFormedStmts(fs[i].body, Function(ParamTypes(fs[i].params), fs[i].ret))
    ensures r.0.stack == t.stack
    ensures NoMainProperlyDeclared !in r.1
  {
    if fs == [] then (t, [])
    else
      var (t1, e1) := CheckFunction(fs[0], t, ctx);
      var (t2, e2) := CheckFunctions(fs[1..], t1, ctx);
      (t2, e1 + e2)
  }

  /** The program: enterProgram, every function, exitProgram. */
  function CheckProgram(p: Program, t: Table, ctx: Context): (r: (Table, seq<ErrorKind>))
    requires WellFormedProgram(p)
    ensures r.0.stack == t.stack
    ensures NoMainProperlyDeclared in r.1 <==> ctx.noMain
    ensures ctx.noMain ==> r.1[|r.1| - 1] == NoMainProperlyDeclared
  {
    var inside := EnterProgram(t, p.scope);
    var (t1, errors) := CheckFunctions(p.functions, inside, ctx);
    ExitProgram(t1, errors, ctx.noMain)
  }
}

/** Properties of the traversal as a whole. */
module WalkProperties {
  import opened Wrappers
  import opened Types
  import opened SemErrors
  import opened SymTable
  import opened TypeCheck
  import opened Walk

  // ---------------------------------------------------------------------------------------------
  // Each undeclared identifier is reported exactly once
  // ---------------------------------------------------------------------------------------------

  /** 1 when the name does not resolve, 0 otherwise. */
  function Unresolved(name: string, lookup: string -> Option<Symbol>): nat
  {
    if lookup(name).None? then 1 else 0
  }

  /** How many identifier nodes in the expression fail to resolve. */
  function UndeclaredUses(e: Expr, lookup: string -> Option<Symbol>): nat
    decreases e
  {
    match e
    case Value(_) => 0
    case Parenthesis(inner) => UndeclaredUses(inner, lookup)
    case Arithmetic(_, l, r) => UndeclaredUses(l, lookup) + (if r.Some? then UndeclaredUses(r.value, lookup) else 0)
    case Relational(_, l, r) => UndeclaredUses(l, lookup) + (if r.Some? then UndeclaredUses(r.value, lookup) else 0)
    case ExprIdent(name, ix) => Unresolved(name, lookup) + IndexUndeclaredUses(ix, lookup)
    case ProcExpr(call) => CallUndeclaredUses(call, lookup)
  }

  function IndexUndeclaredUses(ix: Index, lookup: string -> Option<Symbol>): nat
    decreases ix
  {
    if ix.ExprIndex? then UndeclaredUses(ix.index, lookup) else 0
  }

  function ArgsUndeclaredUses(args: seq<Expr>, lookup: string -> Option<Symbol>): nat
    decreases args
  {
    if args == [] then 0 else UndeclaredUses(args[0], lookup) + ArgsUndeclaredUses(args[1..], lookup)
  }

  function CallUndeclaredUses(call: Call, lookup: string -> Option<Symbol>): nat
    decreases call
  {
    Unresolved(call.callee, lookup) + ArgsUndeclaredUses(call.args, lookup)
  }

  function StmtUndeclaredUses(s: Stmt, lookup: string -> Option<Symbol>): nat
    decreases s
  {
    match s
    case Assign(t, v) => Unresolved(t.name, lookup) + IndexUndeclaredUses(t.ix, lookup) + UndeclaredUses(v, lookup)
    case If(c, th, el) => UndeclaredUses(c, lookup) + StmtsUndeclaredUses(th, lookup) + StmtsUndeclaredUses(el, lookup)
    case While(c, b) => UndeclaredUses(c, lookup) + StmtsUndeclaredUses(b, lookup)
    case ProcCall(call) => CallUndeclaredUses(call, lookup)
    case Read(t) => Unresolved(t.name, lookup) + IndexUndeclaredUses(t.ix, lookup)
    case Write(v) => UndeclaredUses(v, lookup)
    case WriteString(_) => 0
    case Return(v) => if v.Some? then UndeclaredUses(v.value, lookup) else 0
  }

  function StmtsUndeclaredUses(ss: seq<Stmt>, lookup: string -> Option<Symbol>): nat
    decreases ss
  {
    if ss == [] then 0 else StmtUndeclaredUses(ss[0], lookup) + StmtsUndeclaredUses(ss[1..], lookup)
  }

  /** The identifier rule's diagnostics count the unresolved name once. */
  lemma IdentReportsOnce(name: string, lookup: string -> Option<Symbol>)
    ensures Occurrences(ExitIdent(lookup(name)).errors, UndeclaredIdent) == Unresolved(name, lookup)
  {
  }

  /** Counting over a node's diagnostics: those of its children, then those of its own rule. */
  lemma OccurrencesSplit(a: seq<ErrorKind>, b: seq<ErrorKind>, k: ErrorKind)
    ensures Occurrences(a + b, k) == Occurrences(a, k) + Occurrences(b, k)
  {
  }

  lemma Absent(es: seq<ErrorKind>, k: ErrorKind)
    requires k !in es
    ensures Occurrences(es, k) == 0
  {
  }

  /** Every unresolved identifier node of an expression draws exactly one undeclaredIdent, and
      nothing else does; in particular a call's callee, whose decoration both the procedure rule
      and the call-expression rule read, is reported once. */
  lemma {:induction false} ExprReportsUndeclaredOnce(e: Expr, env: Env)
    requires WellFormed(e)
    ensures Occurrences(CheckExpr(e, env).errors, UndeclaredIdent) == UndeclaredUses(e, env.lookup)
    decreases e, 1
  {
    match e
    case Value(_) =>
    case Parenthesis(inner) => ParenthesisStep(inner, env);
    case Arithmetic(op, l, r) => ArithmeticStep(op, l, r, env);
    case Relational(op, l, r) => RelationalStep(op, l, r, env);
    case ExprIdent(name, ix) => ExprIdentStep(name, ix, env);
    case ProcExpr(call) => ProcExprStep(call, env);
  }

  lemma {:induction false} ParenthesisStep(inner: Expr, env: Env)
    requires WellFormed(inner)
    ensures Occurrences(CheckExpr(Parenthesis(inner), env).errors, UndeclaredIdent) ==
      UndeclaredUses(Parenthesis(inner), env.lookup)
    decreases Parenthesis(inner), 0
  {
    ExprReportsUndeclaredOnce(inner, env);
  }

  lemma {:induction false} ArithmeticStep(op: ArithOp, l: Expr, r: Option<Expr>, env: Env)
    requires WellFormed(Arithmetic(op, l, r))
    ensures Occurrences(CheckExpr(Arithmetic(op, l, r), env).errors, UndeclaredIdent) ==
      UndeclaredUses(Arithmetic(op, l, r), env.lookup)
    decreases Arithmetic(op, l, r), 0
  {
    ExprReportsUndeclaredOnce(l, env);
    if r.Some? { ExprReportsUndeclaredOnce(r.value, env); }
  }

  lemma {:induction false} RelationalStep(op: RelOp, l: Expr, r: Option<Expr>, env: Env)
    requires WellFormed(Relational(op, l, r))
    ensures Occurrences(CheckExpr(Relational(op, l, r), env).errors, UndeclaredIdent) ==
      UndeclaredUses(Relational(op, l, r), env.lookup)
    decreases Relational(op, l, r), 0
  {
    ExprReportsUndeclaredOnce(l, env);
    if r.Some? { ExprReportsUndeclaredOnce(r.value, env); }
  }

  lemma {:induction false} ExprIdentStep(name: string, ix: Index, env: Env)
    requires WellFormedIndex(ix)
    ensures Occurrences(CheckExpr(ExprIdent(name, ix), env).errors, UndeclaredIdent) ==
      UndeclaredUses(ExprIdent(name, ix), env.lookup)
    decreases ExprIdent(name, ix), 0
  {
    IndexReportsUndeclaredOnce(ix, env);
    ExprIdentCount(name, ix, env);
  }

  /** An identifier node adds one undeclaredIdent of its own when its name does not resolve, on
      top of whatever its index reported; the access rule itself adds none. */
  lemma ExprIdentCount(name: string, ix: Index, env: Env)
    requires WellFormedIndex(ix)
    ensures Occurrences(CheckExpr(ExprIdent(name, ix), env).errors, UndeclaredIdent) ==
      Unresolved(name, env.lookup) + Occurrences(CheckIndex(ix, env).1, UndeclaredIdent)
  {
    var u := UndeclaredIdent;
    IdentReportsOnce(name, env.lookup);
    var id := ExitIdent(env.lookup(name));
    var (sub, indexErrors) := CheckIndex(ix, env);
    var own := ExitExprIdent(id.ty, id.isLValue.value, sub).errors;
    assert CheckExpr(ExprIdent(name, ix), env).errors == id.errors + indexErrors + own;
    assert InOrder(own, NonArrayInArrayAccess, NonIntegerIndexInArrayAccess);
    Absent(own, u);
    OccurrencesSplit(id.errors, indexErrors, u);
    OccurrencesSplit(id.errors + indexErrors, own, u);
  }

  lemma {:induction false} ProcExprStep(call: Call, env: Env)
    requires WellFormedArgs(call.args)
    ensures Occurrences(CheckExpr(ProcExpr(call), env).errors, UndeclaredIdent) ==
      UndeclaredUses(ProcExpr(call), env.lookup)
    decreases ProcExpr(call), 0
  {
    CallReportsUndeclaredOnce(call, env);
  }

  lemma {:induction false} IndexReportsUndeclaredOnce(ix: Index, env: Env)
    requires WellFormedIndex(ix)
    ensures Occurrences(CheckIndex(ix, env).1, UndeclaredIdent) == IndexUndeclaredUses(ix, env.lookup)
    decreases ix, 1
  {
    if ix.ExprIndex? {
      ExprReportsUndeclaredOnce(ix.index, env);
    }
  }

  lemma {:induction false} ArgsReportUndeclaredOnce(args: seq<Expr>, env: Env)
    requires WellFormedArgs(args)
    ensures Occurrences(CheckArgs(args, env).1, UndeclaredIdent) == ArgsUndeclaredUses(args, env.lookup)
    decreases args, 1
  {
    if args != [] {
      ExprReportsUndeclaredOnce(args[0], env);
      ArgsReportUndeclaredOnce(args[1..], env);
      OccurrencesSplit(CheckExpr(args[0], env).errors, CheckArgs(args[1..], env).1, UndeclaredIdent);
    }
  }

  lemma {:induction false} CallReportsUndeclaredOnce(call: Call, env: Env)
    requires WellFormedArgs(call.args)
    ensures Occurrences(CheckCall(call, env).errors, UndeclaredIdent) == CallUndeclaredUses(call, env.lookup)
    decreases call, 1
  {
    var u := UndeclaredIdent;
    IdentReportsOnce(call.callee, env.lookup);
    ArgsReportUndeclaredOnce(call.args, env);
    var id := ExitIdent(env.lookup(call.callee));
    var (argTys, argErrors) := CheckArgs(call.args, env);
    var own := ExitProcedure(id.ty, argTys, env.rel).errors;
    assert forall k :: k in own ==> !k.UndeclaredIdent?;
    Absent(own, u);
    OccurrencesSplit(id.errors, argErrors, u);
    OccurrencesSplit(id.errors + argErrors, own, u);
  }

  lemma {:induction false} LeftExprReportsUndeclaredOnce(le: LeftExpr, env: Env)
    requires WellFormedIndex(le.ix)
    ensures Occurrences(CheckLeftExpr(le, env).errors, UndeclaredIdent) ==
      Unresolved(le.name, env.lookup) + IndexUndeclaredUses(le.ix, env.lookup)
  {
    var u := UndeclaredIdent;
    IdentReportsOnce(le.name, env.lookup);
    IndexReportsUndeclaredOnce(le.ix, env);
    var id := ExitIdent(env.lookup(le.name));
    var (sub, indexErrors) := CheckIndex(le.ix, env);
    var own := ExitLeftExpr(id.ty, id.isLValue.value, sub).errors;
    Absent(own, u);
    OccurrencesSplit(id.errors, indexErrors, u);
    OccurrencesSplit(id.errors + indexErrors, own, u);
  }

  /** The same for statements: a function body reports undeclaredIdent once per unresolved
      identifier node it contains, and the statement rules add none. */
  lemma {:induction false} StmtReportsUndeclaredOnce(s: Stmt, env: Env)
    requires env.fnTy.Function? && WellFormedStmt(s, env.fnTy)
    ensures Occurrences(CheckStmt(s, env), UndeclaredIdent) == StmtUndeclaredUses(s, env.lookup)
    decreases s, 1
  {
    match s
    case Assign(t, v) => AssignStep(t, v, env);
    case If(c, th, el) => IfStep(c, th, el, env);
    case While(c, b) => WhileStep(c, b, env);
    case ProcCall(call) => ProcCallStep(call, env);
    case Read(t) => ReadStep(t, env);
    case Write(v) => WriteStep(v, env);
    case WriteString(_) =>
    case Return(v) => ReturnStep(v, env);
  }

  lemma {:induction false} AssignStep(t: LeftExpr, v: Expr, env: Env)
    requires env.fnTy.Function? && WellFormedStmt(Assign(t, v), env.fnTy)
    ensures Occurrences(CheckStmt(Assign(t, v), env), UndeclaredIdent) == StmtUndeclaredUses(Assign(t, v), env.lookup)
  {
    LeftExprReportsUndeclaredOnce(t, env);
    ExprReportsUndeclaredOnce(v, env);
  }

  lemma {:induction false} IfStep(c: Expr, th: seq<Stmt>, el: seq<Stmt>, env: Env)
    requires env.fnTy.Function? && WellFormedStmt(If(c, th, el), env.fnTy)
    ensures Occurrences(CheckStmt(If(c, th, el), env), UndeclaredIdent) ==
      StmtUndeclaredUses(If(c, th, el), env.lookup)
    decreases If(c, th, el), 0
  {
    ExprReportsUndeclaredOnce(c, env);
    StmtsReportUndeclaredOnce(th, env);
    StmtsReportUndeclaredOnce(el, env);
  }

  lemma {:induction false} WhileStep(c: Expr, b: seq<Stmt>, env: Env)
    requires env.fnTy.Function? && WellFormedStmt(While(c, b), env.fnTy)
    ensures Occurrences(CheckStmt(While(c, b), env), UndeclaredIdent) == StmtUndeclaredUses(While(c, b), env.lookup)
    decreases While(c, b), 0
  {
    ExprReportsUndeclaredOnce(c, env);
    StmtsReportUndeclaredOnce(b, env);
  }

  lemma {:induction false} ProcCallStep(call: Call, env: Env)
    requires env.fnTy.Function? && WellFormedArgs(call.args)
    ensures Occurrences(CheckStmt(ProcCall(call), env), UndeclaredIdent) == StmtUndeclaredUses(ProcCall(call), env.lookup)
  {
    CallReportsUndeclaredOnce(call, env);
  }

  lemma {:induction false} ReadStep(t: LeftExpr, env: Env)
    requires env.fnTy.Function? && WellFormedIndex(t.ix)
    ensures Occurrences(CheckStmt(Read(t), env), UndeclaredIdent) == StmtUndeclaredUses(Read(t), env.lookup)
  {
    LeftExprReportsUndeclaredOnce(t, env);
  }

  lemma {:induction false} WriteStep(v: Expr, env: Env)
    requires env.fnTy.Function? && WellFormedStmt(Write(v), env.fnTy)
    ensures Occurrences(CheckStmt(Write(v), env), UndeclaredIdent) == StmtUndeclaredUses(Write(v), env.lookup)
  {
    ExprReportsUndeclaredOnce(v, env);
    var c := CheckExpr(v, env);
    assert CheckStmt(Write(v), env) == c.errors + ExitWriteExpr(c.ty);
  }

  lemma {:induction false} ReturnStep(v: Option<Expr>, env: Env)
    requires env.fnTy.Function? && WellFormedStmt(Return(v), env.fnTy)
    ensures Occurrences(CheckStmt(Return(v), env), UndeclaredIdent) == StmtUndeclaredUses(Return(v), env.lookup)
  {
    if v.Some? { ExprReportsUndeclaredOnce(v.value, env); }
  }

  lemma {:induction false} StmtsReportUndeclaredOnce(ss: seq<Stmt>, env: Env)
    requires env.fnTy.Function? && WellFormedStmts(ss, env.fnTy)
    ensures Occurrences(CheckStmts(ss, env), UndeclaredIdent) == StmtsUndeclaredUses(ss, env.lookup)
    decreases ss, 1
  {
    if ss != [] {
      StmtReportsUndeclaredOnce(ss[0], env);
      StmtsReportUndeclaredOnce(ss[1..], env);
      OccurrencesSplit(CheckStmt(ss[0], env), CheckStmts(ss[1..], env), UndeclaredIdent);
    }
  }

  // ---------------------------------------------------------------------------------------------
  // Where an unreported Error type can come from
  // ---------------------------------------------------------------------------------------------

  /** The name resolves to a symbol whose type has Error inside it. */
  predicate DeclaredWithError(name: string, lookup: string -> Option<Symbol>)
  {
    lookup(name).Some? && MentionsError(lookup(name).value.ty)
  }

  /** The positions through which an expression can be Error without any diagnostic: an
      unrecognised literal, a binary operand, a parenthesised expression, and identifiers or
      callees declared with a type that has Error inside it. */
  predicate SilentlyError(e: Expr, lookup: string -> Option<Symbol>)
    decreases e
  {
    match e
    case Value(lit) => lit.Unrecognised?
    case Parenthesis(inner) => SilentlyError(inner, lookup)
    case Arithmetic(_, l, r) => r.Some? && (SilentlyError(l, lookup) || SilentlyError(r.value, lookup))
    case Relational(_, _, _) => false
    case ExprIdent(name, _) => DeclaredWithError(name, lookup)
    case ProcExpr(call) => DeclaredWithError(call.callee, lookup)
  }

  /** An expression whose type comes out Error with no diagnostic anywhere in it owes that Error
      to a silent source: the "every Error is already reported" reading holds except for
      unrecognised literals and symbols declared with Error inside their types. */
  lemma {:induction false} UnreportedErrorHasSilentSource(e: Expr, env: Env)
    requires WellFormed(e)
    requires CheckExpr(e, env).ty.Error? && CheckExpr(e, env).errors == []
    ensures SilentlyError(e, env.lookup)
    decreases e
  {
    match e
    case Value(_) =>
    case Parenthesis(inner) =>
      UnreportedErrorHasSilentSource(inner, env);
    case Arithmetic(op, l, r) =>
      var c1 := CheckExpr(l, env);
      if r.Some? {
        var c2 := CheckExpr(r.value, env);
        assert c1.errors == [] && c2.errors == [];
        if c1.ty.Error? {
          UnreportedErrorHasSilentSource(l, env);
        } else {
          UnreportedErrorHasSilentSource(r.value, env);
        }
      }
    case Relational(_, _, _) =>
    case ExprIdent(name, ix) =>
      var id := ExitIdent(env.lookup(name));
      assert id.errors == [];
      if !ix.NoIndex? {
        assert id.ty.Array?;
        assert MentionsError(id.ty.elem);
      }
    case ProcExpr(call) =>
      var id := ExitIdent(env.lookup(call.callee));
      var p := CheckCall(call, env);
      assert id.errors == [];
      assert p.ty.Error?;
      assert id.ty.Function? ==> MentionsError(id.ty.ret);
  }

  // ---------------------------------------------------------------------------------------------
  // Where absorption fails in a whole tree
  // ---------------------------------------------------------------------------------------------

  /** `-x` with `x` undeclared: the operand is Error, yet the negation comes out Float and the
      undeclaredIdent is the only diagnostic. */
  lemma NegatedUndeclaredIsFloat(env: Env)
    requires env.lookup("x").None?
    ensures CheckExpr(Arithmetic(Minus, ExprIdent("x", NoIndex), None), env).ty == Float
    ensures CheckExpr(Arithmetic(Minus, ExprIdent("x", NoIndex), None), env).errors == [UndeclaredIdent]
  {
  }

  /** `b := true + 1` with `b` a Boolean variable and Integer not copyable into Boolean: the
      operator fault yields Integer instead of Error, so the assignment draws a second diagnostic
      for the same root cause. */
  lemma OperatorFaultCascades(env: Env)
    requires env.fnTy.Function?
    requires env.lookup("b") == Some(Symbol(Boolean, false))
    requires !env.rel.copyable(Boolean, Integer)
    ensures CheckStmt(Assign(LeftExpr("b", NoIndex), Arithmetic(Plus, Value(BoolVal), Some(Value(IntVal)))), env)
      == [IncompatibleOperator, IncompatibleAssignment]
  {
  }

  /** `f(1, 2)` where `f` takes one Integer and returns Integer: the arity diagnostic is reported
      and the call still has type Integer. */
  lemma ArityMismatchKeepsReturnType(env: Env)
    requires env.lookup("f") == Some(Symbol(Function([Integer], Integer), true))
    ensures CheckExpr(ProcExpr(Call("f", [Value(IntVal), Value(IntVal)])), env).ty == Integer
    ensures CheckExpr(ProcExpr(Call("f", [Value(IntVal), Value(IntVal)])), env).errors == [NumberOfParameters]
  {
  }

  /** `f(1, 2) == true` for the same `f`, with Integer and Boolean not comparable: because the
      faulty call is Integer rather than Error, the enclosing comparison is checked and draws a
      second diagnostic for the same root cause. */
  lemma ArityMismatchCascades(env: Env)
    requires env.lookup("f") == Some(Symbol(Function([Integer], Integer), true))
    requires !env.rel.comparable(Integer, Boolean, "==")
    ensures CheckExpr(Relational(Compare("=="), ProcExpr(Call("f", [Value(IntVal), Value(IntVal)])), Some(Value(BoolVal))), env).errors
      == [NumberOfParameters, IncompatibleOperator]
  {
  }

  /** `f(x)` where `f` takes one Integer, `x` is undeclared, and Error is not equalTypes to
      Integer: the argument check does not skip the Error argument, so the undeclared name draws
      undeclaredIdent and then incompatibleParameter at position 1. */
  lemma UndeclaredArgumentCascades(env: Env)
    requires env.lookup("f") == Some(Symbol(Function([Integer], Integer), true))
    requires env.lookup("x").None?
    requires !env.rel.equal(Error, Integer)
    ensures CheckExpr(ProcExpr(Call("f", [ExprIdent("x", NoIndex)])), env).errors
      == [UndeclaredIdent, IncompatibleParameter(1)]
  {
    var x := ExprIdent("x", NoIndex);
    var call := Call("f", [x]);
    assert CheckArgs([x][1..], env) == ([], []);
    assert CheckArgs(call.args, env).0 == [Error];
    assert CheckArgs(call.args, env).1 == [UndeclaredIdent];
    assert ArgumentErrors([Error], [Integer], env.rel, 0) == [IncompatibleParameter(1)];
    assert CheckCall(call, env).errors == [UndeclaredIdent, IncompatibleParameter(1)];
  }
}
