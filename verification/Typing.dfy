/**
  What the analyser leaves behind: trees whose identifiers and assignments carry the type
  of the variable they name, and the premises under which lowering keeps their meaning.
 */
module Typing {
  import opened Words
  import opened Ast
  import opened Source

  function Lookup(vars: seq<Var>, x: string): Option<DataType> {
    var i := Find(vars, x);
    if i < 0 then None else Some(vars[i].ty)
  }

  /** Every identifier is in scope and annotated with its type; no assignment is nested. */
  predicate TypedExpr(e: Expr, vars: seq<Var>) {
    match e
    case Number(_, _) => true
    case Identifier(x, ty) => Lookup(vars, x) == Some(ty)
    case Call(_, args, _) => forall i :: 0 <= i < |args| ==> TypedExpr(args[i], vars)
    case Unary(_, operand, _) => TypedExpr(operand, vars)
    case Binary(_, l, r, _) => TypedExpr(l, vars) && TypedExpr(r, vars)
    case Assign(_, _, _) => false
  }

  predicate Mentions(e: Expr, x: string) {
    match e
    case Number(_, _) => false
    case Identifier(y, _) => x == y
    case Call(_, args, _) => exists i :: 0 <= i < |args| && Mentions(args[i], x)
    case Unary(_, operand, _) => Mentions(operand, x)
    case Binary(_, l, r, _) => Mentions(l, x) || Mentions(r, x)
    case Assign(y, rhs, _) => x == y || Mentions(rhs, x)
  }

  /**
    A statement whose names are resolved in `vars`. An initialiser does not mention the
    variable it initialises, and a branch or loop body is not a bare declaration.
   */
  predicate TypedStmt(s: Stmt, vars: seq<Var>)
    decreases s, 0
  {
    match s
    case VarDecl(x, _, init) => init.Some? ==> TypedExpr(init.value, vars) && !Mentions(init.value, x)
    case ExprStmt(e) =>
      if e.Assign? then Lookup(vars, e.target) == Some(e.ty) && TypedExpr(e.rhs, vars) else TypedExpr(e, vars)
    case Return(result) => result.Some? ==> TypedExpr(result.value, vars)
    case If(c, thn, els) =>
      && TypedExpr(c, vars)
      && TypedStmt(thn, vars) && !thn.VarDecl?
      && (els.Some? ==> TypedStmt(els.value, vars) && !els.value.VarDecl?)
    case While(c, body) => TypedExpr(c, vars) && TypedStmt(body, vars) && !body.VarDecl?
    case Block(ss) => TypedStmts(ss, vars)
  }

  predicate TypedStmts(ss: seq<Stmt>, vars: seq<Var>)
    decreases ss, 0
  {
    ss == [] || (TypedStmt(ss[0], vars) && TypedStmts(ss[1..], vars + Declared(ss[0])))
  }

  /** What a statement adds to the scope it stands in. */
  function Declared(s: Stmt): seq<Var> {
    match s
    case VarDecl(x, ty, _) => [Var(x, ty, true)]
    case _ => []
  }

  predicate TypedFunc(f: Func) {
    TypedStmts(f.body, ParamVars(f.params))
  }
}
