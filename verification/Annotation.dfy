/**
  What the analyser does to a tree: it fills in types and leaves everything else. Which types,
  and when there is no error, is said here of trees and scopes that are maps, and proved
  of the analyser.
 */
module Annotation {
  import opened Words
  import opened Ast
  import opened OpenAddressing
  import opened Semantic

  // --- Trees up to annotations -------------------------------------------------------------

  function Erase(e: Expr): Expr
    decreases e, 0
  {
    match e
    case Number(text, _) => Number(text, Void)
    case Identifier(x, _) => Identifier(x, Void)
    case Call(fn, args, _) => Call(fn, EraseArgs(args), Void)
    case Unary(op, operand, _) => Unary(op, Erase(operand), Void)
    case Binary(op, l, r, _) => Binary(op, Erase(l), Erase(r), Void)
    case Assign(x, rhs, _) => Assign(x, Erase(rhs), Void)
  }

  function EraseArgs(es: seq<Expr>): (r: seq<Expr>)
    ensures |r| == |es|
    decreases es, 0
  {
    if es == [] then [] else [Erase(es[0])] + EraseArgs(es[1..])
  }

  function EraseOption(e: Option<Expr>): Option<Expr> {
    if e.None? then None else Some(Erase(e.value))
  }

  /** The types that declarations name are no annotations. */
  function EraseStmt(s: Stmt): Stmt
    decreases s, 0
  {
    match s
    case VarDecl(x, ty, init) => VarDecl(x, ty, EraseOption(init))
    case ExprStmt(e) => ExprStmt(Erase(e))
    case Return(result) => Return(EraseOption(result))
    case If(c, thn, els) =>
      If(Erase(c), EraseStmt(thn), match els case None => None case Some(b) => Some(EraseStmt(b)))
    case While(c, body) => While(Erase(c), EraseStmt(body))
    case Block(ss) => Block(EraseStmts(ss))
  }

  function EraseStmts(ss: seq<Stmt>): (r: seq<Stmt>)
    ensures |r| == |ss|
    decreases ss, 0
  {
    if ss == [] then [] else [EraseStmt(ss[0])] + EraseStmts(ss[1..])
  }

  function EraseFunc(f: Func): Func {
    f.(body := EraseStmts(f.body))
  }

  lemma {:induction false} ExprErased(e: Expr, sc: Scopes, hash: string -> nat, sig: Signatures)
    requires Sized(sc)
    ensures Erase(CheckExpr(e, sc, hash, sig).1) == Erase(e)
    decreases e, 0
  {
    hide LookupVar, LookupFunction, ResultType, NumberType;
    match e
    case Number(_, _) =>
    case Identifier(_, _) =>
    case Call(fn, args, _) =>
      var info := LookupFunction(sig.functions, fn);
      if fn in sig.visible && info.Some? && |args| == |info.value.params| {
        ArgsErased(args, info.value.params, sc, hash, sig);
      }
    case Unary(_, operand, _) => ExprErased(operand, sc, hash, sig);
    case Binary(_, l, r, _) =>
      ExprErased(l, sc, hash, sig);
      ExprErased(r, sc, hash, sig);
    case Assign(_, _, _) =>
  }

  lemma {:induction false} ArgsErased(args: seq<Expr>, ps: seq<Param>, sc: Scopes, hash: string -> nat, sig: Signatures)
    requires Sized(sc) && |args| == |ps|
    ensures EraseArgs(CheckArgs(args, ps, sc, hash, sig).1) == EraseArgs(args)
    decreases args, 0
  {
    hide CheckExpr, Erase;
    if args != [] {
      ExprErased(args[0], sc, hash, sig);
      ArgsErased(args[1..], ps[1..], sc, hash, sig);
      var out := CheckArgs(args, ps, sc, hash, sig).1;
      assert out[0] == CheckExpr(args[0], sc, hash, sig).1;
      assert out[1..] == CheckArgs(args[1..], ps[1..], sc, hash, sig).1;
    }
  }

  lemma {:induction false} StmtErased(s: Stmt, sc: Scopes, hash: string -> nat, sig: Signatures, ret: DataType)
    requires Sized(sc)
    ensures EraseStmt(CheckStmt(s, sc, hash, sig, ret).1) == EraseStmt(s)
    decreases s, 0
  {
    hide LookupVar, DeclareVar, CheckExpr, Erase;
    match s
    case VarDecl(_, _, init) =>
      if init.Some? {
        ExprErased(init.value, sc, hash, sig);
      }
    case ExprStmt(e) => EffectErased(e, sc, hash, sig, ret);
    case Return(result) =>
      if result.Some? {
        ExprErased(result.value, sc, hash, sig);
      }
    case If(c, thn, els) =>
      ExprErased(c, sc, hash, sig);
      StmtErased(thn, sc, hash, sig, ret);
      if els.Some? {
        StmtErased(els.value, CheckStmt(thn, sc, hash, sig, ret).2, hash, sig, ret);
      }
    case While(c, body) =>
      ExprErased(c, sc, hash, sig);
      StmtErased(body, sc, hash, sig, ret);
    case Block(ss) => StmtsErased(ss, sc + [EmptyScope()], hash, sig, ret);
  }

  lemma {:induction false} EffectErased(e: Expr, sc: Scopes, hash: string -> nat, sig: Signatures, ret: DataType)
    requires Sized(sc)
    ensures EraseStmt(CheckStmt(ExprStmt(e), sc, hash, sig, ret).1) == ExprStmt(Erase(e))
  {
    hide LookupVar, CheckExpr;
    if e.Assign? {
      ExprErased(e.rhs, sc, hash, sig);
    } else {
      ExprErased(e, sc, hash, sig);
    }
  }

  lemma {:induction false} StmtsErased(ss: seq<Stmt>, sc: Scopes, hash: string -> nat, sig: Signatures, ret: DataType)
    requires Sized(sc)
    ensures EraseStmts(CheckStmts(ss, sc, hash, sig, ret).1) == EraseStmts(ss)
    decreases ss, 0
  {
    hide CheckStmt, EraseStmt;
    if ss != [] {
      StmtErased(ss[0], sc, hash, sig, ret);
      var (_, s1, sc1) := CheckStmt(ss[0], sc, hash, sig, ret);
      StmtsErased(ss[1..], sc1, hash, sig, ret);
      var out := CheckStmts(ss, sc, hash, sig, ret).1;
      assert out[0] == s1 && out[1..] == CheckStmts(ss[1..], sc1, hash, sig, ret).1;
    }
  }

  /** The analyser gives back the function that it was given, up to the types that it fills in. */
  lemma {:induction false} FuncErased(f: Func, hash: string -> nat, sig: Signatures)
    ensures EraseFunc(CheckFunc(f, hash, sig).1) == EraseFunc(f)
  {
    hide CheckStmts, CheckParams, EraseStmts;
    StmtsErased(f.body, CheckParams(f.params, [EmptyScope()], hash).1, hash, sig, f.returnType);
  }

  // --- Well annotated trees ----------------------------------------------------------------

  /** What is declared in each scope, the innermost last. */
  type Context = seq<map<string, DataType>>

  /** The innermost declaration of `x` counts. */
  function Meaning(ctx: Context, x: string): Option<DataType> {
    if ctx == [] then None
    else if x in ctx[|ctx| - 1] then Some(ctx[|ctx| - 1][x])
    else Meaning(ctx[..|ctx| - 1], x)
  }

  /** The innermost scope has no such name yet, and room for one. */
  predicate CanBind(ctx: Context, x: string) {
    ctx != [] && x !in ctx[|ctx| - 1] && |ctx[|ctx| - 1]| < SCOPE_HASH_SIZE
  }

  function Bind(ctx: Context, x: string, ty: DataType): (r: Context)
    ensures |r| == |ctx|
  {
    if ctx == [] then [] else ctx[|ctx| - 1 := ctx[|ctx| - 1][x := ty]]
  }

  /** What a file sees of a function. */
  datatype Seen = Seen(returnType: DataType, params: seq<DataType>)

  type Sight = map<string, Seen>

  /** A value of type `from` where one of type `to` is wanted. */
  predicate Converts(from: DataType, to: DataType) {
    (from == Void) == (to == Void)
  }

  /** The type of what an operator makes of these operands. */
  function OperatorType(op: BinaryOp, l: DataType, r: DataType): DataType {
    if op in {Add, Sub, Mul, Div} then (if TypeSize(r) > TypeSize(l) then r else l)
    else if op in {And, Or, Xor, LeftShift, RightShift} then (if TypeSize(l) < 4 then Int else l)
    else Int64
  }

  /** Every name is declared, every call is to a function in sight, and every node has its type. */
  predicate Well(e: Expr, ctx: Context, fns: Sight)
    decreases e, 0
  {
    match e
    case Number(text, ty) => ty == if NumberValue(text) < 0x8000_0000 then Int else Int64
    case Identifier(x, ty) => Meaning(ctx, x) == Some(ty)
    case Call(fn, args, ty) => fn in fns && ty == fns[fn].returnType && WellArgs(args, fns[fn].params, ctx, fns)
    case Unary(op, operand, ty) => Well(operand, ctx, fns) && ty == if op == Not then Int64 else operand.ty
    case Binary(op, l, r, ty) => Well(l, ctx, fns) && Well(r, ctx, fns) && ty == OperatorType(op, l.ty, r.ty)
    case Assign(_, _, _) => e == Erase(e)
  }

  /** One argument for each parameter. */
  predicate WellArgs(args: seq<Expr>, params: seq<DataType>, ctx: Context, fns: Sight)
    decreases args, 0
  {
    if args == [] || params == [] then args == [] && params == []
    else Well(args[0], ctx, fns) && Converts(args[0].ty, params[0]) && WellArgs(args[1..], params[1..], ctx, fns)
  }

  /** An initialiser does not see the variable. */
  predicate WellStmt(s: Stmt, ctx: Context, fns: Sight, ret: DataType)
    decreases s, 0
  {
    match s
    case VarDecl(x, ty, init) =>
      CanBind(ctx, x) && (init.Some? ==> Well(init.value, ctx, fns) && Converts(init.value.ty, ty))
    case ExprStmt(e) =>
      if e.Assign? then Meaning(ctx, e.target) == Some(e.ty) && Well(e.rhs, ctx, fns) && Converts(e.rhs.ty, e.ty)
      else Well(e, ctx, fns)
    case Return(None) => ret == Void
    case Return(Some(e)) => ret != Void && Well(e, ctx, fns) && Converts(e.ty, ret)
    case If(c, thn, els) =>
      && Well(c, ctx, fns) && WellStmt(thn, ctx, fns, ret)
      && (els.Some? ==> WellStmt(els.value, After(thn, ctx), fns, ret))
    case While(c, body) => Well(c, ctx, fns) && WellStmt(body, ctx, fns, ret)
    case Block(ss) => WellStmts(ss, ctx + [map[]], fns, ret)
  }

  predicate WellStmts(ss: seq<Stmt>, ctx: Context, fns: Sight, ret: DataType)
    decreases ss, 0
  {
    ss == [] || (WellStmt(ss[0], ctx, fns, ret) && WellStmts(ss[1..], After(ss[0], ctx), fns, ret))
  }

  /** The context after a statement; a bare declaration as a branch or body stays in scope. */
  function After(s: Stmt, ctx: Context): (r: Context)
    ensures |r| == |ctx|
  {
    match s
    case VarDecl(x, ty, _) => Bind(ctx, x, ty)
    case If(_, thn, None) => After(thn, ctx)
    case If(_, thn, Some(els)) => After(els, After(thn, ctx))
    case While(_, body) => After(body, ctx)
    case _ => ctx
  }

  /** Parameters and body share one scope. */
  predicate WellParams(ps: seq<Param>, body: seq<Stmt>, ctx: Context, fns: Sight, ret: DataType)
    decreases |ps|
  {
    if ps == [] then WellStmts(body, ctx, fns, ret)
    else CanBind(ctx, ps[0].name) && WellParams(ps[1..], body, Bind(ctx, ps[0].name, ps[0].ty), fns, ret)
  }

  predicate WellFunc(f: Func, fns: Sight) {
    WellParams(f.params, f.body, [map[]], fns, f.returnType)
  }

  // --- Scopes as maps ----------------------------------------------------------------------

  ghost predicate Shows(sc: Scopes, hash: string -> nat, ctx: Context)
    requires Sized(sc)
  {
    ScopesOk(sc, hash) && |ctx| == |sc| && forall i :: 0 <= i < |sc| ==> Bindings(sc[i], hash) == ctx[i]
  }

  lemma {:induction false} MeaningShown(sc: Scopes, hash: string -> nat, ctx: Context, x: string)
    requires Sized(sc) && Shows(sc, hash, ctx)
    ensures LookupVar(sc, hash, x) == Meaning(ctx, x)
    decreases |sc|
  {
    hide NoHoles, Position;
    if sc != [] {
      var last := |sc| - 1;
      assert Bindings(sc[last], hash) == ctx[last];
      MeaningShown(sc[..last], hash, ctx[..last], x);
    }
  }

  lemma {:induction false} BindShown(sc: Scopes, hash: string -> nat, ctx: Context, x: string, ty: DataType)
    requires Sized(sc) && Shows(sc, hash, ctx)
    ensures DeclareVar(sc, hash, x, ty).Some? <==> CanBind(ctx, x)
    ensures CanBind(ctx, x) ==> Shows(DeclareVar(sc, hash, x, ty).value, hash, Bind(ctx, x, ty))
  {
    hide NoHoles, Target, Bindings;
    if sc != [] {
      var last := |sc| - 1;
      assert Bindings(sc[last], hash) == ctx[last];
      ScopeBinds(sc[last], hash, x, ty);
      if CanBind(ctx, x) {
        ScopesShown(sc, hash, ctx, x, ty);
      }
    }
  }

  /** One scope: a name can be declared if it is new and there is room, and is bound then. */
  lemma {:induction false} ScopeBinds(es: seq<Entry<DataType>>, hash: string -> nat, x: string, ty: DataType)
    requires 0 < |es| && NoHoles(es, hash)
    ensures var p, m := Target(es, hash(x), x), Bindings(es, hash);
            && (p.Some? && !es[p.value].occupied <==> x !in m && |m| < |es|)
            && (p.Some? ==> var es1 := es[p.value := Entry(x, ty, true)];
                            NoHoles(es1, hash) && Bindings(es1, hash) == m[x := ty])
  {
    hide NoHoles, Target, Bindings;
    FullExactly(es, hash, x);
    TargetFree(es, hash, x);
    if Target(es, hash(x), x).Some? {
      AddKeepsTable(es, hash, x, Entry(x, ty, true));
    }
  }

  lemma {:induction false} ScopesShown(sc: Scopes, hash: string -> nat, ctx: Context, x: string, ty: DataType)
    requires Sized(sc) && Shows(sc, hash, ctx) && sc != []
    requires var es := sc[|sc| - 1];
             var p := Target(es, hash(x), x);
             && p.Some? && !es[p.value].occupied
             && var es1 := es[p.value := Entry(x, ty, true)];
                NoHoles(es1, hash) && Bindings(es1, hash) == ctx[|sc| - 1][x := ty]
    ensures DeclareVar(sc, hash, x, ty).Some? && Shows(DeclareVar(sc, hash, x, ty).value, hash, Bind(ctx, x, ty))
  {
    hide NoHoles, Target, Bindings;
    var sc1 := DeclareVar(sc, hash, x, ty).value;
    forall i | 0 <= i < |sc1|
      ensures NoHoles(sc1[i], hash) && Bindings(sc1[i], hash) == Bind(ctx, x, ty)[i]
    {
      assert i < |sc| - 1 ==> sc1[i] == sc[i];
    }
  }

  /** The slot for a name is occupied exactly when the name is bound. */
  lemma {:induction false} TargetFree<V>(es: seq<Entry<V>>, hash: string -> nat, x: string)
    requires NoHoles(es, hash)
    ensures var p := Target(es, hash(x), x); p.Some? ==> (es[p.value].occupied <==> x in Bindings(es, hash))
  {
    hide NoHoles;
  }

  lemma {:induction false} EnterShown(sc: Scopes, hash: string -> nat, ctx: Context)
    requires Sized(sc) && Shows(sc, hash, ctx)
    ensures Shows(sc + [EmptyScope()], hash, ctx + [map[]])
  {
    hide NoHoles, EmptyScope;
    EnteredLookup(sc, hash);
    NothingBound(hash);
  }

  lemma {:induction false} NothingBound(hash: string -> nat)
    ensures NoHoles(EmptyScope(), hash) && Bindings(EmptyScope(), hash) == map[]
  {
    forall x ensures Position(EmptyScope(), hash(x), x) == None {
    }
  }

  /** What the signatures of a file show. */
  function SightOf(sig: Signatures): Sight {
    map fn | fn in sig.visible && LookupFunction(sig.functions, fn).Some? ::
      SeenOf(LookupFunction(sig.functions, fn).value)
  }

  function SeenOf(info: FunctionInfo): Seen {
    Seen(info.returnType, TypesOf(info.params))
  }

  function TypesOf(ps: seq<Param>): (r: seq<DataType>)
    ensures |r| == |ps|
  {
    if ps == [] then [] else [ps[0].ty] + TypesOf(ps[1..])
  }

  lemma {:induction false} SightIs(sig: Signatures, fn: string)
    ensures fn in SightOf(sig) <==> fn in sig.visible && LookupFunction(sig.functions, fn).Some?
    ensures fn in SightOf(sig) ==> SightOf(sig)[fn] == SeenOf(LookupFunction(sig.functions, fn).value)
  {
    hide LookupFunction;
  }

  // --- What is accepted is well annotated --------------------------------------------------

  lemma {:induction false} ExprWell(e: Expr, sc: Scopes, hash: string -> nat, sig: Signatures, ctx: Context)
    requires Sized(sc) && Shows(sc, hash, ctx) && Erase(e) == e && CheckExpr(e, sc, hash, sig).0
    ensures Well(CheckExpr(e, sc, hash, sig).1, ctx, SightOf(sig))
    decreases e, 0
  {
    hide LookupVar, LookupFunction, Meaning, Shows, SightOf;
    match e
    case Number(_, _) =>
    case Identifier(x, _) => MeaningShown(sc, hash, ctx, x);
    case Call(fn, args, _) =>
      SightIs(sig, fn);
      ArgsWell(args, LookupFunction(sig.functions, fn).value.params, sc, hash, sig, ctx);
    case Unary(_, operand, _) => ExprWell(operand, sc, hash, sig, ctx);
    case Binary(_, l, r, _) =>
      ExprWell(l, sc, hash, sig, ctx);
      ExprWell(r, sc, hash, sig, ctx);
    case Assign(_, _, _) =>
  }

  lemma {:induction false} ArgsWell(args: seq<Expr>, ps: seq<Param>, sc: Scopes, hash: string -> nat, sig: Signatures,
                                    ctx: Context)
    requires Sized(sc) && Shows(sc, hash, ctx) && EraseArgs(args) == args && |args| == |ps|
    requires CheckArgs(args, ps, sc, hash, sig).0
    ensures WellArgs(CheckArgs(args, ps, sc, hash, sig).1, TypesOf(ps), ctx, SightOf(sig))
    decreases args, 0
  {
    hide CheckExpr, Erase, Well, Shows, SightOf;
    if args != [] {
      ExprWell(args[0], sc, hash, sig, ctx);
      ArgsWell(args[1..], ps[1..], sc, hash, sig, ctx);
      var out := CheckArgs(args, ps, sc, hash, sig).1;
      assert out[1..] == CheckArgs(args[1..], ps[1..], sc, hash, sig).1;
      assert TypesOf(ps)[1..] == TypesOf(ps[1..]);
    }
  }

  /** An accepted statement is well annotated, and its scopes are those of the context after it. */
  ghost predicate StmtAgrees(s: Stmt, sc: Scopes, hash: string -> nat, sig: Signatures, ret: DataType, ctx: Context)
    requires Sized(sc)
  {
    var (_, s1, sc1) := CheckStmt(s, sc, hash, sig, ret);
    WellStmt(s1, ctx, SightOf(sig), ret) && Shows(sc1, hash, After(s1, ctx))
  }

  lemma {:induction false} SimpleWell(s: Stmt, sc: Scopes, hash: string -> nat, sig: Signatures, ret: DataType,
                                      ctx: Context)
    requires s.VarDecl? || s.ExprStmt? || s.Return?
    requires Sized(sc) && Shows(sc, hash, ctx) && EraseStmt(s) == s && CheckStmt(s, sc, hash, sig, ret).0
    ensures StmtAgrees(s, sc, hash, sig, ret, ctx)
  {
    hide CheckExpr, LookupVar, DeclareVar, Meaning, Shows, SightOf, Well, CanBind, Bind;
    match s
    case VarDecl(x, ty, init) =>
      if init.Some? {
        ExprWell(init.value, sc, hash, sig, ctx);
      }
      BindShown(sc, hash, ctx, x, ty);
    case ExprStmt(e) =>
      if e.Assign? {
        ExprWell(e.rhs, sc, hash, sig, ctx);
        MeaningShown(sc, hash, ctx, e.target);
      } else {
        ExprWell(e, sc, hash, sig, ctx);
        NotAssign(e, sc, hash, sig);
      }
    case Return(result) =>
      if result.Some? {
        ExprWell(result.value, sc, hash, sig, ctx);
      }
  }

  lemma {:induction false} StmtWell(s: Stmt, sc: Scopes, hash: string -> nat, sig: Signatures, ret: DataType,
                                    ctx: Context)
    requires Sized(sc) && Shows(sc, hash, ctx) && EraseStmt(s) == s && CheckStmt(s, sc, hash, sig, ret).0
    ensures StmtAgrees(s, sc, hash, sig, ret, ctx)
    decreases s, 0
  {
    hide CheckExpr, LookupVar, DeclareVar, Shows, SightOf, Well, Erase;
    match s
    case VarDecl(_, _, _) => SimpleWell(s, sc, hash, sig, ret, ctx);
    case ExprStmt(_) => SimpleWell(s, sc, hash, sig, ret, ctx);
    case Return(_) => SimpleWell(s, sc, hash, sig, ret, ctx);
    case If(c, thn, els) =>
      ExprWell(c, sc, hash, sig, ctx);
      StmtWell(thn, sc, hash, sig, ret, ctx);
      if els.Some? {
        var (_, thn1, sc1) := CheckStmt(thn, sc, hash, sig, ret);
        StmtWell(els.value, sc1, hash, sig, ret, After(thn1, ctx));
      }
    case While(c, body) =>
      ExprWell(c, sc, hash, sig, ctx);
      StmtWell(body, sc, hash, sig, ret, ctx);
    case Block(ss) =>
      EnterShown(sc, hash, ctx);
      StmtsWell(ss, sc + [EmptyScope()], hash, sig, ret, ctx + [map[]]);
      BlockRestores(ss, sc, hash, sig, ret);
  }

  lemma {:induction false} StmtsWell(ss: seq<Stmt>, sc: Scopes, hash: string -> nat, sig: Signatures, ret: DataType,
                                     ctx: Context)
    requires Sized(sc) && Shows(sc, hash, ctx) && EraseStmts(ss) == ss && CheckStmts(ss, sc, hash, sig, ret).0
    ensures WellStmts(CheckStmts(ss, sc, hash, sig, ret).1, ctx, SightOf(sig), ret)
    decreases ss, 0
  {
    hide CheckStmt, EraseStmt, WellStmt, Shows, SightOf;
    if ss != [] {
      StmtWell(ss[0], sc, hash, sig, ret, ctx);
      var (_, s1, sc1) := CheckStmt(ss[0], sc, hash, sig, ret);
      StmtsWell(ss[1..], sc1, hash, sig, ret, After(s1, ctx));
      var out := CheckStmts(ss, sc, hash, sig, ret).1;
      assert out[0] == s1 && out[1..] == CheckStmts(ss[1..], sc1, hash, sig, ret).1;
    }
  }

  lemma {:induction false} ParamsWell(ps: seq<Param>, body: seq<Stmt>, sc: Scopes, hash: string -> nat,
                                      sig: Signatures, ret: DataType, ctx: Context)
    requires Sized(sc) && Shows(sc, hash, ctx) && EraseStmts(body) == body && CheckParams(ps, sc, hash).0
    requires CheckStmts(body, CheckParams(ps, sc, hash).1, hash, sig, ret).0
    ensures WellParams(ps, CheckStmts(body, CheckParams(ps, sc, hash).1, hash, sig, ret).1, ctx, SightOf(sig), ret)
    decreases |ps|
  {
    hide CheckStmts, WellStmts, Shows, SightOf, DeclareVar, CanBind, Bind, EraseStmts;
    if ps == [] {
      StmtsWell(body, sc, hash, sig, ret, ctx);
    } else {
      BindShown(sc, hash, ctx, ps[0].name, ps[0].ty);
      var sc1 := DeclareVar(sc, hash, ps[0].name, ps[0].ty).value;
      ParamsWell(ps[1..], body, sc1, hash, sig, ret, Bind(ctx, ps[0].name, ps[0].ty));
    }
  }

  // --- What can be well annotated is accepted ----------------------------------------------

  lemma {:induction false} ExprFound(e: Expr, g: Expr, sc: Scopes, hash: string -> nat, sig: Signatures, ctx: Context)
    requires Sized(sc) && Shows(sc, hash, ctx) && Erase(e) == e == Erase(g) && Well(g, ctx, SightOf(sig))
    ensures CheckExpr(e, sc, hash, sig).0 && CheckExpr(e, sc, hash, sig).1 == g
    decreases e, 0
  {
    hide LookupVar, LookupFunction, Meaning, Shows, SightOf;
    match e
    case Number(_, _) =>
    case Identifier(x, _) => MeaningShown(sc, hash, ctx, x);
    case Call(fn, args, _) =>
      SightIs(sig, fn);
      ArgsFound(args, g.args, LookupFunction(sig.functions, fn).value.params, sc, hash, sig, ctx);
    case Unary(_, operand, _) => ExprFound(operand, g.operand, sc, hash, sig, ctx);
    case Binary(_, l, r, _) =>
      ExprFound(l, g.left, sc, hash, sig, ctx);
      ExprFound(r, g.right, sc, hash, sig, ctx);
    case Assign(_, _, _) =>
  }

  lemma {:induction false} ArgsFound(args: seq<Expr>, gs: seq<Expr>, ps: seq<Param>, sc: Scopes, hash: string -> nat,
                                     sig: Signatures, ctx: Context)
    requires Sized(sc) && Shows(sc, hash, ctx) && EraseArgs(args) == args == EraseArgs(gs)
    requires WellArgs(gs, TypesOf(ps), ctx, SightOf(sig))
    ensures |args| == |ps| && CheckArgs(args, ps, sc, hash, sig).0 && CheckArgs(args, ps, sc, hash, sig).1 == gs
    decreases args, 0
  {
    hide CheckExpr, Erase, Well, Shows, SightOf;
    if args != [] {
      ExprFound(args[0], gs[0], sc, hash, sig, ctx);
      assert TypesOf(ps)[1..] == TypesOf(ps[1..]);
      ArgsFound(args[1..], gs[1..], ps[1..], sc, hash, sig, ctx);
      assert [gs[0]] + gs[1..] == gs;
    }
  }

  ghost predicate StmtFinds(s: Stmt, g: Stmt, sc: Scopes, hash: string -> nat, sig: Signatures, ret: DataType,
                            ctx: Context)
    requires Sized(sc)
  {
    var r := CheckStmt(s, sc, hash, sig, ret);
    r.0 && r.1 == g && Shows(r.2, hash, After(g, ctx))
  }

  lemma {:induction false} SimpleFound(s: Stmt, g: Stmt, sc: Scopes, hash: string -> nat, sig: Signatures,
                                       ret: DataType, ctx: Context)
    requires s.VarDecl? || s.ExprStmt? || s.Return?
    requires Sized(sc) && Shows(sc, hash, ctx) && EraseStmt(s) == s == EraseStmt(g)
    requires WellStmt(g, ctx, SightOf(sig), ret)
    ensures StmtFinds(s, g, sc, hash, sig, ret, ctx)
  {
    hide CheckExpr, LookupVar, DeclareVar, Meaning, Shows, SightOf, Well, CanBind, Bind;
    match s
    case VarDecl(x, ty, init) =>
      if init.Some? {
        ExprFound(init.value, g.init.value, sc, hash, sig, ctx);
      }
      BindShown(sc, hash, ctx, x, ty);
    case ExprStmt(e) =>
      if e.Assign? {
        ExprFound(e.rhs, g.e.rhs, sc, hash, sig, ctx);
        MeaningShown(sc, hash, ctx, e.target);
      } else {
        ExprFound(e, g.e, sc, hash, sig, ctx);
      }
    case Return(result) =>
      if result.Some? {
        ExprFound(result.value, g.result.value, sc, hash, sig, ctx);
      }
  }

  lemma {:induction false} StmtFound(s: Stmt, g: Stmt, sc: Scopes, hash: string -> nat, sig: Signatures,
                                     ret: DataType, ctx: Context)
    requires Sized(sc) && Shows(sc, hash, ctx) && EraseStmt(s) == s == EraseStmt(g)
    requires WellStmt(g, ctx, SightOf(sig), ret)
    ensures StmtFinds(s, g, sc, hash, sig, ret, ctx)
    decreases s, 1
  {
    hide CheckExpr, LookupVar, DeclareVar, Shows, SightOf, Well, Erase;
    match s
    case VarDecl(_, _, _) => SimpleFound(s, g, sc, hash, sig, ret, ctx);
    case ExprStmt(_) => SimpleFound(s, g, sc, hash, sig, ret, ctx);
    case Return(_) => SimpleFound(s, g, sc, hash, sig, ret, ctx);
    case If(_, _, _) => IfFound(s, g, sc, hash, sig, ret, ctx);
    case While(c, body) =>
      ExprFound(c, g.cond, sc, hash, sig, ctx);
      StmtFound(body, g.body, sc, hash, sig, ret, ctx);
    case Block(ss) =>
      EnterShown(sc, hash, ctx);
      StmtsFound(ss, g.stmts, sc + [EmptyScope()], hash, sig, ret, ctx + [map[]]);
      BlockRestores(ss, sc, hash, sig, ret);
  }

  lemma {:induction false} IfFound(s: Stmt, g: Stmt, sc: Scopes, hash: string -> nat, sig: Signatures,
                                   ret: DataType, ctx: Context)
    requires s.If? && Sized(sc) && Shows(sc, hash, ctx)
    requires EraseStmt(s) == s == EraseStmt(g) && WellStmt(g, ctx, SightOf(sig), ret)
    ensures StmtFinds(s, g, sc, hash, sig, ret, ctx)
    decreases s, 0
  {
    hide CheckExpr, LookupVar, DeclareVar, Shows, SightOf, Well, Erase;
    ExprFound(s.cond, g.cond, sc, hash, sig, ctx);
    StmtFound(s.thn, g.thn, sc, hash, sig, ret, ctx);
    if s.els.Some? {
      var sc1 := CheckStmt(s.thn, sc, hash, sig, ret).2;
      StmtFound(s.els.value, g.els.value, sc1, hash, sig, ret, After(g.thn, ctx));
    }
  }

  lemma {:induction false} StmtsFound(ss: seq<Stmt>, gs: seq<Stmt>, sc: Scopes, hash: string -> nat, sig: Signatures,
                                      ret: DataType, ctx: Context)
    requires Sized(sc) && Shows(sc, hash, ctx) && EraseStmts(ss) == ss == EraseStmts(gs)
    requires WellStmts(gs, ctx, SightOf(sig), ret)
    ensures CheckStmts(ss, sc, hash, sig, ret).0 && CheckStmts(ss, sc, hash, sig, ret).1 == gs
    decreases ss, 0
  {
    hide CheckStmt, EraseStmt, WellStmt, Shows, SightOf;
    if ss != [] {
      StmtFound(ss[0], gs[0], sc, hash, sig, ret, ctx);
      StmtsFound(ss[1..], gs[1..], CheckStmt(ss[0], sc, hash, sig, ret).2, hash, sig, ret, After(gs[0], ctx));
      assert [gs[0]] + gs[1..] == gs;
    }
  }

  lemma {:induction false} ParamsFound(ps: seq<Param>, body: seq<Stmt>, gs: seq<Stmt>, sc: Scopes, hash: string -> nat,
                                       sig: Signatures, ret: DataType, ctx: Context)
    requires Sized(sc) && Shows(sc, hash, ctx) && EraseStmts(body) == body == EraseStmts(gs)
    requires WellParams(ps, gs, ctx, SightOf(sig), ret)
    ensures CheckParams(ps, sc, hash).0
    ensures var r := CheckStmts(body, CheckParams(ps, sc, hash).1, hash, sig, ret); r.0 && r.1 == gs
    decreases |ps|
  {
    hide CheckStmts, WellStmts, Shows, SightOf, DeclareVar, CanBind, Bind, EraseStmts;
    if ps == [] {
      StmtsFound(body, gs, sc, hash, sig, ret, ctx);
    } else {
      BindShown(sc, hash, ctx, ps[0].name, ps[0].ty);
      var sc1 := DeclareVar(sc, hash, ps[0].name, ps[0].ty).value;
      ParamsFound(ps[1..], body, gs, sc1, hash, sig, ret, Bind(ctx, ps[0].name, ps[0].ty));
    }
  }

  lemma {:induction false} OneScope(hash: string -> nat)
    ensures Shows([EmptyScope()], hash, [map[]])
  {
    hide NoHoles, EmptyScope;
    NothingBound(hash);
    EnterShown([], hash, []);
    assert [] + [EmptyScope()] == [EmptyScope()];
  }

  /** A well annotated function that is `f` up to its annotations. */
  predicate Annotates(g: Func, f: Func, fns: Sight) {
    EraseFunc(g) == f && WellFunc(g, fns)
  }

  /**
    The analyser accepts a function, as the parser gives it, exactly when it can be well
    annotated; there is one way to do that, and it is what the analyser gives back, whatever
    the hash function.
   */
  lemma {:induction false} AcceptsExactly(f: Func, hash: string -> nat, sig: Signatures, g: Func)
    requires EraseFunc(f) == f
    ensures CheckFunc(f, hash, sig).0 && g == CheckFunc(f, hash, sig).1 <==> Annotates(g, f, SightOf(sig))
  {
    hide CheckStmts, CheckParams, EraseStmts, SightOf, WellParams, Shows;
    OneScope(hash);
    FuncErased(f, hash, sig);
    if CheckFunc(f, hash, sig).0 {
      ParamsWell(f.params, f.body, [EmptyScope()], hash, sig, f.returnType, [map[]]);
    }
    if Annotates(g, f, SightOf(sig)) {
      ParamsFound(f.params, f.body, g.body, [EmptyScope()], hash, sig, f.returnType, [map[]]);
    }
  }
}
