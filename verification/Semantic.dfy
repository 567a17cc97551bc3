/**
  The analyser: scope chain, type annotation and checks. The class at the end works on a
  chain of open-addressing tables; the theorems are about the functions it computes.
 */
module Semantic {
  import opened Words
  import opened Ast
  import opened Source
  import opened Typing
  import opened OpenAddressing

  const SCOPE_HASH_SIZE: nat := 128

  datatype FunctionInfo = FunctionInfo(name: string, returnType: DataType, params: seq<Param>, isPrototype: bool)

  /** The functions declared in this unit, and those of the whole program. */
  datatype Signatures = Signatures(visible: seq<string>, functions: seq<FunctionInfo>)

  /** Tables from names to types, the innermost scope last. */
  type Scopes = seq<seq<Entry<DataType>>>

  function EmptyScope(): seq<Entry<DataType>> {
    seq(SCOPE_HASH_SIZE, _ => Entry("", Void, false))
  }

  ghost predicate ScopesOk(sc: Scopes, hash: string -> nat) {
    forall i :: 0 <= i < |sc| ==> |sc[i]| == SCOPE_HASH_SIZE && NoHoles(sc[i], hash)
  }

  predicate Sized(sc: Scopes) {
    forall i :: 0 <= i < |sc| ==> |sc[i]| == SCOPE_HASH_SIZE
  }

  // --- Scopes --------------------------------------------------------------------------

  /** The innermost declaration of `x`. */
  function LookupVar(sc: Scopes, hash: string -> nat, x: string): Option<DataType>
    requires Sized(sc)
  {
    if sc == [] then None
    else
      var es := sc[|sc| - 1];
      var p := Position(es, hash(x), x);
      if p.Some? then Some(es[p.value].value) else LookupVar(sc[..|sc| - 1], hash, x)
  }

  /** Fails outside all scopes, on a redeclaration, and when the scope is full. */
  function DeclareVar(sc: Scopes, hash: string -> nat, x: string, ty: DataType): (r: Option<Scopes>)
    requires Sized(sc)
    ensures r.Some? ==> Sized(r.value) && |r.value| == |sc| > 0 && r.value[..|sc| - 1] == sc[..|sc| - 1]
  {
    if sc == [] then None
    else
      var es := sc[|sc| - 1];
      var p := Target(es, hash(x), x);
      if p.None? || es[p.value].occupied then None
      else Some(sc[..|sc| - 1] + [es[p.value := Entry(x, ty, true)]])
  }

  // --- Types ---------------------------------------------------------------------------

  /** Everything but void converts to everything but void; narrowing only warns. */
  predicate Compatible(dest: DataType, src: DataType) {
    dest == src || (dest != Void && src != Void)
  }

  function NumberType(text: string): DataType {
    if -0x8000_0000 <= NumberValue(text) <= 0x7FFF_FFFF then Int else Int64
  }

  function ResultType(op: BinaryOp, left: DataType, right: DataType): DataType {
    match op
    case Add => Wider(left, right)
    case Sub => Wider(left, right)
    case Mul => Wider(left, right)
    case Div => Wider(left, right)
    case LeftShift => AtLeastInt(left)
    case RightShift => AtLeastInt(left)
    case And => AtLeastInt(left)
    case Or => AtLeastInt(left)
    case Xor => AtLeastInt(left)
    case _ => Int64
  }

  function Wider(left: DataType, right: DataType): DataType {
    if TypeSize(left) >= TypeSize(right) then left else right
  }

  function AtLeastInt(t: DataType): DataType {
    if TypeSize(t) < TypeSize(Int) then Int else t
  }

  predicate IsComparison(op: BinaryOp) {
    op.Equal? || op.NotEqual? || op.Less? || op.LessEqual? || op.Greater? || op.GreaterEqual?
  }

  function LookupFunction(fs: seq<FunctionInfo>, name: string): (r: Option<FunctionInfo>)
    ensures r.Some? ==> r.value in fs && r.value.name == name
    ensures r.None? <==> forall i :: 0 <= i < |fs| ==> fs[i].name != name
  {
    if fs == [] then None else if fs[0].name == name then Some(fs[0]) else LookupFunction(fs[1..], name)
  }

  // --- Expressions and statements --------------------------------------------------------

  /** Whether the expression is accepted, and the expression with its types filled in. */
  function CheckExpr(e: Expr, sc: Scopes, hash: string -> nat, sig: Signatures): (bool, Expr)
    requires Sized(sc)
    decreases e, 0
  {
    match e
    case Number(text, _) => (true, Number(text, NumberType(text)))
    case Identifier(x, _) =>
      (match LookupVar(sc, hash, x)
       case Some(ty) => (true, Identifier(x, ty))
       case None => (false, e))
    case Call(fn, args, _) =>
      if fn !in sig.visible then (false, e)
      else
        (match LookupFunction(sig.functions, fn)
         case None => (false, e)
         case Some(info) =>
           if |args| != |info.params| then (false, e)
           else
             var (ok, args1) := CheckArgs(args, info.params, sc, hash, sig);
             (ok, Call(fn, args1, info.returnType)))
    case Unary(op, operand, ty) =>
      var (ok, operand1) := CheckExpr(operand, sc, hash, sig);
      (ok, Unary(op, operand1, if op.Not? then Int64 else if ok then operand1.ty else ty))
    case Binary(op, l, r, ty) =>
      var (ok1, l1) := CheckExpr(l, sc, hash, sig);
      var (ok2, r1) := CheckExpr(r, sc, hash, sig);
      (ok1 && ok2, Binary(op, l1, r1, if IsComparison(op) || (ok1 && ok2) then ResultType(op, l1.ty, r1.ty) else ty))
    case Assign(_, _, _) => (true, e)
  }

  function CheckArgs(args: seq<Expr>, ps: seq<Param>, sc: Scopes, hash: string -> nat,
                     sig: Signatures): (r: (bool, seq<Expr>))
    requires Sized(sc) && |args| == |ps|
    ensures |r.1| == |args|
    decreases args, 0
  {
    if args == [] then (true, [])
    else
      var (ok, a) := CheckExpr(args[0], sc, hash, sig);
      var (oks, rest) := CheckArgs(args[1..], ps[1..], sc, hash, sig);
      (ok && Compatible(ps[0].ty, a.ty) && oks, [a] + rest)
  }

  /** Also the scopes that the statement leaves behind. */
  function CheckStmt(s: Stmt, sc: Scopes, hash: string -> nat, sig: Signatures,
                     ret: DataType): (r: (bool, Stmt, Scopes))
    requires Sized(sc)
    ensures Sized(r.2) && |r.2| == |sc|
    decreases s, 0
  {
    match s
    case VarDecl(x, ty, init) =>
      var (ok, init1) := CheckInit(init, ty, sc, hash, sig);
      (match DeclareVar(sc, hash, x, ty)
       case Some(sc1) => (ok, VarDecl(x, ty, init1), sc1)
       case None => (false, VarDecl(x, ty, init1), sc))
    case ExprStmt(e) =>
      if e.Assign? then
        (match LookupVar(sc, hash, e.target)
         case None => (false, s, sc)
         case Some(ty) =>
           var (ok, rhs1) := CheckExpr(e.rhs, sc, hash, sig);
           (ok && Compatible(ty, rhs1.ty), ExprStmt(Assign(e.target, rhs1, ty)), sc))
      else
        var (ok, e1) := CheckExpr(e, sc, hash, sig);
        (ok, ExprStmt(e1), sc)
    case Return(None) => (ret == Void, s, sc)
    case Return(Some(e)) =>
      if ret == Void then (false, s, sc)
      else
        var (ok, e1) := CheckExpr(e, sc, hash, sig);
        (ok && Compatible(ret, e1.ty), Return(Some(e1)), sc)
    case If(c, thn, None) =>
      var (ok1, c1) := CheckExpr(c, sc, hash, sig);
      var (ok2, thn1, sc1) := CheckStmt(thn, sc, hash, sig, ret);
      (ok1 && ok2, If(c1, thn1, None), sc1)
    case If(c, thn, Some(els)) =>
      var (ok1, c1) := CheckExpr(c, sc, hash, sig);
      var (ok2, thn1, sc1) := CheckStmt(thn, sc, hash, sig, ret);
      var (ok3, els1, sc2) := CheckStmt(els, sc1, hash, sig, ret);
      (ok1 && ok2 && ok3, If(c1, thn1, Some(els1)), sc2)
    case While(c, body) =>
      var (ok1, c1) := CheckExpr(c, sc, hash, sig);
      var (ok2, body1, sc1) := CheckStmt(body, sc, hash, sig, ret);
      (ok1 && ok2, While(c1, body1), sc1)
    case Block(ss) =>
      var (ok, ss1, sc1) := CheckStmts(ss, sc + [EmptyScope()], hash, sig, ret);
      (ok, Block(ss1), sc1[..|sc|])
  }

  function CheckInit(init: Option<Expr>, ty: DataType, sc: Scopes, hash: string -> nat, sig: Signatures): (bool,
                     Option<Expr>)
    requires Sized(sc)
  {
    match init
    case None => (true, None)
    case Some(e) =>
      var (ok, e1) := CheckExpr(e, sc, hash, sig);
      (ok && Compatible(ty, e1.ty), Some(e1))
  }

  function CheckStmts(ss: seq<Stmt>, sc: Scopes, hash: string -> nat, sig: Signatures,
                      ret: DataType): (r: (bool, seq<Stmt>, Scopes))
    requires Sized(sc)
    ensures |r.1| == |ss| && Sized(r.2) && |r.2| == |sc|
    decreases ss, 0
  {
    if ss == [] then (true, [], sc)
    else
      var (ok, s1, sc1) := CheckStmt(ss[0], sc, hash, sig, ret);
      var (oks, rest, sc2) := CheckStmts(ss[1..], sc1, hash, sig, ret);
      (ok && oks, [s1] + rest, sc2)
  }

  /** Parameters and body share one scope. */
  function CheckParams(ps: seq<Param>, sc: Scopes, hash: string -> nat): (r: (bool, Scopes))
    requires Sized(sc)
    ensures Sized(r.1) && |r.1| == |sc|
    decreases |ps|
  {
    if ps == [] then (true, sc)
    else
      match DeclareVar(sc, hash, ps[0].name, ps[0].ty)
      case Some(sc1) => CheckParams(ps[1..], sc1, hash)
      case None => (false, CheckParams(ps[1..], sc, hash).1)
  }

  function CheckFunc(f: Func, hash: string -> nat, sig: Signatures): (bool, Func) {
    var (ok1, sc) := CheckParams(f.params, [EmptyScope()], hash);
    var (ok2, body, _) := CheckStmts(f.body, sc, hash, sig, f.returnType);
    (ok1 && ok2, f.(body := body))
  }

  // --- The premises of lowering -------------------------------------------------------------

  /** No assignment inside the expression. */
  predicate Plain(e: Expr) {
    match e
    case Number(_, _) => true
    case Identifier(_, _) => true
    case Call(_, args, _) => forall i :: 0 <= i < |args| ==> Plain(args[i])
    case Unary(_, operand, _) => Plain(operand)
    case Binary(_, l, r, _) => Plain(l) && Plain(r)
    case Assign(_, _, _) => false
  }

  /** No nested assignment, no initialiser that mentions its own variable, no bare declaration as a branch. */
  predicate Regular(s: Stmt)
    decreases s, 0
  {
    match s
    case VarDecl(x, _, init) => init.Some? ==> Plain(init.value) && !Mentions(init.value, x)
    case ExprStmt(e) => if e.Assign? then Plain(e.rhs) else Plain(e)
    case Return(result) => result.Some? ==> Plain(result.value)
    case If(c, thn, els) =>
      Plain(c) && Regular(thn) && !thn.VarDecl? && (els.Some? ==> Regular(els.value) && !els.value.VarDecl?)
    case While(c, body) => Plain(c) && Regular(body) && !body.VarDecl?
    case Block(ss) => AllRegular(ss)
  }

  predicate AllRegular(ss: seq<Stmt>)
    decreases ss, 0
  {
    ss == [] || (Regular(ss[0]) && AllRegular(ss[1..]))
  }

  // --- Acceptance gives typed programs -------------------------------------------------------

  /** The chain of scopes and the list of variables in scope say the same about every name. */
  ghost predicate Agree(sc: Scopes, hash: string -> nat, vars: seq<Var>)
    requires Sized(sc)
  {
    forall x :: LookupVar(sc, hash, x) == Lookup(vars, x)
  }

  lemma {:induction false} ExprTyped(e: Expr, sc: Scopes, hash: string -> nat, sig: Signatures, vars: seq<Var>)
    requires Sized(sc) && Agree(sc, hash, vars) && Plain(e) && CheckExpr(e, sc, hash, sig).0
    ensures TypedExpr(CheckExpr(e, sc, hash, sig).1, vars)
    decreases e, 0
  {
    hide LookupVar, LookupFunction, ResultType, NumberType, Lookup;
    match e
    case Number(_, _) =>
    case Identifier(x, _) => assert LookupVar(sc, hash, x) == Lookup(vars, x);
    case Call(fn, args, _) => ArgsTyped(args, LookupFunction(sig.functions, fn).value.params, sc, hash, sig, vars);
    case Unary(_, operand, _) => ExprTyped(operand, sc, hash, sig, vars);
    case Binary(_, l, r, _) => ExprTyped(l, sc, hash, sig, vars); ExprTyped(r, sc, hash, sig, vars);
    case Assign(_, _, _) =>
  }

  lemma {:induction false} ArgsTyped(args: seq<Expr>, ps: seq<Param>, sc: Scopes, hash: string -> nat,
                                     sig: Signatures, vars: seq<Var>)
    requires Sized(sc) && Agree(sc, hash, vars) && |args| == |ps| && CheckArgs(args, ps, sc, hash, sig).0
    requires forall i :: 0 <= i < |args| ==> Plain(args[i])
    ensures forall i :: 0 <= i < |args| ==> TypedExpr(CheckArgs(args, ps, sc, hash, sig).1[i], vars)
    decreases args, 0
  {
    hide LookupVar, TypedExpr, CheckExpr, Agree;
    if args != [] {
      ExprTyped(args[0], sc, hash, sig, vars);
      ArgsTyped(args[1..], ps[1..], sc, hash, sig, vars);
    }
  }

  /** Filling in types leaves the names alone. */
  lemma {:induction false} SameMentions(e: Expr, sc: Scopes, hash: string -> nat, sig: Signatures, x: string)
    requires Sized(sc)
    ensures Mentions(CheckExpr(e, sc, hash, sig).1, x) == Mentions(e, x)
    decreases e, 0
  {
    hide LookupVar, LookupFunction, ResultType, NumberType;
    match e
    case Call(fn, args, _) =>
      var info := LookupFunction(sig.functions, fn);
      if fn in sig.visible && info.Some? && |args| == |info.value.params| {
        SameMentionsArgs(args, info.value.params, sc, hash, sig, x);
      }
    case Unary(_, operand, _) => SameMentions(operand, sc, hash, sig, x);
    case Binary(_, l, r, _) => SameMentions(l, sc, hash, sig, x); SameMentions(r, sc, hash, sig, x);
    case Number(_, _) =>
    case Identifier(_, _) =>
    case Assign(_, _, _) =>
  }

  lemma {:induction false} SameMentionsArgs(args: seq<Expr>, ps: seq<Param>, sc: Scopes, hash: string -> nat,
                                            sig: Signatures, x: string)
    requires Sized(sc) && |args| == |ps|
    ensures forall i :: 0 <= i < |args| ==> Mentions(CheckArgs(args, ps, sc, hash, sig).1[i], x) == Mentions(args[i], x)
    decreases args, 0
  {
    hide LookupVar, Mentions, CheckExpr;
    if args != [] {
      SameMentions(args[0], sc, hash, sig, x);
      SameMentionsArgs(args[1..], ps[1..], sc, hash, sig, x);
    }
  }

  /** A declaration that succeeds changes what one name means. */
  lemma {:induction false} DeclaredLookup(sc: Scopes, hash: string -> nat, x: string, ty: DataType)
    requires ScopesOk(sc, hash) && DeclareVar(sc, hash, x, ty).Some?
    ensures var sc1 := DeclareVar(sc, hash, x, ty).value;
            ScopesOk(sc1, hash) && forall y :: LookupVar(sc1, hash, y) == if y == x then Some(ty)
              else LookupVar(sc, hash, y)
  {
    hide NoHoles, Position, Target;
    var es := sc[|sc| - 1];
    var p := Target(es, hash(x), x);
    var e := Entry(x, ty, true);
    AddKeepsTable(es, hash, x, e);
    var sc1 := DeclareVar(sc, hash, x, ty).value;
    assert sc1[|sc1| - 1] == es[p.value := e] && sc1[..|sc1| - 1] == sc[..|sc| - 1];
    forall y ensures LookupVar(sc1, hash, y) == if y == x then Some(ty) else LookupVar(sc, hash, y) {
      AddedPosition(es, hash, x, e, y);
      if y != x {
        PositionIsNot(es, hash, x, y);
      }
    }
  }

  /** So it adds the variable to what is in scope. */
  lemma {:induction false} DeclareAgrees(sc: Scopes, hash: string -> nat, vars: seq<Var>, x: string, ty: DataType,
                                         isLocal: bool)
    requires ScopesOk(sc, hash) && Agree(sc, hash, vars) && DeclareVar(sc, hash, x, ty).Some?
    ensures var sc1 := DeclareVar(sc, hash, x, ty).value;
            ScopesOk(sc1, hash) && Agree(sc1, hash, vars + [Var(x, ty, isLocal)])
  {
    hide NoHoles, DeclareVar, Lookup, LookupVar;
    DeclaredLookup(sc, hash, x, ty);
    var sc1 := DeclareVar(sc, hash, x, ty).value;
    forall y ensures LookupVar(sc1, hash, y) == Lookup(vars + [Var(x, ty, isLocal)], y) {
      LookupPushed(vars, Var(x, ty, isLocal), y);
      assert LookupVar(sc, hash, y) == Lookup(vars, y);
    }
  }

  lemma {:induction false} LookupPushed(vars: seq<Var>, v: Var, y: string)
    ensures Lookup(vars + [v], y) == if v.name == y then Some(v.ty) else Lookup(vars, y)
  {
    assert (vars + [v])[..|vars|] == vars;
    var i := Find(vars + [v], y);
    assert v.name != y ==> i == Find(vars, y);
  }

  /** The slot where a name goes belongs to no other name. */
  lemma {:induction false} PositionIsNot(es: seq<Entry<DataType>>, hash: string -> nat, x: string, y: string)
    requires NoHoles(es, hash) && Target(es, hash(x), x).Some? && x != y
    ensures Position(es, hash(y), y) != Target(es, hash(x), x)
  {
  }

  /** A new scope changes the meaning of no name. */
  lemma {:induction false} EnteredLookup(sc: Scopes, hash: string -> nat)
    requires ScopesOk(sc, hash)
    ensures ScopesOk(sc + [EmptyScope()], hash)
    ensures forall y :: LookupVar(sc + [EmptyScope()], hash, y) == LookupVar(sc, hash, y)
  {
    var sc1 := sc + [EmptyScope()];
    assert sc1[..|sc|] == sc;
    forall y ensures LookupVar(sc1, hash, y) == LookupVar(sc, hash, y) {
      assert Position(EmptyScope(), hash(y), y) == None;
    }
  }

  lemma {:induction false} EnterAgrees(sc: Scopes, hash: string -> nat, vars: seq<Var>)
    requires ScopesOk(sc, hash) && Agree(sc, hash, vars)
    ensures ScopesOk(sc + [EmptyScope()], hash) && Agree(sc + [EmptyScope()], hash, vars)
  {
    hide NoHoles, LookupVar, Lookup, EmptyScope;
    EnteredLookup(sc, hash);
  }

  /** A statement touches the innermost scope only. */
  lemma {:induction false} KeepsOuter(s: Stmt, sc: Scopes, hash: string -> nat, sig: Signatures, ret: DataType)
    requires Sized(sc) && sc != []
    ensures CheckStmt(s, sc, hash, sig, ret).2[..|sc| - 1] == sc[..|sc| - 1]
    decreases s, 0
  {
    hide CheckExpr, DeclareVar, LookupVar, CheckInit;
    match s
    case If(c, thn, None) => KeepsOuter(thn, sc, hash, sig, ret);
    case If(c, thn, Some(els)) =>
      KeepsOuter(thn, sc, hash, sig, ret);
      KeepsOuter(els, CheckStmt(thn, sc, hash, sig, ret).2, hash, sig, ret);
    case While(c, body) => KeepsOuter(body, sc, hash, sig, ret);
    case Block(ss) =>
      BlockRestores(ss, sc, hash, sig, ret);
    case VarDecl(_, _, _) =>
    case ExprStmt(_) =>
    case Return(_) =>
  }

  lemma {:induction false} AllKeepOuter(ss: seq<Stmt>, sc: Scopes, hash: string -> nat, sig: Signatures, ret: DataType)
    requires Sized(sc) && sc != []
    ensures CheckStmts(ss, sc, hash, sig, ret).2[..|sc| - 1] == sc[..|sc| - 1]
    decreases ss, 0
  {
    hide CheckStmt;
    if ss != [] {
      KeepsOuter(ss[0], sc, hash, sig, ret);
      AllKeepOuter(ss[1..], CheckStmt(ss[0], sc, hash, sig, ret).2, hash, sig, ret);
    }
  }

  /** Leaving a block gives back the scopes outside it. */
  lemma {:induction false} BlockRestores(ss: seq<Stmt>, sc: Scopes, hash: string -> nat, sig: Signatures, ret: DataType)
    requires Sized(sc)
    ensures CheckStmts(ss, sc + [EmptyScope()], hash, sig, ret).2[..|sc|] == sc
    decreases ss, 1
  {
    AllKeepOuter(ss, sc + [EmptyScope()], hash, sig, ret);
    assert (sc + [EmptyScope()])[..|sc|] == sc;
  }

  /** What an accepted statement leaves in scope, and that it is typed. */
  ghost predicate StmtResult(s: Stmt, sc: Scopes, hash: string -> nat, sig: Signatures, ret: DataType, vars: seq<Var>)
    requires Sized(sc)
  {
    var (_, s1, sc1) := CheckStmt(s, sc, hash, sig, ret);
    && TypedStmt(s1, vars) && s1.VarDecl? == s.VarDecl? && Declared(s1) == Declared(s)
    && ScopesOk(sc1, hash) && Agree(sc1, hash, vars + Declared(s))
  }

  lemma {:induction false} SimpleTyped(s: Stmt, sc: Scopes, hash: string -> nat, sig: Signatures, ret: DataType,
                                       vars: seq<Var>)
    requires s.VarDecl? || s.ExprStmt? || s.Return?
    requires ScopesOk(sc, hash) && Agree(sc, hash, vars) && Regular(s) && CheckStmt(s, sc, hash, sig, ret).0
    ensures StmtResult(s, sc, hash, sig, ret, vars)
  {
    hide CheckExpr, LookupVar, Lookup, DeclareVar, Agree, NoHoles, TypedExpr;
    assert vars + [] == vars;
    match s
    case VarDecl(x, ty, init) =>
      if init.Some? {
        ExprTyped(init.value, sc, hash, sig, vars);
        SameMentions(init.value, sc, hash, sig, x);
      }
      DeclareAgrees(sc, hash, vars, x, ty, true);
    case ExprStmt(e) =>
      if e.Assign? {
        ExprTyped(e.rhs, sc, hash, sig, vars);
        AgreeOn(sc, hash, vars, e.target);
      } else {
        ExprTyped(e, sc, hash, sig, vars);
        NotAssign(e, sc, hash, sig);
      }
    case Return(result) =>
      if result.Some? {
        ExprTyped(result.value, sc, hash, sig, vars);
      }
  }

  lemma {:induction false} StmtTyped(s: Stmt, sc: Scopes, hash: string -> nat, sig: Signatures, ret: DataType,
                                     vars: seq<Var>)
    requires ScopesOk(sc, hash) && Agree(sc, hash, vars) && Regular(s) && CheckStmt(s, sc, hash, sig, ret).0
    ensures StmtResult(s, sc, hash, sig, ret, vars)
    decreases s, 0
  {
    hide CheckExpr, LookupVar, Lookup, DeclareVar, Agree, NoHoles, TypedExpr;
    assert vars + [] == vars;
    match s
    case VarDecl(_, _, _) => SimpleTyped(s, sc, hash, sig, ret, vars);
    case ExprStmt(_) => SimpleTyped(s, sc, hash, sig, ret, vars);
    case Return(_) => SimpleTyped(s, sc, hash, sig, ret, vars);
    case If(c, thn, els) =>
      ExprTyped(c, sc, hash, sig, vars);
      StmtTyped(thn, sc, hash, sig, ret, vars);
      if els.Some? {
        StmtTyped(els.value, CheckStmt(thn, sc, hash, sig, ret).2, hash, sig, ret, vars);
      }
    case While(c, body) =>
      ExprTyped(c, sc, hash, sig, vars);
      StmtTyped(body, sc, hash, sig, ret, vars);
    case Block(ss) =>
      EnterAgrees(sc, hash, vars);
      StmtsTyped(ss, sc + [EmptyScope()], hash, sig, ret, vars);
      BlockRestores(ss, sc, hash, sig, ret);
  }

  lemma {:induction false} StmtsTyped(ss: seq<Stmt>, sc: Scopes, hash: string -> nat, sig: Signatures, ret: DataType,
                                      vars: seq<Var>)
    requires ScopesOk(sc, hash) && Agree(sc, hash, vars) && AllRegular(ss) && CheckStmts(ss, sc, hash, sig, ret).0
    ensures TypedStmts(CheckStmts(ss, sc, hash, sig, ret).1, vars)
    decreases ss, 0
  {
    hide CheckStmt, Agree, NoHoles, TypedStmt, Regular;
    if ss != [] {
      StmtTyped(ss[0], sc, hash, sig, ret, vars);
      var (_, s1, sc1) := CheckStmt(ss[0], sc, hash, sig, ret);
      StmtsTyped(ss[1..], sc1, hash, sig, ret, vars + Declared(ss[0]));
      var out := CheckStmts(ss, sc, hash, sig, ret).1;
      assert out[0] == s1 && out[1..] == CheckStmts(ss[1..], sc1, hash, sig, ret).1;
    }
  }

  lemma {:induction false} AgreeOn(sc: Scopes, hash: string -> nat, vars: seq<Var>, x: string)
    requires Sized(sc) && Agree(sc, hash, vars)
    ensures LookupVar(sc, hash, x) == Lookup(vars, x)
  {
  }

  lemma {:induction false} NotAssign(e: Expr, sc: Scopes, hash: string -> nat, sig: Signatures)
    requires Sized(sc) && !e.Assign?
    ensures !CheckExpr(e, sc, hash, sig).1.Assign?
  {
  }

  lemma {:induction false} ParamsAgree(ps: seq<Param>, sc: Scopes, hash: string -> nat, vars: seq<Var>)
    requires ScopesOk(sc, hash) && Agree(sc, hash, vars) && CheckParams(ps, sc, hash).0
    ensures ScopesOk(CheckParams(ps, sc, hash).1, hash)
    ensures Agree(CheckParams(ps, sc, hash).1, hash, vars + ParamVars(ps))
    decreases |ps|
  {
    hide Agree, NoHoles, DeclareVar;
    if ps == [] {
      assert vars + ParamVars(ps) == vars;
    } else {
      DeclareAgrees(sc, hash, vars, ps[0].name, ps[0].ty, false);
      var v := Var(ps[0].name, ps[0].ty, false);
      ParamsAgree(ps[1..], DeclareVar(sc, hash, ps[0].name, ps[0].ty).value, hash, vars + [v]);
      assert vars + ParamVars(ps) == vars + [v] + ParamVars(ps[1..]);
    }
  }

  lemma {:induction false} StartAgrees(hash: string -> nat)
    ensures ScopesOk([EmptyScope()], hash) && Agree([EmptyScope()], hash, [])
  {
    EnterAgrees([], hash, []);
    assert [] + [EmptyScope()] == [EmptyScope()];
  }

  /**
    The analyser's promise to the generator: a function that it accepts and that keeps to the
    premises of lowering is typed as it stands, with every identifier resolved and annotated.
   */
  lemma {:induction false} AcceptedIsTyped(f: Func, hash: string -> nat, sig: Signatures)
    requires CheckFunc(f, hash, sig).0 && AllRegular(f.body)
    ensures TypedFunc(CheckFunc(f, hash, sig).1)
  {
    hide Agree, NoHoles, CheckStmts, CheckParams, TypedStmts, ParamVars;
    StartAgrees(hash);
    ParamsAgree(f.params, [EmptyScope()], hash, []);
    assert [] + ParamVars(f.params) == ParamVars(f.params);
    StmtsTyped(f.body, CheckParams(f.params, [EmptyScope()], hash).1, hash, sig, f.returnType, ParamVars(f.params));
  }
}
