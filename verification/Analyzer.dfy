/** The analyser as it works: a chain of scopes that declarations and blocks update. */
module Analyzers {
  import opened Words
  import opened Ast
  import opened OpenAddressing
  import opened Semantic

  class SemanticAnalyzer {
    const hash: string -> nat
    const signatures: Signatures
    var scopes: Scopes
    var returnType: DataType

    ghost predicate Valid()
      reads this
    {
      Sized(scopes)
    }

    constructor (hash: string -> nat, signatures: Signatures)
      ensures Valid() && scopes == []
      ensures this.hash == hash && this.signatures == signatures
    {
      this.hash, this.signatures := hash, signatures;
      scopes, returnType := [], Int64;
    }

    method ScopeEnter()
      requires Valid()
      modifies this`scopes
      ensures Valid() && scopes == old(scopes) + [EmptyScope()]
    {
      scopes := scopes + [EmptyScope()];
    }

    method ScopeExit()
      requires Valid()
      modifies this`scopes
      ensures Valid() && scopes == if old(scopes) == [] then [] else old(scopes)[..|old(scopes)| - 1]
    {
      if scopes != [] {
        scopes := scopes[..|scopes| - 1];
      }
    }

    /** Probes the scopes from the innermost outwards. */
    method ScopeLookup(name: string) returns (r: Option<DataType>)
      requires Valid()
      ensures r == LookupVar(scopes, hash, name)
    {
      var depth := |scopes|;
      assert scopes[..depth] == scopes;
      while depth > 0
        invariant 0 <= depth <= |scopes|
        invariant LookupVar(scopes, hash, name) == LookupVar(scopes[..depth], hash, name)
      {
        var es := scopes[depth - 1];
        var p := ProbeScope(es, name);
        assert scopes[..depth][..depth - 1] == scopes[..depth - 1];
        if p.Some? {
          return Some(es[p.value].value);
        }
        depth := depth - 1;
      }
      return None;
    }

    /** One scope: stops at a vacant slot. */
    method ProbeScope(es: seq<Entry<DataType>>, name: string) returns (p: Option<nat>)
      requires |es| == SCOPE_HASH_SIZE
      ensures p == Position(es, hash(name), name)
    {
      var start := hash(name) % SCOPE_HASH_SIZE;
      for i := 0 to SCOPE_HASH_SIZE
        invariant forall j :: 0 <= j < i ==> !Stops(es, hash(name), j, name)
      {
        var curr := (start + i) % SCOPE_HASH_SIZE;
        ScopeSlot(hash(name), i);
        if !es[curr].occupied {
          ProbeIs(es, hash(name), name, i);
          return None;
        }
        if es[curr].name == name {
          ProbeIs(es, hash(name), name, i);
          return Some(curr);
        }
      }
      ProbeFails(es, hash(name), name);
      return None;
    }

    /** Declares in the innermost scope, unless the name is there or the scope is full. */
    method ScopeDeclare(name: string, ty: DataType) returns (ok: bool)
      requires Valid()
      modifies this`scopes
      ensures Valid()
      ensures match DeclareVar(old(scopes), hash, name, ty)
              case Some(sc) => ok && scopes == sc
              case None => !ok && scopes == old(scopes)
    {
      if scopes == [] {
        return false;
      }
      var es := scopes[|scopes| - 1];
      var start := hash(name) % SCOPE_HASH_SIZE;
      for i := 0 to SCOPE_HASH_SIZE
        invariant scopes == old(scopes)
        invariant forall j :: 0 <= j < i ==> !Stops(es, hash(name), j, name)
      {
        var curr := (start + i) % SCOPE_HASH_SIZE;
        ScopeSlot(hash(name), i);
        if !es[curr].occupied {
          ProbeIs(es, hash(name), name, i);
          scopes := scopes[..|scopes| - 1] + [es[curr := Entry(name, ty, true)]];
          return true;
        }
        if es[curr].name == name {
          ProbeIs(es, hash(name), name, i);
          return false;
        }
      }
      ProbeFails(es, hash(name), name);
      return false;
    }

    method IsVisible(name: string) returns (visible: bool)
      ensures visible <==> name in signatures.visible
    {
      for i := 0 to |signatures.visible|
        invariant forall k :: 0 <= k < i ==> signatures.visible[k] != name
      {
        if signatures.visible[i] == name {
          return true;
        }
      }
      return false;
    }

    method FindFunction(name: string) returns (r: Option<FunctionInfo>)
      ensures r == LookupFunction(signatures.functions, name)
    {
      var fs := signatures.functions;
      assert fs[0..] == fs;
      for i := 0 to |fs|
        invariant LookupFunction(fs, name) == LookupFunction(fs[i..], name)
      {
        assert fs[i..][0] == fs[i] && fs[i..][1..] == fs[i + 1..];
        if fs[i].name == name {
          return Some(fs[i]);
        }
      }
      assert fs[|fs|..] == [];
      return None;
    }

    /** Whether the expression is accepted, and the expression with its types. */
    method AnalyzeExpression(e: Expr) returns (ok: bool, e1: Expr)
      requires Valid()
      ensures ok == CheckExpr(e, scopes, hash, signatures).0 && e1 == CheckExpr(e, scopes, hash, signatures).1
      decreases e, 1
    {
      hide LookupVar, LookupFunction, ResultType, NumberType;
      match e
      case Number(text, _) => return true, Number(text, NumberType(text));
      case Identifier(x, _) =>
        var ty := ScopeLookup(x);
        return ty.Some?, if ty.Some? then Identifier(x, ty.value) else e;
      case Call(_, _, _) => ok, e1 := AnalyzeCall(e);
      case Unary(op, operand, ty) =>
        var operand1;
        ok, operand1 := AnalyzeExpression(operand);
        e1 := Unary(op, operand1, if op.Not? then Int64 else if ok then operand1.ty else ty);
      case Binary(op, l, r, ty) =>
        var leftOk, l1 := AnalyzeExpression(l);
        var rightOk, r1 := AnalyzeExpression(r);
        ok := leftOk && rightOk;
        e1 := Binary(op, l1, r1, if IsComparison(op) || ok then ResultType(op, l1.ty, r1.ty) else ty);
      case Assign(_, _, _) => return true, e;
    }

    method AnalyzeCall(e: Expr) returns (ok: bool, e1: Expr)
      requires Valid() && e.Call?
      ensures ok == CheckExpr(e, scopes, hash, signatures).0 && e1 == CheckExpr(e, scopes, hash, signatures).1
      decreases e, 0
    {
      hide LookupVar, LookupFunction, ResultType, NumberType, CheckArgs;
      var visible := IsVisible(e.fn);
      if !visible {
        return false, e;
      }
      var info := FindFunction(e.fn);
      if info == None || |e.args| != |info.value.params| {
        return false, e;
      }
      var args1;
      ok, args1 := AnalyzeArguments(e.args, info.value.params);
      e1 := Call(e.fn, args1, info.value.returnType);
    }

    /** Every argument is analysed, also after one that fails. */
    method AnalyzeArguments(args: seq<Expr>, ps: seq<Param>) returns (allOk: bool, args1: seq<Expr>)
      requires Valid() && |args| == |ps|
      ensures allOk == CheckArgs(args, ps, scopes, hash, signatures).0
      ensures args1 == CheckArgs(args, ps, scopes, hash, signatures).1
      decreases args, 0
    {
      hide CheckArgs, CheckExpr;
      allOk, args1 := true, [];
      assert args[0..] == args && ps[0..] == ps;
      for i := 0 to |args|
        invariant CheckArgs(args, ps, scopes, hash, signatures).0 ==
                  (allOk && CheckArgs(args[i..], ps[i..], scopes, hash, signatures).0)
        invariant CheckArgs(args, ps, scopes, hash, signatures).1 ==
                  args1 + CheckArgs(args[i..], ps[i..], scopes, hash, signatures).1
      {
        ArgStep(args, ps, i, scopes, hash, signatures);
        var ok, a := AnalyzeExpression(args[i]);
        if !ok {
          allOk := false;
        }
        if !Compatible(ps[i].ty, a.ty) {
          allOk := false;
        }
        args1 := args1 + [a];
      }
      NoArgsLeft(args, ps, scopes, hash, signatures);
    }

    /** Also leaves the scopes as the statement does. */
    method AnalyzeStatement(s: Stmt) returns (ok: bool, s1: Stmt)
      requires Valid()
      modifies this`scopes
      ensures Valid() && scopes == CheckStmt(s, old(scopes), hash, signatures, returnType).2
      ensures ok == CheckStmt(s, old(scopes), hash, signatures, returnType).0
      ensures s1 == CheckStmt(s, old(scopes), hash, signatures, returnType).1
      decreases s, 2
    {
      hide LookupVar, DeclareVar, CheckExpr, CheckStmts;
      match s
      case VarDecl(x, ty, init) => ok, s1 := AnalyzeDeclaration(x, ty, init);
      case ExprStmt(e) =>
        if e.Assign? {
          ok, s1 := AnalyzeAssignment(e);
        } else {
          var e1;
          ok, e1 := AnalyzeExpression(e);
          s1 := ExprStmt(e1);
        }
      case Return(result) => ok, s1 := AnalyzeReturn(result);
      case If(c, thn, els) => ok, s1 := AnalyzeIf(c, thn, els);
      case While(c, body) =>
        var condOk, c1 := AnalyzeExpression(c);
        var bodyOk, body1 := AnalyzeStatement(body);
        return condOk && bodyOk, While(c1, body1);
      case Block(ss) =>
        ghost var outer := scopes;
        ScopeEnter();
        var ss1;
        ok, ss1 := AnalyzeStatements(ss);
        ScopeExit();
        s1 := Block(ss1);
    }

    method AnalyzeDeclaration(x: string, ty: DataType, init: Option<Expr>) returns (ok: bool, s1: Stmt)
      requires Valid()
      modifies this`scopes
      ensures Valid() && scopes == CheckStmt(VarDecl(x, ty, init), old(scopes), hash, signatures, returnType).2
      ensures ok == CheckStmt(VarDecl(x, ty, init), old(scopes), hash, signatures, returnType).0
      ensures s1 == CheckStmt(VarDecl(x, ty, init), old(scopes), hash, signatures, returnType).1
    {
      hide LookupVar, DeclareVar, CheckExpr;
      var initOk, init1: Option<Expr> := true, None;
      if init.Some? {
        var okExpr, e1 := AnalyzeExpression(init.value);
        initOk := okExpr && Compatible(ty, e1.ty);
        init1 := Some(e1);
      }
      var declOk := ScopeDeclare(x, ty);
      return initOk && declOk, VarDecl(x, ty, init1);
    }

    method AnalyzeAssignment(e: Expr) returns (ok: bool, s1: Stmt)
      requires Valid() && e.Assign?
      ensures ok == CheckStmt(ExprStmt(e), scopes, hash, signatures, returnType).0
      ensures s1 == CheckStmt(ExprStmt(e), scopes, hash, signatures, returnType).1
    {
      hide LookupVar, CheckExpr;
      var ty := ScopeLookup(e.target);
      if ty == None {
        return false, ExprStmt(e);
      }
      var rhsOk, rhs1 := AnalyzeExpression(e.rhs);
      return rhsOk && Compatible(ty.value, rhs1.ty), ExprStmt(Assign(e.target, rhs1, ty.value));
    }

    method AnalyzeReturn(result: Option<Expr>) returns (ok: bool, s1: Stmt)
      requires Valid()
      ensures ok == CheckStmt(Return(result), scopes, hash, signatures, returnType).0
      ensures s1 == CheckStmt(Return(result), scopes, hash, signatures, returnType).1
    {
      hide LookupVar, CheckExpr;
      if result == None {
        return returnType == Void, Return(None);
      }
      if returnType == Void {
        return false, Return(result);
      }
      var exprOk, e1 := AnalyzeExpression(result.value);
      return exprOk && Compatible(returnType, e1.ty), Return(Some(e1));
    }

    method AnalyzeIf(c: Expr, thn: Stmt, els: Option<Stmt>) returns (ok: bool, s1: Stmt)
      requires Valid()
      modifies this`scopes
      ensures Valid() && scopes == CheckStmt(If(c, thn, els), old(scopes), hash, signatures, returnType).2
      ensures ok == CheckStmt(If(c, thn, els), old(scopes), hash, signatures, returnType).0
      ensures s1 == CheckStmt(If(c, thn, els), old(scopes), hash, signatures, returnType).1
      decreases If(c, thn, els), 1
    {
      hide LookupVar, DeclareVar, CheckExpr, CheckStmts;
      var condOk, c1 := AnalyzeExpression(c);
      var thenOk, thn1 := AnalyzeStatement(thn);
      if els.Some? {
        var elseOk, els1 := AnalyzeStatement(els.value);
        return condOk && thenOk && elseOk, If(c1, thn1, Some(els1));
      }
      return condOk && thenOk, If(c1, thn1, None);
    }

    method AnalyzeStatements(ss: seq<Stmt>) returns (allOk: bool, ss1: seq<Stmt>)
      requires Valid()
      modifies this`scopes
      ensures Valid() && scopes == CheckStmts(ss, old(scopes), hash, signatures, returnType).2
      ensures allOk == CheckStmts(ss, old(scopes), hash, signatures, returnType).0
      ensures ss1 == CheckStmts(ss, old(scopes), hash, signatures, returnType).1
      decreases ss, 0
    {
      hide CheckStmts, CheckStmt;
      ghost var sc := scopes;
      allOk, ss1 := true, [];
      assert ss[0..] == ss;
      for i := 0 to |ss|
        invariant Valid()
        invariant CheckStmts(ss, sc, hash, signatures, returnType).0 ==
                  (allOk && CheckStmts(ss[i..], scopes, hash, signatures, returnType).0)
        invariant CheckStmts(ss, sc, hash, signatures, returnType).1 ==
                  ss1 + CheckStmts(ss[i..], scopes, hash, signatures, returnType).1
        invariant CheckStmts(ss, sc, hash, signatures, returnType).2 ==
                  CheckStmts(ss[i..], scopes, hash, signatures, returnType).2
      {
        StmtStep(ss, i, scopes, hash, signatures, returnType);
        var ok, s1 := AnalyzeStatement(ss[i]);
        if !ok {
          allOk := false;
        }
        ss1 := ss1 + [s1];
      }
      NoStmtsLeft(ss, scopes, hash, signatures, returnType);
    }

    /** A definition: parameters and body share one scope. */
    method AnalyzeFunction(f: Func) returns (ok: bool, f1: Func)
      requires Valid() && scopes == []
      modifies this
      ensures Valid() && scopes == []
      ensures ok == CheckFunc(f, hash, signatures).0 && f1 == CheckFunc(f, hash, signatures).1
    {
      hide CheckStmts, CheckParams, DeclareVar;
      returnType := f.returnType;
      ScopeEnter();
      assert scopes == [EmptyScope()];
      ghost var sc := scopes;
      var paramsOk := true;
      assert f.params[0..] == f.params;
      for i := 0 to |f.params|
        invariant Valid() && returnType == f.returnType && |scopes| == 1
        invariant CheckParams(f.params, sc, hash).0 == (paramsOk && CheckParams(f.params[i..], scopes, hash).0)
        invariant CheckParams(f.params, sc, hash).1 == CheckParams(f.params[i..], scopes, hash).1
      {
        ParamStep(f.params, i, scopes, hash);
        var declared := ScopeDeclare(f.params[i].name, f.params[i].ty);
        if !declared {
          paramsOk := false;
        }
      }
      NoParamsLeft(f.params, scopes, hash);
      var bodyOk, body := AnalyzeStatements(f.body);
      ScopeExit();
      return paramsOk && bodyOk, f.(body := body);
    }
  }

  lemma {:induction false} ScopeSlot(h: nat, i: nat)
    ensures (h % SCOPE_HASH_SIZE + i) % SCOPE_HASH_SIZE == Slot(h, i, SCOPE_HASH_SIZE)
  {
  }

  lemma {:induction false} ArgStep(args: seq<Expr>, ps: seq<Param>, i: nat, sc: Scopes, hash: string -> nat,
                                   sig: Signatures)
    requires Sized(sc) && |args| == |ps| && i < |args|
    ensures var (ok, a) := CheckExpr(args[i], sc, hash, sig);
            && CheckArgs(args[i..], ps[i..], sc, hash, sig).0
               == (ok && Compatible(ps[i].ty, a.ty) && CheckArgs(args[i + 1..], ps[i + 1..], sc, hash, sig).0)
            && CheckArgs(args[i..], ps[i..], sc, hash, sig).1 ==
              [a] + CheckArgs(args[i + 1..], ps[i + 1..], sc, hash, sig).1
  {
    hide CheckExpr;
    assert args[i..][0] == args[i] && args[i..][1..] == args[i + 1..] && ps[i..][0] == ps[i]
           && ps[i..][1..] == ps[i + 1..];
  }

  lemma {:induction false} NoArgsLeft(args: seq<Expr>, ps: seq<Param>, sc: Scopes, hash: string -> nat, sig: Signatures)
    requires Sized(sc) && |args| == |ps|
    ensures CheckArgs(args[|args|..], ps[|args|..], sc, hash, sig).0
    ensures CheckArgs(args[|args|..], ps[|args|..], sc, hash, sig).1 == []
  {
  }

  lemma {:induction false} StmtStep(ss: seq<Stmt>, i: nat, sc: Scopes, hash: string -> nat, sig: Signatures,
                                    ret: DataType)
    requires Sized(sc) && i < |ss|
    ensures var (ok, s1, sc1) := CheckStmt(ss[i], sc, hash, sig, ret);
            && CheckStmts(ss[i..], sc, hash, sig, ret).0 == (ok && CheckStmts(ss[i + 1..], sc1, hash, sig, ret).0)
            && CheckStmts(ss[i..], sc, hash, sig, ret).1 == [s1] + CheckStmts(ss[i + 1..], sc1, hash, sig, ret).1
            && CheckStmts(ss[i..], sc, hash, sig, ret).2 == CheckStmts(ss[i + 1..], sc1, hash, sig, ret).2
  {
    hide CheckStmt;
    assert ss[i..][0] == ss[i] && ss[i..][1..] == ss[i + 1..];
  }

  lemma {:induction false} NoStmtsLeft(ss: seq<Stmt>, sc: Scopes, hash: string -> nat, sig: Signatures, ret: DataType)
    requires Sized(sc)
    ensures CheckStmts(ss[|ss|..], sc, hash, sig, ret).0 && CheckStmts(ss[|ss|..], sc, hash, sig, ret).1 == []
    ensures CheckStmts(ss[|ss|..], sc, hash, sig, ret).2 == sc
  {
  }

  lemma {:induction false} ParamStep(ps: seq<Param>, i: nat, sc: Scopes, hash: string -> nat)
    requires Sized(sc) && i < |ps|
    ensures var r := DeclareVar(sc, hash, ps[i].name, ps[i].ty);
            var sc1 := if r.Some? then r.value else sc;
            && CheckParams(ps[i..], sc, hash).0 == (r.Some? && CheckParams(ps[i + 1..], sc1, hash).0)
            && CheckParams(ps[i..], sc, hash).1 == CheckParams(ps[i + 1..], sc1, hash).1
  {
    hide DeclareVar;
    assert ps[i..][0] == ps[i] && ps[i..][1..] == ps[i + 1..];
  }

  lemma {:induction false} NoParamsLeft(ps: seq<Param>, sc: Scopes, hash: string -> nat)
    requires Sized(sc)
    ensures CheckParams(ps[|ps|..], sc, hash).0 && CheckParams(ps[|ps|..], sc, hash).1 == sc
  {
  }
}
