/** An accepted program never gets stuck: the source semantics covers every run of it. */
module Soundness {
  import opened Words
  import opened Ast
  import opened Source
  import opened Typing
  import opened Semantic
  import opened Callees

  /** How many parameters each function has. */
  type Arities = map<string, nat>

  /** Every call is to a known function, with as many arguments as it has parameters. */
  predicate CallsFit(e: Expr, ar: Arities) {
    match e
    case Number(_, _) => true
    case Identifier(_, _) => true
    case Call(fn, args, _) => fn in ar && |args| == ar[fn] && forall i :: 0 <= i < |args| ==> CallsFit(args[i], ar)
    case Unary(_, operand, _) => CallsFit(operand, ar)
    case Binary(_, l, r, _) => CallsFit(l, ar) && CallsFit(r, ar)
    case Assign(_, rhs, _) => CallsFit(rhs, ar)
  }

  /** The same of every expression of the statement, and no bare return. */
  predicate AllFit(s: Stmt, ar: Arities)
    decreases s, 0
  {
    match s
    case VarDecl(_, _, init) => init.Some? ==> CallsFit(init.value, ar)
    case ExprStmt(e) => CallsFit(e, ar)
    case Return(result) => result.Some? && CallsFit(result.value, ar)
    case If(c, thn, els) => CallsFit(c, ar) && AllFit(thn, ar) && (els.Some? ==> AllFit(els.value, ar))
    case While(c, body) => CallsFit(c, ar) && AllFit(body, ar)
    case Block(ss) => BodyFits(ss, ar)
  }

  predicate BodyFits(ss: seq<Stmt>, ar: Arities)
    decreases ss, 0
  {
    ss == [] || (AllFit(ss[0], ar) && BodyFits(ss[1..], ar))
  }

  function AritiesOf(p: Program): Arities {
    map fn | fn in p :: |p[fn].params|
  }

  /** Every function is typed, and its calls fit the program. */
  ghost predicate Sound(p: Program) {
    forall fn :: fn in p ==> TypedFunc(p[fn]) && BodyFits(p[fn].body, AritiesOf(p))
  }

  lemma {:induction false} EvalSound(p: Program, e: Expr, env: Env, tr: Trace, fuel: nat)
    requires Sound(p) && TypedExpr(e, env.vars) && CallsFit(e, AritiesOf(p))
    ensures Eval(p, e, env, tr, fuel) != Stuck
    decreases fuel, e, 0
  {
    hide Sound, BinaryMeaning, UnaryMeaning, AritiesOf;
    match e
    case Number(_, _) =>
    case Identifier(_, _) =>
    case Call(fn, args, _) =>
      ArgsSound(p, args, env, tr, fuel);
      var r := EvalArgs(p, args, env, tr, fuel);
      if r.Values? && fuel > 0 {
        ArityIs(p, fn);
        InvokeSound(p, fn, r.values, r.trace + [Event(fn, r.values)], fuel - 1);
      }
    case Unary(_, operand, _) => EvalSound(p, operand, env, tr, fuel);
    case Binary(_, l, r, _) =>
      EvalSound(p, l, env, tr, fuel);
      var o := Eval(p, l, env, tr, fuel);
      if o.Returned? {
        EvalSound(p, r, env, o.trace, fuel);
      }
  }

  lemma {:induction false} ArityIs(p: Program, fn: string)
    ensures fn in AritiesOf(p) <==> fn in p
    ensures fn in p ==> AritiesOf(p)[fn] == |p[fn].params|
  {
  }

  lemma {:induction false} ArgsSound(p: Program, es: seq<Expr>, env: Env, tr: Trace, fuel: nat)
    requires Sound(p)
    requires forall i :: 0 <= i < |es| ==> TypedExpr(es[i], env.vars) && CallsFit(es[i], AritiesOf(p))
    ensures EvalArgs(p, es, env, tr, fuel) != Abandoned(Stuck)
    decreases fuel, es, 0
  {
    hide Sound, AritiesOf, TypedExpr, CallsFit, Eval;
    if es != [] {
      EvalSound(p, es[0], env, tr, fuel);
      var o := Eval(p, es[0], env, tr, fuel);
      if o.Returned? {
        ArgsSound(p, es[1..], env, o.trace, fuel);
      }
    }
  }

  lemma {:induction false} InvokeSound(p: Program, fn: string, vs: seq<Word>, tr: Trace, fuel: nat)
    requires Sound(p) && fn in p && |vs| == |p[fn].params|
    ensures Invoke(p, fn, vs, tr, fuel) != Stuck
    decreases fuel
  {
    hide Sound, ExecAll, TypedStmts, BodyFits, ParamVars;
    assert TypedFunc(p[fn]) && BodyFits(p[fn].body, AritiesOf(p)) by { SoundOf(p, fn); }
    ExecAllSound(p, p[fn].body, Bindings(ParamVars(p[fn].params), vs), tr, fuel);
  }

  lemma {:induction false} SoundOf(p: Program, fn: string)
    requires Sound(p) && fn in p
    ensures TypedFunc(p[fn]) && BodyFits(p[fn].body, AritiesOf(p))
  {
  }

  /** It runs on with exactly its declarations added, or ends in anything but `Stuck`. */
  ghost predicate FlowSound(r: Flow, vars: seq<Var>) {
    match r
    case Normal(env, _) => env.vars == vars
    case Done(o) => o != Stuck
  }

  lemma {:induction false} ExecSound(p: Program, s: Stmt, env: Env, tr: Trace, fuel: nat)
    requires Sound(p) && TypedStmt(s, env.vars) && AllFit(s, AritiesOf(p))
    ensures FlowSound(Exec(p, s, env, tr, fuel), env.vars + Declared(s))
    decreases fuel, s, 0
  {
    hide Sound, AritiesOf, TypedExpr, CallsFit, Eval;
    assert env.vars + [] == env.vars;
    match s
    case VarDecl(_, _, init) =>
      if init.Some? {
        EvalSound(p, init.value, env, tr, fuel);
      }
    case ExprStmt(e) =>
      if e.Assign? {
        AssignFits(e, AritiesOf(p));
        EvalSound(p, e.rhs, env, tr, fuel);
      } else {
        EvalSound(p, e, env, tr, fuel);
      }
    case Return(result) => EvalSound(p, result.value, env, tr, fuel);
    case If(c, thn, els) =>
      EvalSound(p, c, env, tr, fuel);
      var o := Eval(p, c, env, tr, fuel);
      if o.Returned? {
        ExecSound(p, thn, env, o.trace, fuel);
        if els.Some? {
          ExecSound(p, els.value, env, o.trace, fuel);
        }
      }
    case While(c, body) =>
      EvalSound(p, c, env, tr, fuel);
      var o := Eval(p, c, env, tr, fuel);
      if o.Returned? && o.value != 0 {
        ExecSound(p, body, env, o.trace, fuel);
        var r := Exec(p, body, env, o.trace, fuel);
        if r.Normal? && fuel > 0 {
          ExecSound(p, s, r.env, r.trace, fuel - 1);
        }
      }
    case Block(ss) => ExecAllSound(p, ss, env, tr, fuel);
  }

  lemma {:induction false} AssignFits(e: Expr, ar: Arities)
    requires e.Assign? && CallsFit(e, ar)
    ensures CallsFit(e.rhs, ar)
  {
  }

  lemma {:induction false} ExecAllSound(p: Program, ss: seq<Stmt>, env: Env, tr: Trace, fuel: nat)
    requires Sound(p) && TypedStmts(ss, env.vars) && BodyFits(ss, AritiesOf(p))
    ensures ExecAll(p, ss, env, tr, fuel) != Done(Stuck)
    decreases fuel, ss, 0
  {
    hide Sound, AritiesOf, TypedStmt, AllFit, Exec;
    if ss != [] {
      ExecSound(p, ss[0], env, tr, fuel);
      var r := Exec(p, ss[0], env, tr, fuel);
      if r.Normal? {
        ExecAllSound(p, ss[1..], r.env, r.trace, fuel);
      }
    }
  }

  // --- Acceptance gives fitting calls ----------------------------------------------------------

  /** The arities of the functions that are visible and known. */
  ghost predicate AritiesKnown(sig: Signatures, ar: Arities) {
    forall fn :: fn in sig.visible && LookupFunction(sig.functions, fn).Some? ==>
      fn in ar && ar[fn] == |LookupFunction(sig.functions, fn).value.params|
  }

  lemma {:induction false} ExprFits(e: Expr, sc: Scopes, hash: string -> nat, sig: Signatures, ar: Arities)
    requires Sized(sc) && AritiesKnown(sig, ar) && Plain(e) && CheckExpr(e, sc, hash, sig).0
    ensures CallsFit(CheckExpr(e, sc, hash, sig).1, ar)
    decreases e, 0
  {
    hide LookupVar, LookupFunction, ResultType, NumberType;
    match e
    case Call(fn, args, _) => ArgsFit(args, LookupFunction(sig.functions, fn).value.params, sc, hash, sig, ar);
    case Unary(_, operand, _) => ExprFits(operand, sc, hash, sig, ar);
    case Binary(_, l, r, _) => ExprFits(l, sc, hash, sig, ar); ExprFits(r, sc, hash, sig, ar);
    case Number(_, _) =>
    case Identifier(_, _) =>
    case Assign(_, _, _) =>
  }

  lemma {:induction false} ArgsFit(args: seq<Expr>, ps: seq<Param>, sc: Scopes, hash: string -> nat, sig: Signatures,
                                   ar: Arities)
    requires Sized(sc) && AritiesKnown(sig, ar) && |args| == |ps| && CheckArgs(args, ps, sc, hash, sig).0
    requires forall i :: 0 <= i < |args| ==> Plain(args[i])
    ensures forall i :: 0 <= i < |args| ==> CallsFit(CheckArgs(args, ps, sc, hash, sig).1[i], ar)
    decreases args, 0
  {
    hide LookupVar, CallsFit, CheckExpr, AritiesKnown;
    if args != [] {
      ExprFits(args[0], sc, hash, sig, ar);
      ArgsFit(args[1..], ps[1..], sc, hash, sig, ar);
    }
  }

  lemma {:induction false} StmtFits(s: Stmt, sc: Scopes, hash: string -> nat, sig: Signatures, ret: DataType,
                                    ar: Arities)
    requires Sized(sc) && AritiesKnown(sig, ar) && ret != Void && Regular(s) && CheckStmt(s, sc, hash, sig, ret).0
    ensures AllFit(CheckStmt(s, sc, hash, sig, ret).1, ar)
    decreases s, 0
  {
    hide CheckExpr, LookupVar, DeclareVar, AritiesKnown, CallsFit;
    match s
    case VarDecl(_, _, init) =>
      if init.Some? {
        ExprFits(init.value, sc, hash, sig, ar);
      }
    case ExprStmt(e) =>
      if e.Assign? {
        ExprFits(e.rhs, sc, hash, sig, ar);
        RhsFits(CheckStmt(s, sc, hash, sig, ret).1.e, ar);
      } else {
        ExprFits(e, sc, hash, sig, ar);
      }
    case Return(result) => ExprFits(result.value, sc, hash, sig, ar);
    case If(c, thn, els) =>
      ExprFits(c, sc, hash, sig, ar);
      StmtFits(thn, sc, hash, sig, ret, ar);
      if els.Some? {
        StmtFits(els.value, CheckStmt(thn, sc, hash, sig, ret).2, hash, sig, ret, ar);
      }
    case While(c, body) =>
      ExprFits(c, sc, hash, sig, ar);
      StmtFits(body, sc, hash, sig, ret, ar);
    case Block(ss) => StmtsFit(ss, sc + [EmptyScope()], hash, sig, ret, ar);
  }

  lemma {:induction false} RhsFits(e: Expr, ar: Arities)
    requires e.Assign? && CallsFit(e.rhs, ar)
    ensures CallsFit(e, ar)
  {
  }

  lemma {:induction false} StmtsFit(ss: seq<Stmt>, sc: Scopes, hash: string -> nat, sig: Signatures, ret: DataType,
                                    ar: Arities)
    requires Sized(sc) && AritiesKnown(sig, ar) && ret != Void && AllRegular(ss) && CheckStmts(ss, sc, hash, sig, ret).0
    ensures BodyFits(CheckStmts(ss, sc, hash, sig, ret).1, ar)
    decreases ss, 0
  {
    hide CheckStmt, AritiesKnown, AllFit, Regular;
    if ss != [] {
      StmtFits(ss[0], sc, hash, sig, ret, ar);
      var (_, s1, sc1) := CheckStmt(ss[0], sc, hash, sig, ret);
      StmtsFit(ss[1..], sc1, hash, sig, ret, ar);
      var out := CheckStmts(ss, sc, hash, sig, ret).1;
      assert out[0] == s1 && out[1..] == CheckStmts(ss[1..], sc1, hash, sig, ret).1;
    }
  }

  /** What the declarations in sight say of arities. */
  function DeclaredArities(sig: Signatures): Arities {
    map fn | fn in sig.visible && LookupFunction(sig.functions, fn).Some? :: |LookupFunction(sig.functions,
      fn).value.params|
  }

  /** Arities that agree on the functions that are called. */
  predicate AgreeOnCalls(ar: Arities, ar1: Arities, calls: seq<CallShape>) {
    forall c :: c in calls && c.fn in ar ==> c.fn in ar1 && ar1[c.fn] == ar[c.fn]
  }

  lemma {:induction false} ExprRefits(e: Expr, ar: Arities, ar1: Arities)
    requires CallsFit(e, ar) && AgreeOnCalls(ar, ar1, CallsIn(e))
    ensures CallsFit(e, ar1)
    decreases e
  {
    match e
    case Number(_, _) =>
    case Identifier(_, _) =>
    case Call(_, args, _) =>
      forall i | 0 <= i < |args| ensures CallsFit(args[i], ar1) {
        OneOfThem(args, i);
        ExprRefits(args[i], ar, ar1);
      }
    case Unary(_, operand, _) => ExprRefits(operand, ar, ar1);
    case Binary(_, l, r, _) => ExprRefits(l, ar, ar1); ExprRefits(r, ar, ar1);
    case Assign(_, rhs, _) => ExprRefits(rhs, ar, ar1);
  }

  lemma {:induction false} OneOfThem(es: seq<Expr>, i: nat)
    requires i < |es|
    ensures forall c :: c in CallsIn(es[i]) ==> c in CallsInAll(es)
    decreases i
  {
    hide CallsIn;
    if i > 0 {
      OneOfThem(es[1..], i - 1);
    }
  }

  lemma {:induction false} StmtRefits(s: Stmt, ar: Arities, ar1: Arities)
    requires AllFit(s, ar) && AgreeOnCalls(ar, ar1, CallsInStmt(s))
    ensures AllFit(s, ar1)
    decreases s, 0
  {
    hide CallsFit, CallsIn;
    match s
    case VarDecl(_, _, init) =>
      if init.Some? {
        ExprRefits(init.value, ar, ar1);
      }
    case ExprStmt(e) => ExprRefits(e, ar, ar1);
    case Return(result) => ExprRefits(result.value, ar, ar1);
    case If(c, thn, els) =>
      ExprRefits(c, ar, ar1);
      StmtRefits(thn, ar, ar1);
      if els.Some? {
        StmtRefits(els.value, ar, ar1);
      }
    case While(c, body) =>
      ExprRefits(c, ar, ar1);
      StmtRefits(body, ar, ar1);
    case Block(ss) => BodyRefits(ss, ar, ar1);
  }

  lemma {:induction false} BodyRefits(ss: seq<Stmt>, ar: Arities, ar1: Arities)
    requires BodyFits(ss, ar) && AgreeOnCalls(ar, ar1, CallsInBody(ss))
    ensures BodyFits(ss, ar1)
    decreases ss, 0
  {
    hide AllFit, CallsInStmt;
    if ss != [] {
      StmtRefits(ss[0], ar, ar1);
      BodyRefits(ss[1..], ar, ar1);
    }
  }

  /** The signatures that each function of the program is analysed with: those of its file. */
  type SignaturesOf = map<string, Signatures>

  /** `q` is the program `p` as the analyser left it, every function accepted. */
  ghost predicate Analysed(p: Program, q: Program, hash: string -> nat, sigs: SignaturesOf) {
    && p.Keys == q.Keys == sigs.Keys
    && forall fn :: fn in p ==>
         CheckFunc(p[fn], hash, sigs[fn]) == (true, q[fn]) && AllRegular(p[fn].body) && p[fn].returnType != Void
  }

  /** The functions of the program have the arities that are declared in any file. */
  ghost predicate AritiesAgree(sigs: SignaturesOf, q: Program) {
    forall fn, g :: fn in sigs && g in DeclaredArities(sigs[fn]) && g in q ==>
      |q[g].params| == DeclaredArities(sigs[fn])[g]
  }

  /** Every function that is called is in the program. */
  ghost predicate CallsDefined(q: Program) {
    forall fn :: fn in q ==> NamesOf(CallsInBody(q[fn].body)) <= q.Keys
  }

  /**
    Accepted programs do not go wrong: when every function of a program is accepted, and every
    function that is called has a definition, no run is stuck on an unknown name, a missing
    function or a wrong number of arguments.
   */
  lemma {:induction false} AcceptedIsSound(p: Program, q: Program, hash: string -> nat, sigs: SignaturesOf,
                                           fn: string, vs: seq<Word>, tr: Trace, fuel: nat)
    requires Analysed(p, q, hash, sigs) && AritiesAgree(sigs, q) && CallsDefined(q)
    requires fn in q && |vs| == |q[fn].params|
    ensures Sound(q) && Invoke(q, fn, vs, tr, fuel) != Stuck
  {
    hide AritiesOf, TypedFunc, BodyFits, Analysed, AritiesAgree, CallsDefined, Invoke, CheckFunc;
    forall g | g in q ensures TypedFunc(q[g]) && BodyFits(q[g].body, AritiesOf(q)) {
      FunctionIsSound(p, q, hash, sigs, g);
    }
    InvokeSound(q, fn, vs, tr, fuel);
  }

  lemma {:induction false} FunctionIsSound(p: Program, q: Program, hash: string -> nat, sigs: SignaturesOf, g: string)
    requires Analysed(p, q, hash, sigs) && AritiesAgree(sigs, q) && CallsDefined(q) && g in q
    ensures TypedFunc(q[g]) && BodyFits(q[g].body, AritiesOf(q))
  {
    hide CheckParams, CheckStmts, AllRegular, TypedFunc, BodyFits, LookupFunction, CallsInBody;
    var sig := sigs[g];
    var ar := DeclaredArities(sig);
    AcceptedIsTyped(p[g], hash, sig);
    StmtsFit(p[g].body, CheckParams(p[g].params, [EmptyScope()], hash).1, hash, sig, p[g].returnType, ar);
    forall c | c in CallsInBody(q[g].body) && c.fn in ar
      ensures c.fn in AritiesOf(q) && AritiesOf(q)[c.fn] == ar[c.fn]
    {
      assert c.fn in NamesOf(CallsInBody(q[g].body));
    }
    BodyRefits(q[g].body, ar, AritiesOf(q));
  }
}
