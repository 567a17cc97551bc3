/**
  What a program means: an interpreter of syntax trees.

  The variables in scope are a stack of bindings, innermost last. A block drops the
  bindings it pushed. Calls and loop iterations spend fuel; `OutOfFuel` is no outcome.
 */
module Source {
  import opened Words
  import opened Ast

  datatype Event = Event(fn: string, args: seq<Word>)
  type Trace = seq<Event>

  /** How the evaluation of an expression or the run of a function ends. */
  datatype Outcome =
    | Returned(value: Word, trace: Trace)
    | Trapped(trace: Trace)
    | FellOff(trace: Trace)
    | Stuck
    | OutOfFuel
  {
    predicate Settled() {
      Returned? || Trapped? || FellOff?
    }
  }

  /** A variable in scope. A local is narrowed to its type; a parameter keeps all 64 bits. */
  datatype Var = Var(name: string, ty: DataType, isLocal: bool)

  datatype Bindings = Bindings(vars: seq<Var>, values: seq<Word>)
  type Env = b: Bindings | |b.vars| == |b.values| witness Bindings([], [])

  type Program = map<string, Func>

  /** The position of the innermost variable named `x`, or -1. */
  function Find(vars: seq<Var>, x: string): (i: int)
    ensures -1 <= i < |vars|
    ensures i >= 0 ==> vars[i].name == x
    ensures forall j :: i < j < |vars| ==> vars[j].name != x
  {
    if vars == [] then -1
    else if vars[|vars| - 1].name == x then |vars| - 1
    else Find(vars[..|vars| - 1], x)
  }

  function Keep(v: Var, w: Word): Word {
    if v.isLocal then Narrow(w, Width(v.ty)) else w
  }

  function Push(env: Env, v: Var, w: Word): Env {
    Bindings(env.vars + [v], env.values + [Keep(v, w)])
  }

  function Update(env: Env, i: nat, w: Word): Env
    requires i < |env.vars|
  {
    env.(values := env.values[i := Keep(env.vars[i], w)])
  }

  function Pop(env: Env, n: nat): Env
    requires n <= |env.vars|
  {
    Bindings(env.vars[..n], env.values[..n])
  }

  function UnaryMeaning(op: UnaryOp, a: Word): Word {
    match op
    case Negate => Wrap(0 - a)
    case Not => FromBool(a == 0)
    case Invert => Complement(a)
  }

  /** `leftType` decides whether `>>` is arithmetic or logical. */
  function BinaryMeaning(op: BinaryOp, leftType: DataType, a: Word, b: Word): Option<Word> {
    match op
    case Add => Some(Wrap(a + b))
    case Sub => Some(Wrap(a - b))
    case Mul => Some(Wrap(a * b))
    case Div => Divide(a, b)
    case Equal => Some(FromBool(a == b))
    case NotEqual => Some(FromBool(a != b))
    case Less => Some(FromBool(a < b))
    case LessEqual => Some(FromBool(a <= b))
    case Greater => Some(FromBool(a > b))
    case GreaterEqual => Some(FromBool(a >= b))
    case LeftShift => Some(ShiftLeft(a, b))
    case RightShift => Some(if IsUnsigned(leftType) then ShiftRightUnsigned(a, b) else ShiftRightSigned(a, b))
    case And => Some(Bitwise(BitAnd, a, b))
    case Or => Some(Bitwise(BitOr, a, b))
    case Xor => Some(Bitwise(BitXor, a, b))
  }

  function Operate(op: BinaryOp, leftType: DataType, a: Word, b: Word, tr: Trace): Outcome {
    match BinaryMeaning(op, leftType, a, b)
    case Some(w) => Returned(w, tr)
    case None => Trapped(tr)
  }

  datatype ArgsResult = Values(values: seq<Word>, trace: Trace) | Abandoned(outcome: Outcome)

  function Eval(p: Program, e: Expr, env: Env, tr: Trace, fuel: nat): Outcome
    decreases fuel, e, 0
  {
    match e
    case Number(text, _) => Returned(NumberValue(text), tr)
    case Identifier(x, _) =>
      var i := Find(env.vars, x);
      if i < 0 then Stuck else Returned(env.values[i], tr)
    case Call(fn, args, _) =>
      (match EvalArgs(p, args, env, tr, fuel)
       case Abandoned(o) => o
       case Values(vs, tr1) =>
         if fuel == 0 then OutOfFuel else Invoke(p, fn, vs, tr1 + [Event(fn, vs)], fuel - 1))
    case Unary(op, operand, _) =>
      (match Eval(p, operand, env, tr, fuel)
       case Returned(a, tr1) => Returned(UnaryMeaning(op, a), tr1)
       case o => o)
    case Binary(op, l, r, _) =>
      (match Eval(p, l, env, tr, fuel)
       case Returned(a, tr1) =>
         (match Eval(p, r, env, tr1, fuel)
          case Returned(b, tr2) => Operate(op, l.ty, a, b, tr2)
          case o => o)
       case o => o)
    case Assign(_, _, _) => Stuck
  }

  /** Arguments are evaluated left to right. */
  function EvalArgs(p: Program, es: seq<Expr>, env: Env, tr: Trace, fuel: nat): (r: ArgsResult)
    ensures r.Values? ==> |r.values| == |es|
    ensures r.Abandoned? ==> !r.outcome.Returned?
    decreases fuel, es, 0
  {
    if es == [] then Values([], tr)
    else
      match Eval(p, es[0], env, tr, fuel)
      case Returned(v, tr1) =>
        (match EvalArgs(p, es[1..], env, tr1, fuel)
         case Values(vs, tr2) => Values([v] + vs, tr2)
         case Abandoned(o) => Abandoned(o))
      case o => Abandoned(o)
  }

  datatype Flow = Normal(env: Env, trace: Trace) | Done(outcome: Outcome)

  function Exec(p: Program, s: Stmt, env: Env, tr: Trace, fuel: nat): (r: Flow)
    ensures r.Normal? ==> env.vars <= r.env.vars
    decreases fuel, s, 0
  {
    match s
    case VarDecl(x, ty, None) => Normal(Push(env, Var(x, ty, true), 0), tr)
    case VarDecl(x, ty, Some(e)) =>
      (match Eval(p, e, env, tr, fuel)
       case Returned(v, tr1) => Normal(Push(env, Var(x, ty, true), v), tr1)
       case o => Done(o))
    case ExprStmt(e) =>
      if e.Assign? then
        (match Eval(p, e.rhs, env, tr, fuel)
         case Returned(v, tr1) =>
           var i := Find(env.vars, e.target);
           if i < 0 then Done(Stuck) else Normal(Update(env, i, v), tr1)
         case o => Done(o))
      else
        (match Eval(p, e, env, tr, fuel)
         case Returned(_, tr1) => Normal(env, tr1)
         case o => Done(o))
    case Return(None) => Done(Stuck)
    case Return(Some(e)) => Done(Eval(p, e, env, tr, fuel))
    case If(c, thn, els) =>
      (match Eval(p, c, env, tr, fuel)
       case Returned(v, tr1) =>
         if v != 0 then Exec(p, thn, env, tr1, fuel)
         else if els.Some? then Exec(p, els.value, env, tr1, fuel)
         else Normal(env, tr1)
       case o => Done(o))
    case While(c, body) =>
      (match Eval(p, c, env, tr, fuel)
       case Returned(v, tr1) =>
         if v == 0 then Normal(env, tr1)
         else
           (match Exec(p, body, env, tr1, fuel)
            case Normal(env2, tr2) =>
              if fuel == 0 then Done(OutOfFuel) else Exec(p, s, env2, tr2, fuel - 1)
            case d => d)
       case o => Done(o))
    case Block(ss) =>
      (match ExecAll(p, ss, env, tr, fuel)
       case Normal(env1, tr1) => Normal(Pop(env1, |env.vars|), tr1)
       case d => d)
  }

  function ExecAll(p: Program, ss: seq<Stmt>, env: Env, tr: Trace, fuel: nat): (r: Flow)
    ensures r.Normal? ==> env.vars <= r.env.vars
    decreases fuel, ss, 0
  {
    if ss == [] then Normal(env, tr)
    else
      match Exec(p, ss[0], env, tr, fuel)
      case Normal(env1, tr1) => ExecAll(p, ss[1..], env1, tr1, fuel)
      case d => d
  }

  function ParamVars(ps: seq<Param>): (vars: seq<Var>)
    ensures |vars| == |ps|
  {
    seq(|ps|, i requires 0 <= i < |ps| => Var(ps[i].name, ps[i].ty, false))
  }

  /** Runs a function on argument values; running off its end gives no value. */
  function Invoke(p: Program, fn: string, vs: seq<Word>, tr: Trace, fuel: nat): Outcome
    decreases fuel
  {
    if fn !in p || |p[fn].params| != |vs| then Stuck
    else
      match ExecAll(p, p[fn].body, Bindings(ParamVars(p[fn].params), vs), tr, fuel)
      case Normal(_, tr1) => FellOff(tr1)
      case Done(o) => o
  }
}
