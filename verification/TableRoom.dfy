/**
  When the generator's symbol table has room, told from the syntax alone: at every declaration
  the name is in scope already, or fewer names are in scope than the table has slots.
 */
module TableRoom {
  import opened Words
  import opened Ast
  import opened Ir
  import opened Lowering
  import opened IrShape
  import opened SymbolTables
  import opened IrGen
  import opened Resolvers

  predicate NameFits(x: string, names: set<string>) {
    x in names || |names| < SYMBOL_TABLE_SIZE
  }

  /** The names in scope after a statement. A branch that is not a block leaves its names behind. */
  function NamesAfter(s: Stmt, names: set<string>): set<string> {
    match s
    case VarDecl(x, _, _) => names + {x}
    case If(_, thn, els) =>
      var names1 := NamesAfter(thn, names);
      if els.Some? then NamesAfter(els.value, names1) else names1
    case While(_, body) => NamesAfter(body, names)
    case _ => names
  }

  predicate NamesFit(s: Stmt, names: set<string>)
    decreases s, 0
  {
    match s
    case VarDecl(x, _, _) => NameFits(x, names)
    case If(_, thn, els) => NamesFit(thn, names) && (els.Some? ==> NamesFit(els.value, NamesAfter(thn, names)))
    case While(_, body) => NamesFit(body, names)
    case Block(ss) => BodyFits(ss, names)
    case ExprStmt(_) => true
    case Return(_) => true
  }

  predicate BodyFits(ss: seq<Stmt>, names: set<string>)
    decreases ss, 0
  {
    ss == [] || (NamesFit(ss[0], names) && BodyFits(ss[1..], NamesAfter(ss[0], names)))
  }

  predicate ParamsFit(ps: seq<Param>, body: seq<Stmt>, names: set<string>)
    decreases |ps|
  {
    if ps == [] then BodyFits(body, names)
    else NameFits(ps[0].name, names) && ParamsFit(ps[1..], body, names + {ps[0].name})
  }

  /** The table is never full when a name is to be added to it. */
  predicate FuncFits(f: Func) {
    ParamsFit(f.params, f.body, {})
  }

  lemma {:induction false} SameRoom(g: Gen, x: string)
    ensures HasRoom(g, x) <==> NameFits(x, g.env.Keys)
  {
    assert |g.env| == |g.env.Keys|;
  }

  ghost predicate RoomAgrees(s: Stmt, g: Gen) {
    && (RoomStmt(s, g) <==> NamesFit(s, g.env.Keys))
    && LowerStmt(s, g).env.Keys == NamesAfter(s, g.env.Keys) && Positive(LowerStmt(s, g)) && Healthy(g)
  }

  lemma {:induction false} StmtRoom(s: Stmt, g: Gen)
    requires Positive(g) && Healthy(LowerStmt(s, g))
    ensures RoomAgrees(s, g)
    decreases s, 1
  {
    hide Touched, OnStack, LowerExpr, Uses, ResolveStmt, HasRoom, NameFits;
    StmtTouches(s, g);
    match s
    case VarDecl(x, _, _) => SameRoom(g, x);
    case ExprStmt(_) =>
    case Return(_) =>
    case If(_, _, els) =>
      if els.Some? {
        IfElseRoom(s, g);
      } else {
        IfOnlyRoom(s, g);
      }
    case While(_, _) => LoopRoom(s, g);
    case Block(ss) => BodyRoom(ss, g);
  }

  lemma {:induction false} IfElseRoom(s: Stmt, g: Gen)
    requires s.If? && s.els.Some? && Positive(g) && Healthy(LowerStmt(s, g)) && Positive(LowerStmt(s, g)) && Healthy(g)
    ensures RoomAgrees(s, g)
    decreases s, 0
  {
    hide LowerExpr, Emit, LowerStmt, RoomStmt, NamesFit, NamesAfter, Touched, OnStack, Uses;
    IfElseUnfold(s, g);
    IfRoom(s.cond, s.thn, s.els, g);
    var (g1, v) := LowerExpr(s.cond, g);
    var l := g1.labels;
    ExprTouches(s.cond, g);
    var ga := Emit(g1.(labels := l + 2), Jz(v, l));
    StmtRoom(s.thn, ga);
    var g4 := Emit(Emit(LowerStmt(s.thn, ga), Jmp(l + 1)), Label(l));
    StmtRoom(s.els.value, g4);
    IfNames(s, g.env.Keys);
  }

  lemma {:induction false} IfNames(s: Stmt, names: set<string>)
    requires s.If?
    ensures var names1 := NamesAfter(s.thn, names);
            && (NamesFit(s, names) <==> NamesFit(s.thn, names) && (s.els.Some? ==> NamesFit(s.els.value, names1)))
            && NamesAfter(s, names) == if s.els.Some? then NamesAfter(s.els.value, names1) else names1
  {
  }

  lemma {:induction false} IfOnlyRoom(s: Stmt, g: Gen)
    requires s.If? && s.els.None? && Positive(g) && Healthy(LowerStmt(s, g)) && Positive(LowerStmt(s, g)) && Healthy(g)
    ensures RoomAgrees(s, g)
    decreases s, 0
  {
    hide LowerExpr, RoomStmt, NamesFit, NamesAfter, Touched, OnStack, Uses;
    IfRoom(s.cond, s.thn, s.els, g);
    var (g1, v) := LowerExpr(s.cond, g);
    var l := g1.labels;
    ExprTouches(s.cond, g);
    StmtRoom(s.thn, Emit(g1.(labels := l + 1), Jz(v, l)));
    IfNames(s, g.env.Keys);
  }

  lemma {:induction false} LoopRoom(s: Stmt, g: Gen)
    requires s.While? && Positive(g) && Healthy(LowerStmt(s, g)) && Positive(LowerStmt(s, g)) && Healthy(g)
    ensures RoomAgrees(s, g)
    decreases s, 0
  {
    hide LowerExpr, Emit, LowerStmt, RoomStmt, Touched, OnStack, Uses;
    WhileUnfold(s, g);
    WhileRoom(s.cond, s.body, g);
    var l := g.labels;
    var g0 := Emit(g.(labels := l + 2), Label(l));
    ExprTouches(s.cond, g0);
    var (g1, v) := LowerExpr(s.cond, g0);
    StmtRoom(s.body, Emit(g1, Jz(v, l + 1)));
  }

  lemma {:induction false} BodyRoom(ss: seq<Stmt>, g: Gen)
    requires Positive(g) && Healthy(LowerStmts(ss, g))
    ensures RoomStmts(ss, g) <==> BodyFits(ss, g.env.Keys)
    decreases ss, 0
  {
    hide LowerStmt, RoomStmt, NamesFit, NamesAfter;
    if ss != [] {
      StmtRoom(ss[0], g);
      BodyRoom(ss[1..], LowerStmt(ss[0], g));
    }
  }

  lemma {:induction false} ParamsRoom(ps: seq<Param>, body: seq<Stmt>, g: Gen)
    requires Positive(g) && Healthy(LowerStmts(body, LowerParams(ps, g)))
    ensures RoomFrom(ps, body, g) <==> ParamsFit(ps, body, g.env.Keys)
    decreases |ps|
  {
    hide HasRoom, NameFits, RoomStmts, BodyFits;
    if ps == [] {
      BodyRoom(body, g);
    } else {
      var (g1, v) := NewVreg(g);
      var g2 := g1.(env := g1.env[ps[0].name := Symbol(v, false)]);
      assert LowerStmts(body, LowerParams(ps, g)).errors >= LowerParams(ps, g).errors;
      assert v != 0 ==> LowerParams(ps[1..], g2).errors >= g2.errors;
      SameRoom(g1, ps[0].name);
      assert g2.env.Keys == g.env.Keys + {ps[0].name};
      ParamsRoom(ps[1..], body, g2);
    }
  }

  /** For a function that lowers without error, the generator's table has room exactly if its names fit. */
  lemma {:induction false} RoomIsNames(f: Func)
    requires LowerFunc(f).Some?
    ensures RoomFunc(f) <==> FuncFits(f)
  {
    hide LowerStmts, LowerParams, RoomFrom, ParamsFit;
    assert Start.env.Keys == {};
    ParamsRoom(f.params, f.body, Start);
  }
}
