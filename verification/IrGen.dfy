/**
  The generator of the original: one object whose methods append to a list of chunks,
  bump counters and update the symbol table. Each method computes a function of
  `Lowering`. A method that answers false is one where the original stopped the program,
  because the symbol table overflowed.
 */
module IrGen {
  import opened Limits
  import opened Words
  import opened Ast
  import opened Ir
  import opened Lowering
  import opened OpenAddressing
  import opened SymbolTables

  const IR_CHUNK_SIZE: nat := 64

  function Flatten(chunks: seq<seq<Instr>>): seq<Instr> {
    if chunks == [] then [] else Flatten(chunks[..|chunks| - 1]) + chunks[|chunks| - 1]
  }

  /** Every chunk but the last is full, and the last is not empty. */
  ghost predicate ChunksOk(chunks: seq<seq<Instr>>) {
    && (forall i :: 0 <= i < |chunks| ==> 0 < |chunks[i]| <= IR_CHUNK_SIZE)
    && (forall i :: 0 <= i < |chunks| - 1 ==> |chunks[i]| == IR_CHUNK_SIZE)
  }

  /** An instruction goes to the last chunk, or to a new one when that is full. */
  lemma {:induction false} OneMoreInstr(chunks: seq<seq<Instr>>, chunks1: seq<seq<Instr>>, i: Instr)
    requires ChunksOk(chunks)
    requires var grown := if chunks == [] || |chunks[|chunks| - 1]| >= IR_CHUNK_SIZE then chunks + [[]] else chunks;
             chunks1 == grown[|grown| - 1 := grown[|grown| - 1] + [i]]
    ensures ChunksOk(chunks1) && Flatten(chunks1) == Flatten(chunks) + [i]
  {
    var grown := if chunks == [] || |chunks[|chunks| - 1]| >= IR_CHUNK_SIZE then chunks + [[]] else chunks;
    var last := |grown| - 1;
    assert chunks1[..last] == grown[..last];
    if |grown| > |chunks| {
      assert grown[..last] == chunks;
    }
    assert Flatten(grown[..last]) + grown[last] == Flatten(chunks);
  }

  class IrBuilder {
    var chunks: seq<seq<Instr>>
    var total: nat
    var vregCount: nat
    var stackCount: nat
    var labelCount: nat
    var errors: nat
    const table: SymbolTable

    ghost predicate Valid()
      reads this, table, table.entries
    {
      && ChunksOk(chunks) && total == |Flatten(chunks)|
      && vregCount > 0
      && table.Valid()
    }

    ghost function State(): Gen
      requires Valid()
      reads this, table, table.entries
    {
      Gen(Flatten(chunks), vregCount, stackCount, labelCount, table.Map(), errors)
    }

    constructor (hash: string -> nat)
      ensures Valid() && fresh(table) && fresh(table.entries)
      ensures State() == Start && table.changes == []
    {
      chunks, total, vregCount, stackCount, labelCount, errors := [], 0, 1, 0, 0, 0;
      table := new SymbolTable(hash);
    }

    method EmitInstr(i: Instr)
      requires Valid()
      modifies this`chunks, this`total
      ensures Valid() && State() == Emit(old(State()), i)
    {
      if total >= MAX_IR_INSTRUCTIONS {
        return;
      }
      hide TableOk, Bindings, Position, Flatten, ChunksOk;
      ghost var before := chunks;
      if chunks == [] || |chunks[|chunks| - 1]| >= IR_CHUNK_SIZE {
        chunks := chunks + [[]];
      }
      var last := |chunks| - 1;
      chunks := chunks[last := chunks[last] + [i]];
      total := total + 1;
      OneMoreInstr(before, chunks, i);
    }

    method AllocVreg() returns (r: nat)
      requires Valid()
      modifies this`vregCount, this`errors
      ensures Valid() && State() == NewVreg(old(State())).0 && r == NewVreg(old(State())).1
    {
      if vregCount >= MAX_VREGS {
        errors := errors + 1;
        return 0;
      }
      r := vregCount;
      vregCount := vregCount + 1;
    }

    method NewLabel() returns (l: nat)
      requires Valid()
      modifies this`labelCount
      ensures Valid() && l == old(State()).labels && State() == MoreLabels(old(State()), 1)
    {
      l := labelCount;
      labelCount := labelCount + 1;
    }

    /** Two labels, of a loop or of an if-else. */
    method TwoLabels() returns (l: nat, next: nat)
      requires Valid()
      modifies this`labelCount
      ensures Valid() && l == old(State()).labels && next == l + 1 && State() == MoreLabels(old(State()), 2)
    {
      l := NewLabel();
      next := NewLabel();
    }

    lemma {:induction false} NothingChanged()
      requires Valid()
      ensures Extends(table.Contents(), table.Contents())
    {
      ExtendsItself(table.Contents());
    }

    method GenNumber(text: string, ghost ty: DataType) returns (r: nat)
      requires Valid()
      modifies this
      ensures Valid() && State() == LowerExpr(Number(text, ty), old(State())).0
      ensures r == LowerExpr(Number(text, ty), old(State())).1
    {
      r := AllocVreg();
      if r != 0 {
        EmitInstr(Const(r, NumberValue(text)));
      }
    }

    method GenIdentifier(x: string, ty: DataType) returns (r: nat)
      requires Valid()
      modifies this
      ensures Valid() && State() == LowerExpr(Identifier(x, ty), old(State())).0
      ensures r == LowerExpr(Identifier(x, ty), old(State())).1
    {
      hide TableOk, Flatten, ChunksOk, Bindings, Position, Emit, NewVreg;
      var p := table.Lookup(x);
      if p == None {
        errors := errors + 1;
        return 0;
      }
      var entry := table.entries[p.value];
      if entry.value.isStack {
        r := AllocVreg();
        if r != 0 {
          EmitInstr(Load(r, entry.value.index, ty));
        }
      } else {
        r := entry.value.index;
      }
    }

    method GenCall(fn: string, args: seq<Expr>, ghost ty: DataType) returns (r: nat)
      requires Valid()
      modifies this
      ensures Valid() && State() == LowerExpr(Call(fn, args, ty), old(State())).0
      ensures r == LowerExpr(Call(fn, args, ty), old(State())).1
      decreases args, 1
    {
      hide TableOk, Undo, Flatten, ChunksOk, Bindings, Position, Emit, EmitArgs, LowerArgs;
      var regs: seq<nat> := [];
      ghost var g := State();
      assert args[0..] == args && regs + LowerArgs(args, g).1 == LowerArgs(args, g).1;
      for i := 0 to |args|
        invariant Valid() && |regs| == i
        invariant LowerArgs(args, g).0 == LowerArgs(args[i..], State()).0
        invariant LowerArgs(args, g).1 == regs + LowerArgs(args[i..], State()).1
      {
        ghost var before := State();
        var s := GenExpression(args[i]);
        LowerArgsStep(args, i, before);
        if s == 0 {
          return 0;
        }
        regs := regs + [s];
      }
      NoArgs(args, State());
      assert regs + [] == regs;
      EmitArgInstrs(regs);
      r := AllocVreg();
      if r != 0 {
        EmitInstr(CallFn(r, fn));
      }
    }

    method EmitArgInstrs(regs: seq<nat>)
      requires Valid()
      modifies this`chunks, this`total
      ensures Valid() && State() == EmitArgs(regs, 0, old(State()))
    {
      ghost var g1 := State();
      assert regs[0..] == regs;
      for i := 0 to |regs|
        invariant Valid()
        invariant EmitArgs(regs, 0, g1) == EmitArgs(regs[i..], i, State())
      {
        assert regs[i..][0] == regs[i] && regs[i..][1..] == regs[i + 1..];
        EmitInstr(Arg(regs[i], i));
      }
    }

    method GenUnary(op: UnaryOp, operand: Expr, ghost ty: DataType) returns (r: nat)
      requires Valid()
      modifies this
      ensures Valid() && State() == LowerExpr(Unary(op, operand, ty), old(State())).0
      ensures r == LowerExpr(Unary(op, operand, ty), old(State())).1
      decreases operand, 2
    {
      hide TableOk, Flatten, ChunksOk, Bindings, Position, Emit, NewVreg;
      var s := GenExpression(operand);
      if s == 0 {
        return 0;
      }
      r := AllocVreg();
      if r != 0 {
        EmitInstr(Un(UnaryOpcode(op), r, s));
      }
    }

    method GenBinary(op: BinaryOp, l: Expr, r: Expr, ghost ty: DataType) returns (d: nat)
      requires Valid()
      modifies this
      ensures Valid() && State() == LowerExpr(Binary(op, l, r, ty), old(State())).0
      ensures d == LowerExpr(Binary(op, l, r, ty), old(State())).1
      decreases Binary(op, l, r, ty), 0
    {
      hide TableOk, Flatten, ChunksOk, Bindings, Position, Emit, NewVreg;
      var s1 := GenExpression(l);
      if s1 == 0 {
        return 0;
      }
      var s2 := GenExpression(r);
      if s2 == 0 {
        return 0;
      }
      d := AllocVreg();
      if d != 0 {
        EmitInstr(Bin(BinaryOpcode(op, l.ty), d, s1, s2));
      }
    }

    method GenExpression(e: Expr) returns (r: nat)
      requires Valid()
      modifies this
      ensures Valid() && State() == LowerExpr(e, old(State())).0 && r == LowerExpr(e, old(State())).1
      decreases e, 1
    {
      match e
      case Number(text, ty) => r := GenNumber(text, ty);
      case Identifier(x, ty) => r := GenIdentifier(x, ty);
      case Call(fn, args, ty) => r := GenCall(fn, args, ty);
      case Unary(op, operand, ty) => r := GenUnary(op, operand, ty);
      case Binary(op, left, right, ty) => r := GenBinary(op, left, right, ty);
      case Assign(_, _, _) => errors := errors + 1; return 0;
    }

    method GenIf(c: Expr, thn: Stmt, els: Option<Stmt>) returns (ok: bool)
      requires Valid()
      modifies this, table`changes, table.entries
      ensures Valid()
      ensures ok ==> State() == LowerStmt(If(c, thn, els), old(State()))
      ensures ok <==> RoomStmt(If(c, thn, els), old(State()))
      ensures ok ==> Extends(old(table.Contents()), table.Contents())
      decreases If(c, thn, els), 2
    {
      hide *;
      IfStages(c, thn, els, State());
      IfRoom(c, thn, els, State());
      var condReg := GenExpression(c);
      if els.Some? {
        ok := GenBranches(c, condReg, thn, els.value);
      } else {
        ok := GenBranch(condReg, thn);
      }
    }

    /** A statement that is skipped when the register is zero. */
    method GenGuarded(condReg: nat, l: nat, s: Stmt) returns (ok: bool)
      requires Valid()
      modifies this, table`changes, table.entries
      ensures Valid()
      ensures ok ==> State() == LowerGuarded(condReg, l, s, old(State()))
      ensures ok <==> RoomGuarded(condReg, l, s, old(State()))
      ensures ok ==> Extends(old(table.Contents()), table.Contents())
      decreases s, 4
    {
      hide IrBuilder.Valid, IrBuilder.State, LowerStmt, Emit, Extends, Undo, RoomStmt;
      EmitInstr(Jz(condReg, l));
      ok := GenStatement(s);
    }

    /** The branches of an if-else, after its condition. */
    method GenBranches(ghost c: Expr, condReg: nat, thn: Stmt, els: Stmt) returns (ok: bool)
      requires Valid()
      modifies this, table`changes, table.entries
      ensures Valid()
      ensures ok ==> State() == LowerBranches(condReg, thn, els, old(State()))
      ensures ok <==> RoomBranches(condReg, thn, els, old(State()))
      ensures ok ==> Extends(old(table.Contents()), table.Contents())
      decreases If(c, thn, Some(els)), 1
    {
      hide *;
      NothingChanged();
      BranchesUnfold(condReg, thn, els, State());
      BranchesRoom(condReg, thn, els, State());
      var labelElse, labelEnd := TwoLabels();
      if condReg == 0 {
        return true;
      }
      ok := GenBoth(c, condReg, labelElse, labelEnd, thn, els);
    }

    /** One branch after the other, between their labels. */
    method GenBoth(ghost c: Expr, condReg: nat, labelElse: nat, labelEnd: nat, thn: Stmt, els: Stmt) returns (ok: bool)
      requires Valid()
      modifies this, table`changes, table.entries
      ensures Valid()
      ensures ok ==> State() == LowerElse(labelElse, labelEnd, els, LowerGuarded(condReg, labelElse, thn, old(State())))
      ensures ok <==>
                && RoomGuarded(condReg, labelElse, thn, old(State()))
                && RoomElse(labelElse, labelEnd, els, LowerGuarded(condReg, labelElse, thn, old(State())))
      ensures ok ==> Extends(old(table.Contents()), table.Contents())
      decreases If(c, thn, Some(els)), 0
    {
      hide *;
      ghost var before := table.Contents();
      ok := GenGuarded(condReg, labelElse, thn);
      if ok {
        ghost var middle := table.Contents();
        ok := GenElse(els, labelElse, labelEnd);
        if ok {
          ExtendsAgain(before, middle, table.Contents());
        }
      }
    }

    /** From the end of the then-branch on. */
    method GenElse(els: Stmt, labelElse: nat, labelEnd: nat) returns (ok: bool)
      requires Valid()
      modifies this, table`changes, table.entries
      ensures Valid()
      ensures ok ==> State() == LowerElse(labelElse, labelEnd, els, old(State()))
      ensures ok <==> RoomElse(labelElse, labelEnd, els, old(State()))
      ensures ok ==> Extends(old(table.Contents()), table.Contents())
      decreases els, 4
    {
      hide IrBuilder.Valid, IrBuilder.State, LowerStmt, Emit, Extends, Undo, RoomStmt;
      EmitInstr(Jmp(labelEnd));
      EmitInstr(Label(labelElse));
      ok := GenStatement(els);
      if ok {
        EmitInstr(Label(labelEnd));
      }
    }

    method GenBranch(condReg: nat, thn: Stmt) returns (ok: bool)
      requires Valid()
      modifies this, table`changes, table.entries
      ensures Valid()
      ensures ok ==> State() == LowerBranch(condReg, thn, old(State()))
      ensures ok <==> RoomBranch(condReg, thn, old(State()))
      ensures ok ==> Extends(old(table.Contents()), table.Contents())
      decreases thn, 5
    {
      hide *;
      NothingChanged();
      BranchUnfold(condReg, thn, State());
      BranchRoom(condReg, thn, State());
      var labelEnd := NewLabel();
      if condReg == 0 {
        return true;
      }
      ok := GenGuarded(condReg, labelEnd, thn);
      if ok {
        EmitInstr(Label(labelEnd));
      }
    }

    method GenWhile(c: Expr, body: Stmt) returns (ok: bool)
      requires Valid()
      modifies this, table`changes, table.entries
      ensures Valid()
      ensures ok ==> State() == LowerStmt(While(c, body), old(State()))
      ensures ok <==> RoomStmt(While(c, body), old(State()))
      ensures ok ==> Extends(old(table.Contents()), table.Contents())
      decreases While(c, body), 0
    {
      hide *;
      NothingChanged();
      WhileStages(c, body, State());
      WhileRoom(c, body, State());
      var labelStart := labelCount;
      LabelsAre();
      var condReg := GenCondition(c);
      if condReg == 0 {
        return true;
      }
      ok := GenLoopBody(condReg, labelStart, body);
    }

    lemma {:induction false} LabelsAre()
      requires Valid()
      ensures labelCount == State().labels
    {
    }

    /** The head of a loop: its label and its condition. */
    method GenCondition(c: Expr) returns (r: nat)
      requires Valid()
      modifies this
      ensures Valid() && State() == LowerCondition(c, old(State())).0 && r == LowerCondition(c, old(State())).1
      decreases c, 4
    {
      hide IrBuilder.Valid, IrBuilder.State, LowerExpr, Emit;
      var labelStart, labelEnd := TwoLabels();
      EmitInstr(Label(labelStart));
      r := GenExpression(c);
    }

    /** The rest of a loop, from the test of its condition on. */
    method GenLoopBody(condReg: nat, l: nat, body: Stmt) returns (ok: bool)
      requires Valid()
      modifies this, table`changes, table.entries
      ensures Valid()
      ensures ok ==> State() == LowerLoopBody(condReg, l, body, old(State()))
      ensures ok <==> RoomGuarded(condReg, l + 1, body, old(State()))
      ensures ok ==> Extends(old(table.Contents()), table.Contents())
      decreases body, 5
    {
      hide IrBuilder.Valid, IrBuilder.State, LowerStmt, Emit, Extends, Undo, RoomStmt, RoomGuarded;
      ok := GenGuarded(condReg, l + 1, body);
      if ok {
        EmitInstr(Jmp(l));
        EmitInstr(Label(l + 1));
      }
    }

    method GenVarDecl(x: string, ty: DataType, init: Option<Expr>) returns (ok: bool)
      requires Valid()
      modifies this, table`changes, table.entries
      ensures Valid()
      ensures ok ==> State() == LowerStmt(VarDecl(x, ty, init), old(State()))
      ensures ok <==> HasRoom(old(State()), x)
      ensures ok ==> Extends(old(table.Contents()), table.Contents())
    {
      hide *;
      VarDeclStages(x, ty, init, State());
      var k := stackCount;
      ok := BindLocal(x);
      if !ok {
        return;
      }
      var initReg := GenInitial(init);
      if initReg != 0 {
        EmitInstr(Store(k, initReg, ty));
      }
    }

    /** Takes a slot and binds the name to it. */
    method BindLocal(x: string) returns (ok: bool)
      requires Valid()
      modifies this`stackCount, table`changes, table.entries
      ensures Valid() && old(stackCount) == old(State()).slots
      ensures ok <==> HasRoom(old(State()), x)
      ensures ok ==> State() == Bound(old(State()), x) && Extends(old(table.Contents()), table.Contents())
    {
      hide TableOk, Undo, Extends, Flatten, ChunksOk, Bindings, Position, Target;
      var k := stackCount;
      stackCount := stackCount + 1;
      table.RoomExactly(x);
      ok := table.Declare(x, k);
    }

    /** Takes a register for a parameter, if there is one, and binds the name to it. */
    method BindParam(x: string) returns (v: nat, ok: bool)
      requires Valid()
      modifies this`vregCount, this`errors, table`changes, table.entries
      ensures Valid() && v == NewVreg(old(State())).1
      ensures v == 0 ==> State() == NewVreg(old(State())).0
      ensures v != 0 ==> (ok <==> HasRoom(NewVreg(old(State())).0, x))
      ensures v != 0 && ok ==>
                State() == NewVreg(old(State())).0.(env := NewVreg(old(State())).0.env[x := Symbol(v, false)])
    {
      hide TableOk, Undo, Flatten, ChunksOk, Bindings, Position, Target;
      v := AllocVreg();
      ok := true;
      if v != 0 {
        table.RoomExactly(x);
        ok := table.Add(x, v);
      }
    }

    /** The initial value of a local: its initialiser, or zero. */
    method GenInitial(init: Option<Expr>) returns (r: nat)
      requires Valid()
      modifies this
      ensures Valid() && State() == InitialCode(init, old(State())).0 && r == InitialCode(init, old(State())).1
    {
      hide TableOk, Flatten, ChunksOk, Bindings, Position, LowerExpr, Emit;
      if init.Some? {
        r := GenExpression(init.value);
      } else {
        r := AllocVreg();
        if r != 0 {
          EmitInstr(Const(r, 0));
        }
      }
    }

    method GenAssignment(x: string, rhs: Expr, ty: DataType)
      requires Valid()
      modifies this
      ensures Valid() && State() == LowerStmt(ExprStmt(Assign(x, rhs, ty)), old(State()))
    {
      var p := table.Lookup(x);
      if p == None {
        errors := errors + 1;
        return;
      }
      var entry := table.entries[p.value];
      var v := GenExpression(rhs);
      if v == 0 {
        return;
      }
      EmitInstr(if entry.value.isStack then Store(entry.value.index, v, ty) else Mov(entry.value.index, v));
    }

    method GenReturn(result: Option<Expr>)
      requires Valid()
      modifies this
      ensures Valid() && State() == LowerStmt(Return(result), old(State()))
    {
      if result.None? {
        return;
      }
      var v := GenExpression(result.value);
      if v == 0 {
        return;
      }
      EmitInstr(Ret(v));
    }

    method GenBlock(ss: seq<Stmt>) returns (ok: bool)
      requires Valid()
      modifies this, table`changes, table.entries
      ensures Valid()
      ensures ok ==> State() == LowerStmt(Block(ss), old(State()))
      ensures ok <==> RoomStmts(ss, old(State()))
      ensures ok ==> Extends(old(table.Contents()), table.Contents())
      decreases ss, 1
    {
      ghost var g := State();
      ghost var before := table.Contents();
      var watermark := |table.changes|;
      ok := GenStatements(ss);
      if !ok {
        return;
      }
      table.Restore(watermark);
      assert table.Contents() == before;
      ExtendsItself(before);
    }

    method GenStatements(ss: seq<Stmt>) returns (ok: bool)
      requires Valid()
      modifies this, table`changes, table.entries
      ensures Valid()
      ensures ok ==> State() == LowerStmts(ss, old(State()))
      ensures ok <==> RoomStmts(ss, old(State()))
      ensures ok ==> Extends(old(table.Contents()), table.Contents())
      decreases ss, 0
    {
      ghost var g := State();
      ghost var before := table.Contents();
      ExtendsItself(before);
      for i := 0 to |ss|
        invariant Valid()
        invariant LowerStmts(ss, g) == LowerStmts(ss[i..], State())
        invariant RoomStmts(ss, g) <==> RoomStmts(ss[i..], State())
        invariant Extends(before, table.Contents())
      {
        ghost var middle := table.Contents();
        assert ss[i..][0] == ss[i] && ss[i..][1..] == ss[i + 1..];
        ok := GenStatement(ss[i]);
        if !ok {
          return;
        }
        ExtendsAgain(before, middle, table.Contents());
      }
      return true;
    }

    method GenStatement(s: Stmt) returns (ok: bool)
      requires Valid()
      modifies this, table`changes, table.entries
      ensures Valid()
      ensures ok ==> State() == LowerStmt(s, old(State()))
      ensures ok <==> RoomStmt(s, old(State()))
      ensures ok ==> Extends(old(table.Contents()), table.Contents())
      decreases s, 3
    {
      ExtendsItself(table.Contents());
      match s
      case VarDecl(x, ty, init) => ok := GenVarDecl(x, ty, init);
      case ExprStmt(e) =>
        if e.Assign? {
          GenAssignment(e.target, e.rhs, e.ty);
        } else {
          var r := GenExpression(e);
        }
        ok := true;
      case Return(result) => GenReturn(result); ok := true;
      case If(c, thn, els) => ok := GenIf(c, thn, els);
      case While(c, body) => ok := GenWhile(c, body);
      case Block(ss) => ok := GenBlock(ss);
    }
  }

  /** The instructions of the chunks, in order. */
  method Instructions(chunks: seq<seq<Instr>>) returns (code: seq<Instr>)
    ensures code == Flatten(chunks)
  {
    code := [];
    for i := 0 to |chunks|
      invariant code == Flatten(chunks[..i])
    {
      assert chunks[..i + 1][..i] == chunks[..i];
      code := code + chunks[i];
    }
    assert chunks[..|chunks|] == chunks;
  }

  /**
    The IR of a function, and the number of errors recorded on the way. Of a program
    that was not stopped, it is a function of the syntax tree alone: whatever the
    hash function is, and `LowerFunc` is what is left when there were no errors.
   */
  method GenFunction(f: Func, hash: string -> nat) returns (ok: bool, ir: Option<IrFunc>, errors: nat)
    ensures ok ==> LowerFunc(f) == if errors == 0 then ir else None
    ensures ok ==> (LowerFunc(f).Some? <==> errors == 0)
    ensures ok <==> RoomFunc(f)
  {
    hide LowerParams, LowerStmts, RoomStmts, HasRoom, RoomFrom, NewVreg;
    var b := new IrBuilder(hash);
    assert f.params[0..] == f.params;
    for i := 0 to |f.params|
      invariant b.Valid() && fresh(b) && fresh(b.table) && fresh(b.table.entries)
      invariant LowerParams(f.params, Start) == LowerParams(f.params[i..], b.State())
      invariant RoomFunc(f) <==> RoomFrom(f.params[i..], f.body, b.State())
    {
      ParamStep(f.params, i, f.body, b.State());
      var v;
      v, ok := b.BindParam(f.params[i].name);
      if v == 0 {
        StillUnhealthy(f, b.State());
        return true, None, b.errors;
      }
      if !ok {
        return false, None, b.errors;
      }
    }
    ParamsEnd(f.params, f.body, b.State());
    ok := b.GenStatements(f.body);
    if !ok {
      return false, None, b.errors;
    }
    errors := b.errors;
    if b.total >= MAX_IR_INSTRUCTIONS {
      errors := errors + 1;
      return true, None, errors;
    }
    var code := Instructions(b.chunks);
    ir := Some(IrFunc(code, |f.params|, b.vregCount, b.stackCount, b.labelCount));
  }

  /** The state with the next slot bound to the name. */
  function Bound(g: Gen, x: string): Gen {
    g.(slots := g.slots + 1, env := g.env[x := Symbol(g.slots, true)])
  }

  lemma {:induction false} VarDeclStages(x: string, ty: DataType, init: Option<Expr>, g: Gen)
    ensures var g2, v := InitialCode(init, Bound(g, x)).0, InitialCode(init, Bound(g, x)).1;
            LowerStmt(VarDecl(x, ty, init), g) == if v == 0 then g2 else Emit(g2, Store(g.slots, v, ty))
  {
    hide LowerExpr, Emit;
  }

  lemma {:induction false} ParamStep(ps: seq<Param>, i: nat, body: seq<Stmt>, g: Gen)
    requires i < |ps|
    ensures var g1, v := NewVreg(g).0, NewVreg(g).1;
            var g2 := g1.(env := g1.env[ps[i].name := Symbol(v, false)]);
            && (v == 0 ==> LowerParams(ps[i..], g) == g1 && RoomFrom(ps[i..], body, g))
            && (v != 0 ==> LowerParams(ps[i..], g) == LowerParams(ps[i + 1..], g2))
            && (v != 0 ==> (RoomFrom(ps[i..], body, g) <==> HasRoom(g1, ps[i].name) && RoomFrom(ps[i + 1..], body, g2)))
  {
    hide NewVreg, HasRoom, RoomStmts;
    assert ps[i..][0] == ps[i] && ps[i..][1..] == ps[i + 1..];
  }

  lemma {:induction false} ParamsEnd(ps: seq<Param>, body: seq<Stmt>, g: Gen)
    ensures LowerParams(ps[|ps|..], g) == g
    ensures RoomFrom(ps[|ps|..], body, g) <==> RoomStmts(body, g)
  {
    hide RoomStmts;
  }

  // --- When the symbol table has room ------------------------------------------------------

  /** The name is bound, or there is a slot for one more. */
  predicate HasRoom(g: Gen, x: string) {
    x in g.env || |g.env| < SYMBOL_TABLE_SIZE
  }

  /** No declaration in the statement finds the table full. */
  predicate RoomStmt(s: Stmt, g: Gen)
    decreases s, 1
  {
    match s
    case VarDecl(x, _, _) => HasRoom(g, x)
    case ExprStmt(_) => true
    case Return(_) => true
    case If(c, thn, Some(els)) =>
      var g1, v := LowerExpr(c, g).0, LowerExpr(c, g).1;
      v == 0 || (RoomStmt(thn, Emit(MoreLabels(g1, 2), Jz(v, g1.labels))) &&
                 RoomStmt(els, Emit(Emit(LowerGuarded(v, g1.labels, thn, MoreLabels(g1, 2)), Jmp(g1.labels + 1)),
                   Label(g1.labels))))
    case If(c, thn, None) =>
      var g1, v := LowerExpr(c, g).0, LowerExpr(c, g).1;
      v == 0 || RoomStmt(thn, Emit(MoreLabels(g1, 1), Jz(v, g1.labels)))
    case While(c, body) =>
      var g1, v := LowerCondition(c, g).0, LowerCondition(c, g).1;
      v == 0 || RoomStmt(body, Emit(g1, Jz(v, g.labels + 1)))
    case Block(ss) => RoomStmts(ss, g)
  }

  predicate RoomStmts(ss: seq<Stmt>, g: Gen)
    decreases ss, 0
  {
    ss == [] || (RoomStmt(ss[0], g) && RoomStmts(ss[1..], LowerStmt(ss[0], g)))
  }

  /** From a parameter on. When registers run out the body is not generated. */
  predicate RoomFrom(ps: seq<Param>, body: seq<Stmt>, g: Gen)
    decreases |ps|
  {
    if ps == [] then RoomStmts(body, g)
    else
      var g1, v := NewVreg(g).0, NewVreg(g).1;
      v == 0 || (HasRoom(g1, ps[0].name) && RoomFrom(ps[1..], body, g1.(env := g1.env[ps[0].name := Symbol(v, false)])))
  }

  predicate RoomFunc(f: Func) {
    RoomFrom(f.params, f.body, Start)
  }

  predicate RoomGuarded(v: nat, l: nat, s: Stmt, g: Gen) {
    RoomStmt(s, Emit(g, Jz(v, l)))
  }

  predicate RoomElse(labelElse: nat, labelEnd: nat, els: Stmt, g: Gen) {
    RoomStmt(els, Emit(Emit(g, Jmp(labelEnd)), Label(labelElse)))
  }

  predicate RoomBranches(v: nat, thn: Stmt, els: Stmt, g: Gen) {
    var g2 := MoreLabels(g, 2);
    v == 0 || (RoomGuarded(v, g.labels, thn, g2) &&
               RoomElse(g.labels, g.labels + 1, els, LowerGuarded(v, g.labels, thn, g2)))
  }

  predicate RoomBranch(v: nat, thn: Stmt, g: Gen) {
    v == 0 || RoomGuarded(v, g.labels, thn, MoreLabels(g, 1))
  }

  lemma {:induction false} IfRoom(c: Expr, thn: Stmt, els: Option<Stmt>, g: Gen)
    ensures var g1, v := LowerExpr(c, g).0, LowerExpr(c, g).1;
            RoomStmt(If(c, thn, els), g) <==>
              if els.Some? then RoomBranches(v, thn, els.value, g1) else RoomBranch(v, thn, g1)
  {
    hide LowerExpr, Emit, LowerStmt, MoreLabels;
  }

  lemma {:induction false} BranchesRoom(v: nat, thn: Stmt, els: Stmt, g: Gen)
    ensures var l := g.labels;
            var g2 := MoreLabels(g, 2);
            RoomBranches(v, thn, els, g) <==>
              v == 0 || (RoomGuarded(v, l, thn, g2) && RoomElse(l, l + 1, els, LowerGuarded(v, l, thn, g2)))
  {
    hide RoomStmt, LowerStmt, Emit;
  }

  lemma {:induction false} BranchRoom(v: nat, thn: Stmt, g: Gen)
    ensures RoomBranch(v, thn, g) <==> v == 0 || RoomGuarded(v, g.labels, thn, MoreLabels(g, 1))
  {
    hide RoomStmt, LowerStmt, Emit;
  }

  lemma {:induction false} WhileRoom(c: Expr, body: Stmt, g: Gen)
    ensures var g1, v := LowerCondition(c, g).0, LowerCondition(c, g).1;
            RoomStmt(While(c, body), g) <==> v == 0 || RoomGuarded(v, g.labels + 1, body, g1)
  {
    hide LowerCondition, Emit, LowerStmt;
  }

  function LowerBranches(v: nat, thn: Stmt, els: Stmt, g: Gen): Gen {
    var l := g.labels;
    var g2 := g.(labels := l + 2);
    if v == 0 then g2
    else
      var g3 := LowerStmt(thn, Emit(g2, Jz(v, l)));
      var g4 := Emit(Emit(g3, Jmp(l + 1)), Label(l));
      Emit(LowerStmt(els, g4), Label(l + 1))
  }

  function LowerBranch(v: nat, thn: Stmt, g: Gen): Gen {
    var l := g.labels;
    var g2 := g.(labels := l + 1);
    if v == 0 then g2 else Emit(LowerStmt(thn, Emit(g2, Jz(v, l))), Label(l))
  }

  lemma {:induction false} IfStages(c: Expr, thn: Stmt, els: Option<Stmt>, g: Gen)
    ensures var g1, v := LowerExpr(c, g).0, LowerExpr(c, g).1;
            LowerStmt(If(c, thn, els), g) == if els.Some? then LowerBranches(v, thn, els.value, g1)
              else LowerBranch(v, thn, g1)
  {
    hide LowerExpr, Emit, Grows, GrowsQuietly, Healthy;
  }

  function MoreLabels(g: Gen, n: nat): Gen {
    g.(labels := g.labels + n)
  }

  function LowerGuarded(v: nat, l: nat, s: Stmt, g: Gen): Gen {
    LowerStmt(s, Emit(g, Jz(v, l)))
  }

  function LowerElse(labelElse: nat, labelEnd: nat, els: Stmt, g: Gen): Gen {
    Emit(LowerStmt(els, Emit(Emit(g, Jmp(labelEnd)), Label(labelElse))), Label(labelEnd))
  }

  lemma {:induction false} BranchesUnfold(v: nat, thn: Stmt, els: Stmt, g: Gen)
    ensures var l := g.labels;
            var g2 := MoreLabels(g, 2);
            LowerBranches(v, thn, els, g) == if v == 0 then g2
              else LowerElse(l, l + 1, els, LowerGuarded(v, l, thn, g2))
  {
    hide LowerStmt, Emit, Grows, GrowsQuietly, Healthy;
  }

  function InitialCode(init: Option<Expr>, g: Gen): (Gen, nat) {
    if init.Some? then LowerExpr(init.value, g) else ZeroInit(g)
  }

  function LowerCondition(c: Expr, g: Gen): (Gen, nat) {
    LowerExpr(c, Emit(MoreLabels(g, 2), Label(g.labels)))
  }

  function LowerLoopBody(v: nat, l: nat, body: Stmt, g: Gen): Gen {
    Emit(Emit(LowerGuarded(v, l + 1, body, g), Jmp(l)), Label(l + 1))
  }

  lemma {:induction false} WhileStages(c: Expr, body: Stmt, g: Gen)
    ensures var (g1, v) := LowerCondition(c, g);
            LowerStmt(While(c, body), g) == if v == 0 then g1 else LowerLoopBody(v, g.labels, body, g1)
  {
    hide *;
    WhileIs(c, body, g);
    WhileUnfolds(c, body, g);
  }

  lemma {:induction false} WhileUnfolds(c: Expr, body: Stmt, g: Gen)
    ensures var (g1, v) := LowerCondition(c, g);
            LowerWhile(c, body, g) == if v == 0 then g1 else LowerLoopBody(v, g.labels, body, g1)
  {
    hide LowerExpr, Emit, LowerStmt, Grows, GrowsQuietly;
  }

  lemma {:induction false} WhileIs(c: Expr, body: Stmt, g: Gen)
    ensures LowerStmt(While(c, body), g) == LowerWhile(c, body, g)
  {
    hide LowerWhile, LowerExpr, Emit, Grows, GrowsQuietly, Healthy;
  }

  lemma {:induction false} BranchUnfold(v: nat, thn: Stmt, g: Gen)
    ensures var l := g.labels;
            var g2 := MoreLabels(g, 1);
            LowerBranch(v, thn, g) == if v == 0 then g2 else Emit(LowerGuarded(v, l, thn, g2), Label(l))
  {
    hide LowerStmt, Emit, Grows, GrowsQuietly, Healthy;
  }

  lemma {:induction false} NoArgs(args: seq<Expr>, g: Gen)
    ensures LowerArgs(args[|args|..], g) == (g, [])
  {
  }

  lemma {:induction false} LowerArgsStep(args: seq<Expr>, i: nat, g: Gen)
    requires i < |args|
    ensures var (g1, s) := LowerExpr(args[i], g);
            && (s == 0 ==> LowerArgs(args[i..], g) == (g1, []))
            && (s != 0 ==> LowerArgs(args[i..], g).0 == LowerArgs(args[i + 1..], g1).0)
            && (s != 0 ==> LowerArgs(args[i..], g).1 == [s] + LowerArgs(args[i + 1..], g1).1)
  {
    assert args[i..][0] == args[i] && args[i..][1..] == args[i + 1..];
  }

  lemma {:induction false} StillUnhealthy(f: Func, g: Gen)
    requires LowerParams(f.params, Start) == g && g.errors > 0
    ensures LowerFunc(f) == None
  {
  }
}
