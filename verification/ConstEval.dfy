/**
  The analyser's evaluator of constant expressions, and the narrowing check that uses it.
  The evaluator computes with C's signed integers: what C leaves undefined is told apart.
 */
module ConstEval {
  import opened Words
  import opened Ast
  import opened Source
  import opened Typing
  import opened Ir
  import opened Lowering
  import opened LoweringCorrect
  import opened Semantic
  import opened WordLaws

  /** Not a constant; a constant whose evaluation is undefined behaviour; or a value. */
  datatype Const = NotConst | Undefined | Value(value: Word)

  function InWord(i: int): Const {
    if InRange(i) then Value(i) else Undefined
  }

  function ConstUnary(op: UnaryOp, a: Word): Const {
    match op
    case Negate => InWord(0 - a)
    case Invert => Value(0 - a - 1)
    case Not => NotConst
  }

  /** Division by zero is refused; shift counts must be in 0..63, and a left shift must not overflow. */
  function ConstBinary(op: BinaryOp, a: Word, b: Word): Const {
    match op
    case Add => InWord(a + b)
    case Sub => InWord(a - b)
    case Mul => InWord(a * b)
    case Div => if b == 0 then NotConst else InWord(TruncDiv(a, b))
    case LeftShift => if 0 <= b < 64 && a >= 0 then InWord(a * Pow2(b)) else Undefined
    case RightShift => if 0 <= b < 64 then InWord(a / Pow2(b)) else Undefined
    case And => Value(Bitwise(BitAnd, a, b))
    case Or => Value(Bitwise(BitOr, a, b))
    case Xor => Value(Bitwise(BitXor, a, b))
    case _ => NotConst
  }

  predicate HasConstMeaning(op: BinaryOp) {
    !IsComparison(op)
  }

  /** Operands are evaluated left to right, and the first that is not a constant decides. */
  function ConstValue(e: Expr): Const {
    match e
    case Number(text, _) => Value(NumberValue(text))
    case Unary(op, operand, _) =>
      if op.Not? then NotConst
      else
        (match ConstValue(operand)
         case Value(a) => ConstUnary(op, a)
         case c => c)
    case Binary(op, l, r, _) =>
      if !HasConstMeaning(op) then NotConst
      else
        (match ConstValue(l)
         case Value(a) =>
           (match ConstValue(r)
            case Value(b) => ConstBinary(op, a, b)
            case c => c)
         case c => c)
    case _ => NotConst
  }

  // --- Soundness ------------------------------------------------------------------------

  lemma {:induction false} WrapSame(i: int)
    requires InRange(i)
    ensures Wrap(i) == i
  {
  }

  lemma {:induction false} ShiftSame(a: Word, b: Word)
    requires 0 <= b < 64
    ensures a >= 0 && InRange(a * Pow2(b)) ==> ShiftLeft(a, b) == a * Pow2(b)
    ensures InRange(a / Pow2(b)) ==> ShiftRightSigned(a, b) == a / Pow2(b)
  {
    hide Wrap, Pow2;
    assert b % 64 == b;
    if InRange(a * Pow2(b)) {
      WrapSame(a * Pow2(b));
    }
    if InRange(a / Pow2(b)) {
      WrapSame(a / Pow2(b));
    }
  }

  /** Where C defines the result, it is what the machine computes. */
  lemma {:induction false} ConstBinarySound(op: BinaryOp, leftType: DataType, a: Word, b: Word)
    requires ConstBinary(op, a, b).Value? && IsSigned(leftType)
    ensures BinaryMeaning(op, leftType, a, b) == Some(ConstBinary(op, a, b).value)
  {
    hide Wrap, Pow2, TruncDiv, Bitwise, ShiftLeft, ShiftRightSigned, ShiftRightUnsigned;
    match op
    case Add => WrapSame(a + b);
    case Sub => WrapSame(a - b);
    case Mul => WrapSame(a * b);
    case LeftShift => ShiftSame(a, b);
    case RightShift => ShiftSame(a, b);
    case Div =>
    case And =>
    case Or =>
    case Xor =>
    case _ =>
  }

  lemma {:induction false} ConstUnarySound(op: UnaryOp, a: Word)
    requires ConstUnary(op, a).Value?
    ensures UnaryMeaning(op, a) == ConstUnary(op, a).value
  {
    hide Wrap;
    match op
    case Negate => WrapSame(0 - a);
    case Invert => WrapSame(0 - a - 1);
    case Not =>
  }

  // --- What is evaluated ------------------------------------------------------------------

  /** Numerals under minus, tilde, arithmetic, shifts and bitwise operators. */
  predicate ConstForm(e: Expr) {
    match e
    case Number(_, _) => true
    case Unary(op, operand, _) => op != Not && ConstForm(operand)
    case Binary(op, l, r, _) => op in {Add, Sub, Mul, Div, And, Or, Xor, LeftShift, RightShift} && ConstForm(l)
      && ConstForm(r)
    case _ => false
  }

  predicate Divides(e: Expr) {
    match e
    case Unary(_, operand, _) => Divides(operand)
    case Binary(op, l, r, _) => op == Div || Divides(l) || Divides(r)
    case _ => false
  }

  /** Only such expressions have a value; without a division none of them is refused. */
  lemma {:induction false} ConstFormExactly(e: Expr)
    ensures ConstValue(e).Value? ==> ConstForm(e)
    ensures ConstForm(e) && !Divides(e) ==> ConstValue(e) != NotConst
    decreases e
  {
    hide Bitwise, Pow2, TruncDiv, NumberValue;
    match e
    case Unary(_, operand, _) => ConstFormExactly(operand);
    case Binary(_, l, r, _) =>
      ConstFormExactly(l);
      ConstFormExactly(r);
    case _ =>
  }

  /** The machine's result is that of the integers, and C defines it. */
  predicate IsExact(op: BinaryOp, a: Word, b: Word) {
    match op
    case Add => Wrap(a + b) == a + b
    case Sub => Wrap(a - b) == a - b
    case Mul => Wrap(a * b) == a * b
    case Div => Divide(a, b).Some?
    case LeftShift => 0 <= b < 64 && a >= 0 && ShiftLeft(a, b) == a * Pow2(b)
    case RightShift => 0 <= b < 64
    case _ => true
  }

  /** One operation has a value exactly where its result is exact. */
  lemma {:induction false} OneOperation(op: BinaryOp, a: Word, b: Word)
    requires !IsComparison(op)
    ensures ConstBinary(op, a, b).Value? <==> IsExact(op, a, b)
  {
    hide Pow2, TruncDiv, Bitwise, Wrap, ShiftLeft;
    var i: int := if op.Add? then a + b else if op.Sub? then a - b else if op.Mul? then a * b else 0;
    if InRange(i) {
      WrapSame(i);
    }
    if op.RightShift? && 0 <= b < 64 {
      QuotientInRange(a, Pow2(b));
    }
    if op.LeftShift? && 0 <= b < 64 {
      ShiftSame(a, b);
    }
  }

  lemma {:induction false} QuotientInRange(a: Word, p: nat)
    requires p > 0
    ensures InRange(a / p)
  {
    QuotientOf(a, p);
  }

  /** What the analyser makes of a constant expression, and what it then evaluates to. */
  ghost predicate ConstResult(e1: Expr, ok: bool, v: Word, p: Program, env: Env, tr: Trace, fuel: nat) {
    ok && e1.ty in {Int, Int64} && TypedExpr(e1, env.vars) && Eval(p, e1, env, tr, fuel) == Returned(v, tr)
  }

  /**
    The evaluator is right: when it succeeds, without undefined behaviour, the expression is
    accepted in any scope, and evaluates to that value in every program and environment.
   */
  lemma {:induction false} ConstSound(e: Expr, sc: Scopes, hash: string -> nat, sig: Signatures, p: Program, env: Env,
                                      tr: Trace, fuel: nat)
    requires Sized(sc) && ConstValue(e).Value?
    ensures var (ok, e1) := CheckExpr(e, sc, hash, sig); ConstResult(e1, ok, ConstValue(e).value, p, env, tr, fuel)
    decreases e
  {
    hide NumberValue, BinaryMeaning, ConstBinary, UnaryMeaning, ConstUnary;
    match e
    case Number(_, _) =>
    case Unary(op, operand, _) =>
      ConstSound(operand, sc, hash, sig, p, env, tr, fuel);
      ConstUnarySound(op, ConstValue(operand).value);
    case Binary(op, l, r, _) =>
      ConstSound(l, sc, hash, sig, p, env, tr, fuel);
      ConstSound(r, sc, hash, sig, p, env, tr, fuel);
      ConstBinarySound(op, CheckExpr(l, sc, hash, sig).1.ty, ConstValue(l).value, ConstValue(r).value);
    case _ =>
  }

  /** So does its IR: the run of the lowered expression leaves that value in the result register. */
  lemma {:induction false} ConstLowered(e: Expr, sc: Scopes, hash: string -> nat, sig: Signatures, p: Program,
                                        q: IrProgram, f: IrFunc, g: Gen, env: Env, home: seq<nat>, c: Conf, tr: Trace)
    returns (c1: Conf, n: nat, m: nat)
    requires Sized(sc) && ConstValue(e).Value?
    requires var e1 := CheckExpr(e, sc, hash, sig).1;
             Compiled(p, q) && Inside(LowerExpr(e1, g).0, f) && At(g, env, home, c, tr) && g.vregs > 0
    ensures var (g1, r) := LowerExpr(CheckExpr(e, sc, hash, sig).1, g);
            Leads(q, f, c, c1, n, m) && Yields(g, g1, c, c1, r, ConstValue(e).value, tr)
  {
    hide Compiled, Inside, At, Leads, Yields, LowerExpr, ConstValue, CheckExpr, Eval;
    ConstSound(e, sc, hash, sig, p, env, tr, 0);
    c1, n, m := ExprCorrect(p, q, f, CheckExpr(e, sc, hash, sig).1, g, env, home, c, tr, 0);
  }

  // --- The narrowing check -----------------------------------------------------------------

  /** A conversion warns when it narrows, unless the value is a constant that fits. */
  predicate Warns(dest: DataType, src: DataType, e: Expr) {
    && dest != src && dest != Void && src != Void && TypeSize(dest) < TypeSize(src)
    && !(ConstValue(e).Value? && FitsSize(ConstValue(e).value, TypeSize(dest)))
  }

  predicate FitsSize(v: Word, size: nat) {
    match size
    case 1 => -0x80 <= v <= 0x7F
    case 2 => -0x8000 <= v <= 0x7FFF
    case 4 => -0x8000_0000 <= v <= 0x7FFF_FFFF
    case _ => false
  }

  /** What a local of the type holds after the value was stored in it and loaded again. */
  function Kept(v: Word, ty: DataType): Word {
    Narrow(v, Width(ty))
  }

  predicate Survives(v: Word, ty: DataType) {
    Kept(v, ty) == v
  }

  /** The guard of the check: the destination is the smaller type. */
  predicate Narrows(dest: DataType, src: DataType) {
    TypeSize(dest) < TypeSize(src)
  }

  /** A local of one or four bytes keeps exactly the values of its size; any other keeps all. */
  lemma {:induction false} SurvivalExact(v: Word, ty: DataType)
    ensures TypeSize(ty) in {1, 4} ==> (Survives(v, ty) <==> FitsSize(v, TypeSize(ty)))
    ensures TypeSize(ty) !in {1, 4} ==> Survives(v, ty)
  {
    hide Wrap8, Wrap32;
    WrapsExact(v);
  }

  lemma {:induction false} WrapsExact(v: Word)
    ensures Wrap8(v) == v <==> -0x80 <= v <= 0x7F
    ensures Wrap32(v) == v <==> -0x8000_0000 <= v <= 0x7FFF_FFFF
  {
  }

  /**
    The check on a constant, for every pair of types. Under its guard it is silent exactly when
    the value survives in a local of one or four bytes. Without the guard it is always silent,
    and the value survives exactly when it fits.
   */
  lemma {:induction false} NarrowingExact(dest: DataType, src: DataType, e: Expr)
    requires ConstValue(e).Value? && dest != Void && src != Void
    ensures var v, size := ConstValue(e).value, TypeSize(dest);
            && (size !in {1, 4} ==> Survives(v, dest))
            && (size in {1, 4} && Narrows(dest, src) ==> (!Warns(dest, src, e) <==> Survives(v, dest)))
            && (size in {1, 4} && !Narrows(dest, src) ==>
              !Warns(dest, src, e) && (Survives(v, dest) <==> FitsSize(v, size)))
  {
    hide ConstValue, Survives;
    SurvivalExact(ConstValue(e).value, dest);
  }

  /** So silence can be relied on exactly when the guard holds, or the value fits anyway. */
  lemma {:induction false} SilenceExact(dest: DataType, src: DataType, e: Expr)
    requires ConstValue(e).Value? && dest != Void && src != Void
    ensures var v, size := ConstValue(e).value, TypeSize(dest);
            (!Warns(dest, src, e) ==> Survives(v, dest)) <==> Narrows(dest, src) || size !in {1, 4} || FitsSize(v, size)
  {
    hide ConstValue, Survives, Warns;
    NarrowingExact(dest, src, e);
  }

  /** In the cell itself: a store of the local's width and the sign-extending load after it. */
  lemma {:induction false} SilentSurvives(dest: DataType, src: DataType, e: Expr, cell: int)
    requires ConstValue(e).Value? && dest != Void && src != Void && !Warns(dest, src, e)
    ensures var v, size, width := ConstValue(e).value, TypeSize(dest), Width(dest);
            LoadCell(StoreCell(cell, v, width), width) == v <==>
              Narrows(dest, src) || size !in {1, 4} || FitsSize(v, size)
  {
    hide ConstValue, Wrap8, Wrap32, StoreCell, LoadCell, Narrow, Warns;
    SilenceExact(dest, src, e);
    StoreThenLoad(cell, ConstValue(e).value, Width(dest));
  }

  lemma {:induction false} Numeral()
    ensures NumberValue("65536") == 65536
  {
    hide Digits;
    NoDigits();
    DigitsMore([], '6');
    DigitsMore(['6'], '5');
    DigitsMore(['6', '5'], '5');
    DigitsMore(['6', '5', '5'], '3');
    DigitsMore(['6', '5', '5', '3'], '6');
    assert ['6', '5', '5', '3'] + ['6'] == "65536";
    assert ['6', '5', '5'] + ['3'] == ['6', '5', '5', '3'];
    assert ['6', '5'] + ['5'] == ['6', '5', '5'];
    assert ['6'] + ['5'] == ['6', '5'];
    assert [] + ['6'] == ['6'];
  }

  lemma {:induction false} NoDigits()
    ensures Digits([]) == 0
  {
  }

  lemma {:induction false} DigitsMore(text: string, c: char)
    ensures Digits(text + [c]) == 10 * Digits(text) + DigitOf(c)
  {
    assert (text + [c])[..|text|] == text;
  }
}
