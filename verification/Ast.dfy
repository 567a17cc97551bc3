/** The syntax trees that the parser builds and the analyser annotates. */
module Ast {
  import opened Words

  datatype DataType =
    | Void | Int | Long
    | Int64 | Int32 | Int16 | Int8
    | UInt64 | UInt32 | UInt16 | UInt8
    | Char | Bool

  function TypeSize(t: DataType): nat {
    match t
    case Void => 0
    case Int => 4
    case Long => 8
    case Int64 => 8
    case Int32 => 4
    case Int16 => 2
    case Int8 => 1
    case UInt64 => 8
    case UInt32 => 4
    case UInt16 => 2
    case UInt8 => 1
    case Char => 1
    case Bool => 1
  }

  predicate IsSigned(t: DataType) {
    t in {Int, Long, Int64, Int32, Int16, Int8, Char}
  }

  predicate IsUnsigned(t: DataType) {
    !IsSigned(t) && t != Void
  }

  /** How many bytes of its cell a local of this type uses: sizes 0, 2 and 8 use all of it. */
  function Width(t: DataType): nat {
    if TypeSize(t) == 1 then 1 else if TypeSize(t) == 4 then 4 else 8
  }

  datatype UnaryOp = Negate | Not | Invert

  datatype BinaryOp =
    | Add | Sub | Mul | Div
    | Equal | NotEqual | Less | LessEqual | Greater | GreaterEqual
    | LeftShift | RightShift
    | And | Or | Xor

  /** `ty` is the field `value_type`, which the analyser fills in. */
  datatype Expr =
    | Number(text: string, ty: DataType)
    | Identifier(name: string, ty: DataType)
    | Call(fn: string, args: seq<Expr>, ty: DataType)
    | Unary(uop: UnaryOp, operand: Expr, ty: DataType)
    | Binary(bop: BinaryOp, left: Expr, right: Expr, ty: DataType)
    | Assign(target: string, rhs: Expr, ty: DataType)

  datatype Stmt =
    | VarDecl(name: string, varType: DataType, init: Option<Expr>)
    | ExprStmt(e: Expr)
    | Return(result: Option<Expr>)
    | If(cond: Expr, thn: Stmt, els: Option<Stmt>)
    | While(cond: Expr, body: Stmt)
    | Block(stmts: seq<Stmt>)

  datatype Param = Param(name: string, ty: DataType)

  datatype Func = Func(name: string, returnType: DataType, params: seq<Param>, body: seq<Stmt>)

  /** The value of a numeral: `atoll` over its digits, saturating as `strtoll` does. */
  function NumberValue(text: string): Word {
    var n := Digits(text);
    if n > MAX64 then MAX64 else n
  }

  function Digits(text: string): nat {
    if text == [] then 0
    else 10 * Digits(text[..|text| - 1]) + DigitOf(text[|text| - 1])
  }

  function DigitOf(c: char): nat {
    if '0' <= c <= '9' then c as int - '0' as int else 0
  }
}
