/** The tokens of the language, and their precedences in expressions. */
module Tokens {
  import opened Words
  import opened Ast

  datatype Kind =
    | TInt | TChar | TVoid | TIf | TElse | TWhile | TReturn
    | TNumber | TIdentifier
    | TPlus | TMinus | TStar | TSlash | TBang
    | TLShift | TRShift
    | TBitAnd | TBitXor | TBitOr | TBitNot
    | TEqualEqual | TBangEqual | TLess | TLessEqual | TGreater | TGreaterEqual
    | TEqual
    | TLParen | TRParen
    | TSemicolon | TLBrace | TRBrace | TComma
    | TEof | TError

  /** Tokens of two characters, and `!`, `=`, `<` and `>`, carry no text. */
  datatype Token = Token(kind: Kind, text: string)

  const PREC_NONE: nat := 0
  const PREC_ASSIGNMENT: nat := 1
  const PREC_BIT_OR: nat := 4
  const PREC_BIT_XOR: nat := 5
  const PREC_BIT_AND: nat := 6
  const PREC_EQUALITY: nat := 7
  const PREC_COMPARISON: nat := 8
  const PREC_SHIFT: nat := 9
  const PREC_TERM: nat := 10
  const PREC_FACTOR: nat := 11
  const PREC_UNARY: nat := 12
  const PREC_CALL: nat := 13
  const PREC_PRIMARY: nat := 14

  function Precedence(k: Kind): nat {
    match k
    case TPlus => PREC_TERM
    case TMinus => PREC_TERM
    case TStar => PREC_FACTOR
    case TSlash => PREC_FACTOR
    case TLShift => PREC_SHIFT
    case TRShift => PREC_SHIFT
    case TBitAnd => PREC_BIT_AND
    case TBitXor => PREC_BIT_XOR
    case TBitOr => PREC_BIT_OR
    case TEqualEqual => PREC_EQUALITY
    case TBangEqual => PREC_EQUALITY
    case TLess => PREC_COMPARISON
    case TLessEqual => PREC_COMPARISON
    case TGreater => PREC_COMPARISON
    case TGreaterEqual => PREC_COMPARISON
    case TEqual => PREC_ASSIGNMENT
    case TLParen => PREC_CALL
    case _ => PREC_NONE
  }

  /** Tokens that can start an expression. */
  predicate HasPrefix(k: Kind) {
    k.TNumber? || k.TIdentifier? || k.TMinus? || k.TBang? || k.TBitNot? || k.TLParen?
  }

  function BinaryOf(k: Kind): Option<BinaryOp> {
    match k
    case TPlus => Some(Add)
    case TMinus => Some(Sub)
    case TStar => Some(Mul)
    case TSlash => Some(Div)
    case TEqualEqual => Some(Equal)
    case TBangEqual => Some(NotEqual)
    case TLess => Some(Less)
    case TLessEqual => Some(LessEqual)
    case TGreater => Some(Greater)
    case TGreaterEqual => Some(GreaterEqual)
    case TLShift => Some(LeftShift)
    case TRShift => Some(RightShift)
    case TBitAnd => Some(And)
    case TBitOr => Some(Or)
    case TBitXor => Some(Xor)
    case _ => None
  }

  function UnaryOf(k: Kind): Option<UnaryOp> {
    match k
    case TMinus => Some(Negate)
    case TBang => Some(Not)
    case TBitNot => Some(Invert)
    case _ => None
  }

  function TypeName(t: DataType): string {
    match t
    case Void => "void"
    case Int => "int"
    case Long => "long"
    case Int64 => "int64"
    case Int32 => "int32"
    case Int16 => "int16"
    case Int8 => "int8"
    case UInt64 => "uint64"
    case UInt32 => "uint32"
    case UInt16 => "uint16"
    case UInt8 => "uint8"
    case Char => "char"
    case Bool => "bool"
  }

  /** The type that a token names. Only void, int and char are keywords. */
  function TypeOfToken(t: Token): Option<DataType> {
    match t.kind
    case TInt => Some(Int)
    case TChar => Some(Char)
    case TVoid => Some(Void)
    case TIdentifier => TypeOfText(t.text)
    case _ => None
  }

  function TypeOfText(text: string): Option<DataType> {
    if text == "long" then Some(Long)
    else if text == "int64" then Some(Int64)
    else if text == "int32" then Some(Int32)
    else if text == "int16" then Some(Int16)
    else if text == "int8" then Some(Int8)
    else if text == "uint64" then Some(UInt64)
    else if text == "uint32" then Some(UInt32)
    else if text == "uint16" then Some(UInt16)
    else if text == "uint8" then Some(UInt8)
    else if text == "bool" then Some(Bool)
    else None
  }
}
