/** The old ClassAd expression language: lexemes and expression trees. */
module ClassAdSyntax {
  /** The binary operators that the parser's precedence ladder knows. */
  datatype BinOp =
    | Or | And
    | MetaEq | MetaNeq | Eq | Neq
    | Lt | Le | Gt | Ge
    | Add | Sub
    | Mult | Div

  /** The rung of the ladder that builds an operator; 0 binds loosest. */
  function Level(op: BinOp): (k: nat)
    ensures k < FACTOR
  {
    match op
    case Or => 0
    case And => 1
    case MetaEq | MetaNeq | Eq | Neq => 2
    case Lt | Le | Gt | Ge => 3
    case Add | Sub => 4
    case Mult | Div => 5
  }

  /** The rung below every operator, where factors are parsed. */
  const FACTOR: nat := 6

  datatype Token =
    | TVar(name: string)
    | TInt(value: int)
    | TFloat(text: string)
    | TStr(str: string)
    | TTime(time: string)
    | TBool(truth: bool)
    | TUndefined
    | TError
    | TOp(op: BinOp)
    | TAssign | TLParen | TRParen | TMacro | TComma | TSemicolon
    | TEof

  /**
    An expression tree. A missing left argument is its own constructor: `Paren` is an addition
    node without one (explicit parentheses), `Neg` a subtraction node without one (unary minus).
    A float keeps the sign and the text of its literal, not its rounded value.
   */
  datatype Expr =
    | Var(name: string)
    | Int(value: int)
    | Float(negative: bool, text: string)
    | Str(str: string)
    | Time(time: string)
    | Bool(truth: bool)
    | Undefined
    | Error
    | Paren(inner: Expr)
    | Neg(arg: Expr)
    | Bin(op: BinOp, left: Expr, right: Expr)
    | Func(fn: string, args: seq<Expr>)

  const INT_MIN: int := -0x8000_0000
  const INT_MAX: int := 0x7FFF_FFFF
  const LONG_MAX: int := 0x7FFF_FFFF_FFFF_FFFF

  /** Two's complement truncation to the 32 bits of a C `int`. */
  function ToInt32(n: int): (r: int)
    ensures INT_MIN <= r <= INT_MAX
    ensures INT_MIN <= n <= INT_MAX ==> r == n
  {
    (n + 0x8000_0000) % 0x1_0000_0000 - 0x8000_0000
  }
}
