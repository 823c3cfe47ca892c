/** Printing an expression tree; the printer never adds parentheses of its own. */
module ClassAdPrinter {
  import opened ClassAdSyntax

  predicate FloatFree(e: Expr) {
    match e
    case Float(_, _) => false
    case Paren(x) => FloatFree(x)
    case Neg(x) => FloatFree(x)
    case Bin(_, l, r) => FloatFree(l) && FloatFree(r)
    case Func(_, args) => forall a | a in args :: FloatFree(a)
    case _ => true
  }

  function OpSymbol(op: BinOp): string {
    match op
    case Or => "||"
    case And => "&&"
    case MetaEq => "=?="
    case MetaNeq => "=!="
    case Eq => "=="
    case Neq => "!="
    case Lt => "<"
    case Le => "<="
    case Gt => ">"
    case Ge => ">="
    case Add => "+"
    case Sub => "-"
    case Mult => "*"
    case Div => "/"
  }

  /** An operator is printed with a space on either side, also in front of a unary minus. */
  function OpText(op: BinOp): string {
    " " + OpSymbol(op) + " "
  }

  function Decimal(n: nat): string {
    if n < 10 then [('0' as int + n) as char] else Decimal(n / 10) + [('0' as int + n % 10) as char]
  }

  function IntText(v: int): string {
    if v < 0 then "-" + Decimal(-v) else Decimal(v)
  }

  /** Every quote gets a backslash; nothing else is escaped. */
  function Escape(s: string): string {
    if s == "" then "" else (if s[0] == '"' then "\\\"" else [s[0]]) + Escape(s[1..])
  }

  function Print(e: Expr): string
    requires FloatFree(e)
    decreases e, 0
  {
    match e
    case Var(name) => name
    case Int(v) => IntText(v)
    case Str(s) => "\"" + Escape(s) + "\""
    case Time(t) => "'" + t + "'"
    case Bool(b) => if b then "TRUE" else "FALSE"
    case Undefined => "UNDEFINED"
    case Error => "ERROR"
    case Paren(x) => "(" + Print(x) + ")"
    case Neg(x) => OpText(Sub) + Print(x)
    case Bin(op, l, r) => Print(l) + OpText(op) + Print(r)
    case Func(fn, args) => fn + "(" + PrintArgs(args) + ")"
  }

  function PrintArgs(args: seq<Expr>): string
    requires forall a | a in args :: FloatFree(a)
    decreases args, 1
  {
    if args == [] then ""
    else if |args| == 1 then Print(args[0])
    else Print(args[0]) + ", " + PrintArgs(args[1..])
  }
}
