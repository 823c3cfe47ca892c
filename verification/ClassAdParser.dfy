/**
  The recursive-descent parser as functions of the remaining input. A failed parse still
  reports how far it got: a function call ignores the failure of its argument list, so the
  caller carries on from there.
 */
module ClassAdParser {
  import opened Options
  import opened ClassAdSyntax
  import opened Lexer

  datatype Parsed = Parsed(ok: bool, tree: Expr, rest: string)
  datatype ParsedArgs = ParsedArgs(args: seq<Expr>, rest: string)

  function Fail(rest: string): Parsed {
    Parsed(false, Error, rest)
  }

  /** Unary minus folds a literal number and is a node over anything else. */
  function Negate(e: Expr): Expr {
    match e
    case Int(v) => Int(ToInt32(-v))
    case Float(neg, text) => Float(!neg, text)
    case _ => Neg(e)
  }

  /** The tokens that are a whole factor by themselves. */
  function Literal(t: Token): Option<Expr> {
    match t
    case TUndefined => Some(Undefined)
    case TError => Some(Error)
    case TInt(v) => Some(Int(v))
    case TFloat(text) => Some(Float(false, text))
    case TStr(v) => Some(Str(v))
    case TTime(v) => Some(Time(v))
    case TBool(b) => Some(Bool(b))
    case _ => None
  }

  function ParseFactor(s: string): (r: Parsed)
    ensures |r.rest| <= |s|
    decreases |s|, 1
  {
    var Scanned(t, next) := Scan(s);
    match t
    case TVar(name) =>
      if Scan(next).token.TLParen? then
        var a := ParseFunction(Scan(next).rest);
        Parsed(true, Func(name, a.args), a.rest)
      else Parsed(true, Var(name), next)
    case TLParen =>
      var e := ParseLevel(0, next);
      if !e.ok then Fail(e.rest)
      else if Scan(e.rest).token.TRParen? then Parsed(true, Paren(e.tree), Scan(e.rest).rest)
      else Fail(Scan(e.rest).rest)
    case TOp(Sub) =>
      var e := ParseLevel(0, next);
      if e.ok then Parsed(true, Negate(e.tree), e.rest) else Fail(e.rest)
    case _ =>
      match Literal(t)
      case Some(e) => Parsed(true, e, next)
      case None => Fail(s)
  }

  /** The argument list of a call, from after its opening parenthesis. */
  function ParseFunction(s: string): (r: ParsedArgs)
    ensures |r.rest| <= |s|
    decreases |s|, 20
  {
    if Scan(s).token.TRParen? then ParsedArgs([], Scan(s).rest) else ParseArgs([], s)
  }

  /** Arguments until a closing parenthesis or until something does not parse; never an error. */
  function ParseArgs(args: seq<Expr>, s: string): (r: ParsedArgs)
    ensures |r.rest| <= |s|
    decreases |s|, 19
  {
    var e := ParseLevel(0, s);
    if !e.ok then ParsedArgs(args, e.rest)
    else
      var Scanned(t, next) := Scan(e.rest);
      if t.TRParen? then ParsedArgs(args + [e.tree], next)
      else if t.TComma? || t.TSemicolon? then ParseArgs(args + [e.tree], next)
      else ParsedArgs(args + [e.tree], e.rest)
  }

  /** One rung of the ladder: an operand of the next rung, then this rung's operators. */
  function ParseLevel(k: nat, s: string): (r: Parsed)
    requires k <= FACTOR
    ensures |r.rest| <= |s|
    decreases |s|, 2 + FACTOR - k
  {
    if k == FACTOR then ParseFactor(s)
    else
      var l := ParseLevel(k + 1, s);
      if l.ok then ParseMore(k, l.tree, l.rest) else Fail(l.rest)
  }

  /** The left-associative tail of a rung, given the operand parsed so far. */
  function ParseMore(k: nat, left: Expr, s: string): (r: Parsed)
    requires k < FACTOR
    ensures |r.rest| <= |s|
    decreases |s|, 0
  {
    var Scanned(t, next) := Scan(s);
    if t.TOp? && Level(t.op) == k then
      var e := ParseLevel(k + 1, next);
      if e.ok then ParseMore(k, Bin(t.op, left, e.tree), e.rest) else Fail(e.rest)
    else Parsed(true, left, s)
  }

  /** A whole expression up to the end of the input. */
  function ParseRval(s: string): Option<Expr> {
    var e := ParseLevel(0, s);
    if e.ok && Scan(e.rest).token.TEof? then Some(e.tree) else None
  }

  /** `name = expression` up to the end of the input. */
  function ParseAssign(s: string): Option<(string, Expr)> {
    var l := ParseLevel(0, s);
    var eq := Scan(l.rest);
    if l.ok && l.tree.Var? && eq.token.TAssign? then
      match ParseRval(eq.rest)
      case Some(e) => Some((l.tree.name, e))
      case None => None
    else None
  }
}
