/** From text to value: what the symbols and words of the language come to when they are parsed and evaluated. */
module ClassAdValues {
  import opened Options
  import opened ClassAdSyntax
  import opened Lexer
  import opened ClassAdPrinter
  import opened ClassAdParser
  import opened RoundTrip
  import opened ClassAdOperators
  import opened ClassAdEval
  import opened ClassAdEvalFlags
  import Precedence

  const SYMBOLS := {"||", "&&", "=?=", "=!=", "==", "!=", "<", "<=", ">", ">=", "+", "-", "*", "/"}

  /** `i` is `n` in 32 bits. */
  predicate Wraps(n: int, i: int) {
    INT_MIN <= i <= INT_MAX && (n - i) % 0x1_0000_0000 == 0
  }

  predicate Says(b: bool, v: Value) {
    v == VInt(if b then 1 else 0)
  }

  /** `q` is `x` divided by `y` and truncated: the remainder is smaller than `y` and has the sign of `x`. */
  predicate Divides(x: int, y: int, q: int) {
    var r := x - q * y;
    (if y < 0 then y < r < -y else -y < r < y) && (r == 0 || (r < 0 <==> x < 0))
  }

  /** What a symbol between two integers may come to. */
  predicate Means(symbol: string, x: int, y: int, v: Value) {
    && (symbol == "+" ==> v.VInt? && Wraps(x + y, v.i))
    && (symbol == "-" ==> v.VInt? && Wraps(x - y, v.i))
    && (symbol == "*" ==> v.VInt? && Wraps(x * y, v.i))
    && (symbol == "/" ==> if y == 0 then v == VError else v.VInt? && (!(x == INT_MIN && y == -1) ==> Divides(x, y, v.i)))
    && (symbol == "<" ==> Says(x < y, v)) && (symbol == ">" ==> Says(y < x, v))
    && (symbol == "<=" ==> Says(x <= y, v)) && (symbol == ">=" ==> Says(y <= x, v))
    && (symbol == "==" || symbol == "=?=" ==> Says(x == y, v))
    && (symbol == "!=" || symbol == "=!=" ==> Says(x != y, v))
    && (symbol == "&&" ==> Says(x != 0 && y != 0, v))
    && (symbol == "||" ==> Says(x != 0 || y != 0, v))
  }

  lemma Truncation(n: int)
    ensures Wraps(n, ToInt32(n))
  {
  }

  lemma OperatorMeans(op: BinOp, x: int, y: int)
    requires INT_MIN <= x <= INT_MAX && INT_MIN <= y <= INT_MAX
    ensures Means(OpSymbol(op), x, y, ValueOf(Lazy(OpKindOf(op), VInt(x), VInt(y))))
  {
    if op.Div? {
      DivisionMeans(x, y);
    } else if op.Add? || op.Sub? || op.Mult? {
      ArithmeticMeans(op, x, y);
    } else {
      LogicMeans(op, x, y);
    }
  }

  lemma DivisionMeans(x: int, y: int)
    requires INT_MIN <= x <= INT_MAX && INT_MIN <= y <= INT_MAX
    ensures Means(OpSymbol(Div), x, y, ValueOf(Lazy(OpKindOf(Div), VInt(x), VInt(y))))
  {
    hide ToInt32, TruncDiv;
    if y != 0 && !(x == INT_MIN && y == -1) {
      DivisionTruncates(x, y);
    }
  }

  lemma ArithmeticMeans(op: BinOp, x: int, y: int)
    requires op.Add? || op.Sub? || op.Mult?
    ensures Means(OpSymbol(op), x, y, ValueOf(Lazy(OpKindOf(op), VInt(x), VInt(y))))
  {
    hide ToInt32, Wraps;
    Truncation(x + y);
    Truncation(x - y);
    Truncation(x * y);
  }

  lemma LogicMeans(op: BinOp, x: int, y: int)
    requires !op.Div? && !op.Add? && !op.Sub? && !op.Mult?
    ensures Means(OpSymbol(op), x, y, ValueOf(Lazy(OpKindOf(op), VInt(x), VInt(y))))
  {
    hide ToInt32, Wraps, Divides, DoArithmetic;
  }

  lemma SymbolOp(symbol: string) returns (op: BinOp)
    requires symbol in SYMBOLS
    ensures OpSymbol(op) == symbol
  {
    if symbol == "||" { op := Or; } else if symbol == "&&" { op := And; }
    else if symbol == "=?=" { op := MetaEq; } else if symbol == "=!=" { op := MetaNeq; }
    else if symbol == "==" { op := Eq; } else if symbol == "!=" { op := Neq; }
    else if symbol == "<" { op := Lt; } else if symbol == "<=" { op := Le; }
    else if symbol == ">" { op := Gt; } else if symbol == ">=" { op := Ge; }
    else if symbol == "+" { op := Add; } else if symbol == "-" { op := Sub; }
    else if symbol == "*" { op := Mult; } else { op := Div; }
  }

  /** The expression evaluates to the integer `x`, whatever it refers to. */
  ghost predicate Worth(w: World, g: Graph, c: Context, bound: nat, e: Expr, x: int) {
    Acyclic(w, g) && Below(w, g, c, e, bound) && Meaning(w, g, c, e, bound) == VInt(x) && INT_MIN <= x <= INT_MAX
  }

  /** Two operands that are worth integers, with a symbol between them: parsed and evaluated it is what the symbol says. */
  lemma SymbolMeans(w: World, g: Graph, c: Context, bound: nat, symbol: string, l: Expr, x: int, r: Expr, y: int) returns (e: Expr)
    requires symbol in SYMBOLS && Worth(w, g, c, bound, l, x) && Worth(w, g, c, bound, r, y)
    requires Precedence.Operand(l, false) && Precedence.Operand(r, true)
    ensures ParseRval(Print(l) + " " + symbol + " " + Print(r)) == Some(e)
    ensures Below(w, g, c, e, bound) && Means(symbol, x, y, Meaning(w, g, c, e, bound))
  {
    var op := SymbolOp(symbol);
    e := Bin(op, l, r);
    hide *;
    BinaryParses(op, l, r);
    SymbolText(op, Print(l), Print(r));
    BinWorth(w, g, c, bound, op, l, x, r, y);
  }

  lemma SymbolText(op: BinOp, left: string, right: string)
    ensures left + " " + OpSymbol(op) + " " + right == left + OpText(op) + right
  {
    hide OpSymbol;
  }

  lemma BinWorth(w: World, g: Graph, c: Context, bound: nat, op: BinOp, l: Expr, x: int, r: Expr, y: int)
    requires Worth(w, g, c, bound, l, x) && Worth(w, g, c, bound, r, y)
    ensures Below(w, g, c, Bin(op, l, r), bound) && Means(OpSymbol(op), x, y, Meaning(w, g, c, Bin(op, l, r), bound))
  {
    hide Lazy, OpKindOf, Means, Acyclic, OpSymbol;
    OperatorMeans(op, x, y);
  }

  lemma BinaryParses(op: BinOp, l: Expr, r: Expr)
    requires Precedence.Operand(l, false) && Precedence.Operand(r, true)
    ensures ParseRval(Print(l) + OpText(op) + Print(r)) == Some(Bin(op, l, r))
  {
    hide ParseRval, OpText, LeavesOk, BackslashLast;
    assert LexOk(Bin(op, l, r), true) by { assert LeavesOk(Bin(op, l, r)) && BackslashLast(Bin(op, l, r), true) by { BinLexOk(op, l, r); } }
    PrintThenParse(Bin(op, l, r));
  }

  lemma BinLexOk(op: BinOp, l: Expr, r: Expr)
    requires LexOk(l, false) && LexOk(r, true)
    ensures LexOk(Bin(op, l, r), true)
  {
  }

  /** Parentheses change nothing; a minus sign negates. */
  lemma UnaryMeans(w: World, g: Graph, c: Context, bound: nat, l: Expr, x: int) returns (negated: Expr)
    requires Worth(w, g, c, bound, l, x) && Precedence.Operand(l, false)
    ensures ParseRval("(" + Print(l) + ")") == Some(Paren(l)) && Worth(w, g, c, bound, Paren(l), x)
    ensures ParseRval(" - " + Print(l)) == Some(negated)
    ensures Below(w, g, c, negated, bound)
    ensures var v := Meaning(w, g, c, negated, bound); v.VInt? && Wraps(-x, v.i)
  {
    ParenParses(l);
    negated := MinusParses(l);
    hide *;
    UnaryWorth(w, g, c, bound, l, x);
  }

  lemma UnaryWorth(w: World, g: Graph, c: Context, bound: nat, l: Expr, x: int)
    requires Worth(w, g, c, bound, l, x)
    ensures Worth(w, g, c, bound, Paren(l), x)
    ensures var e := if l.Int? then Int(ToInt32(-l.value)) else Neg(l);
            && Below(w, g, c, e, bound)
            && var v := Meaning(w, g, c, e, bound); v.VInt? && Wraps(-x, v.i)
  {
    hide ToInt32, Wraps, Acyclic;
    Truncation(-x);
  }

  lemma ParenParses(l: Expr)
    requires Precedence.Operand(l, false)
    ensures ParseRval("(" + Print(l) + ")") == Some(Paren(l))
  {
    hide ParseRval;
    PrintThenParse(Paren(l));
  }

  /** The minus of a number is folded into it, any other is a node. */
  lemma MinusParses(l: Expr) returns (negated: Expr)
    requires Precedence.Operand(l, false)
    ensures negated == if l.Int? then Int(ToInt32(-l.value)) else Neg(l)
    ensures ParseRval(" - " + Print(l)) == Some(negated)
  {
    negated := if l.Int? then Int(ToInt32(-l.value)) else Neg(l);
    if l.Int? {
      MinusFolds(l);
    } else {
      NegParses(l);
    }
  }

  lemma NegParses(l: Expr)
    requires Precedence.Operand(l, false) && !l.Int?
    ensures ParseRval(" - " + Print(l)) == Some(Neg(l))
  {
    hide ParseRval, Print, Shape, LeavesOk, FloatFree;
    MinusText(l);
    NegOk(l);
    PrintThenParse(Neg(l));
  }

  lemma MinusText(l: Expr)
    requires FloatFree(l)
    ensures FloatFree(Neg(l)) && Print(Neg(l)) == " - " + Print(l)
  {
    assert OpText(Sub) == " - ";
  }

  lemma NegOk(l: Expr)
    requires Precedence.Operand(l, false) && !l.Int?
    ensures LexOk(Neg(l), true) && Shape(Neg(l), 0)
  {
    assert BackslashLast(l, true);
  }

  lemma MinusFolds(l: Expr)
    requires l.Int? && Precedence.Operand(l, false)
    ensures ParseRval(" - " + Print(l)) == Some(Int(ToInt32(-l.value)))
  {
    hide Scan;
    var text := " " + Print(l);
    ScanEnd();
    assert Print(l) + "" == Print(l);
    SkipSpace(Print(l));
    Reads(l, 0, true, text, "");
    assert " - " + Print(l) == " " + ("-" + text);
    SkipSpace("-" + text);
    ScanMinus(text);
    assert ParseFactor(" - " + Print(l)) == Parsed(true, Int(ToInt32(-l.value)), "");
    Settle(0, Int(ToInt32(-l.value)), " - " + Print(l), "");
  }

  /** Parentheses and minus signs around what is not an integer: a time is an error to both, and a string to a minus sign. */
  lemma UnaryElsewhere(w: World, g: Graph, c: Context, bound: nat, e: Expr)
    requires Acyclic(w, g) && Below(w, g, c, e, bound) && !Meaning(w, g, c, e, bound).VInt?
    ensures var v := Meaning(w, g, c, e, bound);
            && Meaning(w, g, c, Paren(e), bound) == (if v.VTime? then VError else v)
            && Meaning(w, g, c, Neg(e), bound) == (if v.VUndefined? then VUndefined else VError)
  {
    hide Acyclic;
  }

  /***** Words *****/

  /** The words with a value of their own, in any mixture of cases. */
  function WordValue(word: string): Option<Value> {
    if UpperAll(word) in {"TRUE", "T"} then Some(VInt(1))
    else if UpperAll(word) in {"FALSE", "F"} then Some(VInt(0))
    else if UpperAll(word) == "UNDEFINED" then Some(VUndefined)
    else if UpperAll(word) == "ERROR" then Some(VError)
    else None
  }

  lemma WordsMean(w: World, fuel: nat, c: Context, p: Place, word: string) returns (e: Expr)
    requires WordValue(word).Some?
    ensures ParseRval(word) == Some(e) && EvalTree(w, fuel, c, p, e, {}) == Some(Result(WordValue(word).value, {}))
  {
    e := WordParses(word);
    hide *;
    assert {p} - {p} == {};
    LiteralEvaluates(w, fuel, c, p, e);
  }

  /** A literal is worth its constant, and its own flag is set and cleared. */
  lemma LiteralEvaluates(w: World, fuel: nat, c: Context, p: Place, e: Expr)
    requires e.Int? || e.Str? || e.Time? || e.Bool? || e.Undefined? || e.Error?
    ensures EvalTree(w, fuel, c, p, e, {}) == Some(Result(Constant(e), {}))
    ensures e.Int? ==> Constant(e) == VInt(e.value)
    ensures e.Str? ==> Constant(e) == VStr(e.str)
    ensures e.Time? ==> Constant(e) == VTime(e.time)
    ensures e.Bool? ==> Says(e.truth, Constant(e))
    ensures e.Undefined? ==> Constant(e) == VUndefined
    ensures e.Error? ==> Constant(e) == VError
  {
    assert {} + {p} - {p} == {};
  }

  lemma WordParses(word: string) returns (e: Expr)
    requires WordValue(word).Some?
    ensures ParseRval(word) == Some(e) && (e.Bool? || e.Undefined? || e.Error?) && Constant(e) == WordValue(word).value
  {
    hide Scan, Keyword, WordValue, ParseRval, Literal, Constant;
    var t;
    t, e := WordToken(word);
    WordIsLetters(word);
    assert word + "" == word;
    ScanKeyword(word, t, "");
    ScanEnd();
    LiteralParses(word, t, e);
  }

  lemma WordToken(word: string) returns (t: Token, e: Expr)
    requires WordValue(word).Some?
    ensures Keyword(word) == Some(t) && Literal(t) == Some(e)
    ensures (e.Bool? || e.Undefined? || e.Error?) && Constant(e) == WordValue(word).value
  {
    t := Keyword(word).value;
    e := Literal(t).value;
  }

  lemma LiteralParses(word: string, t: Token, e: Expr)
    requires Literal(t) == Some(e) && Scan(word) == Scanned(t, "") && Scan("").token.TEof?
    ensures ParseRval(word) == Some(e)
  {
    hide Scan;
    assert ParseFactor(word) == Parsed(true, e, "");
    Settle(0, e, word, "");
  }

  lemma WordIsLetters(word: string)
    requires WordValue(word).Some?
    ensures word != "" && forall i | 0 <= i < |word| :: IsAlpha(word[i])
  {
    var u := UpperAll(word);
    forall i | 0 <= i < |word|
      ensures IsAlpha(word[i])
    {
      assert u[i] == Upper(word[i]) && 'A' <= u[i] <= 'Z';
    }
  }
}
