/** Text that the printer does not write but the scanner and the parser accept, and stray characters. */
module SourceTexts {
  import opened Options
  import opened ClassAdSyntax
  import opened Lexer
  import opened ClassAdPrinter
  import opened ClassAdParser
  import opened RoundTrip

  /***** White space *****/

  const WHITE := {' ', '\t', '\n', '\r', '\U{B}', '\U{C}'}

  /** White space of any kind and length in front of a token does not matter. */
  lemma {:induction false} SkipWhite(white: string, s: string)
    requires forall i | 0 <= i < |white| :: white[i] in WHITE
    ensures Scan(white + s) == Scan(s)
  {
    if white == "" {
      assert white + s == s;
    } else {
      var rest := white[1..] + s;
      assert (white + s)[1..] == rest && Has(Space, white[0]);
      SkipWhite(white[1..], s);
      assert (white + s)[Run(Space, white + s)..] == rest[Run(Space, rest)..];
    }
  }

  /***** Numbers *****/

  predicate Digits(s: string) {
    forall i :: 0 <= i < |s| ==> Has(Digit, s[i])
  }

  /** An exponent: a letter, perhaps a sign, and digits. */
  predicate Exponent(mark: char, sign: string, digits: string) {
    (mark == 'e' || mark == 'E') && (sign == "" || sign == "+" || sign == "-") && digits != "" && Digits(digits)
  }

  /** A real number is taken whole: digits, a point, and digits or none. */
  lemma FloatScans(whole: string, fraction: string, rest: string)
    requires whole != "" && Digits(whole) && Digits(fraction) && Delimiter(rest)
    ensures var text := whole + "." + fraction;
            Scan(text + rest) == Scanned(TFloat(text), rest)
  {
    FractionTail(fraction, rest);
    TakenWhole(whole, "." + fraction, rest);
    assert whole + ("." + fraction) == whole + "." + fraction;
  }

  /** An exponent behind it is part of it. */
  lemma ExponentScans(whole: string, fraction: string, mark: char, sign: string, digits: string, exponent: string, rest: string)
    requires whole != "" && Digits(whole) && Digits(fraction) && Exponent(mark, sign, digits) && Delimiter(rest)
    requires exponent == [mark] + sign + digits
    ensures var text := whole + "." + fraction + exponent;
            Scan(text + rest) == Scanned(TFloat(text), rest)
  {
    hide Scan, FloatTail, Exponent;
    ExponentTail(fraction, mark, sign, digits, exponent, rest);
    Regroup(whole, ".", fraction, exponent);
    TakenWhole(whole, "." + fraction + exponent, rest);
  }

  lemma Regroup(a: string, b: string, c: string, d: string)
    ensures a + (b + c + d) == a + b + c + d
  {
  }

  lemma TakenWhole(whole: string, tail: string, rest: string)
    requires whole != "" && Digits(whole) && Peek(tail, 0) == '.' && FloatTail(tail + rest) == |tail|
    ensures Scan(whole + tail + rest) == Scanned(TFloat(whole + tail), rest)
  {
    hide Scan, FloatTail;
    NumberScans(whole, tail + rest);
    var text := whole + tail;
    assert whole + (tail + rest) == text + rest;
    Split(text, rest);
  }

  lemma NumberScans(whole: string, tail: string)
    requires whole != "" && Digits(whole) && Peek(tail, 0) == '.'
    ensures var s, n := whole + tail, |whole| + FloatTail(tail); n <= |s| && Scan(s) == Scanned(TFloat(s[..n]), s[n..])
  {
    hide Scan, FloatTail, ScanWord, ScanQuoted, ScanOperator, IntegerLiteral;
    RunConcat(Digit, whole, tail);
    Split(whole, tail);
    assert Has(Digit, whole[0]) && (whole + tail)[0] == whole[0];
    NoSpace(whole + tail);
  }

  lemma FractionTail(fraction: string, rest: string)
    requires Digits(fraction) && Delimiter(rest)
    ensures FloatTail("." + fraction + rest) == 1 + |fraction|
  {
    var s, f := "." + fraction + rest, 1 + |fraction|;
    assert s[1..] == fraction + rest;
    RunConcat(Digit, fraction, rest);
    assert Peek(s, f) == Peek(rest, 0);
  }

  lemma ExponentTail(fraction: string, mark: char, sign: string, digits: string, exponent: string, rest: string)
    requires Digits(fraction) && Exponent(mark, sign, digits) && Delimiter(rest) && exponent == [mark] + sign + digits
    ensures FloatTail("." + fraction + exponent + rest) == |"." + fraction + exponent|
  {
    var s, f, n := "." + fraction + exponent + rest, 1 + |fraction|, |sign|;
    var behind := exponent + rest;
    FractionRuns(fraction, behind);
    assert s == "." + fraction + behind;
    assert s[f..] == behind && forall i: nat :: Peek(s, f + i) == Peek(behind, i);
    ExponentAt(mark, sign, digits, behind, rest);
    assert s[f + 1 + n..] == behind[1 + n..];
    hide Run;
  }

  lemma FractionRuns(fraction: string, behind: string)
    requires Digits(fraction) && !Has(Digit, Peek(behind, 0))
    ensures var s := "." + fraction + behind; Run(Digit, s[1..]) == |fraction|
  {
    assert ("." + fraction + behind)[1..] == fraction + behind;
    RunConcat(Digit, fraction, behind);
  }

  lemma ExponentAt(mark: char, sign: string, digits: string, behind: string, rest: string)
    requires Exponent(mark, sign, digits) && Delimiter(rest) && behind == [mark] + sign + digits + rest
    ensures behind[0] == mark && Has(Digit, behind[1 + |sign|]) && Run(Digit, behind[1 + |sign|..]) == |digits|
    ensures sign != "" <==> behind[1] == '+' || behind[1] == '-'
  {
    assert behind[1 + |sign|..] == digits + rest && behind[1 + |sign|] == digits[0];
    RunConcat(Digit, digits, rest);
  }

  /** Such a number is a factor, and a minus sign in front of it turns its sign. */
  lemma FloatParses(whole: string, fraction: string)
    requires whole != "" && Digits(whole) && Digits(fraction)
    ensures var text := whole + "." + fraction;
            ParseRval(text) == Some(Float(false, text)) && ParseRval("-" + text) == Some(Float(true, text))
  {
    hide Scan;
    var text := whole + "." + fraction;
    assert text + "" == text;
    FloatScans(whole, fraction, "");
    ScanEnd();
    ScanMinus(text);
    assert ParseFactor(text) == Parsed(true, Float(false, text), "");
    Settle(0, Float(false, text), text, "");
    assert ParseFactor("-" + text) == Parsed(true, Float(true, text), "");
    Settle(0, Float(true, text), "-" + text, "");
  }

  /** An integer beyond the largest `long` is read as that, which is kept as -1. */
  lemma HugeIsMinusOne(n: nat, rest: string)
    requires n > LONG_MAX && Delimiter(rest)
    ensures Scan(Decimal(n) + rest) == Scanned(TInt(-1), rest)
  {
    hide ScanOperator, ScanWord, ScanQuoted, FloatTail, Decimal, Number;
    var d := Decimal(n);
    DecimalReads(n);
    RunConcat(Digit, d, rest);
    Split(d, rest);
    assert Has(Digit, d[0]);
    NoSpace(d + rest);
    assert ToInt32(LONG_MAX) == -1;
  }

  /***** Quotes that are not closed *****/

  lemma {:induction false} NeverClosed(body: string)
    ensures '"' !in body ==> StringBody(body) == Unterminated
    ensures '\'' !in body ==> TimeBody(body) == Unterminated
  {
    if Peek(body, 0) != NUL {
      NeverClosed(body[1..]);
      assert Peek(body, 1) == '"' ==> body[1] in body;
    }
  }

  /** A string or time without its closing quote is an error that takes the opening quote only. */
  lemma UnclosedIsError(q: char, body: string)
    requires (q == '"' || q == '\'') && q !in body
    ensures Scan([q] + body) == Scanned(TError, body)
  {
    hide Scan, StringBody, TimeBody, ScanWord, ScanNumber, ScanOperator;
    NeverClosed(body);
    Split([q], body);
    NoSpace([q] + body);
  }

  /***** Assignments *****/

  /** Behind a name an assignment needs an equals sign and a whole expression, and nothing else will do. */
  lemma AssignmentIs(name: string, rest: string)
    requires NameOk(name)
    ensures ParseAssign(name + " " + rest) ==
            if Scan(rest).token.TAssign? && ParseRval(Scan(rest).rest).Some?
            then Some((name, ParseRval(Scan(rest).rest).value)) else None
  {
    hide Scan, ParseRval, NameOk;
    var s := name + " " + rest;
    assert s == name + (" " + rest);
    ScanName(name, " " + rest);
    SkipSpace(rest);
    if Scan(rest).token.TLParen? {
      var a := ParseFunction(Scan(rest).rest);
      FactorFirst(0, s, Func(name, a.args), a.rest);
    } else if Scan(rest).token.TOp? {
      FactorFirst(0, s, Var(name), " " + rest);
      OperatorTakes(0, s, name, " " + rest);
    } else {
      assert ParseFactor(s) == Parsed(true, Var(name), " " + rest);
      Settle(0, Var(name), s, " " + rest);
    }
  }

  /** A rung's tree, if it is a plain name, is the factor it starts with. */
  lemma {:induction false} FactorFirst(k: nat, s: string, e: Expr, rest: string)
    requires k <= FACTOR && ParseFactor(s) == Parsed(true, e, rest)
    ensures ParseLevel(k, s).ok && ParseLevel(k, s).tree.Var? ==> ParseLevel(k, s) == Parsed(true, e, rest)
    decreases FACTOR - k
  {
    hide Scan;
    if k < FACTOR {
      FactorFirst(k + 1, s, e, rest);
      var l := ParseLevel(k + 1, s);
      if l.ok {
        MoreIsBin(k, l.tree, l.rest);
      }
    }
  }

  lemma {:induction false} MoreIsBin(k: nat, left: Expr, s: string)
    requires k < FACTOR
    ensures var r := ParseMore(k, left, s); r.ok ==> r == Parsed(true, left, s) || r.tree.Bin?
    decreases |s|
  {
    hide Scan;
    var t, next := Scan(s).token, Scan(s).rest;
    if t.TOp? && Level(t.op) == k {
      var e := ParseLevel(k + 1, next);
      if e.ok {
        MoreIsBin(k, Bin(t.op, left, e.tree), e.rest);
      }
    }
  }

  /** A name with an operator behind it is not all of the expression. */
  lemma {:induction false} OperatorTakes(k: nat, s: string, name: string, rest: string)
    requires k <= FACTOR && ParseFactor(s) == Parsed(true, Var(name), rest) && Scan(rest).token.TOp?
    ensures k <= Level(Scan(rest).token.op) ==> !(ParseLevel(k, s) == Parsed(true, Var(name), rest))
    decreases FACTOR - k
  {
    hide Scan;
    var op := Scan(rest).token.op;
    if k < Level(op) {
      OperatorTakes(k + 1, s, name, rest);
      var l := ParseLevel(k + 1, s);
      if l.ok {
        MoreIsBin(k, l.tree, l.rest);
        FactorFirst(k + 1, s, Var(name), rest);
      }
    } else if k == Level(op) {
      Settle(k + 1, Var(name), s, rest);
      var e := ParseLevel(k + 1, Scan(rest).rest);
      if e.ok {
        MoreIsBin(k, Bin(op, Var(name), e.tree), e.rest);
      }
    }
  }

  /***** Argument lists *****/

  /** Arguments separated by commas or semicolons. */
  function Joined(args: seq<Expr>, semicolons: seq<bool>): string
    requires (forall a | a in args :: FloatFree(a)) && |semicolons| == |args|
    decreases args
  {
    if args == [] then ""
    else if |args| == 1 then Print(args[0])
    else Print(args[0]) + (if semicolons[0] then " ; " else " , ") + Joined(args[1..], semicolons[1..])
  }

  lemma ScanSeparator(semicolon: bool, rest: string)
    ensures Scan((if semicolon then " ; " else " , ") + rest) == Scanned(if semicolon then TSemicolon else TComma, " " + rest)
  {
    hide Scan, ScanWord, ScanNumber, ScanQuoted;
    var s := (if semicolon then ";" else ",") + (" " + rest);
    assert (if semicolon then " ; " else " , ") + rest == " " + s;
    SkipSpace(s);
    NoSpace(s);
    assert s[1..] == " " + rest;
  }

  lemma {:induction false} JoinedReads(done: seq<Expr>, args: seq<Expr>, semicolons: seq<bool>, s: string, rest: string)
    requires args != [] && forall a | a in args :: FloatFree(a) && LexOk(a, false) && Shape(a, 0)
    requires |semicolons| == |args| && Scan(s) == Scan(Joined(args, semicolons) + (")" + rest))
    ensures ParseArgs(done, s) == ParsedArgs(done + args, rest) && !Scan(s).token.TRParen?
    decreases args
  {
    hide Scan, LexOk, Shape, FloatFree, Print;
    if |args| == 1 {
      assert args == [args[0]];
      ScanDelimiter(')', TRParen, rest);
      ReadsArg(args[0], s, ")" + rest);
    } else {
      var next := Joined(args[1..], semicolons[1..]) + (")" + rest);
      var tail := (if semicolons[0] then " ; " else " , ") + next;
      assert Joined(args, semicolons) + (")" + rest) == Print(args[0]) + tail;
      ScanSeparator(semicolons[0], next);
      SkipSpace(next);
      ReadsArg(args[0], s, tail);
      JoinedReads(done + [args[0]], args[1..], semicolons[1..], " " + next, rest);
      assert done + [args[0]] + args[1..] == done + args;
    }
  }

  /** A call is the same whether commas or semicolons separate its arguments. */
  lemma SemicolonsSeparate(fn: string, args: seq<Expr>, semicolons: seq<bool>)
    requires NameOk(fn) && args != [] && |semicolons| == |args|
    requires forall a | a in args :: FloatFree(a) && LexOk(a, false) && Shape(a, 0)
    ensures ParseRval(fn + "(" + Joined(args, semicolons) + ")") == Some(Func(fn, args))
  {
    hide Scan, NameOk, LexOk, Shape, Joined;
    var inner := Joined(args, semicolons) + (")" + "");
    var text := fn + "(" + Joined(args, semicolons) + ")";
    assert text == fn + ("(" + inner);
    ScanName(fn, "(" + inner);
    ScanDelimiter('(', TLParen, inner);
    JoinedReads([], args, semicolons, inner, "");
    assert [] + args == args;
    ScanEnd();
    assert ParseFactor(text) == Parsed(true, Func(fn, args), "");
    Settle(0, Func(fn, args), text, "");
  }

  /***** Stray characters *****/

  /** The character does not go on to an operator of two or three. */
  predicate Alone(rest: string) {
    Peek(rest, 0) !in {'&', '|', '=', '?', '!'}
  }

  const ODD := {'#', '%', '@', '?', ':', '[', ']', '{', '}', '~', '^', '`', '\\'}

  /** Half of an operator is an error that takes the character; a character with no meaning is an error that takes nothing. */
  lemma StrayCharacters(c: char, rest: string)
    requires Alone(rest)
    ensures c == '&' || c == '|' || c == '!' ==> Scan([c] + rest) == Scanned(TError, rest)
    ensures c == '=' ==> Scan([c] + rest) == Scanned(TAssign, rest)
    ensures c == '$' ==> Scan([c] + rest) == Scanned(TMacro, rest)
    ensures c in ODD ==> Scan([c] + rest) == Scanned(TError, [c] + rest)
  {
    hide Scan, ScanToken;
    var s := [c] + rest;
    assert s[1..] == rest && s[0..] == s;
    if c == '&' || c == '|' || c == '!' || c == '=' || c == '$' {
      HalfOperators(c, rest);
      NoSpace(s);
    } else if c in ODD {
      OddCharacters(c, rest);
      NoSpace(s);
    }
  }

  lemma HalfOperators(c: char, rest: string)
    requires Alone(rest) && (c == '&' || c == '|' || c == '!' || c == '=' || c == '$')
    ensures ScanToken([c] + rest) == Lexeme(if c == '=' then TAssign else if c == '$' then TMacro else TError, 1)
    ensures !Has(Space, Peek([c] + rest, 0))
  {
    hide ScanWord, ScanNumber, ScanQuoted;
    assert Peek([c] + rest, 0) == c && Peek([c] + rest, 1) == Peek(rest, 0);
  }

  lemma OddCharacters(c: char, rest: string)
    requires c in ODD
    ensures ScanToken([c] + rest) == Lexeme(TError, 0) && !Has(Space, Peek([c] + rest, 0))
  {
    hide ScanWord, ScanNumber, ScanQuoted;
    assert Peek([c] + rest, 0) == c;
  }

  /***** Printed text *****/

  /** How each kind of node is written. */
  lemma PrintedForms(a: Expr, b: Expr)
    requires FloatFree(a) && FloatFree(b)
    ensures Print(Paren(a)) == "(" + Print(a) + ")" && Print(Neg(a)) == " - " + Print(a)
    ensures Print(Bin(MetaEq, a, b)) == Print(a) + " =?= " + Print(b)
    ensures Print(Bool(true)) == "TRUE" && Print(Bool(false)) == "FALSE"
    ensures Print(Undefined) == "UNDEFINED" && Print(Error) == "ERROR"
  {
    assert OpText(Sub) == " - " && OpText(MetaEq) == " =?= ";
  }

  lemma PrintedCall(fn: string, a: Expr, b: Expr)
    requires FloatFree(a) && FloatFree(b)
    ensures FloatFree(Func(fn, [a, b])) && Print(Func(fn, [a, b])) == fn + "(" + (Print(a) + ", " + Print(b)) + ")"
  {
    assert [a, b][1..] == [b];
    assert PrintArgs([b]) == Print(b);
    assert PrintArgs([a, b]) == Print(a) + ", " + Print(b);
  }
}
