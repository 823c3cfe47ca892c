/** The round trip of a whole `name = expression` line, and the literals that spoil re-parsing. */
module RoundTripLimits {
  import opened Options
  import opened ClassAdSyntax
  import opened Lexer
  import opened ClassAdPrinter
  import opened ClassAdParser
  import opened RoundTrip
  import opened ParserShape
  import opened ParserExact

  /** An assignment as it is printed. */
  function PrintAssign(name: string, e: Expr): string
    requires FloatFree(e)
  {
    name + " = " + Print(e)
  }

  lemma ScanAssign(rest: string)
    ensures Scan(" = " + rest) == Scanned(TAssign, " " + rest)
  {
    hide Scan, ScanToken;
    var s := "=" + (" " + rest);
    assert " = " + rest == " " + s;
    SkipSpace(s);
    AssignReads(rest);
    NoSpace(s);
    Split("=", " " + rest);
  }

  lemma AssignReads(rest: string)
    ensures ScanToken("=" + (" " + rest)) == Lexeme(TAssign, 1)
    ensures !Has(Space, Peek("=" + (" " + rest), 0))
  {
    var s := "=" + (" " + rest);
    assert s[0] == '=' && s[1] == ' ';
  }

  /** A printed assignment parses back to the same name and the same tree. */
  lemma AssignmentRoundTrip(name: string, e: Expr)
    requires NameOk(name) && LexOk(e, true) && Shape(e, 0)
    ensures ParseAssign(PrintAssign(name, e)) == Some((name, e))
  {
    hide Scan, NameOk;
    var text := Print(e);
    var tail := " = " + text;
    assert PrintAssign(name, e) == name + tail;
    ScanAssign(text);
    Reads(Var(name), 0, false, name + tail, tail);
    assert text + "" == text;
    SkipSpace(text);
    ScanEnd();
    Reads(e, 0, true, " " + text, "");
  }

  /***** Literals beyond the range of int *****/

  /** What one rung returns is what the looser rungs return, when no operator follows. */
  lemma {:induction false} LooserRungs(k: nat, from: nat, e: Expr, s: string, rest: string)
    requires k <= from <= FACTOR && ParseLevel(from, s) == Parsed(true, e, rest) && !Scan(rest).token.TOp?
    ensures ParseLevel(k, s) == Parsed(true, e, rest)
    decreases from - k
  {
    hide Scan;
    if k < from {
      LooserRungs(k + 1, from, e, s, rest);
    }
  }

  /** A text with a literal, and the tree with that literal as it is kept: read as `long`, kept as `int`. */
  function LiteralText(n: nat): string {
    Decimal(n) + OpText(Add) + "1"
  }

  function LiteralTree(n: nat): Expr {
    Bin(Add, Int(ToInt32(n)), Int(1))
  }

  lemma LiteralWraps(n: nat)
    requires n <= LONG_MAX
    ensures ParseRval(LiteralText(n)) == Some(LiteralTree(n))
  {
    var tail := OpText(Add) + "1";
    assert Delimiter(tail);
    assert LiteralText(n) == Decimal(n) + tail;
    ScanInteger(n, tail);
    ScanOpText(Add, "1");
    assert ParseFactor(LiteralText(n)) == Parsed(true, Int(ToInt32(n)), tail) by {
      hide Scan;
    }
    SumReads(LiteralText(n), Int(ToInt32(n)), tail);
  }

  lemma SumReads(s: string, left: Expr, tail: string)
    requires ParseFactor(s) == Parsed(true, left, tail) && Scan(tail) == Scanned(TOp(Add), " " + "1")
    ensures ParseRval(s) == Some(Bin(Add, left, Int(1)))
  {
    hide Scan;
    Settle(Level(Add) + 1, left, s, tail);
    ReadsOne();
    ScanEnd();
    MoreReads(left, tail);
    assert ParseLevel(Level(Add), s) == ParseMore(Level(Add), left, tail);
    LooserRungs(0, Level(Add), Bin(Add, left, Int(1)), s, "");
  }

  lemma MoreReads(left: Expr, tail: string)
    requires Scan(tail) == Scanned(TOp(Add), " " + "1") && Scan("").token.TEof?
    requires ParseLevel(Level(Add) + 1, " " + "1") == Parsed(true, Int(1), "")
    ensures ParseMore(Level(Add), left, tail) == Parsed(true, Bin(Add, left, Int(1)), "")
  {
    hide Scan, ParseLevel;
  }

  lemma ReadsOne()
    ensures ParseLevel(Level(Add) + 1, " " + "1") == Parsed(true, Int(1), "")
  {
    hide Scan;
    SkipSpace("1");
    ScanEnd();
    assert Print(Int(1)) + "" == "1";
    ReadsInteger(Int(1), " " + "1", "");
    Settle(Level(Add) + 1, Int(1), " " + "1", "");
  }

  /**
    So a literal can turn negative without a minus sign in the text, and the tree then prints with a minus
    that swallows the rest: this line re-parses to the same tree exactly when the literal did not turn negative.
   */
  lemma WrappedLiteralReparsesIff(n: nat)
    requires n <= LONG_MAX
    ensures ParseRval(LiteralText(n)) == Some(LiteralTree(n))
    ensures ParseRval(Print(LiteralTree(n))) == Some(LiteralTree(n)) <==> 0 <= ToInt32(n)
  {
    hide Scan, Decimal, OpText, ParseRval, Print, Leafy, BackslashLast, Shape;
    LiteralWraps(n);
    SumShape(ToInt32(n));
    RoundTripIff(LiteralTree(n));
  }

  lemma SumShape(v: int)
    requires INT_MIN <= v <= INT_MAX
    ensures var e := Bin(Add, Int(v), Int(1));
            Leafy(e) && BackslashLast(e, true) && (Shape(e, 0) <==> 0 <= v)
  {
    var e := Bin(Add, Int(v), Int(1));
    assert LeavesOk(e.left) && LeavesOk(e.right) && FloatFree(e.left) && FloatFree(e.right);
    assert BackslashLast(e.left, false) && BackslashLast(e.right, true);
    assert Shape(e.left, 4) && Shape(e.right, 5) && (Open(e.left) <==> v < 0);
  }

  /** For instance 2147483648, the first literal that wraps. */
  lemma AcceptedTextThatChanges(n: nat)
    requires n == 2147483648
    ensures ParseRval(LiteralText(n)) == Some(LiteralTree(n))
    ensures ParseRval(Print(LiteralTree(n))) != Some(LiteralTree(n))
  {
    hide Decimal, OpText, ParseRval, Print, LiteralText, LiteralTree;
    assert ToInt32(n) == INT_MIN;
    WrappedLiteralReparsesIff(n);
  }

  /***** A string that ends in a backslash swallows its closing quote *****/

  /** A string at the end of a line, and a sum that goes on in the next. */
  function StringText(v: string): string {
    Print(Str(v)) + ("\n" + (OpText(Add) + "1"))
  }

  function StringTree(v: string): Expr {
    Bin(Add, Str(v), Int(1))
  }

  /** The text is accepted whatever the string, and its tree re-parses exactly when the string does not end in a backslash. */
  lemma StringReparsesIff(v: string)
    requires StrOk(v)
    ensures ParseRval(StringText(v)) == Some(StringTree(v))
    ensures ParseRval(Print(StringTree(v))) == Some(StringTree(v)) <==> !EndsInBackslash(v)
  {
    hide Scan, OpText, ParseRval, Print, StrOk, EndsInBackslash;
    StringSums(v);
    assert Leafy(Str(v)) && Leafy(Int(1)) && Shape(Str(v), 4) && Shape(Int(1), 5);
    assert BackslashLast(StringTree(v), true) <==> !EndsInBackslash(v);
    RoundTripIff(StringTree(v));
  }

  lemma StringSums(v: string)
    requires StrOk(v)
    ensures ParseRval(StringText(v)) == Some(StringTree(v))
  {
    hide Scan, StrOk, Escape, StringBody;
    var tail := "\n" + (OpText(Add) + "1");
    var body := Escape(v) + ("\"" + tail);
    assert StringText(v) == ['"'] + body;
    StringBodyReads(v, tail);
    ScanBody('"', body, v, tail);
    SkipNewline(OpText(Add) + "1");
    ScanOpText(Add, "1");
    SumReads(StringText(v), Str(v), tail);
  }

  /** For instance the string `a\`. */
  lemma BackslashThatChanges()
    ensures ParseRval(StringText("a\\")) == Some(StringTree("a\\"))
    ensures ParseRval(Print(StringTree("a\\"))) != Some(StringTree("a\\"))
  {
    hide ParseRval, Print, StringText, StringTree;
    StringReparsesIff("a\\");
  }

  /***** A broken-off argument list drops what went wrong with it *****/

  const NAME := "g"

  /** A call whose only argument is not complete: `(g(4294967295 + )`, say. */
  function BrokenText(n: nat): string {
    "(" + (NAME + ("(" + (Decimal(n) + (OpText(Add) + ")"))))
  }

  lemma {:induction false} LooserFail(k: nat, from: nat, s: string, rest: string)
    requires k <= from <= FACTOR && ParseLevel(from, s) == Fail(rest)
    ensures ParseLevel(k, s) == Fail(rest)
    decreases from - k
  {
    hide Scan;
    if k < from {
      LooserFail(k + 1, from, s, rest);
    }
  }

  /** The argument does not parse, and the parser stands in front of the closing parenthesis. */
  lemma NoArgument(s: string, v: int, tail: string)
    requires Scan(s) == Scanned(TInt(v), tail) && Scan(tail) == Scanned(TOp(Add), " " + ")")
    ensures ParseLevel(0, s) == Fail(" " + ")")
  {
    hide Scan;
    ScanDelimiter(')', TRParen, "");
    assert ")" + "" == ")";
    SkipSpace(")");
    var k := Level(Add);
    Settle(k + 1, Int(v), s, tail);
    LooserFail(k + 1, FACTOR, " " + ")", " " + ")");
    assert ParseMore(k, Int(v), tail) == Fail(" " + ")");
    LooserFail(0, k, s, " " + ")");
  }

  /** So a wrapped literal in front of an operator does no harm there: the text is accepted, and its tree re-parses. */
  lemma BrokenOffForgets(n: nat)
    requires n <= LONG_MAX && ToInt32(n) < 0
    ensures ParseRval(BrokenText(n)) == Some(Paren(Func(NAME, []))) && !NoWrapBeforeOp(BrokenText(n))
    ensures ParseRval(Print(Paren(Func(NAME, [])))) == Some(Paren(Func(NAME, [])))
  {
    var tail := OpText(Add) + ")";
    var args := Decimal(n) + tail;
    var call := NAME + ("(" + args);
    assert Delimiter(tail);
    ScanDelimiter('(', TLParen, call);
    NameIsOk();
    ScanName(NAME, "(" + args);
    ScanDelimiter('(', TLParen, args);
    ScanInteger(n, tail);
    ScanOpText(Add, ")");
    BrokenParses(BrokenText(n), call, "(" + args, args, ToInt32(n), tail);
    CallShape();
    RoundTripIff(Paren(Func(NAME, [])));
  }

  lemma NameIsOk()
    ensures NameOk(NAME)
  {
    var w := NAME[..Run(Word, NAME)];
    assert w == NAME by { RunConcat(Word, NAME, ""); assert NAME + "" == NAME; }
    assert UpperAll(w)[0] == 'G';
  }

  lemma CallShape()
    ensures var e := Paren(Func(NAME, [])); Leafy(e) && BackslashLast(e, true) && Shape(e, 0)
  {
    NameIsOk();
    var e := Func(NAME, []);
    assert LeavesOk(e) && FloatFree(e) && BackslashLast(e, false) && Shape(e, 0);
  }

  lemma BrokenParses(s: string, call: string, open: string, args: string, v: int, tail: string)
    requires Scan(s) == Scanned(TLParen, call) && Scan(call) == Scanned(TVar(NAME), open) && Scan(open) == Scanned(TLParen, args)
    requires Scan(args) == Scanned(TInt(v), tail) && Scan(tail) == Scanned(TOp(Add), " " + ")") && v < 0
    ensures ParseRval(s) == Some(Paren(Func(NAME, []))) && !NoWrapBeforeOp(s)
  {
    hide Scan;
    NoArgument(args, v, tail);
    var close := " " + ")";
    ScanDelimiter(')', TRParen, "");
    assert ")" + "" == ")";
    SkipSpace(")");
    ScanEnd();
    assert ParseFunction(args) == ParsedArgs([], close);
    assert ParseFactor(call) == Parsed(true, Func(NAME, []), close);
    Settle(0, Func(NAME, []), call, close);
    assert ParseFactor(s) == Parsed(true, Paren(Func(NAME, [])), "");
    Settle(0, Paren(Func(NAME, [])), s, "");
    WrapInside(s, call, open, args);
  }

  lemma WrapInside(s: string, call: string, open: string, args: string)
    requires Scan(s) == Scanned(TLParen, call) && Scan(call) == Scanned(TVar(NAME), open) && Scan(open) == Scanned(TLParen, args)
    requires !NoWrapBeforeOp(args)
    ensures !NoWrapBeforeOp(s)
  {
    hide Scan;
    assert !NoWrapBeforeOp(open);
    assert !NoWrapBeforeOp(call);
  }
}
