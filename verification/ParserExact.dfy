/**
  When printing and re-parsing is the identity, exactly: for trees, and for the texts they were parsed from.
 */
module ParserExact {
  import opened Options
  import opened ClassAdSyntax
  import opened Lexer
  import opened ClassAdPrinter
  import opened ClassAdParser
  import opened RoundTrip
  import opened ParserShape

  /***** The left edge of a tree *****/

  predicate OnSpine(left: Expr, e: Expr) {
    e == left || (e.Bin? && OnSpine(left, e.left))
  }

  /** What is printed after `left`. */
  function Tail(left: Expr, e: Expr): string
    requires OnSpine(left, e) && FloatFree(e)
  {
    if e == left then "" else Tail(left, e.left) + OpText(e.op) + Print(e.right)
  }

  lemma {:induction false} TailPrints(left: Expr, e: Expr)
    requires OnSpine(left, e) && FloatFree(e)
    ensures FloatFree(left) && Print(e) == Print(left) + Tail(left, e)
  {
    hide OpText;
    if e == left {
      assert Print(left) + "" == Print(left);
    } else {
      TailPrints(left, e.left);
      Assoc(Print(left), Tail(left, e.left), OpText(e.op), Print(e.right));
    }
  }

  lemma Assoc(a: string, b: string, c: string, d: string)
    ensures a + b + c + d == a + (b + c + d)
  {
  }

  /** The tail starts with the space in front of an operator. */
  lemma {:induction false} TailStarts(left: Expr, e: Expr)
    requires OnSpine(left, e) && FloatFree(e)
    ensures if e == left then Tail(left, e) == "" else Tail(left, e) != "" && Tail(left, e)[0] == ' '
  {
    hide Print;
    if e != left {
      TailStarts(left, e.left);
      var t, o := Tail(left, e.left), OpText(e.op);
      assert (t + o + Print(e.right))[0] == if t == "" then o[0] else t[0];
    }
  }

  /** The tail from the front: one operator, its right operand, and the tail of what they make. */
  lemma {:induction false} TailStep(op: BinOp, left: Expr, right: Expr, e: Expr)
    requires OnSpine(Bin(op, left, right), e) && FloatFree(e)
    ensures OnSpine(left, e) && FloatFree(right)
    ensures Tail(left, e) == OpText(op) + (Print(right) + Tail(Bin(op, left, right), e))
  {
    hide OpText, Print;
    var b := Bin(op, left, right);
    SpineGrows(b, e);
    if e == b {
      TailOne(op, left, right);
    } else {
      TailStep(op, left, right, e.left);
      var t, o, p := Tail(b, e.left), OpText(e.op), Print(e.right);
      hide FloatFree, OnSpine;
      Assoc(OpText(op), Print(right) + t, o, p);
      Assoc(Print(right), t, o, p);
    }
  }

  lemma TailOne(op: BinOp, left: Expr, right: Expr)
    requires FloatFree(left) && FloatFree(right)
    ensures var b := Bin(op, left, right);
            OnSpine(left, b) && Tail(left, b) == OpText(op) + (Print(right) + Tail(b, b))
  {
    hide OpText, Print;
    var b := Bin(op, left, right);
    assert left < b;
    assert OnSpine(left, b.left) && Tail(left, b.left) == "" && Tail(b, b) == "";
    var o, p := OpText(op), Print(right);
    assert "" + o + p == o + (p + "");
  }

  function SpineLength(e: Expr): nat {
    if e.Bin? then 1 + SpineLength(e.left) else 0
  }

  lemma {:induction false} SpineGrows(left: Expr, e: Expr)
    requires OnSpine(left, e)
    ensures SpineLength(left) <= SpineLength(e) && (e != left ==> SpineLength(left) < SpineLength(e))
  {
    if e != left {
      SpineGrows(left, e.left);
    }
  }

  /** Without floats, and every name, string and time scans back on its own. */
  predicate Leafy(e: Expr) {
    FloatFree(e) && LeavesOk(e)
  }

  lemma {:induction false} SpineLeafy(left: Expr, e: Expr)
    requires OnSpine(left, e) && Leafy(e)
    ensures Leafy(left)
  {
    if e != left {
      SpineLeafy(left, e.left);
    }
  }

  /** A rung's tail only adds to the left edge. */
  lemma {:induction false} MoreOnSpine(k: nat, left: Expr, s: string)
    requires k < FACTOR && ParseMore(k, left, s).ok
    ensures OnSpine(left, ParseMore(k, left, s).tree)
    decreases |s|
  {
    hide Scan;
    var t, next := Scan(s).token, Scan(s).rest;
    if t.TOp? && Level(t.op) == k {
      var r := ParseLevel(k + 1, next);
      MoreOnSpine(k, Bin(t.op, left, r.tree), r.rest);
      LowerOnSpine(t.op, left, r.tree, ParseMore(k, left, s).tree);
    }
  }

  lemma {:induction false} LowerOnSpine(op: BinOp, left: Expr, right: Expr, e: Expr)
    requires OnSpine(Bin(op, left, right), e)
    ensures OnSpine(left, e)
  {
    if e != Bin(op, left, right) {
      LowerOnSpine(op, left, right, e.left);
    }
  }

  /***** A printed tree that parses back to itself has the parser's shape *****/

  /** The text ends here. */
  predicate AtEnd(rest: string) {
    Peek(rest, 0) == NUL
  }

  lemma TailEnds(left: Expr, e: Expr, rest: string)
    requires OnSpine(left, e) && FloatFree(e) && Delimiter(rest)
    ensures Delimiter(Tail(left, e) + rest)
    ensures if left == e then Tail(left, e) + rest == rest else !AtEnd(Tail(left, e) + rest)
  {
    hide Print, OpText, Tail;
    TailStarts(left, e);
    assert "" + rest == rest;
  }

  lemma Regroup(a: string, b: string, c: string)
    ensures a + b + c == a + (b + c)
  {
  }

  lemma SpineText(left: Expr, e: Expr, rest: string)
    requires OnSpine(left, e) && FloatFree(e)
    ensures FloatFree(left) && Print(e) + rest == Print(left) + (Tail(left, e) + rest)
  {
    hide Print, Tail, OnSpine;
    TailPrints(left, e);
    Regroup(Print(left), Tail(left, e), rest);
  }

  /** If a rung makes of printed text the tree it was printed from, it stops where the print stopped, and the shape is right. */
  lemma {:induction false} Mirrors(k: nat, s: string, e: Expr, rest: string)
    requires k <= FACTOR && ParseLevel(k, s).ok && ParseLevel(k, s).tree == e
    requires Leafy(e) && Delimiter(rest) && Scan(s) == Scan(Print(e) + rest)
    ensures ParseLevel(k, s).rest == rest && Shape(e, k) && Stops(k, e, rest) && BackslashLast(e, AtEnd(rest))
    decreases |s|, 2 + FACTOR - k
  {
    if k == FACTOR {
      FactorMirrors(s, e, rest);
    } else {
      FirstMirrors(k, s, e, rest);
      hide *;
      MoreMirrors(k, ParseLevel(k + 1, s).tree, ParseLevel(k + 1, s).rest, e, rest);
    }
  }

  lemma NoFloats(e: Expr)
    requires Leafy(e)
    ensures FloatFree(e)
  {
  }

  /** A rung's first operand. */
  lemma {:induction false} FirstMirrors(k: nat, s: string, e: Expr, rest: string)
    requires k < FACTOR && ParseLevel(k, s).ok && ParseLevel(k, s).tree == e
    requires Leafy(e) && Delimiter(rest) && Scan(s) == Scan(Print(e) + rest)
    ensures var l := ParseLevel(k + 1, s);
            l.ok && ParseLevel(k, s) == ParseMore(k, l.tree, l.rest) && Between(k, l.tree, l.rest, e, rest)
    decreases |s|, 2 + FACTOR - k, 0
  {
    hide Scan, Leafy, AtEnd, BackslashLast, Print, OnSpine, Tail, FloatFree, ParseMore, ParseFactor, Shape, Stops;
    NoFloats(e);
    var l := ParseLevel(k + 1, s);
    MoreOnSpine(k, l.tree, l.rest);
    SpineLeafy(l.tree, e);
    SpineText(l.tree, e, rest);
    TailEnds(l.tree, e, rest);
    Mirrors(k + 1, s, l.tree, Tail(l.tree, e) + rest);
    Weaken(l.tree, k);
  }

  /** Rung `k` has read `left`, which is printed first, and stands in front of the rest of the tree's text. */
  predicate Between(k: nat, left: Expr, s: string, e: Expr, rest: string) {
    && OnSpine(left, e) && FloatFree(e) && s == Tail(left, e) + rest && Shape(left, k) && Stops(k + 1, left, s)
    && BackslashLast(left, AtEnd(s))
  }

  lemma {:induction false} MoreMirrors(k: nat, left: Expr, s: string, e: Expr, rest: string)
    requires k < FACTOR && Leafy(e) && Delimiter(rest) && Between(k, left, s, e, rest)
    requires ParseMore(k, left, s).ok && ParseMore(k, left, s).tree == e
    ensures ParseMore(k, left, s).rest == rest && Shape(e, k) && Stops(k, e, rest) && BackslashLast(e, AtEnd(rest))
    decreases |s|, 0, 1
  {
    var t, next := Scan(s).token, Scan(s).rest;
    if t.TOp? && Level(t.op) == k {
      NextMirrors(k, left, s, e, rest);
      var r := ParseLevel(k + 1, next);
      hide *;
      MoreMirrors(k, Bin(t.op, left, r.tree), r.rest, e, rest);
    } else {
      TailStarts(left, e);
      NoTail(rest);
    }
  }

  /** A rung's next operator and operand. */
  lemma {:induction false} NextMirrors(k: nat, left: Expr, s: string, e: Expr, rest: string)
    requires k < FACTOR && Leafy(e) && Delimiter(rest) && Between(k, left, s, e, rest)
    requires ParseMore(k, left, s).ok && ParseMore(k, left, s).tree == e
    requires Scan(s).token.TOp? && Level(Scan(s).token.op) == k
    ensures var op, r := Scan(s).token.op, ParseLevel(k + 1, Scan(s).rest);
            && r.ok && ParseMore(k, left, s) == ParseMore(k, Bin(op, left, r.tree), r.rest)
            && Between(k, Bin(op, left, r.tree), r.rest, e, rest)
    decreases |s|, 0, 0
  {
    hide Scan, Leafy, AtEnd, BackslashLast, Print, OnSpine, Tail, FloatFree, ParseLevel, ParseFactor, OpText;
    var op, next := Scan(s).token.op, Scan(s).rest;
    var r := ParseLevel(k + 1, next);
    var b := Bin(op, left, r.tree);
    MoreOnSpine(k, b, r.rest);
    NextText(op, left, r.tree, e, rest, s);
    LeftBelow(b, e);
    TailEnds(left, e, rest);
    RightLeafy(b, e);
    TailEnds(b, e, rest);
    Mirrors(k + 1, next, r.tree, Tail(b, e) + rest);
    BinShape(b, AtEnd(r.rest));
  }

  lemma NoTail(rest: string)
    ensures "" + rest == rest
  {
  }

  /** The operator and the operand that a rung reads next, in the printed text. */
  lemma NextText(op: BinOp, left: Expr, right: Expr, e: Expr, rest: string, s: string)
    requires OnSpine(Bin(op, left, right), e) && FloatFree(e) && OnSpine(left, e) && s == Tail(left, e) + rest
    ensures FloatFree(right) && Scan(Scan(s).rest) == Scan(Print(right) + (Tail(Bin(op, left, right), e) + rest))
  {
    hide Scan, OpText, Tail, OnSpine, Print, FloatFree;
    TailStep(op, left, right, e);
    var b := Bin(op, left, right);
    var text := Print(right) + (Tail(b, e) + rest);
    Regroup(OpText(op), Print(right) + Tail(b, e), rest);
    Regroup(Print(right), Tail(b, e), rest);
    ScanOpText(op, text);
    SkipSpace(text);
  }

  lemma RightLeafy(b: Expr, e: Expr)
    requires b.Bin? && OnSpine(b, e) && Leafy(e)
    ensures Leafy(b.right)
  {
    SpineLeafy(b, e);
  }

  lemma BinShape(b: Expr, last: bool)
    requires b.Bin? && Shape(b.left, Level(b.op)) && !Open(b.left) && Shape(b.right, Level(b.op) + 1)
    requires BackslashLast(b.left, false) && BackslashLast(b.right, last)
    ensures Shape(b, Level(b.op)) && Open(b) == Open(b.right) && BackslashLast(b, last)
  {
  }

  lemma LeftBelow(b: Expr, e: Expr)
    requires b.Bin? && OnSpine(b, e)
    ensures OnSpine(b.left, e) && b.left != e
  {
    SpineGrows(b, e);
    LowerOnSpine(b.op, b.left, b.right, e);
  }

  lemma {:induction false} FactorMirrors(s: string, e: Expr, rest: string)
    requires ParseFactor(s).ok && ParseFactor(s).tree == e
    requires Leafy(e) && Delimiter(rest) && Scan(s) == Scan(Print(e) + rest)
    ensures ParseFactor(s).rest == rest && Shape(e, FACTOR) && Stops(FACTOR, e, rest) && BackslashLast(e, AtEnd(rest))
    decreases |s|, 1
  {
    hide Scan, NameOk, StrOk, TimeOk, Keyword;
    KeywordTexts();
    match e
    case Paren(_) => ParenMirrors(s, e, rest);
    case Neg(_) => NegMirrors(s, e, rest);
    case Func(_, _) => CallMirrors(s, e, rest);
    case Int(_) => IntegerMirrors(s, e, rest);
    case Var(n) => ScanName(n, rest);
    case Str(_) => StringMirrors(s, e, rest);
    case Time(_) => ScanQuotedText(e, false, rest);
    case Bool(b) => ScanKeyword(if b then "TRUE" else "FALSE", TBool(b), rest);
    case Undefined => ScanKeyword("UNDEFINED", TUndefined, rest);
    case Error => ScanKeyword("ERROR", TError, rest);
    case Bin(_, _, _) =>
  }

  /** A string that ends in a backslash comes back only at the end of the text. */
  lemma StringMirrors(s: string, e: Expr, rest: string)
    requires e.Str? && ParseFactor(s).ok && ParseFactor(s).tree == e
    requires Leafy(e) && Delimiter(rest) && Scan(s) == Scan(Print(e) + rest)
    ensures ParseFactor(s).rest == rest && BackslashLast(e, AtEnd(rest))
  {
    hide Scan, StringBody, Escape, StrOk;
    if EndsInBackslash(e.str) && !AtEnd(rest) {
      var body := Escape(e.str) + ("\"" + rest);
      assert Print(e) + rest == ['"'] + body;
      StringBodyRunsOn(e.str, rest);
      QuotedIs(body);
    } else {
      ScanQuotedText(e, AtEnd(rest), rest);
    }
  }

  /** What a string literal scans to. */
  lemma QuotedIs(body: string)
    ensures var b, t := StringBody(body), Scan(['"'] + body).token;
            if b.Body? then t == TStr(b.value) else t == TError
  {
    hide StringBody;
    if StringBody(body).Body? {
      ScanBody('"', body, StringBody(body).value, StringBody(body).rest);
    } else {
      hide Scan;
      NoSpace(['"'] + body);
      assert (['"'] + body)[1..] == body;
    }
  }

  lemma {:induction false} ParenMirrors(s: string, e: Expr, rest: string)
    requires e.Paren? && ParseFactor(s).ok && ParseFactor(s).tree == e
    requires Leafy(e) && Scan(s) == Scan(Print(e) + rest)
    ensures ParseFactor(s).rest == rest && Shape(e, FACTOR) && BackslashLast(e, AtEnd(rest))
    decreases |s|, 0
  {
    hide Scan;
    var inner := Print(e.inner) + (")" + rest);
    assert Print(e) + rest == "(" + inner;
    ScanDelimiter('(', TLParen, inner);
    ScanDelimiter(')', TRParen, rest);
    Mirrors(0, inner, e.inner, ")" + rest);
  }

  lemma {:induction false} NegMirrors(s: string, e: Expr, rest: string)
    requires e.Neg? && ParseFactor(s).ok && ParseFactor(s).tree == e
    requires Leafy(e) && Delimiter(rest) && Scan(s) == Scan(Print(e) + rest)
    ensures ParseFactor(s).rest == rest && Shape(e, FACTOR) && !Scan(rest).token.TOp? && BackslashLast(e, AtEnd(rest))
    decreases |s|, 0
  {
    hide Scan, OpText;
    var arg := Print(e.arg) + rest;
    assert Print(e) + rest == OpText(Sub) + arg;
    ScanOpText(Sub, arg);
    SkipSpace(arg);
    Mirrors(0, " " + arg, e.arg, rest);
  }

  /** A negative integer was one minus and one literal, which nothing takes part of. */
  lemma IntegerMirrors(s: string, e: Expr, rest: string)
    requires e.Int? && INT_MIN <= e.value <= INT_MAX && ParseFactor(s).ok && ParseFactor(s).tree == e
    requires Delimiter(rest) && Scan(s) == Scan(Print(e) + rest)
    ensures ParseFactor(s).rest == rest && Stops(FACTOR, e, rest)
  {
    hide Scan, Decimal;
    if e.value >= 0 {
      ScanInteger(e.value, rest);
    } else {
      var digits := Decimal(-e.value) + rest;
      assert Print(e) + rest == "-" + digits;
      ScanMinus(digits);
      ScanInteger(-e.value, rest);
      LiteralAlone(0, digits);
    }
  }

  /** An integer that starts with its literal is that literal, and no operator of the rung follows. */
  lemma {:induction false} LiteralAlone(k: nat, s: string)
    requires k <= FACTOR && Scan(s).token.TInt? && ParseLevel(k, s).ok && ParseLevel(k, s).tree.Int?
    ensures ParseLevel(k, s) == Parsed(true, Int(Scan(s).token.value), Scan(s).rest)
    ensures Scan(Scan(s).rest).token.TOp? ==> Level(Scan(Scan(s).rest).token.op) < k
    decreases FACTOR - k
  {
    hide Scan;
    if k < FACTOR {
      var l := ParseLevel(k + 1, s);
      MoreOnSpine(k, l.tree, l.rest);
      LiteralAlone(k + 1, s);
      var t := Scan(l.rest).token;
      if t.TOp? && Level(t.op) == k {
        var r := ParseLevel(k + 1, Scan(l.rest).rest);
        MoreOnSpine(k, Bin(t.op, l.tree, r.tree), r.rest);
      }
    }
  }

  lemma {:induction false} CallMirrors(s: string, e: Expr, rest: string)
    requires e.Func? && ParseFactor(s).ok && ParseFactor(s).tree == e
    requires Leafy(e) && Scan(s) == Scan(Print(e) + rest)
    ensures ParseFactor(s).rest == rest && Shape(e, FACTOR) && BackslashLast(e, AtEnd(rest))
    decreases |s|, 0
  {
    hide Scan, NameOk;
    var inner := PrintArgs(e.args) + (")" + rest);
    assert Print(e) + rest == e.fn + ("(" + inner);
    ScanName(e.fn, "(" + inner);
    ScanDelimiter('(', TLParen, inner);
    if e.args == [] {
      assert inner == ")" + rest;
      ScanDelimiter(')', TRParen, rest);
    } else {
      assert [] + e.args == e.args;
      ArgsMirror([], e.args, inner, rest);
    }
  }

  lemma {:induction false} ArgsExtend(done: seq<Expr>, s: string)
    ensures done <= ParseArgs(done, s).args
    decreases |s|
  {
    hide Scan;
    var e := ParseLevel(0, s);
    if e.ok {
      var t, next := Scan(e.rest).token, Scan(e.rest).rest;
      if t.TComma? || t.TSemicolon? {
        ArgsExtend(done + [e.tree], next);
      }
    }
  }

  lemma {:induction false} ArgsMirror(done: seq<Expr>, args: seq<Expr>, s: string, rest: string)
    requires args != [] && ParseArgs(done, s).args == done + args
    requires forall a | a in args :: FloatFree(a) && Leafy(a)
    requires Scan(s) == Scan(PrintArgs(args) + (")" + rest))
    ensures ParseArgs(done, s).rest == rest && forall a | a in args :: Shape(a, 0) && BackslashLast(a, false)
    decreases |s|, 19
  {
    hide Scan, Leafy, Shape, BackslashLast;
    var e := ParseLevel(0, s);
    assert e.ok;
    FirstArg(done, args, s);
    if |args| == 1 {
      assert PrintArgs(args) + (")" + rest) == Print(args[0]) + (")" + rest) && args == [args[0]];
      ScanDelimiter(')', TRParen, rest);
      Mirrors(0, s, args[0], ")" + rest);
    } else {
      var next := PrintArgs(args[1..]) + (")" + rest);
      var tail := "," + (" " + next);
      assert PrintArgs(args) + (")" + rest) == Print(args[0]) + tail;
      ScanDelimiter(',', TComma, " " + next);
      SkipSpace(next);
      Mirrors(0, s, args[0], tail);
      assert done + args == done + [args[0]] + args[1..];
      ArgsMirror(done + [args[0]], args[1..], " " + next, rest);
    }
  }

  lemma FirstArg(done: seq<Expr>, args: seq<Expr>, s: string)
    requires args != [] && ParseLevel(0, s).ok && ParseArgs(done, s).args == done + args
    ensures args[0] == ParseLevel(0, s).tree
  {
    hide Scan;
    var e := ParseLevel(0, s);
    var t, next := Scan(e.rest).token, Scan(e.rest).rest;
    if t.TComma? || t.TSemicolon? {
      ArgsExtend(done + [e.tree], next);
    }
    assert (done + args)[|done|] == (done + [e.tree])[|done|];
  }

  /***** Main results on trees *****/

  /**
    The round trip works exactly for the trees of the parser's shape in which a string that ends in a backslash
    comes last.
   */
  lemma RoundTripIff(e: Expr)
    requires Leafy(e)
    ensures ParseRval(Print(e)) == Some(e) <==> Shape(e, 0) && BackslashLast(e, true)
  {
    hide Scan, LeavesOk, BackslashLast;
    if Shape(e, 0) && BackslashLast(e, true) {
      PrintThenParse(e);
    } else if ParseRval(Print(e)) == Some(e) {
      assert Print(e) + "" == Print(e);
      Mirrors(0, Print(e), e, "");
    }
  }

  /***** The condition on the text *****/

  /** From here on every argument parses, up to a closing parenthesis or whatever else ends the list. */
  predicate WholeArgs(s: string)
    decreases |s|
  {
    var e := ParseLevel(0, s);
    e.ok && (Scan(e.rest).token.TComma? || Scan(e.rest).token.TSemicolon? ==> WholeArgs(Scan(e.rest).rest))
  }

  /** No call from here on has its argument list broken off by an argument that does not parse. */
  predicate Unbroken(s: string)
    decreases |s|
  {
    var r := Scan(s);
    && (r.token.TVar? && Scan(r.rest).token.TLParen? ==>
          var args := Scan(r.rest).rest; Scan(args).token.TRParen? || WholeArgs(args))
    && (|r.rest| < |s| ==> Unbroken(r.rest))
  }

  lemma UnbrokenNext(s: string)
    requires Unbroken(s)
    ensures Unbroken(Scan(s).rest)
  {
    hide Scan, WholeArgs;
    if |Scan(s).rest| == |s| { ScanStays(s); }
  }

  /** No operator of a rung or tighter is left after it. */
  lemma {:induction false} LevelStops(k: nat, s: string)
    requires k <= FACTOR && ParseLevel(k, s).ok
    ensures var t := Scan(ParseLevel(k, s).rest).token; t.TOp? ==> Level(t.op) < k
    decreases |s|, FACTOR - k
  {
    hide Scan, ParseFactor;
    if k < FACTOR {
      LevelStops(k + 1, s);
      var l := ParseLevel(k + 1, s);
      MoreStops(k, l.tree, l.rest);
    }
  }

  lemma {:induction false} MoreStops(k: nat, left: Expr, s: string)
    requires k < FACTOR && ParseMore(k, left, s).ok && (Scan(s).token.TOp? ==> Level(Scan(s).token.op) <= k)
    ensures var t := Scan(ParseMore(k, left, s).rest).token; t.TOp? ==> Level(t.op) < k
    decreases |s|, 0
  {
    hide Scan, ParseLevel;
    var t, next := Scan(s).token, Scan(s).rest;
    if t.TOp? && Level(t.op) == k {
      var r := ParseLevel(k + 1, next);
      LevelStops(k + 1, next);
      MoreStops(k, Bin(t.op, left, r.tree), r.rest);
    }
  }

  /** What the parsed part of a text tells about the whole: `e` was parsed from `s`, and `rest` is left. */
  predicate Traces(s: string, e: Expr, rest: string) {
    Shape(e, 0) && NoWrapBeforeOp(rest) && (Open(e) ==> !Scan(rest).token.TOp?) ==> NoWrapBeforeOp(s)
  }

  /** One token that is not a literal before an operator. */
  lemma TokenBefore(s: string)
    requires NoWrapBeforeOp(Scan(s).rest)
    requires Scan(s).token.TInt? && Scan(s).token.value < 0 ==> !Scan(Scan(s).rest).token.TOp?
    ensures NoWrapBeforeOp(s)
  {
    hide Scan;
  }

  /** A rung that succeeds on unbroken text: if the tree has the shape, no wrapped literal before an operator went into it. */
  lemma {:induction false} LevelTraces(k: nat, s: string)
    requires k <= FACTOR && Unbroken(s) && ParseLevel(k, s).ok
    ensures Unbroken(ParseLevel(k, s).rest) && Traces(s, ParseLevel(k, s).tree, ParseLevel(k, s).rest)
    decreases |s|, 2 + FACTOR - k
  {
    hide Scan, Unbroken, NoWrapBeforeOp;
    if k == FACTOR {
      FactorTraces(s);
    } else {
      var l := ParseLevel(k + 1, s);
      LevelTraces(k + 1, s);
      MoreTraces(k, l.tree, l.rest);
    }
  }

  lemma {:induction false} MoreTraces(k: nat, left: Expr, s: string)
    requires k < FACTOR && Unbroken(s) && ParseMore(k, left, s).ok
    ensures var r := ParseMore(k, left, s);
            && Unbroken(r.rest)
            && (Shape(r.tree, 0) && NoWrapBeforeOp(r.rest) && (Open(r.tree) ==> !Scan(r.rest).token.TOp?) ==>
                  NoWrapBeforeOp(s) && Shape(left, 0) && (Open(left) ==> !Scan(s).token.TOp?))
    decreases |s|, 0
  {
    hide Scan, Unbroken, NoWrapBeforeOp, ParseLevel;
    var t, next := Scan(s).token, Scan(s).rest;
    if t.TOp? && Level(t.op) == k {
      UnbrokenNext(s);
      var r := ParseLevel(k + 1, next);
      LevelTraces(k + 1, next);
      var b := Bin(t.op, left, r.tree);
      MoreTraces(k, b, r.rest);
      if Shape(b, 0) && NoWrapBeforeOp(next) {
        BinParts(b);
        TokenBefore(s);
      } else if Shape(b, 0) {
        BinParts(b);
      }
    }
  }

  lemma BinParts(b: Expr)
    requires b.Bin? && Shape(b, 0)
    ensures Shape(b.left, 0) && Shape(b.right, 0) && !Open(b.left) && Open(b) == Open(b.right)
  {
  }

  lemma {:induction false} FactorTraces(s: string)
    requires Unbroken(s) && ParseFactor(s).ok
    ensures Unbroken(ParseFactor(s).rest) && Traces(s, ParseFactor(s).tree, ParseFactor(s).rest)
    decreases |s|, 1
  {
    hide Scan, NoWrapBeforeOp, WholeArgs;
    var t, next, r := Scan(s).token, Scan(s).rest, ParseFactor(s);
    UnbrokenNext(s);
    if t.TVar? && Scan(next).token.TLParen? {
      UnbrokenNext(next);
      CallTraces(s);
    } else if t.TLParen? || t == TOp(Sub) {
      var e := ParseLevel(0, next);
      LevelTraces(0, next);
      LevelStops(0, next);
      if t.TLParen? {
        UnbrokenNext(e.rest);
        if NoWrapBeforeOp(Scan(e.rest).rest) { TokenBefore(e.rest); }
      }
      if NoWrapBeforeOp(next) { TokenBefore(s); }
    } else if NoWrapBeforeOp(next) && (Open(r.tree) ==> !Scan(next).token.TOp?) {
      TokenBefore(s);
    }
  }

  lemma {:induction false} CallTraces(s: string)
    requires Unbroken(s) && Scan(s).token.TVar? && Scan(Scan(s).rest).token.TLParen?
    requires Unbroken(Scan(Scan(s).rest).rest)
    ensures Unbroken(ParseFactor(s).rest) && Traces(s, ParseFactor(s).tree, ParseFactor(s).rest)
    decreases |s|, 0
  {
    hide Scan, NoWrapBeforeOp, WholeArgs;
    var next := Scan(s).rest;
    var args, r := Scan(next).rest, ParseFactor(s);
    if Scan(args).token.TRParen? {
      UnbrokenNext(args);
      if NoWrapBeforeOp(Scan(args).rest) { TokenBefore(args); }
    } else {
      ArgsTrace([], args);
    }
    if NoWrapBeforeOp(args) {
      TokenBefore(next);
      TokenBefore(s);
    }
  }

  lemma {:induction false} ArgsTrace(done: seq<Expr>, s: string)
    requires WholeArgs(s) && Unbroken(s)
    ensures var r := ParseArgs(done, s);
            Unbroken(r.rest) && ((forall a | a in r.args :: Shape(a, 0)) && NoWrapBeforeOp(r.rest) ==> NoWrapBeforeOp(s))
    decreases |s|, 19
  {
    hide Scan, NoWrapBeforeOp, Unbroken, Shape;
    var e, r := ParseLevel(0, s), ParseArgs(done, s);
    LevelTraces(0, s);
    LevelStops(0, s);
    var t, next := Scan(e.rest).token, Scan(e.rest).rest;
    UnbrokenNext(e.rest);
    if t.TComma? || t.TSemicolon? {
      ArgsTrace(done + [e.tree], next);
      ArgsExtend(done + [e.tree], next);
      assert (done + [e.tree])[|done|] == e.tree;
      assert r.args[|done|] == e.tree;
    } else {
      assert r.args[|done|] == e.tree;
    }
    if NoWrapBeforeOp(next) && !t.TInt? { TokenBefore(e.rest); }
  }

  /***** Main results on texts *****/

  /** Whatever text was accepted, if no wrapped literal stands before an operator, printing and re-parsing is the identity. */
  lemma AcceptedReparses(text: string, e: Expr)
    requires ParseRval(text) == Some(e)
    requires NoWrapBeforeOp(text) && FloatFree(e) && BackslashLast(e, true)
    ensures ParseRval(Print(e)) == Some(e)
  {
    LevelBuilds(0, text);
    PrintThenParse(e);
  }

  /** An accepted tree re-parses exactly when it has the parser's shape, with a string that ends in a backslash last. */
  lemma AcceptedShape(text: string, e: Expr)
    requires ParseRval(text) == Some(e) && FloatFree(e)
    ensures ParseRval(Print(e)) == Some(e) <==> Shape(e, 0) && BackslashLast(e, true)
  {
    LevelBuilds(0, text);
    RoundTripIff(e);
  }

  /**
    For text whose argument lists are not broken off the shape is a matter of the text: no wrapped literal before
    an operator.
   */
  lemma AcceptedReparsesIff(text: string, e: Expr)
    requires ParseRval(text) == Some(e) && Unbroken(text) && FloatFree(e)
    ensures ParseRval(Print(e)) == Some(e) <==> NoWrapBeforeOp(text) && BackslashLast(e, true)
  {
    hide Scan, Unbroken, Print, BackslashLast;
    AcceptedShape(text, e);
    if !BackslashLast(e, true) {
    } else if NoWrapBeforeOp(text) {
      AcceptedReparses(text, e);
    } else {
      var r := ParseLevel(0, text);
      LevelTraces(0, text);
      EndIsHarmless(r.rest);
    }
  }

  lemma EndIsHarmless(s: string)
    requires Scan(s).token.TEof?
    ensures NoWrapBeforeOp(s)
  {
    var s' := s[Run(Space, s)..];
    assert s'[0..] == s';
    hide ScanToken;
    EofTakesNothing(s');
  }

  lemma EofTakesNothing(s: string)
    requires ScanToken(s).token.TEof?
    ensures ScanToken(s).len == 0
  {
  }
}
