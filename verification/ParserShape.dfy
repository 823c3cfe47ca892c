/** What the parser builds on arbitrary input, and when printing and re-parsing is the identity. */
module ParserShape {
  import opened Options
  import opened ClassAdSyntax
  import opened Lexer
  import opened ClassAdParser
  import opened RoundTrip

  /***** Every token the scanner delivers is within the lexical limits *****/

  predicate TokenOk(t: Token) {
    match t
    case TVar(n) => NameOk(n)
    case TInt(v) => INT_MIN <= v <= INT_MAX
    case TStr(v) => StrOk(v)
    case TTime(v) => TimeOk(v)
    case _ => true
  }

  lemma {:induction false} StringBodyOk(s: string)
    ensures StringBody(s).Body? ==> StrOk(StringBody(s).value)
    ensures StringBody(s).Body? && StringBody(s).value != ""
            ==> StringBody(s).value[0] == (if EscapedQuote(s) then '"' else s[0]) && s[0] != '"'
    decreases |s|
  {
    if Peek(s, 0) != NUL && s[0] != '"' {
      StringBodyOk(s[if EscapedQuote(s) then 2 else 1..]);
    }
  }

  lemma {:induction false} TimeBodyOk(s: string)
    ensures TimeBody(s).Body? ==> TimeOk(TimeBody(s).value)
    decreases |s|
  {
    if Peek(s, 0) != NUL && s[0] != '\'' {
      TimeBodyOk(s[1..]);
    }
  }

  lemma NameTokenOk(s: string)
    requires s != "" && Has(Name, s[0]) && !Has(Digit, s[0])
    requires Keyword(s[..Run(Word, s)]).None?
    ensures NameOk(s[..Run(Name, s)])
  {
    hide Keyword;
    var w, m := Run(Word, s), Run(Name, s);
    var n := s[..m];
    assert !Has(Word, Peek(s, m));
    assert n == s[..w] + n[w..] && n[..w] == s[..w];
    assert w < m ==> n[w] == s[w];
    RunConcat(Word, s[..w], n[w..]);
  }

  lemma ScanOk(s: string)
    ensures TokenOk(Scan(s).token)
  {
    var s' := s[Run(Space, s)..];
    ScanTokenOk(s');
  }

  lemma ScanTokenOk(s: string)
    ensures TokenOk(ScanToken(s).token)
  {
    var c := Peek(s, 0);
    if IsAlpha(c) || c == '_' || c == '.' {
      if Keyword(s[..Run(Word, s)]).None? { NameTokenOk(s); }
    } else if c == '"' {
      StringBodyOk(s[1..]);
    } else if c == '\'' {
      TimeBodyOk(s[1..]);
    }
  }

  /***** Every accepted tree has the parser's shape *****/

  /** No integer literal from here on that wraps to a negative `int` stands directly before an operator. */
  predicate NoWrapBeforeOp(s: string)
    decreases |s|
  {
    var r := Scan(s);
    && (r.token.TInt? && r.token.value < 0 ==> !Scan(r.rest).token.TOp?)
    && (|r.rest| < |s| ==> NoWrapBeforeOp(r.rest))
  }

  lemma NextToo(s: string)
    requires NoWrapBeforeOp(s)
    ensures NoWrapBeforeOp(Scan(s).rest)
  {
    hide Scan;
    if |Scan(s).rest| == |s| { ScanStays(s); }
  }

  lemma ScanStays(s: string)
    requires |Scan(s).rest| == |s|
    ensures Scan(s).rest == s
  {
  }

  /** Rung `k` stopped in front of something that is not its business. */
  predicate Stops(k: nat, e: Expr, rest: string) {
    var t := Scan(rest).token;
    t.TOp? ==> Level(t.op) < k && !Open(e)
  }

  /** What holds of a parse at rung `k`. */
  predicate Built(k: nat, s: string, r: Parsed) {
    && (r.ok ==> LeavesOk(r.tree))
    && (NoWrapBeforeOp(s) ==> NoWrapBeforeOp(r.rest) && (r.ok ==> Shape(r.tree, k) && Stops(k, r.tree, r.rest)))
  }

  lemma {:induction false} LevelBuilds(k: nat, s: string)
    requires k <= FACTOR
    ensures Built(k, s, ParseLevel(k, s))
    decreases |s|, 2 + FACTOR - k
  {
    hide Scan, NameOk, StrOk, TimeOk;
    if k == FACTOR {
      FactorBuilds(s);
    } else {
      var l := ParseLevel(k + 1, s);
      LevelBuilds(k + 1, s);
      if l.ok && NoWrapBeforeOp(s) {
        Weaken(l.tree, k);
        MoreBuilds(k, l.tree, l.rest);
      } else if l.ok {
        MoreLeaves(k, l.tree, l.rest);
      }
    }
  }

  /** A tree of a tighter rung is also one of a looser rung. */
  lemma Weaken(e: Expr, k: nat)
    requires Shape(e, k + 1)
    ensures Shape(e, k)
  {
  }

  lemma {:induction false} MoreBuilds(k: nat, left: Expr, s: string)
    requires k < FACTOR && LeavesOk(left) && NoWrapBeforeOp(s) && Shape(left, k) && Stops(k + 1, left, s)
    ensures var r := ParseMore(k, left, s);
            NoWrapBeforeOp(r.rest) && (r.ok ==> LeavesOk(r.tree) && Shape(r.tree, k) && Stops(k, r.tree, r.rest))
    decreases |s|, 0
  {
    hide Scan, NameOk, StrOk, TimeOk;
    var t, next := Scan(s).token, Scan(s).rest;
    if t.TOp? && Level(t.op) == k {
      NextToo(s);
      LevelBuilds(k + 1, next);
      var e := ParseLevel(k + 1, next);
      if e.ok {
        MoreBuilds(k, Bin(t.op, left, e.tree), e.rest);
      }
    }
  }

  lemma {:induction false} MoreLeaves(k: nat, left: Expr, s: string)
    requires k < FACTOR && LeavesOk(left)
    ensures ParseMore(k, left, s).ok ==> LeavesOk(ParseMore(k, left, s).tree)
    decreases |s|, 0
  {
    hide Scan, NameOk, StrOk, TimeOk;
    var t, next := Scan(s).token, Scan(s).rest;
    if t.TOp? && Level(t.op) == k {
      LevelBuilds(k + 1, next);
      var e := ParseLevel(k + 1, next);
      if e.ok {
        MoreLeaves(k, Bin(t.op, left, e.tree), e.rest);
      }
    }
  }

  lemma {:induction false} FactorBuilds(s: string)
    ensures Built(FACTOR, s, ParseFactor(s))
    decreases |s|, 1
  {
    hide Scan, NameOk, StrOk, TimeOk;
    var t, next := Scan(s).token, Scan(s).rest;
    ScanOk(s);
    if NoWrapBeforeOp(s) { NextToo(s); }
    match t
    case TVar(name) =>
      if Scan(next).token.TLParen? {
        if NoWrapBeforeOp(next) { NextToo(next); }
        FunctionBuilds(Scan(next).rest);
      }
    case TLParen =>
      LevelBuilds(0, next);
      var e := ParseLevel(0, next);
      if NoWrapBeforeOp(e.rest) { NextToo(e.rest); }
    case TOp(Sub) =>
      LevelBuilds(0, next);
    case _ =>
  }

  predicate BuiltArgs(noWrap: bool, r: ParsedArgs) {
    && (forall a | a in r.args :: LeavesOk(a))
    && (noWrap ==> NoWrapBeforeOp(r.rest) && forall a | a in r.args :: Shape(a, 0))
  }

  lemma {:induction false} FunctionBuilds(s: string)
    ensures BuiltArgs(NoWrapBeforeOp(s), ParseFunction(s))
    decreases |s|, 20
  {
    hide Scan;
    if Scan(s).token.TRParen? {
      if NoWrapBeforeOp(s) { NextToo(s); }
    } else {
      ArgsBuild(NoWrapBeforeOp(s), [], s);
    }
  }

  lemma {:induction false} ArgsBuild(noWrap: bool, args: seq<Expr>, s: string)
    requires forall a | a in args :: LeavesOk(a)
    requires noWrap ==> NoWrapBeforeOp(s) && forall a | a in args :: Shape(a, 0)
    ensures BuiltArgs(noWrap, ParseArgs(args, s))
    decreases |s|, 19
  {
    hide Scan, NameOk, StrOk, TimeOk;
    LevelBuilds(0, s);
    var e := ParseLevel(0, s);
    if e.ok {
      var t, next := Scan(e.rest).token, Scan(e.rest).rest;
      if noWrap { NextToo(e.rest); }
      if t.TComma? || t.TSemicolon? {
        ArgsBuild(noWrap, args + [e.tree], next);
      }
    }
  }
}
