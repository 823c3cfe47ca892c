/** Printing a tree and parsing the text gives the tree back exactly when the parser could have built it. */
module RoundTrip {
  import opened Options
  import opened ClassAdSyntax
  import opened Lexer
  import opened ClassAdPrinter
  import opened ClassAdParser

  /***** Lexical limits: which leaves have a text that scans back *****/

  /** A name the scanner reads whole and does not take for a keyword. */
  predicate NameOk(n: string) {
    && n != "" && !Has(Digit, n[0])
    && (forall i :: 0 <= i < |n| ==> Has(Name, n[i]))
    && Keyword(n[..Run(Word, n)]).None?
  }

  /** No quote stands directly before a line end: `\"` is not an escape there. */
  predicate StrOk(v: string) {
    && (forall i :: 0 <= i < |v| ==> v[i] != NUL)
    && (forall i :: 0 <= i < |v| - 1 && v[i] == '"' ==> v[i + 1] != '\n' && v[i + 1] != '\r')
  }

  predicate TimeOk(v: string) {
    forall i :: 0 <= i < |v| ==> v[i] != NUL && v[i] != '\''
  }

  predicate EndsInBackslash(v: string) {
    v != "" && v[|v| - 1] == '\\'
  }

  predicate LineEnds(rest: string) {
    Peek(rest, 0) == NUL || Peek(rest, 0) == '\n' || Peek(rest, 0) == '\r'
  }

  /** Every name, string and time of the tree has a text that scans back; integers fit an `int`. */
  predicate LeavesOk(e: Expr) {
    match e
    case Var(n) => NameOk(n)
    case Int(v) => INT_MIN <= v <= INT_MAX
    case Str(v) => StrOk(v)
    case Time(v) => TimeOk(v)
    case Paren(x) => LeavesOk(x)
    case Neg(x) => LeavesOk(x)
    case Bin(_, l, r) => LeavesOk(l) && LeavesOk(r)
    case Func(fn, args) => NameOk(fn) && forall a | a in args :: LeavesOk(a)
    case _ => true
  }

  /** A string ending in a backslash is the last token of the text; `last` says the text ends with this tree. */
  predicate BackslashLast(e: Expr, last: bool) {
    match e
    case Str(v) => EndsInBackslash(v) ==> last
    case Paren(x) => BackslashLast(x, false)
    case Neg(x) => BackslashLast(x, last)
    case Bin(_, l, r) => BackslashLast(l, false) && BackslashLast(r, last)
    case Func(_, args) => forall a | a in args :: BackslashLast(a, false)
    case _ => true
  }

  /** The lexical limits of the round trip. */
  predicate LexOk(e: Expr, last: bool) {
    FloatFree(e) && LeavesOk(e) && BackslashLast(e, last)
  }

  /***** Grammatical shape *****/

  /** The printed text ends in the operand of a unary minus, which takes in whatever operator follows. */
  predicate Open(e: Expr) {
    match e
    case Neg(_) => true
    case Int(v) => v < 0
    case Float(negative, _) => negative
    case Bin(_, _, r) => Open(r)
    case _ => false
  }

  /** The trees that rung `k` of the ladder builds. */
  predicate Shape(e: Expr, k: nat) {
    match e
    case Paren(x) => Shape(x, 0)
    case Neg(x) => Shape(x, 0) && !x.Int? && !x.Float?
    case Bin(op, l, r) => k <= Level(op) && Shape(l, Level(op)) && !Open(l) && Shape(r, Level(op) + 1)
    case Func(_, args) => forall a | a in args :: Shape(a, 0)
    case _ => true
  }

  /***** Scanning printed tokens *****/

  /** White space in front does not matter. */
  lemma SkipSpace(s: string)
    ensures Scan(" " + s) == Scan(s)
  {
    assert (" " + s)[1..] == s;
    assert (" " + s)[Run(Space, " " + s)..] == s[Run(Space, s)..];
  }

  lemma SkipNewline(s: string)
    ensures Scan("\n" + s) == Scan(s)
  {
    assert ("\n" + s)[1..] == s;
    assert ("\n" + s)[Run(Space, "\n" + s)..] == s[Run(Space, s)..];
  }

  lemma NoSpace(s: string)
    requires !Has(Space, Peek(s, 0))
    ensures Scan(s) == Scanned(ScanToken(s).token, s[ScanToken(s).len..])
  {
    assert s[0..] == s;
  }

  predicate Delimiter(s: string) {
    var c := Peek(s, 0);
    c == NUL || c == ' ' || c == ')' || c == ',' || c == '('
  }

  lemma ScanName(n: string, rest: string)
    requires NameOk(n) && Delimiter(rest)
    ensures Scan(n + rest) == Scanned(TVar(n), rest)
  {
    hide ScanOperator, ScanNumber, ScanQuoted, Keyword;
    RunConcat(Name, n, rest);
    Split(n, rest);
    assert Has(Name, n[0]);
    NoSpace(n + rest);
    WordOfName(n, rest);
  }

  lemma {:induction false} WordOfName(n: string, rest: string)
    requires !Has(Word, Peek(rest, 0))
    ensures Run(Word, n + rest) == Run(Word, n)
    ensures (n + rest)[..Run(Word, n)] == n[..Run(Word, n)]
  {
    var w := Run(Word, n);
    assert n + rest == n[..w] + (n[w..] + rest);
    assert w < |n| ==> Peek(n[w..] + rest, 0) == n[w];
    RunConcat(Word, n[..w], n[w..] + rest);
  }

  lemma ScanKeyword(word: string, t: Token, rest: string)
    requires word != "" && Keyword(word) == Some(t) && Delimiter(rest)
    requires forall i :: 0 <= i < |word| ==> IsAlpha(word[i])
    ensures Scan(word + rest) == Scanned(t, rest)
  {
    hide ScanOperator, ScanNumber, ScanQuoted, Keyword;
    RunConcat(Word, word, rest);
    Split(word, rest);
    NoSpace(word + rest);
  }

  lemma KeywordTexts()
    ensures Keyword("TRUE") == Some(TBool(true)) && Keyword("FALSE") == Some(TBool(false))
    ensures Keyword("UNDEFINED") == Some(TUndefined) && Keyword("ERROR") == Some(TError)
  {
    assert UpperAll("TRUE") == "TRUE" && UpperAll("FALSE") == "FALSE";
    assert UpperAll("UNDEFINED") == "UNDEFINED" && UpperAll("ERROR") == "ERROR";
  }

  lemma {:induction false} DecimalReads(n: nat)
    ensures var d := Decimal(n);
            d != "" && (forall i :: 0 <= i < |d| ==> Has(Digit, d[i])) && Number(d) == n
    decreases n
  {
    var d := Decimal(n);
    if n < 10 {
      assert d[..|d| - 1] == "";
      assert d[0] as int - '0' as int == n;
    } else {
      DecimalReads(n / 10);
      assert d[..|d| - 1] == Decimal(n / 10);
      assert d[|d| - 1] as int - '0' as int == n % 10;
    }
  }

  lemma ScanInteger(n: nat, rest: string)
    requires n <= LONG_MAX && Delimiter(rest)
    ensures Scan(Decimal(n) + rest) == Scanned(TInt(ToInt32(n)), rest)
  {
    hide ScanOperator, ScanWord, ScanQuoted, FloatTail, Decimal, Number;
    var d := Decimal(n);
    DecimalReads(n);
    RunConcat(Digit, d, rest);
    Split(d, rest);
    assert Has(Digit, d[0]);
    NoSpace(d + rest);
  }

  /** One character of the literal: `head` is its printed form. */
  lemma StringBodyStep(c: char, tail: string)
    requires c != NUL && StringBody(tail).Body?
    requires c == '"' ==> Peek(tail, 0) != NUL && Peek(tail, 0) != '\n' && Peek(tail, 0) != '\r'
    requires c == '\\' ==> !EscapedQuote([c] + tail)
    ensures var head := if c == '"' then "\\\"" else [c];
            StringBody(head + tail) == Body([c] + StringBody(tail).value, StringBody(tail).rest)
  {
    if c == '"' {
      assert ("\\\"" + tail)[2..] == tail;
    } else {
      assert ([c] + tail)[1..] == tail;
    }
  }

  lemma {:induction false} StringBodyReads(v: string, rest: string)
    requires StrOk(v)
    requires EndsInBackslash(v) ==> LineEnds(rest)
    ensures StringBody(Escape(v) + ("\"" + rest)) == Body(v, rest)
    decreases |v|
  {
    hide StringBody;
    var end := "\"" + rest;
    if v == "" {
      assert Escape(v) + end == end;
      StringBodyEnd(rest);
    } else {
      var tail := Escape(v[1..]) + end;
      StringBodyReads(v[1..], rest);
      EscapeStep(v, end);
      NextPrinted(v, rest);
      StringBodyStep(v[0], tail);
      assert v == [v[0]] + v[1..];
    }
  }

  lemma StringBodyEnd(rest: string)
    ensures StringBody("\"" + rest) == Body("", rest)
  {
    Split("\"", rest);
  }

  lemma EscapeStep(v: string, end: string)
    requires v != ""
    ensures Escape(v) + end == (if v[0] == '"' then "\\\"" else [v[0]]) + (Escape(v[1..]) + end)
  {
  }

  /** The character printed after the first one of a string, and why it does not spoil the scan. */
  lemma NextPrinted(v: string, rest: string)
    requires v != "" && StrOk(v)
    requires EndsInBackslash(v) ==> LineEnds(rest)
    ensures var tail := Escape(v[1..]) + ("\"" + rest);
            && (v[0] == '"' ==> Peek(tail, 0) != NUL && Peek(tail, 0) != '\n' && Peek(tail, 0) != '\r')
            && (v[0] == '\\' ==> !EscapedQuote([v[0]] + tail))
  {
    var tail := Escape(v[1..]) + ("\"" + rest);
    assert Peek([v[0]] + tail, 1) == Peek(tail, 0);
    if |v| == 1 {
      assert tail == "\"" + rest;
      assert Peek([v[0]] + tail, 2) == Peek(rest, 0);
    } else {
      assert v[1..][0] == v[1];
      assert Peek(tail, 0) == if v[1] == '"' then '\\' else v[1];
    }
  }

  /** A string that ends in a backslash with more text on its line behind it does not scan back: its closing quote is taken as escaped. */
  lemma {:induction false} StringBodyRunsOn(v: string, rest: string)
    requires StrOk(v) && EndsInBackslash(v)
    requires !LineEnds(rest)
    ensures var b := StringBody(Escape(v) + ("\"" + rest)); b.Body? ==> b.value != v
    decreases |v|
  {
    var end := "\"" + rest;
    var text, tail := Escape(v) + end, Escape(v[1..]) + end;
    EscapeStep(v, end);
    if |v| == 1 {
      assert tail == end && text == "\\" + end;
      assert EscapedQuote(text);
      assert StringBody(text).Body? ==> StringBody(text).value[0] == '"';
    } else {
      assert v[1..][0] == v[1];
      assert tail[0] == if v[1] == '"' then '\\' else v[1];
      StringBodyRunsOn(v[1..], rest);
      FirstOfBody(v[0], tail);
    }
  }

  /** The body of a text is the first character and the body of what follows. */
  lemma FirstOfBody(c: char, tail: string)
    requires c != NUL
    requires c == '"' ==> Peek(tail, 0) != NUL && Peek(tail, 0) != '\n' && Peek(tail, 0) != '\r'
    requires c == '\\' ==> !EscapedQuote([c] + tail)
    ensures var b := StringBody((if c == '"' then "\\\"" else [c]) + tail);
            b.Body? ==> StringBody(tail).Body? && b.value == [c] + StringBody(tail).value
  {
    if c == '"' {
      assert ("\\\"" + tail)[2..] == tail;
    } else {
      assert ([c] + tail)[1..] == tail;
    }
  }

  lemma {:induction false} TimeBodyReads(v: string, rest: string)
    requires TimeOk(v)
    ensures TimeBody(v + ("'" + rest)) == Body(v, rest)
    decreases |v|
  {
    var end := "'" + rest;
    Split("'", rest);
    if v == "" {
      assert v + end == end;
    } else {
      assert (v + end)[1..] == v[1..] + end;
      TimeBodyReads(v[1..], rest);
      assert v == [v[0]] + v[1..];
    }
  }

  /** A quoted literal whose body reads back as `v`. */
  lemma ScanBody(q: char, body: string, v: string, rest: string)
    requires q == '"' || q == '\''
    requires (if q == '"' then StringBody(body) else TimeBody(body)) == Body(v, rest)
    ensures Scan([q] + body) == Scanned(if q == '"' then TStr(v) else TTime(v), rest)
  {
    hide Scan, StringBody, TimeBody, ScanOperator, ScanWord, ScanNumber;
    var s := [q] + body;
    Split([q], body);
    NoSpace(s);
    assert s[|s| - |rest|..] == body[|body| - |rest|..];
  }

  lemma ScanQuotedText(e: Expr, last: bool, rest: string)
    requires e.Str? || e.Time?
    requires LexOk(e, last) && (last ==> Peek(rest, 0) == NUL)
    ensures Scan(Print(e) + rest) == Scanned(if e.Str? then TStr(e.str) else TTime(e.time), rest)
  {
    hide Scan, StringBody, TimeBody, Escape;
    if e.Str? {
      var body := Escape(e.str) + ("\"" + rest);
      assert Print(e) + rest == ['"'] + body;
      StringBodyReads(e.str, rest);
      ScanBody('"', body, e.str, rest);
    } else {
      var body := e.time + ("'" + rest);
      assert Print(e) + rest == ['\''] + body;
      TimeBodyReads(e.time, rest);
      ScanBody('\'', body, e.time, rest);
    }
  }

  lemma ScanDelimiter(c: char, t: Token, rest: string)
    requires (c == '(' && t == TLParen) || (c == ')' && t == TRParen) || (c == ',' && t == TComma)
    ensures Scan([c] + rest) == Scanned(t, rest)
  {
    var s := [c] + rest;
    NoSpace(s);
    assert s[1..] == rest;
  }

  lemma ScanMinus(rest: string)
    ensures Scan("-" + rest) == Scanned(TOp(Sub), rest)
  {
    NoSpace("-" + rest);
    assert ("-" + rest)[1..] == rest;
  }

  lemma ScanEnd()
    ensures Scan("") == Scanned(TEof, "")
  {
    assert ScanToken("") == Lexeme(TEof, 0) by {
      hide ScanWord, ScanNumber, ScanQuoted;
    }
    hide ScanToken;
    NoSpace("");
  }

  lemma OperatorReads(op: BinOp, rest: string)
    ensures ScanToken(OpSymbol(op) + (" " + rest)) == Lexeme(TOp(op), |OpSymbol(op)|)
    ensures !Has(Space, Peek(OpSymbol(op) + (" " + rest), 0))
  {
    var sym := OpSymbol(op);
    var s := sym + (" " + rest);
    assert s[0] == sym[0];
    assert s[1] == if |sym| > 1 then sym[1] else ' ';
    assert |sym| == 3 ==> s[2] == sym[2];
  }

  /** A printed operator scans to itself and leaves the space behind it. */
  lemma ScanOpText(op: BinOp, rest: string)
    ensures Scan(OpText(op) + rest) == Scanned(TOp(op), " " + rest)
  {
    hide Scan, ScanToken, OpSymbol;
    var s := OpSymbol(op) + (" " + rest);
    assert OpText(op) + rest == " " + s;
    SkipSpace(s);
    OperatorReads(op, rest);
    NoSpace(s);
    Split(OpSymbol(op), " " + rest);
  }

  /***** Parsing printed trees *****/

  /** An operand that no operator of rung `k` or tighter follows is what every rung down to `k` returns. */
  lemma {:induction false} Settle(k: nat, e: Expr, s: string, rest: string)
    requires k <= FACTOR
    requires ParseFactor(s) == Parsed(true, e, rest)
    requires Scan(rest).token.TOp? ==> Level(Scan(rest).token.op) < k
    ensures ParseLevel(k, s) == Parsed(true, e, rest)
    decreases FACTOR - k
  {
    hide Scan;
    if k < FACTOR {
      Settle(k + 1, e, s, rest);
    }
  }

  /** Nothing parses that does not start with a factor. */
  lemma {:induction false} StartsWithFactor(k: nat, s: string)
    requires k <= FACTOR && ParseLevel(k, s).ok
    ensures ParseFactor(s).ok
    decreases FACTOR - k
  {
    hide Scan;
    if k < FACTOR {
      StartsWithFactor(k + 1, s);
    }
  }

  /** What may come after a tree printed at rung `k`. */
  predicate Follows(e: Expr, k: nat, last: bool, rest: string) {
    var t := Scan(rest).token;
    && Delimiter(rest) && Peek(rest, 0) != '('
    && !t.TLParen?
    && (last ==> Peek(rest, 0) == NUL)
    && (t.TOp? ==> Level(t.op) <= k && !Open(e))
  }

  /** The parse of a printed tree followed by `rest`: the tree, then what rung `k` makes of `rest`. */
  function Continue(k: nat, e: Expr, rest: string): Parsed
    requires k <= FACTOR
  {
    if k == FACTOR then Parsed(true, e, rest) else ParseMore(k, e, rest)
  }

  lemma {:induction false} Reads(e: Expr, k: nat, last: bool, s: string, rest: string)
    requires k <= FACTOR && LexOk(e, last) && Shape(e, k) && Follows(e, k, last, rest)
    requires Scan(s) == Scan(Print(e) + rest)
    ensures ParseLevel(k, s) == Continue(k, e, rest)
    decreases e, 2, FACTOR - k
  {
    hide Scan;
    if e.Bin? && k == Level(e.op) {
      ReadsBin(e, last, s, rest);
    } else if k < FACTOR {
      Reads(e, k + 1, last, s, rest);
    } else {
      ReadsFactor(e, last, s, rest);
    }
  }

  lemma {:induction false} ReadsBin(e: Expr, last: bool, s: string, rest: string)
    requires e.Bin? && LexOk(e, last) && Shape(e, Level(e.op)) && Follows(e, Level(e.op), last, rest)
    requires Scan(s) == Scan(Print(e) + rest)
    ensures ParseLevel(Level(e.op), s) == ParseMore(Level(e.op), e, rest)
    decreases e, 0
  {
    hide Scan, OpSymbol;
    var k := Level(e.op);
    var right := Print(e.right) + rest;
    var tail := OpText(e.op) + right;
    assert Print(e) + rest == Print(e.left) + tail;
    ScanOpText(e.op, right);
    Reads(e.left, k, false, s, tail);
    SkipSpace(right);
    Reads(e.right, k + 1, last, " " + right, rest);
  }

  lemma {:induction false} ReadsFactor(e: Expr, last: bool, s: string, rest: string)
    requires !e.Bin? && LexOk(e, last) && Shape(e, FACTOR) && Follows(e, FACTOR, last, rest)
    requires Scan(s) == Scan(Print(e) + rest)
    ensures ParseFactor(s) == Parsed(true, e, rest)
    decreases e, 1
  {
    hide Scan, NameOk, StrOk, TimeOk;
    match e
    case Paren(_) => ReadsParen(e, last, s, rest);
    case Neg(_) => ReadsNeg(e, last, s, rest);
    case Func(_, _) => ReadsCall(e, last, s, rest);
    case _ => ReadsLeaf(e, last, s, rest);
  }

  lemma {:induction false} ReadsParen(e: Expr, last: bool, s: string, rest: string)
    requires e.Paren? && LexOk(e, last) && Shape(e, FACTOR)
    requires Scan(s) == Scan(Print(e) + rest)
    ensures ParseFactor(s) == Parsed(true, e, rest)
    decreases e, 0
  {
    hide Scan;
    var inner := Print(e.inner) + (")" + rest);
    assert Print(e) + rest == "(" + inner;
    ScanDelimiter('(', TLParen, inner);
    ScanDelimiter(')', TRParen, rest);
    Reads(e.inner, 0, false, inner, ")" + rest);
  }

  lemma {:induction false} ReadsNeg(e: Expr, last: bool, s: string, rest: string)
    requires e.Neg? && LexOk(e, last) && Shape(e, FACTOR) && Follows(e, FACTOR, last, rest)
    requires Scan(s) == Scan(Print(e) + rest)
    ensures ParseFactor(s) == Parsed(true, e, rest)
    decreases e, 0
  {
    hide Scan, OpText;
    var arg := Print(e.arg) + rest;
    assert Print(e) + rest == OpText(Sub) + arg;
    ScanOpText(Sub, arg);
    SkipSpace(arg);
    Reads(e.arg, 0, last, " " + arg, rest);
  }

  lemma {:induction false} ReadsCall(e: Expr, last: bool, s: string, rest: string)
    requires e.Func? && LexOk(e, last) && Shape(e, FACTOR)
    requires Scan(s) == Scan(Print(e) + rest)
    ensures ParseFactor(s) == Parsed(true, e, rest)
    decreases e, 0
  {
    hide Scan, NameOk;
    var inner := PrintArgs(e.args) + (")" + rest);
    assert Print(e) + rest == e.fn + ("(" + inner);
    ScanName(e.fn, "(" + inner);
    ScanDelimiter('(', TLParen, inner);
    if e.args == [] {
      assert inner == ")" + rest;
      ScanDelimiter(')', TRParen, rest);
    } else {
      ReadsArgs([], e.args, inner, rest);
      assert [] + e.args == e.args;
    }
  }

  lemma ReadsInteger(e: Expr, s: string, rest: string)
    requires e.Int? && INT_MIN <= e.value <= INT_MAX && Follows(e, FACTOR, false, rest)
    requires Scan(s) == Scan(Print(e) + rest)
    ensures ParseFactor(s) == Parsed(true, e, rest)
  {
    hide Scan, Decimal;
    if e.value >= 0 {
      ScanInteger(e.value, rest);
    } else {
      var digits := Decimal(-e.value) + rest;
      assert Print(e) + rest == "-" + digits;
      ScanMinus(digits);
      ScanInteger(-e.value, rest);
      Settle(0, Int(ToInt32(-e.value)), digits, rest);
    }
  }

  lemma ReadsLeaf(e: Expr, last: bool, s: string, rest: string)
    requires !e.Bin? && !e.Paren? && !e.Neg? && !e.Func?
    requires LexOk(e, last) && Follows(e, FACTOR, last, rest)
    requires Scan(s) == Scan(Print(e) + rest)
    ensures ParseFactor(s) == Parsed(true, e, rest)
  {
    hide Scan, Keyword;
    match e
    case Var(n) => ScanName(n, rest);
    case Int(_) => ReadsInteger(e, s, rest);
    case Str(_) => ScanQuotedText(e, last, rest);
    case Time(_) => ScanQuotedText(e, last, rest);
    case Bool(b) =>
      KeywordTexts();
      ScanKeyword(if b then "TRUE" else "FALSE", TBool(b), rest);
    case Undefined => KeywordTexts(); ScanKeyword("UNDEFINED", TUndefined, rest);
    case Error => KeywordTexts(); ScanKeyword("ERROR", TError, rest);
  }

  lemma {:induction false} ReadsArgs(done: seq<Expr>, args: seq<Expr>, s: string, rest: string)
    requires args != [] && forall a | a in args :: FloatFree(a) && LexOk(a, false) && Shape(a, 0)
    requires Scan(s) == Scan(PrintArgs(args) + (")" + rest))
    ensures ParseArgs(done, s) == ParsedArgs(done + args, rest)
    ensures !Scan(s).token.TRParen?
    decreases args, 0
  {
    hide Scan, LexOk, Shape;
    if |args| == 1 {
      var tail := ")" + rest;
      assert PrintArgs(args) + tail == Print(args[0]) + tail && args == [args[0]];
      ScanDelimiter(')', TRParen, rest);
      ReadsArg(args[0], s, tail);
    } else {
      var next := PrintArgs(args[1..]) + (")" + rest);
      var tail := "," + (" " + next);
      assert PrintArgs(args) + (")" + rest) == Print(args[0]) + tail;
      ScanDelimiter(',', TComma, " " + next);
      SkipSpace(next);
      ReadsArg(args[0], s, tail);
      ReadsArgs(done + [args[0]], args[1..], " " + next, rest);
      assert done + [args[0]] + args[1..] == done + args;
    }
  }

  lemma {:induction false} ReadsArg(e: Expr, s: string, tail: string)
    requires LexOk(e, false) && Shape(e, 0) && Scan(s) == Scan(Print(e) + tail)
    requires Delimiter(tail) && Peek(tail, 0) != '(' && !Scan(tail).token.TOp? && !Scan(tail).token.TLParen?
    ensures ParseLevel(0, s) == Parsed(true, e, tail)
    ensures !Scan(s).token.TRParen?
    decreases e, 3
  {
    hide Scan;
    Reads(e, 0, false, s, tail);
    StartsWithFactor(0, s);
  }

  /** Printing then parsing is the identity on every tree of the parser's shape within the lexical limits. */
  lemma PrintThenParse(e: Expr)
    requires LexOk(e, true) && Shape(e, 0)
    ensures ParseRval(Print(e)) == Some(e)
  {
    hide Scan;
    assert Print(e) + "" == Print(e);
    ScanEnd();
    Reads(e, 0, true, Print(e), "");
  }
}
