/**
  What one call of the scanner returns, as a function of the remaining input. The C string ends
  at its first NUL; reading at or past the end of the sequence yields that NUL.
 */
module Lexer {
  import opened Options
  import opened ClassAdSyntax

  const NUL: char := '\0'

  datatype CharClass = Space | Digit | Word | Name

  predicate IsAlpha(c: char) {
    'a' <= c <= 'z' || 'A' <= c <= 'Z'
  }

  predicate Has(k: CharClass, c: char) {
    match k
    case Space => c == ' ' || c == '\t' || c == '\n' || c == '\U{B}' || c == '\U{C}' || c == '\r'
    case Digit => '0' <= c <= '9'
    case Word => IsAlpha(c) || '0' <= c <= '9' || c == '_'
    case Name => IsAlpha(c) || '0' <= c <= '9' || c == '_' || c == '.'
  }

  function Peek(s: string, i: nat): char {
    if i < |s| then s[i] else NUL
  }

  /** Length of the longest prefix of characters of one class. */
  function Run(k: CharClass, s: string): (n: nat)
    ensures n <= |s|
    ensures forall i :: 0 <= i < n ==> Has(k, s[i])
    ensures !Has(k, Peek(s, n))
  {
    if s != "" && Has(k, s[0]) then 1 + Run(k, s[1..]) else 0
  }

  lemma {:induction false} RunConcat(k: CharClass, a: string, b: string)
    requires forall i :: 0 <= i < |a| ==> Has(k, a[i])
    requires !Has(k, Peek(b, 0))
    ensures Run(k, a + b) == |a|
  {
    if a == "" {
      assert a + b == b;
    } else {
      assert (a + b)[1..] == a[1..] + b;
      RunConcat(k, a[1..], b);
    }
  }

  /** Position of the first `stop`, or the length. */
  function Until(stop: char, s: string): (n: nat)
    ensures n <= |s| && (n < |s| ==> s[n] == stop)
    ensures forall i :: 0 <= i < n ==> s[i] != stop
  {
    if s == "" || s[0] == stop then 0 else 1 + Until(stop, s[1..])
  }

  lemma UntilConcat(stop: char, a: string, b: string)
    requires stop !in a
    ensures Until(stop, a + [stop] + b) == |a|
  {
    var s := a + [stop] + b;
    assert s[|a|] == stop;
    assert forall i :: 0 <= i < |a| ==> s[i] == a[i];
  }

  lemma Split(a: string, b: string)
    ensures (a + b)[..|a|] == a && (a + b)[|a|..] == b
  {
  }

  function Upper(c: char): char {
    if 'a' <= c <= 'z' then c - ('a' - 'A') else c
  }

  function UpperAll(s: string): (r: string)
    ensures |r| == |s| && forall i :: 0 <= i < |s| ==> r[i] == Upper(s[i])
  {
    seq(|s|, i requires 0 <= i < |s| => Upper(s[i]))
  }

  /** The keyword table; matching ignores case. */
  function Keyword(word: string): Option<Token> {
    var w := UpperAll(word);
    if w == "ERROR" then Some(TError)
    else if w == "UNDEFINED" then Some(TUndefined)
    else if w == "TRUE" || w == "T" then Some(TBool(true))
    else if w == "FALSE" || w == "F" then Some(TBool(false))
    else None
  }

  /** The value of a run of decimal digits. */
  function Number(digits: string): nat
    requires forall i :: 0 <= i < |digits| ==> Has(Digit, digits[i])
  {
    if digits == "" then 0
    else
      assert Has(Digit, digits[|digits| - 1]);
      10 * Number(digits[..|digits| - 1]) + (digits[|digits| - 1] as int - '0' as int)
  }

  /** `strtol` saturates at the largest 64-bit `long`; storing it in an `int` truncates. */
  function IntegerLiteral(digits: string): (v: int)
    requires forall i :: 0 <= i < |digits| ==> Has(Digit, digits[i])
    ensures INT_MIN <= v <= INT_MAX
  {
    ToInt32(if Number(digits) > LONG_MAX then LONG_MAX else Number(digits))
  }

  /** A backslash-quote pair stands for a quote unless the string or the line ends right after it. */
  predicate EscapedQuote(s: string) {
    && Peek(s, 0) == '\\' && Peek(s, 1) == '"'
    && Peek(s, 2) != NUL && Peek(s, 2) != '\n' && Peek(s, 2) != '\r'
  }

  datatype Body = Unterminated | Body(value: string, rest: string)

  /** A string literal from after its opening quote. */
  function StringBody(s: string): (b: Body)
    ensures b.Body? ==> |b.rest| < |s| && b.rest == s[|s| - |b.rest|..] && |b.value| < |s|
  {
    if Peek(s, 0) == NUL then Unterminated
    else if s[0] == '"' then Body("", s[1..])
    else if EscapedQuote(s) then
      match StringBody(s[2..])
      case Unterminated => Unterminated
      case Body(v, rest) => Body(['"'] + v, rest)
    else
      match StringBody(s[1..])
      case Unterminated => Unterminated
      case Body(v, rest) => Body([s[0]] + v, rest)
  }

  /** A time literal from after its opening apostrophe. */
  function TimeBody(s: string): (b: Body)
    ensures b.Body? ==> |b.rest| < |s| && b.rest == s[|s| - |b.rest|..] && |b.value| < |s|
  {
    if Peek(s, 0) == NUL then Unterminated
    else if s[0] == '\'' then Body("", s[1..])
    else
      match TimeBody(s[1..])
      case Unterminated => Unterminated
      case Body(v, rest) => Body([s[0]] + v, rest)
  }

  /** A token and the number of characters it takes. */
  datatype Lexeme = Lexeme(token: Token, len: nat)

  /** A keyword if the word up to the first character outside `[A-Za-z0-9_]` is one, else a name. */
  function ScanWord(s: string): (r: Lexeme)
    requires Has(Name, Peek(s, 0))
    ensures r.len <= |s|
    ensures r.token.TVar? ==> 0 < r.len
  {
    var w := Run(Word, s);
    match Keyword(s[..w])
    case Some(t) => Lexeme(t, w)
    case None => Lexeme(TVar(s[..Run(Name, s)]), Run(Name, s))
  }

  /** The decimal point, fraction and exponent that `strtod` takes after the leading digits. */
  function FloatTail(s: string): (n: nat)
    requires Peek(s, 0) == '.'
    ensures 0 < n <= |s|
  {
    var f := 1 + Run(Digit, s[1..]);
    var sign := if Peek(s, f + 1) == '+' || Peek(s, f + 1) == '-' then 1 else 0;
    if (Peek(s, f) == 'e' || Peek(s, f) == 'E') && Has(Digit, Peek(s, f + 1 + sign)) then
      f + 1 + sign + Run(Digit, s[f + 1 + sign..])
    else f
  }

  function ScanNumber(s: string): (r: Lexeme)
    requires Has(Digit, Peek(s, 0))
    ensures 0 < r.len <= |s|
    ensures r.token.TInt? || r.token.TFloat?
  {
    var n := Run(Digit, s);
    if Peek(s, n) == '.' then
      var m := n + FloatTail(s[n..]);
      Lexeme(TFloat(s[..m]), m)
    else Lexeme(TInt(IntegerLiteral(s[..n])), n)
  }

  /** A quoted literal; an unterminated one is an error token for its opening quote alone. */
  function ScanQuoted(s: string): (r: Lexeme)
    requires Peek(s, 0) == '"' || Peek(s, 0) == '\''
    ensures 0 < r.len <= |s|
    ensures r.token.TStr? || r.token.TTime? || r.token.TError?
  {
    match if s[0] == '"' then StringBody(s[1..]) else TimeBody(s[1..])
    case Unterminated => Lexeme(TError, 1)
    case Body(v, rest) => Lexeme(if s[0] == '"' then TStr(v) else TTime(v), |s| - |rest|)
  }

  /** An operator or a delimiter; the end of the input and unknown characters take no input. */
  function ScanOperator(s: string): (r: Lexeme)
    ensures r.len <= |s|
    ensures r.token.TOp? || r.token.TLParen? || r.token.TComma? || r.token.TSemicolon? ==> 0 < r.len
    ensures !r.token.TVar?
  {
    var c, d, e := Peek(s, 0), Peek(s, 1), Peek(s, 2);
    if c == '(' then Lexeme(TLParen, 1)
    else if c == ')' then Lexeme(TRParen, 1)
    else if c == '+' then Lexeme(TOp(Add), 1)
    else if c == '-' then Lexeme(TOp(Sub), 1)
    else if c == '*' then Lexeme(TOp(Mult), 1)
    else if c == '/' then Lexeme(TOp(Div), 1)
    else if c == '<' then if d == '=' then Lexeme(TOp(Le), 2) else Lexeme(TOp(Lt), 1)
    else if c == '>' then if d == '=' then Lexeme(TOp(Ge), 2) else Lexeme(TOp(Gt), 1)
    else if c == '&' then if d == '&' then Lexeme(TOp(And), 2) else Lexeme(TError, 1)
    else if c == '|' then if d == '|' then Lexeme(TOp(Or), 2) else Lexeme(TError, 1)
    else if c == NUL || c == '\n' then Lexeme(TEof, 0)
    else if c == '!' then if d == '=' then Lexeme(TOp(Neq), 2) else Lexeme(TError, 1)
    else if c == '=' then
      if d == '=' then Lexeme(TOp(Eq), 2)
      else if d == '?' && e == '=' then Lexeme(TOp(MetaEq), 3)
      else if d == '!' && e == '=' then Lexeme(TOp(MetaNeq), 3)
      else Lexeme(TAssign, 1)
    else if c == '$' then Lexeme(TMacro, 1)
    else if c == ',' then Lexeme(TComma, 1)
    else if c == ';' then Lexeme(TSemicolon, 1)
    else Lexeme(TError, 0)
  }

  /** One token from input that does not start with white space. */
  function ScanToken(s: string): (r: Lexeme)
    ensures r.len <= |s|
    ensures r.token.TOp? || r.token.TLParen? || r.token.TComma? || r.token.TSemicolon? || r.token.TVar?
            ==> 0 < r.len
  {
    var c := Peek(s, 0);
    if IsAlpha(c) || c == '_' || c == '.' then ScanWord(s)
    else if Has(Digit, c) then ScanNumber(s)
    else if c == '"' || c == '\'' then ScanQuoted(s)
    else ScanOperator(s)
  }

  datatype Scanned = Scanned(token: Token, rest: string)

  /** The scanner: skip white space, then take one token. */
  function Scan(s: string): (r: Scanned)
    ensures |r.rest| <= |s|
    ensures r.token.TOp? || r.token.TLParen? || r.token.TComma? || r.token.TSemicolon? || r.token.TVar?
            ==> |r.rest| < |s|
  {
    var s' := s[Run(Space, s)..];
    var Lexeme(t, n) := ScanToken(s');
    Scanned(t, s'[n..])
  }
}
