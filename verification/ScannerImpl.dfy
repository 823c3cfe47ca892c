/** The scanner as it runs: a cursor over the text and a token whose string buffer is refilled in place. */
module ScannerImpl {
  import opened ClassAdSyntax
  import opened Lexer

  /** The keyword table in the order it is searched. */
  const KEYWORDS: seq<(string, Token)> := [
    ("ERROR", TError), ("UNDEFINED", TUndefined),
    ("TRUE", TBool(true)), ("T", TBool(true)), ("FALSE", TBool(false)), ("F", TBool(false))]

  /** The test of the table search: the keyword in any case, and no word character behind it. */
  predicate Matches(s: string, kw: string) {
    |kw| <= |s| && UpperAll(s[..|kw|]) == kw && !Has(Word, Peek(s, |kw|))
  }

  lemma MatchesWord(s: string, kw: string)
    requires forall i :: 0 <= i < |kw| ==> 'A' <= kw[i] <= 'Z'
    ensures Matches(s, kw) <==> UpperAll(s[..Run(Word, s)]) == kw
  {
    if Matches(s, kw) {
      var head, tail := s[..|kw|], s[|kw|..];
      assert forall i :: 0 <= i < |kw| ==> Upper(head[i]) == kw[i];
      assert s == head + tail && Peek(tail, 0) == Peek(s, |kw|);
      RunConcat(Word, head, tail);
    }
  }

  /** The longest run is found by counting. */
  lemma {:induction false} RunAt(k: CharClass, s: string, n: nat)
    requires n <= |s| && (forall i :: 0 <= i < n ==> Has(k, s[i])) && !Has(k, Peek(s, n))
    ensures Run(k, s) == n
  {
    if n > 0 {
      assert Peek(s[1..], n - 1) == Peek(s, n);
      RunAt(k, s[1..], n - 1);
    }
  }

  /** One step of a string literal at position `p` of the text. */
  lemma StringBodyUnfolds(text: string, p: nat)
    requires p <= |text|
    ensures Peek(text, p) == NUL ==> StringBody(text[p..]).Unterminated?
    ensures Peek(text, p) == '"' ==> StringBody(text[p..]) == Body("", text[p + 1..])
    ensures Peek(text, p) != NUL && Peek(text, p) != '"' ==>
              var n := if EscapedQuote(text[p..]) then 2 else 1;
              && p + n <= |text|
              && (StringBody(text[p..]).Body? <==> StringBody(text[p + n..]).Body?)
              && (StringBody(text[p..]).Body? ==>
                    && StringBody(text[p..]).value == [text[p + n - 1]] + StringBody(text[p + n..]).value
                    && StringBody(text[p..]).rest == StringBody(text[p + n..]).rest)
  {
    var s := text[p..];
    assert Peek(s, 0) == Peek(text, p);
    assert |s| > 0 ==> s[1..] == text[p + 1..];
    assert |s| > 1 ==> s[2..] == text[p + 2..];
  }

  /** A time literal ends at its first apostrophe, if that comes before the end of the text. */
  lemma {:induction false} TimeBodyAt(s: string, n: nat)
    requires n <= |s| && (Peek(s, n) == '\'' || Peek(s, n) == NUL)
    requires forall i :: 0 <= i < n ==> s[i] != '\'' && s[i] != NUL
    ensures TimeBody(s) == if Peek(s, n) == NUL then Unterminated else Body(s[..n], s[n + 1..])
  {
    if n > 0 {
      assert Peek(s[1..], n - 1) == Peek(s, n);
      TimeBodyAt(s[1..], n - 1);
      assert [s[0]] + s[1..][..n - 1] == s[..n];
      assert Peek(s, n) != NUL ==> s[1..][n..] == s[n + 1..];
    }
  }

  class Scanner {
    const text: string
    var input: nat
    var token: Token
    var strVal: array<char>
    var strValLength: nat

    ghost predicate Valid()
      reads this
    {
      input <= |text| && strVal.Length == strValLength + 1
    }

    constructor (text: string)
      ensures Valid() && this.text == text && input == 0 && fresh(strVal)
    {
      this.text := text;
      input := 0;
      token := TEof;
      strVal := new char[1025];
      strValLength := 1024;
    }

    /** The unread input. */
    function Rest(): string
      requires input <= |text|
      reads this
    {
      text[input..]
    }

    /** Make room for `n` characters and a terminator. */
    method Reserve(n: nat)
      requires Valid()
      modifies this`strVal, this`strValLength
      ensures Valid() && n <= strValLength
      ensures strVal == old(strVal) || fresh(strVal)
    {
      if n > strValLength {
        strVal := new char[n + 1];
        strValLength := n;
      }
    }

    /** Count a run of one character class from the cursor. */
    method CountRun(k: CharClass) returns (n: nat)
      requires Valid()
      ensures n == Run(k, Rest())
    {
      n := 0;
      while input + n < |text| && Has(k, text[input + n])
        invariant input + n <= |text|
        invariant forall i :: 0 <= i < n ==> Has(k, Rest()[i])
      {
        n := n + 1;
      }
      RunAt(k, Rest(), n);
    }

    method ScanKeyword() returns (found: bool)
      requires Valid() && Has(Name, Peek(Rest(), 0))
      modifies this`input, this`token
      ensures Valid()
      ensures var w := Run(Word, old(Rest()));
              var kw := Keyword(old(Rest())[..w]);
              && found == kw.Some?
              && (found ==> token == kw.value && input == old(input) + w)
              && (!found ==> input == old(input))
    {
      var i := 0;
      while i < |KEYWORDS|
        invariant i <= |KEYWORDS| && Valid() && input == old(input)
        invariant forall j :: 0 <= j < i ==> UpperAll(Rest()[..Run(Word, Rest())]) != KEYWORDS[j].0
      {
        var (kw, t) := KEYWORDS[i];
        MatchesWord(Rest(), kw);
        if Matches(Rest(), kw) {
          token := t;
          input := input + |kw|;
          assert |UpperAll(old(Rest())[..Run(Word, old(Rest()))])| == |kw|;
          return true;
        }
        i := i + 1;
      }
      assert KEYWORDS[0].0 == "ERROR" && KEYWORDS[1].0 == "UNDEFINED" && KEYWORDS[2].0 == "TRUE"
          && KEYWORDS[3].0 == "T" && KEYWORDS[4].0 == "FALSE" && KEYWORDS[5].0 == "F";
      return false;
    }

    method ScanVariable()
      requires Valid() && Has(Name, Peek(Rest(), 0))
      modifies this, strVal
      ensures Valid() && (strVal == old(strVal) || fresh(strVal))
      ensures var n := Run(Name, old(Rest()));
              input == old(input) + n && token == TVar(old(Rest())[..n])
    {
      ghost var s := Rest();
      var n := CountRun(Name);
      Reserve(n);
      CopyText(n);
      token := TVar(strVal[..n]);
      input := input + n;
    }

    method ScanNumber()
      requires Valid() && Has(Digit, Peek(Rest(), 0))
      modifies this`input, this`token
      ensures Valid()
      ensures var l := Lexer.ScanNumber(old(Rest()));
              token == l.token && input == old(input) + l.len
    {
      var n := CountRun(Digit);
      if Peek(text, input + n) == '.' {
        var m := n + FloatTail(text[input..][n..]);
        token := TFloat(text[input..][..m]);
        input := input + m;
      } else {
        token := TInt(IntegerLiteral(text[input..][..n]));
        input := input + n;
      }
    }

    /** First pass over a string literal: its length, unless it is not terminated. */
    method CountString() returns (terminated: bool, length: nat)
      requires Valid()
      ensures var b := StringBody(Rest());
              terminated == b.Body? && (terminated ==> length == |b.value|)
    {
      hide StringBody;
      ghost var whole := StringBody(Rest());
      var s := input;
      length := 0;
      while Peek(text, s) != '"' && Peek(text, s) != NUL
        invariant input <= s <= |text|
        invariant whole.Body? == StringBody(text[s..]).Body?
        invariant whole.Body? ==> |whole.value| == length + |StringBody(text[s..]).value|
        decreases |text| - s
      {
        StringBodyUnfolds(text, s);
        if EscapedQuote(text[s..]) {
          s := s + 1;
        }
        s := s + 1;
        length := length + 1;
      }
      StringBodyUnfolds(text, s);
      terminated := Peek(text, s) == '"';
    }

    /** Copy one character of the literal, dropping the backslash of an escaped quote. */
    method CopyOne(dest: nat)
      requires Valid() && dest < strVal.Length && StringBody(Rest()).Body? && Peek(text, input) != '"'
      modifies this`input, strVal
      ensures Valid() && strVal[..dest] == old(strVal[..dest]) && input > old(input)
      ensures StringBody(Rest()).Body? && StringBody(Rest()).rest == StringBody(old(Rest())).rest
      ensures StringBody(old(Rest())).value == [strVal[dest]] + StringBody(Rest()).value
    {
      hide StringBody;
      StringBodyUnfolds(text, input);
      if EscapedQuote(text[input..]) {
        input := input + 1;
      }
      strVal[dest] := text[input];
      input := input + 1;
    }

    /** Second pass: copy the counted characters; every write lands inside the buffer. */
    method CopyString(length: nat)
      requires Valid() && StringBody(Rest()).Body?
      requires length == |StringBody(Rest()).value| <= strValLength
      modifies this`input, strVal
      ensures Valid() && strVal[..length] == StringBody(old(Rest())).value
      ensures Rest() == StringBody(old(Rest())).rest
    {
      hide StringBody;
      ghost var whole := StringBody(Rest());
      var dest := 0;
      while Peek(text, input) != '"' && Peek(text, input) != NUL
        invariant Valid() && StringBody(Rest()).Body? && StringBody(Rest()).rest == whole.rest
        invariant dest <= length && whole.value == strVal[..dest] + StringBody(Rest()).value
        decreases |text| - input
      {
        CopyOne(dest);
        assert strVal[..dest + 1] == strVal[..dest] + [strVal[dest]];
        dest := dest + 1;
      }
      StringBodyUnfolds(text, input);
      strVal[length] := NUL;
      input := input + 1;
    }

    method ScanString()
      requires Valid() && Peek(Rest(), 0) == '"'
      modifies this, strVal
      ensures Valid() && (strVal == old(strVal) || fresh(strVal))
      ensures var l := ScanQuoted(old(Rest()));
              token == l.token && input == old(input) + l.len
    {
      hide StringBody, TimeBody;
      input := input + 1;
      assert Rest() == old(Rest())[1..];
      var terminated, length := CountString();
      if terminated {
        Reserve(length);
        CopyString(length);
        token := TStr(strVal[..length]);
      } else {
        token := TError;
      }
    }

    /** The same two passes for a time literal, which has no escapes. */
    method CountTime() returns (terminated: bool, length: nat)
      requires Valid()
      ensures var b := TimeBody(Rest());
              && terminated == b.Body?
              && (terminated ==>
                    && input + length < |text| && text[input + length] == '\''
                    && b.value == text[input..input + length] && b.rest == text[input + length + 1..])
    {
      hide TimeBody;
      ghost var s := Rest();
      length := 0;
      while Peek(text, input + length) != '\'' && Peek(text, input + length) != NUL
        invariant input + length <= |text|
        invariant forall i :: 0 <= i < length ==> s[i] != '\'' && s[i] != NUL
        decreases |text| - length
      {
        length := length + 1;
      }
      TimeBodyAt(s, length);
      terminated := Peek(text, input + length) == '\'';
    }

    method ScanTime()
      requires Valid() && Peek(Rest(), 0) == '\''
      modifies this, strVal
      ensures Valid() && (strVal == old(strVal) || fresh(strVal))
      ensures var l := ScanQuoted(old(Rest()));
              token == l.token && input == old(input) + l.len
    {
      hide StringBody, TimeBody;
      input := input + 1;
      assert Rest() == old(Rest())[1..];
      var terminated, length := CountTime();
      if terminated {
        Reserve(length);
        CopyText(length);
        token := TTime(strVal[..length]);
        input := input + length + 1;
      } else {
        token := TError;
      }
    }

    /** Copy `n` characters from the cursor into the buffer and terminate them. */
    method CopyText(n: nat)
      requires Valid() && n <= strValLength && input + n <= |text|
      modifies strVal
      ensures strVal[..n] == text[input..input + n]
    {
      var i := 0;
      while i < n
        invariant i <= n && strVal[..i] == text[input..input + i]
      {
        strVal[i] := text[input + i];
        i := i + 1;
      }
      strVal[n] := NUL;
    }

    /** Dispatch on the first character. */
    method ScanOne()
      requires Valid()
      modifies this, strVal
      ensures Valid() && (strVal == old(strVal) || fresh(strVal))
      ensures var l := ScanToken(old(Rest()));
              token == l.token && input == old(input) + l.len
    {
      hide Keyword, ScanOperator, Lexer.ScanNumber, ScanQuoted;
      var c := Peek(text, input);
      if IsAlpha(c) || c == '_' || c == '.' {
        var keyword := ScanKeyword();
        if !keyword {
          ScanVariable();
        }
      } else if Has(Digit, c) {
        ScanNumber();
      } else if c == '"' {
        ScanString();
      } else if c == '\'' {
        ScanTime();
      } else {
        var l := ScanOperator(text[input..]);
        token := l.token;
        input := input + l.len;
      }
    }

    /** One call of the scanner: the next token, and the cursor behind it. */
    method Scan()
      requires Valid()
      modifies this, strVal
      ensures Valid() && (strVal == old(strVal) || fresh(strVal))
      ensures Lexer.Scan(old(Rest())) == Scanned(token, Rest())
    {
      hide ScanToken;
      var n := CountRun(Space);
      input := input + n;
      ghost var s := Rest();
      assert s == old(Rest())[n..];
      ScanOne();
      assert s[ScanToken(s).len..] == Rest();
    }
  }
}
