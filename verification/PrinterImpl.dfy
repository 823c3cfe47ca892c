/**
  The printer as it runs: one pass adds up the length of the text, a buffer of that size is allocated,
  and a second pass fills it. Every method is tied to `ClassAdPrinter.Print`.
 */
module PrinterImpl {
  import opened ClassAdSyntax
  import opened ClassAdPrinter

  /***** The counting pass *****/

  /** Length of an operator with its spaces, as the counting pass has it. */
  function OpLength(op: BinOp): (n: nat)
    ensures n == |OpText(op)|
  {
    match op
    case MetaEq | MetaNeq => 5
    case Eq | Neq | Le | Ge | And | Or => 4
    case Lt | Gt | Add | Sub | Mult | Div => 3
  }

  /** A quote counts twice. */
  method CountString(s: string) returns (length: nat)
    ensures length == |Escape(s)| + 2
  {
    length := 0;
    for i := 0 to |s|
      invariant length + |Escape(s[i..])| == |Escape(s)|
    {
      length := if s[i] == '"' then length + 2 else length + 1;
    }
    length := length + 2;
  }

  method CalcPrintToStr(e: Expr) returns (length: nat)
    requires FloatFree(e)
    ensures length == |Print(e)|
    decreases e, 0
  {
    if e.Var? {
      length := |e.name|;
    } else if e.Str? {
      length := CountString(e.str);
    } else if e.Time? {
      length := |e.time| + 2;
    } else if e.Paren? {
      length := CalcPrintToStr(e.inner);
      length := length + 2;
    } else if e.Neg? {
      length := CalcPrintToStr(e.arg);
      length := length + OpLength(Sub);
    } else if e.Bin? {
      var l := CalcPrintToStr(e.left);
      var r := CalcPrintToStr(e.right);
      length := l + OpLength(e.op) + r;
    } else if e.Func? {
      length := CountArgs(e.args);
      length := |e.fn| + 1 + length + 1;
    } else {
      length := |Print(e)|;
    }
  }

  method CountArgs(args: seq<Expr>) returns (length: nat)
    requires forall a | a in args :: FloatFree(a)
    ensures length == |PrintArgs(args)|
    decreases args, 1
  {
    length := 0;
    for i := 0 to |args|
      invariant length + |PrintArgs(args[i..])| == |PrintArgs(args)|
    {
      var one := CalcPrintToStr(args[i]);
      length := length + one;
      if i + 1 < |args| {
        length := length + 2;
      }
      assert args[i..][1..] == args[i + 1..];
    }
  }

  lemma {:induction false} DecimalLength(n: nat, digits: nat, limit: nat)
    requires n < limit && 1 <= digits && limit == Power(digits)
    ensures |Decimal(n)| <= digits
    decreases digits
  {
    if n >= 10 {
      DecimalLength(n / 10, digits - 1, Power(digits - 1));
    }
  }

  function Power(digits: nat): nat {
    if digits == 0 then 1 else 10 * Power(digits - 1)
  }

  /** Every `int` fits the buffer of 256 characters it is measured in. */
  lemma IntegerFits(v: int)
    requires INT_MIN <= v <= INT_MAX
    ensures |IntText(v)| <= 11
  {
    assert Power(10) == 10_000_000_000 by {
      assert Power(5) == 100_000;
    }
    DecimalLength(if v < 0 then -v else v, 10, Power(10));
  }

  /***** The filling pass *****/

  /** The buffer holds the text and, after it, a terminator. */
  ghost predicate Holds(buf: array<char>, text: string)
    reads buf
  {
    |text| < buf.Length && buf[..|text|] == text && buf[|text|] == '\0'
  }

  /** Append at the terminator and terminate again. */
  method Concat(buf: array<char>, at: nat, text: string) returns (end: nat)
    requires at + |text| < buf.Length && Holds(buf, buf[..at])
    modifies buf
    ensures end == at + |text| && Holds(buf, old(buf[..at]) + text)
  {
    for i := 0 to |text|
      invariant buf[..at + i] == old(buf[..at]) + text[..i]
    {
      buf[at + i] := text[i];
    }
    end := at + |text|;
    buf[end] := '\0';
  }

  /** Copy a string, a backslash before each quote. */
  method ConcatString(buf: array<char>, at: nat, s: string) returns (end: nat)
    requires at + |Escape(s)| + 2 < buf.Length && Holds(buf, buf[..at])
    modifies buf
    ensures end == at + |Escape(s)| + 2 && Holds(buf, old(buf[..at]) + "\"" + Escape(s) + "\"")
  {
    buf[at] := '"';
    end := at + 1;
    for i := 0 to |s|
      invariant end + |Escape(s[i..])| == at + 1 + |Escape(s)|
      invariant buf[..end] + Escape(s[i..]) == old(buf[..at]) + "\"" + Escape(s)
    {
      ghost var done := buf[..end];
      if s[i] == '"' {
        buf[end] := '\\';
        end := end + 1;
      }
      buf[end] := s[i];
      end := end + 1;
      Shift(done, buf[..end], s, i);
    }
    buf[end] := '"';
    buf[end + 1] := '\0';
    end := end + 1;
  }

  lemma Shift(done: string, more: string, s: string, i: nat)
    requires i < |s| && more == done + (if s[i] == '"' then "\\\"" else [s[i]])
    ensures done + Escape(s[i..]) == more + Escape(s[i + 1..])
  {
    assert s[i..][1..] == s[i + 1..];
  }

  method PrintToStr(e: Expr, buf: array<char>, at: nat) returns (end: nat)
    requires FloatFree(e) && at + |Print(e)| < buf.Length && Holds(buf, buf[..at])
    modifies buf
    ensures end == at + |Print(e)| && Holds(buf, old(buf[..at]) + Print(e))
    decreases e, 1
  {
    if e.Str? {
      end := ConcatString(buf, at, e.str);
    } else if e.Paren? {
      end := PrintParen(e, buf, at);
    } else if e.Neg? {
      end := Concat(buf, at, OpText(Sub));
      end := PrintToStr(e.arg, buf, end);
      Reassociate(old(buf[..at]), OpText(Sub), Print(e.arg), "");
    } else if e.Bin? {
      end := PrintBinary(e, buf, at);
    } else if e.Func? {
      end := PrintCall(e, buf, at);
    } else {
      end := Concat(buf, at, Print(e));
    }
  }

  lemma Reassociate(done: string, a: string, b: string, c: string)
    ensures done + a + b + c == done + (a + b + c)
  {
  }

  method PrintParen(e: Expr, buf: array<char>, at: nat) returns (end: nat)
    requires e.Paren? && FloatFree(e) && at + |Print(e)| < buf.Length && Holds(buf, buf[..at])
    modifies buf
    ensures end == at + |Print(e)| && Holds(buf, old(buf[..at]) + Print(e))
    decreases e, 0
  {
    end := Concat(buf, at, "(");
    end := PrintToStr(e.inner, buf, end);
    end := Concat(buf, end, ")");
    Reassociate(old(buf[..at]), "(", Print(e.inner), ")");
  }

  method PrintBinary(e: Expr, buf: array<char>, at: nat) returns (end: nat)
    requires e.Bin? && FloatFree(e) && at + |Print(e)| < buf.Length && Holds(buf, buf[..at])
    modifies buf
    ensures end == at + |Print(e)| && Holds(buf, old(buf[..at]) + Print(e))
    decreases e, 0
  {
    end := PrintToStr(e.left, buf, at);
    end := Concat(buf, end, OpText(e.op));
    end := PrintToStr(e.right, buf, end);
    Reassociate(old(buf[..at]), Print(e.left), OpText(e.op), Print(e.right));
  }

  lemma CallText(done: string, e: Expr)
    requires e.Func? && FloatFree(e)
    ensures done + e.fn + "(" + PrintArgs(e.args) + ")" == done + Print(e)
  {
    var open, args, close := "(", PrintArgs(e.args), ")";
    assert done + e.fn + open + args + close == done + (e.fn + open + args + close);
  }

  method PrintCall(e: Expr, buf: array<char>, at: nat) returns (end: nat)
    requires e.Func? && FloatFree(e) && at + |Print(e)| < buf.Length && Holds(buf, buf[..at])
    modifies buf
    ensures end == at + |Print(e)| && Holds(buf, old(buf[..at]) + Print(e))
    decreases e, 0
  {
    end := Concat(buf, at, e.fn);
    end := Concat(buf, end, "(");
    end := PrintArgsToStr(e.args, buf, end);
    end := Concat(buf, end, ")");
    CallText(old(buf[..at]), e);
  }

  lemma NextArg(done: string, args: seq<Expr>, i: nat)
    requires i < |args| && forall a | a in args :: FloatFree(a)
    ensures done + PrintArgs(args[i..])
         == done + Print(args[i]) + (if i + 1 < |args| then ", " else "") + PrintArgs(args[i + 1..])
  {
    assert args[i..][1..] == args[i + 1..];
  }

  method PrintArgsToStr(args: seq<Expr>, buf: array<char>, at: nat) returns (end: nat)
    requires forall a | a in args :: FloatFree(a)
    requires at + |PrintArgs(args)| < buf.Length && Holds(buf, buf[..at])
    modifies buf
    ensures end == at + |PrintArgs(args)| && Holds(buf, old(buf[..at]) + PrintArgs(args))
    decreases args, 1
  {
    end := at;
    for i := 0 to |args|
      invariant at <= end < buf.Length && Holds(buf, buf[..end])
      invariant buf[..end] + PrintArgs(args[i..]) == old(buf[..at]) + PrintArgs(args)
    {
      NextArg(buf[..end], args, i);
      end := PrintToStr(args[i], buf, end);
      if i + 1 < |args| {
        end := Concat(buf, end, ", ");
      }
    }
  }

  /** Count, allocate, fill: the text fits exactly, so the sanity check behind it cannot fail. */
  method PrintToNewStr(e: Expr) returns (buf: array<char>)
    requires FloatFree(e)
    ensures fresh(buf) && buf.Length == |Print(e)| + 1 && Holds(buf, Print(e))
  {
    var length := CalcPrintToStr(e);
    buf := new char[length + 1];
    buf[0] := '\0';
    var end := PrintToStr(e, buf, 0);
    assert end == length;
  }
}
