/**
  The parser as it runs: a scanner, a one-token buffer and the flag that says whether the buffered
  token has been read. Each method is proved to do what the parsing function of the same name does
  to the unread input.
 */
module ParserImpl {
  import opened Options
  import opened ClassAdSyntax
  import opened Lexer
  import Spec = ClassAdParser
  import opened ScannerImpl

  class Parser {
    const scanner: Scanner
    var alreadyRead: bool
    ghost var start: nat  // where the next token to be read begins

    ghost predicate Valid()
      reads this, scanner
    {
      && scanner.Valid() && start <= |scanner.text|
      && if alreadyRead then start == scanner.input
         else Scan(scanner.text[start..]) == Scanned(scanner.token, scanner.Rest())
    }

    /** The input from the next token on. */
    ghost function Rest(): string
      requires Valid()
      reads this, scanner
    {
      scanner.text[start..]
    }

    constructor (text: string)
      ensures Valid() && Rest() == text && fresh(scanner) && fresh(scanner.strVal)
    {
      scanner := new Scanner(text);
      alreadyRead := true;
      start := 0;
    }

    /** The next token, which stays the next token. */
    method LookToken() returns (t: Token)
      requires Valid()
      modifies this, scanner, scanner.strVal
      ensures Valid() && (scanner.strVal == old(scanner.strVal) || fresh(scanner.strVal))
      ensures Rest() == old(Rest()) && t == Scan(Rest()).token
    {
      hide Scan;
      if alreadyRead {
        scanner.Scan();
      }
      alreadyRead := false;
      t := scanner.token;
    }

    /** The next token, taken from the input. */
    method ReadToken() returns (t: Token)
      requires Valid()
      modifies this, scanner, scanner.strVal
      ensures Valid() && (scanner.strVal == old(scanner.strVal) || fresh(scanner.strVal))
      ensures Scan(old(Rest())) == Scanned(t, Rest())
    {
      hide Scan;
      if alreadyRead {
        scanner.Scan();
      }
      alreadyRead := true;
      t := scanner.token;
      start := scanner.input;
    }

    /** A parse that behaved as `spec`; a failed parse leaves no tree behind. */
    ghost predicate Did(ok: bool, tree: Expr, spec: Spec.Parsed)
      requires Valid()
      reads this, scanner
    {
      ok == spec.ok && Rest() == spec.rest && (ok ==> tree == spec.tree)
    }

    method ParseFactor() returns (ok: bool, tree: Expr)
      requires Valid()
      modifies this, scanner, scanner.strVal
      ensures Valid() && (scanner.strVal == old(scanner.strVal) || fresh(scanner.strVal))
      ensures Did(ok, tree, Spec.ParseFactor(old(Rest())))
      decreases |Rest()|, 1
    {
      hide Scan;
      ok, tree := true, Error;
      var t := LookToken();
      if t.TVar? {
        t := ReadToken();
        var next := LookToken();
        if next.TLParen? {
          var args := ParseFunction();
          tree := Func(t.name, args);
        } else {
          tree := Var(t.name);
        }
      } else if t.TLParen? {
        t := ReadToken();
        ok, tree := ParseLevel(0);
        if ok {
          var close := ReadToken();
          ok := close.TRParen?;
          tree := Paren(tree);
        }
      } else if t == TOp(Sub) {
        t := ReadToken();
        ok, tree := ParseLevel(0);
        if ok {
          tree := Spec.Negate(tree);
        }
      } else if Spec.Literal(t).Some? {
        t := ReadToken();
        tree := Spec.Literal(t).value;
      } else {
        ok := false;
      }
    }

    /** A call whose name has been read; the opening parenthesis is the next token. */
    method ParseFunction() returns (args: seq<Expr>)
      requires Valid() && Scan(Rest()).token.TLParen?
      modifies this, scanner, scanner.strVal
      ensures Valid() && (scanner.strVal == old(scanner.strVal) || fresh(scanner.strVal))
      ensures Spec.ParsedArgs(args, Rest()) == Spec.ParseFunction(Scan(old(Rest())).rest)
      decreases |Rest()|, 0
    {
      hide Scan;
      var open := ReadToken();
      ghost var inside := Rest();
      var t := LookToken();
      args := [];
      if t.TRParen? {
        t := ReadToken();
        return;
      }
      ghost var spec := Spec.ParseArgs([], inside);
      while true
        invariant Valid() && (scanner.strVal == old(scanner.strVal) || fresh(scanner.strVal))
        invariant |Rest()| <= |inside| && Spec.ParseArgs(args, Rest()) == spec
        decreases |Rest()|
      {
        var ok, argument := ParseLevel(0);
        if !ok {
          return;
        }
        args := args + [argument];
        var next := LookToken();
        if next.TRParen? {
          next := ReadToken();
          return;
        } else if next.TComma? || next.TSemicolon? {
          next := ReadToken();
        } else {
          return;
        }
      }
    }

    /** One rung of the ladder; the source writes it out once per rung. */
    method ParseLevel(k: nat) returns (ok: bool, tree: Expr)
      requires Valid() && k <= FACTOR
      modifies this, scanner, scanner.strVal
      ensures Valid() && (scanner.strVal == old(scanner.strVal) || fresh(scanner.strVal))
      ensures Did(ok, tree, Spec.ParseLevel(k, old(Rest())))
      decreases |Rest()|, 2 + FACTOR - k
    {
      hide Scan;
      if k == FACTOR {
        ok, tree := ParseFactor();
      } else {
        ok, tree := ParseLevel(k + 1);
        if ok {
          ok, tree := ParseMore(k, tree);
        }
      }
    }

    method ParseMore(k: nat, left: Expr) returns (ok: bool, tree: Expr)
      requires Valid() && k < FACTOR
      modifies this, scanner, scanner.strVal
      ensures Valid() && (scanner.strVal == old(scanner.strVal) || fresh(scanner.strVal))
      ensures Did(ok, tree, Spec.ParseMore(k, left, old(Rest())))
      decreases |Rest()|, 0
    {
      hide Scan;
      var t := LookToken();
      if t.TOp? && Level(t.op) == k {
        t := ReadToken();
        ok, tree := ParseLevel(k + 1);
        if ok {
          ok, tree := ParseMore(k, Bin(t.op, left, tree));
        }
      } else {
        ok, tree := true, left;
      }
    }

    /** A whole expression. */
    method ParseRval() returns (result: Option<Expr>)
      requires Valid()
      modifies this, scanner, scanner.strVal
      ensures result == Spec.ParseRval(old(Rest()))
    {
      hide Scan;
      var ok, tree := ParseLevel(0);
      if ok {
        var t := LookToken();
        if t.TEof? {
          return Some(tree);
        }
      }
      return None;
    }

    /** `name = expression`. */
    method ParseAssign() returns (result: Option<(string, Expr)>)
      requires Valid()
      modifies this, scanner, scanner.strVal
      ensures result == Spec.ParseAssign(old(Rest()))
    {
      hide Scan;
      var ok, target := ParseLevel(0);
      if ok && target.Var? {
        var t := LookToken();
        if t.TAssign? {
          t := ReadToken();
          var value := ParseRval();
          return if value.Some? then Some((target.name, value.value)) else None;
        }
      }
      return None;
    }
  }
}
