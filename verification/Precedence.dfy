/** How the parser groups a chain of operators, said without its ladder. */
module Precedence {
  import opened Options
  import opened ClassAdSyntax
  import opened ClassAdPrinter
  import opened ClassAdParser
  import opened RoundTrip

  /** The groups of operators, the loosest first. */
  const GROUPS: seq<set<BinOp>> := [{Or}, {And}, {MetaEq, MetaNeq, Eq, Neq}, {Lt, Le, Gt, Ge}, {Add, Sub}, {Mult, Div}]

  predicate Tighter(q: BinOp, p: BinOp) {
    exists i, j | 0 <= i < j < |GROUPS| :: p in GROUPS[i] && q in GROUPS[j]
  }

  /** Every operator's group, and the rung that builds it. */
  lemma GroupIsRung(op: BinOp, i: nat)
    requires i < |GROUPS|
    ensures op in GROUPS[i] <==> Level(op) == i
  {
  }

  lemma TighterIsHigher(q: BinOp, p: BinOp)
    ensures Tighter(q, p) <==> Level(p) < Level(q)
  {
    forall i: nat | i < |GROUPS|
      ensures (p in GROUPS[i] <==> Level(p) == i) && (q in GROUPS[i] <==> Level(q) == i)
    {
      GroupIsRung(p, i);
      GroupIsRung(q, i);
    }
    assert p in GROUPS[Level(p)] && q in GROUPS[Level(q)];
  }

  /***** Trees that respect the groups *****/

  /**
    At every node the operator to the left is of the same group or a tighter one, the operator to the right of a
    tighter one. A unary minus takes in all that follows, so nothing follows it.
   */
  predicate Respects(e: Expr) {
    match e
    case Bin(op, l, r) =>
      && Respects(l) && Respects(r) && !Open(l)
      && (l.Bin? ==> !Tighter(op, l.op)) && (r.Bin? ==> Tighter(r.op, op))
    case _ => Shape(e, 0)
  }

  /** These are the trees of the parser's shape. */
  lemma {:induction false} RespectsIsShape(e: Expr)
    ensures Respects(e) <==> Shape(e, 0)
  {
    hide Tighter;
    if e.Bin? {
      RespectsIsShape(e.left);
      RespectsIsShape(e.right);
      if e.left.Bin? {
        TighterIsHigher(e.op, e.left.op);
      }
      if e.right.Bin? {
        TighterIsHigher(e.right.op, e.op);
      }
    }
  }

  /***** Chains of operands *****/

  datatype Term = Term(op: BinOp, operand: Expr)

  predicate AllFloatFree(terms: seq<Term>) {
    forall i | 0 <= i < |terms| :: FloatFree(terms[i].operand)
  }

  /** An operand; only the last one may be a unary minus or end in a backslash. */
  predicate Operand(x: Expr, last: bool) {
    !x.Bin? && FloatFree(x) && LexOk(x, last) && Shape(x, 0) && (!last ==> !Open(x))
  }

  predicate Chain(first: Expr, terms: seq<Term>) {
    && AllFloatFree(terms) && Operand(first, terms == [])
    && forall i | 0 <= i < |terms| :: Operand(terms[i].operand, i == |terms| - 1)
  }

  /** The operands and operators one after the other, without parentheses. */
  function Flat(first: Expr, terms: seq<Term>): string
    requires FloatFree(first) && AllFloatFree(terms)
  {
    if terms == [] then Print(first)
    else
      var last := terms[|terms| - 1];
      Flat(first, terms[..|terms| - 1]) + OpText(last.op) + Print(last.operand)
  }

  /** One more operator and operand: it goes down the right side past all looser operators. */
  function Attach(t: Expr, op: BinOp, x: Expr): Expr {
    if t.Bin? && Tighter(op, t.op) then Bin(t.op, t.left, Attach(t.right, op, x)) else Bin(op, t, x)
  }

  function Grouped(first: Expr, terms: seq<Term>): Expr {
    if terms == [] then first
    else
      var last := terms[|terms| - 1];
      Attach(Grouped(first, terms[..|terms| - 1]), last.op, last.operand)
  }

  lemma PrintBin(op: BinOp, l: Expr, r: Expr)
    requires FloatFree(l) && FloatFree(r)
    ensures FloatFree(Bin(op, l, r)) && Print(Bin(op, l, r)) == Print(l) + OpText(op) + Print(r)
  {
    hide OpText;
  }

  lemma {:induction false} AttachPrints(t: Expr, op: BinOp, x: Expr)
    requires FloatFree(t) && FloatFree(x)
    ensures FloatFree(Attach(t, op, x)) && Print(Attach(t, op, x)) == Print(t) + OpText(op) + Print(x)
  {
    hide OpText, Tighter, Print;
    if t.Bin? && Tighter(op, t.op) {
      AttachPrints(t.right, op, x);
      PrintBin(t.op, t.left, t.right);
      PrintBin(t.op, t.left, Attach(t.right, op, x));
      Regroup(Print(t.left) + OpText(t.op), Print(t.right), OpText(op), Print(x));
    } else {
      PrintBin(op, t, x);
    }
  }

  lemma Regroup(a: string, b: string, c: string, d: string)
    ensures a + (b + c + d) == (a + b) + c + d
  {
  }

  /** A tree that rung `k` builds, complete and with an operator behind it or at the end of the text. */
  predicate Built(e: Expr, k: nat, last: bool) {
    FloatFree(e) && Shape(e, k) && LexOk(e, last)
  }

  lemma BinBuilt(op: BinOp, l: Expr, r: Expr, k: nat, last: bool)
    requires k <= Level(op) && Built(l, Level(op), false) && !Open(l) && Built(r, Level(op) + 1, last)
    ensures Built(Bin(op, l, r), k, last) && Open(Bin(op, l, r)) == Open(r)
  {
  }

  lemma BinParts(e: Expr, k: nat)
    requires e.Bin? && Built(e, k, false)
    ensures k <= Level(e.op) && Built(e.left, Level(e.op), false) && !Open(e.left) && Built(e.right, Level(e.op) + 1, false)
    ensures Open(e) == Open(e.right) && forall j: nat | j <= Level(e.op) :: Built(e, j, false)
  {
  }

  lemma OperandBuilt(x: Expr, k: nat, last: bool)
    requires FloatFree(x) && LexOk(x, last) && Shape(x, 0) && !x.Bin?
    ensures Built(x, k, last)
  {
  }

  lemma {:induction false} AttachBuilt(t: Expr, op: BinOp, x: Expr, k: nat, last: bool)
    requires k <= Level(op) && Built(t, k, false) && !Open(t) && Operand(x, last)
    ensures Built(Attach(t, op, x), k, last) && Open(Attach(t, op, x)) == Open(x)
  {
    OperandBuilt(x, Level(op) + 1, last);
    if t.Bin? {
      BinParts(t, k);
      TighterIsHigher(op, t.op);
    } else {
      OperandBuilt(t, Level(op), false);
    }
    hide Tighter, Built, Operand, Open;
    if t.Bin? && Tighter(op, t.op) {
      AttachBuilt(t.right, op, x, Level(t.op) + 1, last);
      BinBuilt(t.op, t.left, Attach(t.right, op, x), k, last);
    } else {
      BinBuilt(op, t, x, k, last);
    }
  }

  /** What a shorter chain promises, seen from the longer one. */
  lemma ChainInit(first: Expr, terms: seq<Term>)
    requires Chain(first, terms) && terms != []
    ensures Operand(first, false) && forall i | 0 <= i < |terms| - 1 :: Operand(terms[i].operand, false)
  {
  }

  lemma {:induction false} GroupedShape(first: Expr, terms: seq<Term>)
    requires Operand(first, false) && forall i | 0 <= i < |terms| :: Operand(terms[i].operand, false)
    ensures var e := Grouped(first, terms);
            AllFloatFree(terms) && Built(e, 0, false) && !Open(e) && Print(e) == Flat(first, terms)
  {
    hide Attach, Shape, LexOk, Print, OpText;
    if terms != [] {
      var init, last := terms[..|terms| - 1], terms[|terms| - 1];
      GroupedShape(first, init);
      AttachBuilt(Grouped(first, init), last.op, last.operand, 0, false);
      AttachPrints(Grouped(first, init), last.op, last.operand);
    }
  }

  /**
    Every chain of operands parses to the tree that precedence and association to the left demand. No other tree that
    respects the groups has that text.
   */
  lemma ChainGroups(first: Expr, terms: seq<Term>)
    requires Chain(first, terms)
    ensures ParseRval(Flat(first, terms)) == Some(Grouped(first, terms)) && Respects(Grouped(first, terms))
    ensures forall e | FloatFree(e) && LexOk(e, true) && Respects(e) && Print(e) == Flat(first, terms) :: e == Grouped(first, terms)
  {
    hide ParseRval, Print, OpText, Respects;
    var e := Grouped(first, terms);
    if terms != [] {
      var init, last := terms[..|terms| - 1], terms[|terms| - 1];
      ChainInit(first, terms);
      GroupedShape(first, init);
      AttachBuilt(Grouped(first, init), last.op, last.operand, 0, true);
      AttachPrints(Grouped(first, init), last.op, last.operand);
    }
    PrintThenParse(e);
    RespectsIsShape(e);
    forall e' | FloatFree(e') && LexOk(e', true) && Respects(e') && Print(e') == Flat(first, terms)
      ensures e' == e
    {
      RespectsIsShape(e');
      PrintThenParse(e');
    }
  }

  /** Three operands: the second operator takes the middle one exactly when it binds tighter. */
  lemma ThreeOperands(x: Expr, p: BinOp, y: Expr, q: BinOp, z: Expr)
    requires Operand(x, false) && Operand(y, false) && Operand(z, true)
    ensures ParseRval(Print(x) + OpText(p) + Print(y) + OpText(q) + Print(z))
         == Some(if Tighter(q, p) then Bin(p, x, Bin(q, y, z)) else Bin(q, Bin(p, x, y), z))
  {
    hide ParseRval, Print, OpText, Tighter, LexOk, Shape, FloatFree, Open;
    var one, terms := [Term(p, y)], [Term(p, y), Term(q, z)];
    assert terms[..1] == one && one[..0] == [];
    ChainGroups(x, terms);
    assert Attach(y, q, z) == Bin(q, y, z);
    assert Grouped(x, terms) == Attach(Grouped(x, one), q, z);
    assert Grouped(x, []) == x && Grouped(x, one) == Bin(p, x, y);
    assert Flat(x, []) == Print(x);
    assert Flat(x, terms) == Flat(x, one) + OpText(q) + Print(z);
    assert Flat(x, one) == Print(x) + OpText(p) + Print(y);
  }
}
