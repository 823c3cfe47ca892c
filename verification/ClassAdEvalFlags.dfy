/** When the flags of the evaluator do no harm, and what they guarantee on circular definitions. */
module ClassAdEvalFlags {
  import opened Options
  import opened ClassAdSyntax
  import opened ClassAdOperators
  import opened ClassAdEval

  /** Fuel only bounds: once there is enough, more changes nothing. */
  lemma {:induction false} MoreFuel(w: World, fuel: nat, more: nat, c: Context, p: Place, e: Expr, flags: set<Place>)
    requires fuel <= more && EvalTree(w, fuel, c, p, e, flags).Some?
    ensures EvalTree(w, more, c, p, e, flags) == EvalTree(w, fuel, c, p, e, flags)
    decreases fuel, e
  {
    hide Resolve, Operate, Operand, ShortCircuit;
    if p !in flags {
      var inner := flags + {p};
      if e.Var? {
        var r := Resolve(w, e.name, c, false);
        if r.Tree? {
          MoreFuel(w, fuel - 1, more - 1, r.context, Place(r.id, []), w.trees[r.id], inner);
        }
      } else if e.Paren? {
        MoreFuel(w, fuel, more, c, Right(p), e.inner, inner);
      } else if e.Neg? {
        MoreFuel(w, fuel, more, c, Right(p), e.arg, inner);
      } else if e.Bin? {
        MoreFuel(w, fuel, more, c, Left(p), e.left, inner);
        var a := EvalTree(w, fuel, c, Left(p), e.left, inner).value;
        if ShortCircuit(OpKindOf(e.op), Operand(a.value)).None? {
          MoreFuel(w, fuel, more, c, Right(p), e.right, a.flags);
        }
      }
    }
  }

  /***** Acyclic references: the evaluator without flags *****/

  /** The trees that can be reached, each with its context, and an order in which references go down. */
  datatype Graph = Graph(reach: set<(TreeId, Context)>, rank: map<TreeId, nat>)

  /** Every reference of the expression leads to a reachable tree of lower rank. */
  predicate Below(w: World, g: Graph, c: Context, e: Expr, bound: nat) {
    match e
    case Var(n) =>
      var r := Resolve(w, n, c, false);
      r.Tree? ==> (r.id, r.context) in g.reach && r.id in g.rank && g.rank[r.id] < bound
    case Paren(x) => Below(w, g, c, x, bound)
    case Neg(x) => Below(w, g, c, x, bound)
    case Bin(_, l, r) => Below(w, g, c, l, bound) && Below(w, g, c, r, bound)
    case _ => true
  }

  ghost predicate Acyclic(w: World, g: Graph) {
    forall t, c | (t, c) in g.reach :: t in w.trees && t in g.rank && Below(w, g, c, w.trees[t], g.rank[t])
  }

  /** The meaning of an expression: no flags, no fuel. */
  ghost function Meaning(w: World, g: Graph, c: Context, e: Expr, bound: nat): Value
    requires Acyclic(w, g) && Below(w, g, c, e, bound)
    decreases bound, e
  {
    match e
    case Var(n) =>
      (match Resolve(w, n, c, false)
       case Immediate(v) => v
       case Tree(t, c') => Meaning(w, g, c', w.trees[t], g.rank[t]))
    case Paren(x) => Operand(Meaning(w, g, c, x, bound))
    case Neg(x) => Negated(Meaning(w, g, c, x, bound))
    case Bin(op, l, r) =>
      ValueOf(Lazy(OpKindOf(op), Operand(Meaning(w, g, c, l, bound)), Operand(Meaning(w, g, c, r, bound))))
    case _ => Constant(e)
  }

  /** No flag is set at the node or below it. */
  predicate Clear(flags: set<Place>, p: Place) {
    forall q | q in flags && q.tree == p.tree :: !(p.path <= q.path)
  }

  /** No flag is set in a tree that a reference could lead to. */
  predicate NoneBelow(flags: set<Place>, g: Graph, bound: nat) {
    forall q | q in flags && q.tree in g.rank :: bound <= g.rank[q.tree]
  }

  /** The child's flags are clear while the parent is being evaluated. */
  lemma ClearChild(flags: set<Place>, p: Place, right: bool)
    requires Clear(flags, p)
    ensures Clear(flags + {p}, if right then Right(p) else Left(p))
  {
    var child := if right then Right(p) else Left(p);
    assert p.path <= child.path;
    forall q | q in flags + {p} && q.tree == p.tree
      ensures !(child.path <= q.path)
    {
      assert child.path <= q.path ==> p.path <= q.path;
    }
  }

  /** On acyclic references the evaluator returns the meaning and leaves every flag as it found it. */
  lemma {:induction false} FlagsAreInvisible(w: World, g: Graph, fuel: nat, c: Context, p: Place, e: Expr, flags: set<Place>, bound: nat)
    requires Acyclic(w, g) && Below(w, g, c, e, bound) && bound <= fuel
    requires Clear(flags, p) && NoneBelow(flags + {p}, g, bound)
    ensures EvalTree(w, fuel, c, p, e, flags) == Some(Result(Meaning(w, g, c, e, bound), flags))
    decreases bound, e
  {
    hide Resolve, Operate, Operand, Acyclic;
    assert p !in flags by { assert p.path <= p.path; }
    var inner := flags + {p};
    assert inner - {p} == flags;
    match e
    case Var(n) => ReferenceIsInvisible(w, g, fuel, c, p, e, inner, bound);
    case Paren(x) =>
      ClearChild(flags, p, true);
      ChildRank(inner, g, bound, p, Right(p));
      FlagsAreInvisible(w, g, fuel, c, Right(p), x, inner, bound);
    case Neg(x) =>
      ClearChild(flags, p, true);
      ChildRank(inner, g, bound, p, Right(p));
      FlagsAreInvisible(w, g, fuel, c, Right(p), x, inner, bound);
    case Bin(op, l, r) =>
      ClearChild(flags, p, false);
      ClearChild(flags, p, true);
      ChildRank(inner, g, bound, p, Left(p));
      ChildRank(inner, g, bound, p, Right(p));
      FlagsAreInvisible(w, g, fuel, c, Left(p), l, inner, bound);
      FlagsAreInvisible(w, g, fuel, c, Right(p), r, inner, bound);
    case _ =>
  }

  lemma ChildRank(flags: set<Place>, g: Graph, bound: nat, p: Place, child: Place)
    requires NoneBelow(flags, g, bound) && p in flags && child.tree == p.tree
    ensures NoneBelow(flags + {child}, g, bound)
  {
  }

  lemma {:induction false} ReferenceIsInvisible(w: World, g: Graph, fuel: nat, c: Context, p: Place, e: Expr, flags: set<Place>, bound: nat)
    requires Acyclic(w, g) && e.Var? && Below(w, g, c, e, bound) && bound <= fuel && NoneBelow(flags, g, bound)
    ensures EvalNode(w, fuel, c, p, e, flags) == Some(Result(Meaning(w, g, c, e, bound), flags))
    decreases bound, e, 0
  {
    var r := Resolve(w, e.name, c, false);
    if r.Tree? {
      var root := Place(r.id, []);
      assert (r.id, r.context) in g.reach;
      forall q | q in flags + {root} && q.tree in g.rank
        ensures g.rank[r.id] <= g.rank[q.tree]
      {
      }
      FlagsAreInvisible(w, g, fuel - 1, r.context, root, w.trees[r.id], flags, g.rank[r.id]);
    }
  }

  /** Evaluating an expression of its own, with nothing else under way. */
  lemma AcyclicEvaluates(w: World, g: Graph, c: Context, e: Expr, top: TreeId, bound: nat)
    requires Acyclic(w, g) && Below(w, g, c, e, bound) && top !in g.rank
    ensures EvalTree(w, bound, c, Place(top, []), e, {}) == Some(Result(Meaning(w, g, c, e, bound), {}))
  {
    FlagsAreInvisible(w, g, bound, c, Place(top, []), e, {}, bound);
  }

  /***** Circular references: at most one variable on each right-hand side *****/

  function VarCount(e: Expr): nat {
    match e
    case Var(_) => 1
    case Paren(x) => VarCount(x)
    case Neg(x) => VarCount(x)
    case Bin(_, l, r) => VarCount(l) + VarCount(r)
    case _ => 0
  }

  /** Every reference of the expression leads into the set of trees. */
  predicate Within(w: World, reach: set<(TreeId, Context)>, c: Context, e: Expr) {
    match e
    case Var(n) => Resolve(w, n, c, false).Tree? ==> LeadsInto(w, reach, c, n)
    case Paren(x) => Within(w, reach, c, x)
    case Neg(x) => Within(w, reach, c, x)
    case Bin(_, l, r) => Within(w, reach, c, l) && Within(w, reach, c, r)
    case _ => true
  }

  predicate LeadsInto(w: World, reach: set<(TreeId, Context)>, c: Context, name: string) {
    var r := Resolve(w, name, c, false);
    r.Tree? && (r.id, r.context) in reach
  }

  /** The trees that can be reached have at most one variable each, and lead nowhere else. */
  ghost predicate OneVariableEach(w: World, reach: set<(TreeId, Context)>) {
    forall t, c | (t, c) in reach :: t in w.trees && VarCount(w.trees[t]) <= 1 && Within(w, reach, c, w.trees[t])
  }

  /** An expression without variables evaluates in place. */
  lemma {:induction false} ConstantEvaluates(w: World, fuel: nat, c: Context, p: Place, e: Expr, flags: set<Place>)
    requires VarCount(e) == 0 && Clear(flags, p)
    ensures EvalTree(w, fuel, c, p, e, flags).Some? && EvalTree(w, fuel, c, p, e, flags).value.flags == flags
    decreases e
  {
    hide Resolve, Operate, Operand;
    assert p !in flags by { assert p.path <= p.path; }
    assert flags + {p} - {p} == flags;
    ClearChild(flags, p, false);
    ClearChild(flags, p, true);
    match e
    case Paren(x) => ConstantEvaluates(w, fuel, c, Right(p), x, flags + {p});
    case Neg(x) => ConstantEvaluates(w, fuel, c, Right(p), x, flags + {p});
    case Bin(op, l, r) =>
      ConstantEvaluates(w, fuel, c, Left(p), l, flags + {p});
      ConstantEvaluates(w, fuel, c, Right(p), r, flags + {p});
    case _ =>
  }

  /** A tree in which a flag is set is being evaluated from its root. */
  predicate Rooted(flags: set<Place>) {
    forall q | q in flags :: Place(q.tree, []) in flags
  }

  /** The trees of the set that are not being evaluated. */
  function Waiting(reach: set<(TreeId, Context)>, flags: set<Place>): set<TreeId> {
    set x | x in reach && Place(x.0, []) !in flags :: x.0
  }

  lemma ClearSubset(small: set<Place>, big: set<Place>, p: Place)
    requires small <= big && Clear(big, p)
    ensures Clear(small, p)
  {
  }

  /** Evaluation ends, cycles or not, with no flag set that was not set before. */
  lemma {:induction false} OneVariableEnds(w: World, reach: set<(TreeId, Context)>, fuel: nat, c: Context, p: Place, e: Expr, flags: set<Place>)
    requires OneVariableEach(w, reach) && VarCount(e) <= 1 && Within(w, reach, c, e) && Clear(flags, p) && Rooted(flags + {p})
    requires |Waiting(reach, flags + {p})| < fuel
    ensures EvalTree(w, fuel, c, p, e, flags).Some? && EvalTree(w, fuel, c, p, e, flags).value.flags <= flags
    decreases fuel, e, 1
  {
    hide Resolve, Operate, Operand, OneVariableEach;
    assert p !in flags by { assert p.path <= p.path; }
    var inner := flags + {p};
    assert inner - {p} == flags;
    ClearChild(flags, p, false);
    ClearChild(flags, p, true);
    if e.Var? {
      ReferenceEnds(w, reach, fuel, c, p, e, inner);
    } else if e.Paren? {
      ChildEnds(w, reach, fuel, c, p, Right(p), e.inner, inner);
    } else if e.Neg? {
      ChildEnds(w, reach, fuel, c, p, Right(p), e.arg, inner);
    } else if e.Bin? {
      if VarCount(e.left) == 0 {
        ConstantEvaluates(w, fuel, c, Left(p), e.left, inner);
        ChildEnds(w, reach, fuel, c, p, Right(p), e.right, inner);
      } else {
        ChildEnds(w, reach, fuel, c, p, Left(p), e.left, inner);
        var a := EvalTree(w, fuel, c, Left(p), e.left, inner).value;
        ClearSubset(a.flags, inner, Right(p));
        ConstantEvaluates(w, fuel, c, Right(p), e.right, a.flags);
      }
    }
  }

  lemma {:induction false} ChildEnds(w: World, reach: set<(TreeId, Context)>, fuel: nat, c: Context, p: Place, child: Place, e: Expr, flags: set<Place>)
    requires OneVariableEach(w, reach) && VarCount(e) <= 1 && Within(w, reach, c, e) && Clear(flags, child) && Rooted(flags)
    requires p in flags && (child == Left(p) || child == Right(p)) && |Waiting(reach, flags)| < fuel
    ensures EvalTree(w, fuel, c, child, e, flags).Some? && EvalTree(w, fuel, c, child, e, flags).value.flags <= flags
    decreases fuel, e, 2
  {
    hide OneVariableEach, EvalTree;
    assert Waiting(reach, flags + {child}) == Waiting(reach, flags);
    OneVariableEnds(w, reach, fuel, c, child, e, flags);
  }

  lemma {:induction false} ReferenceEnds(w: World, reach: set<(TreeId, Context)>, fuel: nat, c: Context, p: Place, e: Expr, flags: set<Place>)
    requires OneVariableEach(w, reach) && e.Var? && Within(w, reach, c, e) && Rooted(flags) && |Waiting(reach, flags)| < fuel
    ensures EvalNode(w, fuel, c, p, e, flags).Some? && EvalNode(w, fuel, c, p, e, flags).value.flags <= flags
    decreases fuel, e, 0
  {
    var r := Resolve(w, e.name, c, false);
    if r.Tree? {
      assert (r.id, r.context) in reach;
      var root := Place(r.id, []);
      if root !in flags {
        assert Waiting(reach, flags + {root}) == Waiting(reach, flags) - {r.id} && r.id in Waiting(reach, flags);
        OneVariableEnds(w, reach, fuel - 1, r.context, root, w.trees[r.id], flags);
      }
    }
  }

  /** A top-level evaluation of such an expression ends with every flag clear, whatever the definitions. */
  lemma OneVariableLeavesNoFlags(w: World, reach: set<(TreeId, Context)>, c: Context, e: Expr, top: TreeId)
    requires OneVariableEach(w, reach) && VarCount(e) <= 1 && Within(w, reach, c, e)
    ensures exists v :: EvalTree(w, |w.trees| + 1, c, Place(top, []), e, {}) == Some(Result(v, {}))
  {
    hide EvalTree, EvalNode, Within, Resolve;
    var p := Place(top, []);
    SubsetSize(Waiting(reach, {} + {p}), w.trees.Keys);
    OneVariableEnds(w, reach, |w.trees| + 1, c, p, e, {});
    var r := EvalTree(w, |w.trees| + 1, c, p, e, {}).value;
    assert r == Result(r.value, {});
  }

  lemma SubsetSize(small: set<TreeId>, big: set<TreeId>)
    requires small <= big
    ensures |small| <= |big|
  {
    assert big == small + (big - small);
  }

  /***** Circular chains of names *****/

  /** Every tree of the set is a single name that leads back into the set. */
  ghost predicate Circular(w: World, loop: set<(TreeId, Context)>) {
    forall t, c | (t, c) in loop ::
      t in w.trees && w.trees[t].Var? && LeadsInto(w, loop, c, w.trees[t].name)
  }

  /** A name that leads into a circle has the value ERROR. */
  lemma {:induction false} CircularNameIsError(w: World, loop: set<(TreeId, Context)>, fuel: nat, c: Context, p: Place, e: Expr, flags: set<Place>)
    requires Circular(w, loop) && e.Var? && LeadsInto(w, loop, c, e.name)
    requires EvalTree(w, fuel, c, p, e, flags).Some?
    ensures EvalTree(w, fuel, c, p, e, flags).value.value == VError
    decreases fuel
  {
    hide EvalTree, EvalNode, Resolve;
    if p in flags {
      FlaggedStep(w, fuel, c, p, e, flags);
    } else {
      var r := Resolve(w, e.name, c, false);
      assert (r.id, r.context) in loop;
      NameStep(w, fuel, c, p, e, flags);
      CircularNameIsError(w, loop, fuel - 1, r.context, Place(r.id, []), w.trees[r.id], flags + {p});
    }
  }

  /** A node that is being evaluated is a circular reference. */
  lemma FlaggedStep(w: World, fuel: nat, c: Context, p: Place, e: Expr, flags: set<Place>)
    requires p in flags
    ensures EvalTree(w, fuel, c, p, e, flags) == Some(Result(VError, flags - {p}))
  {
    hide EvalNode;
  }

  /** A name is evaluated as its tree, one reference deeper, with its own flag set meanwhile. */
  lemma NameStep(w: World, fuel: nat, c: Context, p: Place, e: Expr, flags: set<Place>)
    requires e.Var? && p !in flags && Resolve(w, e.name, c, false).Tree?
    ensures var r := Resolve(w, e.name, c, false);
            if fuel == 0 || r.id !in w.trees then EvalTree(w, fuel, c, p, e, flags).None?
            else
              var q := EvalTree(w, fuel - 1, r.context, Place(r.id, []), w.trees[r.id], flags + {p});
              EvalTree(w, fuel, c, p, e, flags) == if q.None? then None else Some(Result(q.value.value, q.value.flags - {p}))
  {
    hide Resolve, Operate, Operand;
  }

  /** Only trees of the circle are visited, each once, so evaluation ends and sets no flag for good. */
  lemma {:induction false} CircleEnds(w: World, loop: set<(TreeId, Context)>, fuel: nat, c: Context, p: Place, e: Expr, flags: set<Place>)
    requires Circular(w, loop) && e.Var? && LeadsInto(w, loop, c, e.name)
    requires |Waiting(loop, flags + {p})| < fuel
    ensures EvalTree(w, fuel, c, p, e, flags).Some? && EvalTree(w, fuel, c, p, e, flags).value.flags <= flags
    decreases fuel
  {
    hide EvalTree, EvalNode, Resolve;
    if p in flags {
      FlaggedStep(w, fuel, c, p, e, flags);
    } else {
      var r := Resolve(w, e.name, c, false);
      assert (r.id, r.context) in loop;
      NameStep(w, fuel, c, p, e, flags);
      var inner, root := flags + {p}, Place(r.id, []);
      if root in inner {
        FlaggedStep(w, fuel - 1, r.context, root, w.trees[r.id], inner);
      } else {
        assert r.id in Waiting(loop, inner);
        assert Waiting(loop, inner + {root}) == Waiting(loop, inner) - {r.id};
        CircleEnds(w, loop, fuel - 1, r.context, root, w.trees[r.id], inner);
      }
    }
  }

  /** A top-level evaluation reports ERROR and leaves no flag set, whatever else the ads define. */
  lemma CircularDefinitionIsError(w: World, loop: set<(TreeId, Context)>, c: Context, name: string, top: TreeId)
    requires Circular(w, loop) && LeadsInto(w, loop, c, name)
    ensures EvalTree(w, |w.trees| + 1, c, Place(top, []), Var(name), {}) == Some(Result(VError, {}))
  {
    hide EvalTree, Resolve;
    var p := Place(top, []);
    SubsetSize(Waiting(loop, {} + {p}), w.trees.Keys);
    CircleEnds(w, loop, |w.trees| + 1, c, p, Var(name), {});
    CircularNameIsError(w, loop, |w.trees| + 1, c, p, Var(name), {});
    assert EvalTree(w, |w.trees| + 1, c, p, Var(name), {}).value.flags == {};
  }

  /** For instance an attribute that is defined as itself. */
  lemma SelfDefinitionIsError(w: World, c: Context, name: string, t: TreeId, top: TreeId)
    requires Resolve(w, name, c, false) == Tree(t, c) && t in w.trees && w.trees[t] == Var(name)
    ensures EvalTree(w, |w.trees| + 1, c, Place(top, []), Var(name), {}) == Some(Result(VError, {}))
  {
    hide Resolve, EvalTree;
    CircularDefinitionIsError(w, {(t, c)}, c, name, top);
  }

  /***** Circular references with more variables: a definition that never ends *****/

  /** `name` is defined as `name + name + name`. */
  ghost predicate Triple(w: World, c: Context, name: string, t: TreeId) {
    && Resolve(w, name, c, false) == Tree(t, c) && t in w.trees
    && w.trees[t] == Bin(Add, Bin(Add, Var(name), Var(name)), Var(name))
  }

  /** Detecting the circle clears a flag, so the next operand starts over; both its operands end, with one flag left. */
  lemma ThirdRound(w: World, c: Context, name: string, t: TreeId, fuel: nat, last: bool)
    requires Triple(w, c, name, t)
    ensures var r, l, right := Place(t, []), Place(t, [false]), Place(t, [true]);
            var lr := Place(t, [false, true]);
            var q := EvalTree(w, fuel, c, r, w.trees[t], {l, lr} + if last then {right} else {});
            q.Some? ==> q.value.flags == {lr}
  {
    hide Resolve, Operate, Operand, ValueOf;
    var e := w.trees[t];
    var r, l, right, lr := Place(t, []), Place(t, [false]), Place(t, [true]), Place(t, [false, true]);
    var f := {l, lr} + if last then {right} else {};
    assert Left(r) == l && Right(r) == right;
    FlaggedStep(w, fuel, c, l, e.left, f + {r});
    var g := f + {r} - {l};
    if last {
      FlaggedStep(w, fuel, c, right, e.right, g);
      assert g - {right} - {r} == {lr};
    } else if fuel > 0 {
      NameStep(w, fuel, c, right, e.right, g);
      FlaggedStep(w, fuel - 1, c, r, e, g + {right});
      assert g + {right} - {r} - {right} - {r} == {lr};
    } else {
      NameStep(w, fuel, c, right, e.right, g);
    }
  }

  /** The left operand, whose first name detects the circle, ends with no flag left at all. */
  lemma LeftOperand(w: World, c: Context, name: string, t: TreeId, fuel: nat, last: bool)
    requires Triple(w, c, name, t)
    ensures var q := EvalTree(w, fuel, c, Place(t, [false]), w.trees[t].left, {Place(t, [])} + if last then {Place(t, [true])} else {});
            q.Some? ==> q.value.flags == {}
  {
    hide Resolve, Operate, Operand, ValueOf;
    var e := w.trees[t];
    var r, l, ll, lr := Place(t, []), Place(t, [false]), Place(t, [false, false]), Place(t, [false, true]);
    var f := {r} + if last then {Place(t, [true])} else {};
    assert Left(l) == ll && Right(l) == lr;
    NameStep(w, fuel, c, ll, Var(name), f + {l});
    if fuel > 0 {
      FlaggedStep(w, fuel - 1, c, r, e, f + {l} + {ll});
      var g := f + {l} + {ll} - {r} - {ll};
      NameStep(w, fuel, c, lr, Var(name), g);
      ThirdRound(w, c, name, t, fuel - 1, last);
      assert g + {lr} == {l, lr} + if last then {Place(t, [true])} else {};
    }
  }

  /** So the last operand evaluates the definition again from the start, in a state it has been in before. */
  lemma {:induction false} TripleNeverEnds(w: World, c: Context, name: string, t: TreeId, fuel: nat, last: bool)
    requires Triple(w, c, name, t)
    ensures EvalTree(w, fuel, c, Place(t, []), w.trees[t], if last then {Place(t, [true])} else {}).None?
    decreases fuel
  {
    hide Resolve, Operate, Operand, ValueOf;
    var e := w.trees[t];
    var r, l, right := Place(t, []), Place(t, [false]), Place(t, [true]);
    var f := if last then {right} else {};
    assert Left(r) == l && Right(r) == right && f + {r} == {r} + f;
    LeftOperand(w, c, name, t, fuel, last);
    NameStep(w, fuel, c, right, e.right, {});
    if fuel > 0 {
      assert {} + {right} == {right};
      TripleNeverEnds(w, c, name, t, fuel - 1, true);
    }
  }

  /** Evaluating such an attribute, with every flag clear: no number of nested references is enough. */
  lemma FlagsMissCircle(w: World, c: Context, name: string, t: TreeId, fuel: nat)
    requires Triple(w, c, name, t)
    ensures EvalTree(w, fuel, c, Place(t, []), w.trees[t], {}).None?
  {
    hide EvalTree, Triple;
    TripleNeverEnds(w, c, name, t, fuel, false);
  }
}
