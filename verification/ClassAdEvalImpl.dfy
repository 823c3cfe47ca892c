/** The old evaluator as it runs: it sets and clears the flags of the nodes it visits. */
module ClassAdEvalImpl {
  import opened Options
  import opened ClassAdSyntax
  import opened ClassAdOperators
  import E = ClassAdEval

  class Evaluator {
    const world: E.World
    var flags: set<E.Place>

    /** For evaluations that end, which is what the fuel stands for; see `ClassAdEvalFlags`. */
    method EvalTree(c: E.Context, p: E.Place, e: Expr, ghost fuel: nat) returns (v: Value)
      requires E.EvalTree(world, fuel, c, p, e, flags).Some?
      modifies this
      ensures E.EvalTree(world, fuel, c, p, e, old(flags)) == Some(E.Result(v, flags))
      decreases fuel, e, 1
    {
      hide E.EvalNode;
      if p in flags {
        flags := flags - {p};
        return VError;
      }
      flags := flags + {p};
      v := EvalNode(c, p, e, fuel);
      flags := flags - {p};
    }

    method EvalNode(c: E.Context, p: E.Place, e: Expr, ghost fuel: nat) returns (v: Value)
      requires E.EvalNode(world, fuel, c, p, e, flags).Some?
      modifies this
      ensures E.EvalNode(world, fuel, c, p, e, old(flags)) == Some(E.Result(v, flags))
      decreases fuel, e, 0
    {
      hide E.EvalTree, E.Resolve, Operate, Operand, ShortCircuit;
      if e.Var? {
        var r := E.Resolve(world, e.name, c, false);
        if r.Immediate? {
          return r.value;
        }
        v := EvalTree(r.context, E.Place(r.id, []), world.trees[r.id], fuel - 1);
      } else if e.Paren? {
        v := EvalTree(c, E.Right(p), e.inner, fuel);
        v := Operand(v);
      } else if e.Neg? {
        v := EvalTree(c, E.Right(p), e.arg, fuel);
        v := E.Negated(v);
      } else if e.Bin? {
        var a := EvalTree(c, E.Left(p), e.left, fuel);
        var decided := ShortCircuit(OpKindOf(e.op), Operand(a));
        if decided.Some? {
          return decided.value;
        }
        var b := EvalTree(c, E.Right(p), e.right, fuel);
        v := E.ValueOf(Operate(OpKindOf(e.op), Operand(a), Operand(b)));
      } else {
        v := E.Constant(e);
      }
    }
  }
}
