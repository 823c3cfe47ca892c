/** Evaluation of new ClassAd expressions with a bounded depth of references. */
module ScopedEval {
  import opened Options
  import opened ScopedAds

  /** What the operators compute, and which values count as booleans; nothing is assumed about either. */
  datatype Semantics = Semantics(combine: (Kind, seq<Option<Value>>) -> Option<Value>, truth: Value -> Option<bool>)

  datatype World = World(ads: Ads, root: Option<AdId>, sem: Semantics)

  ghost predicate Fit(w: World) {
    Acyclic(w.ads) && PathsOk(w.ads)
  }

  datatype State = State(cur: AdId, depth: nat)

  /** The value means something only if the evaluation succeeded. */
  datatype Result = Result(ok: bool, value: Value, state: State)

  datatype Target = Fails(state: State) | IsError | IsUndefined | IsTree(tree: Node, cur: AdId)

  /** The search for an attribute reference's expression from scope `a`. */
  function Search(w: World, s: State, a: AdId, name: string, unscoped: bool): Target
    requires Fit(w)
  {
    var f := LookupInScope(w.ads, w.root, a, name);
    var alternate := AdOf(w.ads, a).alternate;
    var g := if unscoped && f.tree.None? && !f.failed && alternate.Some?
             then LookupInScope(w.ads, w.root, alternate.value, name) else f;
    if g.tree.Some? then IsTree(g.tree.value, g.cur)
    else if g.failed then Fails(s.(cur := g.cur))
    else IsUndefined
  }

  function FindExpr(w: World, s: State, e: Node): (t: Target)
    requires Fit(w) && e.Ref?
    ensures t.Fails? ==> t.state.depth == s.depth
    decreases s.depth, e, 2
  {
    match e.scope
    case None =>
      if e.absolute then
        if w.root.None? then Fails(s) else Search(w, s, w.root.value, e.name, true)
      else Search(w, s, s.cur, e.name, true)
    case Some(x) =>
      var r := Eval(w, s, x);
      if !r.ok then Fails(r.state)
      else if r.value.VUndefined? then IsUndefined
      else if r.value.VAd? then Search(w, r.state, r.value.ad, e.name, false)
      else IsError
  }

  /** Evaluation always ends, and the depth is always what it was before. */
  function Eval(w: World, s: State, e: Node): (r: Result)
    requires Fit(w)
    ensures r.state.depth == s.depth
    decreases s.depth, e, 3
  {
    match e
    case Literal(v) => Result(true, v, s)
    case Nested(a) => Result(true, VAd(a), s)
    case Ref(_, _, _) =>
      (match FindExpr(w, s, e)
       case Fails(s') => Result(false, VError, s')
       case IsError => Result(true, VError, s)
       case IsUndefined => Result(true, VUndefined, s)
       case IsTree(t, cur) =>
         if s.depth == 0 then Result(false, VError, s)
         else
           var r := Eval(w, State(cur, s.depth - 1), t);
           r.(state := State(s.cur, r.state.depth + 1)))
    case Op(k, c1, c2, c3) =>
      var r1 := EvalChild(w, s, e, c1);
      if !r1.ok then Result(false, VError, r1.state)
      else if c1.None? then EvalRest(w, r1.state, e, None)
      else
        var q := ShortCircuit(w, r1.state, e, r1.value);
        if q.ok then q else EvalRest(w, q.state, e, Some(r1.value))
  }

  /** A missing child counts as evaluated. */
  function EvalChild(w: World, s: State, e: Node, child: Option<Node>): (r: Result)
    requires Fit(w) && e.Op? && (child.Some? ==> child == e.child1 || child == e.child2 || child == e.child3)
    ensures r.state.depth == s.depth
    decreases s.depth, e, 1
  {
    if child.None? then Result(true, VUndefined, s) else Eval(w, s, child.value)
  }

  /** Whether the first operand decides. A ternary whose chosen branch fails is not decided: it goes on from there. */
  function ShortCircuit(w: World, s: State, e: Node, v: Value): (r: Result)
    requires Fit(w) && e.Op?
    ensures r.state.depth == s.depth
    decreases s.depth, e, 2
  {
    match (e.kind, w.sem.truth(v))
    case (OrOp, Some(true)) => Result(true, VBool(true), s)
    case (AndOp, Some(false)) => Result(true, VBool(false), s)
    case (TernaryOp, Some(b)) =>
      var branch := if b then e.child2 else e.child3;
      if branch.None? then Result(false, VError, s) else EvalChild(w, s, e, branch)
    case _ => Result(false, VError, s)
  }

  /** The remaining children, then the operation itself. */
  function EvalRest(w: World, s: State, e: Node, v1: Option<Value>): (r: Result)
    requires Fit(w) && e.Op?
    ensures r.state.depth == s.depth
    decreases s.depth, e, 2
  {
    var r2 := EvalChild(w, s, e, e.child2);
    if !r2.ok then Result(false, VError, r2.state)
    else
      var r3 := EvalChild(w, r2.state, e, e.child3);
      if !r3.ok then Result(false, VError, r3.state)
      else
        match w.sem.combine(e.kind, [v1, Operand(e.child2, r2), Operand(e.child3, r3)])
        case Some(v) => Result(true, v, r3.state)
        case None => Result(false, VError, r3.state)
  }

  function Operand(child: Option<Node>, r: Result): Option<Value> {
    if child.Some? then Some(r.value) else None
  }
}
