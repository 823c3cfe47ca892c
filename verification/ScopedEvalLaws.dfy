/**
  What evaluation leaves behind, and what more depth changes. A ternary whose chosen branch fails evaluates
  that branch again, and a scoped reference to the root where there is none fails in another scope than the one
  it was evaluated in. Where there is no root the laws need expressions that avoid one of the two.
 */
module ScopedEvalLaws {
  import opened Options
  import opened ScopedAds
  import opened ScopedEval

  /**
    What expressions do without: ternaries, or the names of the root behind a scope. Only attributes with one of
    the names matter, which are all the names that the expression and those attributes refer to.
   */
  datatype Ban = Ternaries(names: set<string>) | ScopedRoots(names: set<string>)

  predicate Avoids(e: Node, ban: Ban) {
    match e
    case Ref(scope, name, _) =>
      && name in ban.names
      && (ban.ScopedRoots? && scope.Some? ==> name != "toplevel" && name != "root")
      && (scope.Some? ==> Avoids(scope.value, ban))
    case Op(k, c1, c2, c3) =>
      && (ban.Ternaries? ==> !k.TernaryOp?)
      && (c1.Some? ==> Avoids(c1.value, ban)) && (c2.Some? ==> Avoids(c2.value, ban)) && (c3.Some? ==> Avoids(c3.value, ban))
    case _ => true
  }

  ghost predicate AllAvoid(ads: Ads, ban: Ban) {
    forall a, n | a in ads && n in ads[a].attrs && n in ban.names :: Avoids(ads[a].attrs[n], ban)
  }

  /** There is a root, or the expression and all attributes it can reach avoid one of the two. */
  ghost predicate Steady(w: World, e: Node, ban: Ban) {
    w.root.Some? || (AllAvoid(w.ads, ban) && Avoids(e, ban))
  }

  /***** Searches *****/

  lemma {:induction false} LookupAvoids(ads: Ads, a: AdId, name: string, ban: Ban)
    requires Acyclic(ads) && AllAvoid(ads, ban) && name in ban.names
    ensures Lookup(ads, a, name).Some? ==> Avoids(Lookup(ads, a, name).value, ban)
    decreases a
  {
    if name !in AdOf(ads, a).attrs && AdOf(ads, a).chain.Some? {
      LookupAvoids(ads, AdOf(ads, a).chain.value, name, ban);
    }
  }

  lemma {:induction false} UpwardAvoids(ads: Ads, root: Option<AdId>, start: AdId, c: AdId, name: string, n: nat, ban: Ban)
    requires Acyclic(ads) && AllAvoid(ads, ban) && name in ban.names && Returns(ads, start, Parent(ads, c), n)
    ensures Upward(ads, root, start, c, name, n).tree.Some? ==> Avoids(Upward(ads, root, start, c, name, n).tree.value, ban)
    decreases n
  {
    hide AllAvoid;
    LookupAvoids(ads, c, name, ban);
    var next := Parent(ads, c);
    if InScope(ads, root, c, name).None? && next != None && next != Some(start) {
      UpwardAvoids(ads, root, start, next.value, name, n - 1, ban);
    }
  }

  /** A search finds steady expressions, whatever the state, and with a root it does not fail. */
  lemma SearchSteady(w: World, s: State, s': State, a: AdId, name: string, unscoped: bool, ban: Ban)
    requires Fit(w) && (w.root.Some? || (AllAvoid(w.ads, ban) && name in ban.names))
    ensures var t := Search(w, s, a, name, unscoped);
            && (t.Fails? ==> w.root.None? && (name == "toplevel" || name == "root"))
            && (t.IsTree? ==> Steady(w, t.tree, ban))
            && (!t.Fails? ==> Search(w, s', a, name, unscoped) == t)
  {
    hide AllAvoid, Avoids, Upward;
    UpwardFails(w.ads, w.root, a, a, name, Steps(w.ads, a));
    if w.root.None? {
      UpwardAvoids(w.ads, w.root, a, a, name, Steps(w.ads, a), ban);
    }
    if AdOf(w.ads, a).alternate.Some? {
      var b := AdOf(w.ads, a).alternate.value;
      UpwardFails(w.ads, w.root, b, b, name, Steps(w.ads, b));
      if w.root.None? {
        UpwardAvoids(w.ads, w.root, b, b, name, Steps(w.ads, b), ban);
      }
    }
  }

  /** An unscoped search that fails does so in the scope it starts in. */
  lemma FailsHere(w: World, s: State, name: string)
    requires Fit(w)
    ensures Search(w, s, s.cur, name, true).Fails? ==> Search(w, s, s.cur, name, true).state == s
  {
    UpwardFails(w.ads, w.root, s.cur, s.cur, name, Steps(w.ads, s.cur));
    if AdOf(w.ads, s.cur).alternate.Some? {
      var b := AdOf(w.ads, s.cur).alternate.value;
      UpwardFails(w.ads, w.root, b, b, name, Steps(w.ads, b));
    }
  }

  /***** The scope is restored *****/

  /** What an evaluation started in `s` leaves behind. */
  predicate Kept(w: World, s: State, r: Result, ban: Ban) {
    (r.ok || w.root.Some? || ban.ScopedRoots?) ==> r.state == s
  }

  /** A successful evaluation ends in the scope it started in; unless a search can miss the root, a failed one does too. */
  lemma {:induction false} Restores(w: World, s: State, e: Node, ban: Ban)
    requires Fit(w) && Steady(w, e, ban)
    ensures Kept(w, s, Eval(w, s, e), ban)
    decreases e, 3
  {
    hide Search, AllAvoid;
    match e
    case Ref(_, _, _) => FindRestores(w, s, e, ban);
    case Op(_, _, _, _) => OpRestores(w, s, e, ban);
    case _ =>
  }

  lemma {:induction false} FindRestores(w: World, s: State, e: Node, ban: Ban)
    requires Fit(w) && e.Ref? && Steady(w, e, ban)
    ensures (w.root.Some? || ban.ScopedRoots?) && FindExpr(w, s, e).Fails? ==> FindExpr(w, s, e).state == s
    decreases e, 2
  {
    hide Search, AllAvoid;
    match e.scope
    case None =>
      SearchSteady(w, s, s, if e.absolute && w.root.Some? then w.root.value else s.cur, e.name, true, ban);
      FailsHere(w, s, e.name);
    case Some(x) =>
      Restores(w, s, x, ban);
      var r := Eval(w, s, x);
      if r.ok && r.value.VAd? {
        SearchSteady(w, r.state, s, r.value.ad, e.name, false, ban);
      }
  }

  lemma {:induction false} ChildRestores(w: World, s: State, e: Node, child: Option<Node>, ban: Ban)
    requires Fit(w) && e.Op? && Steady(w, e, ban)
    requires child.Some? ==> child == e.child1 || child == e.child2 || child == e.child3
    ensures Kept(w, s, EvalChild(w, s, e, child), ban)
    decreases e, 1
  {
    hide Eval, AllAvoid;
    if child.Some? {
      Restores(w, s, child.value, ban);
    }
  }

  lemma {:induction false} OpRestores(w: World, s: State, e: Node, ban: Ban)
    requires Fit(w) && e.Op? && Steady(w, e, ban)
    ensures Kept(w, s, Eval(w, s, e), ban)
    decreases e, 2
  {
    hide EvalChild, AllAvoid;
    ChildRestores(w, s, e, e.child1, ban);
    ChildRestores(w, s, e, e.child2, ban);
    ChildRestores(w, s, e, e.child3, ban);
  }

  /***** More depth changes no success *****/

  /** The same outcome with another depth. */
  function At(r: Result, d: nat): Result {
    r.(state := r.state.(depth := d))
  }

  lemma {:induction false} Deeper(w: World, s: State, e: Node, d: nat, ban: Ban)
    requires Fit(w) && Steady(w, e, ban) && Eval(w, s, e).ok && s.depth <= d
    ensures Eval(w, s.(depth := d), e) == At(Eval(w, s, e), d)
    decreases s.depth, e, 4
  {
    hide Search, AllAvoid, EvalChild, ShortCircuit, EvalRest;
    match e
    case Ref(_, _, _) => RefDeeper(w, s, e, d, ban);
    case Op(_, _, _, _) => OpDeeper(w, s, e, d, ban);
    case _ =>
  }

  lemma {:induction false} RefDeeper(w: World, s: State, e: Node, d: nat, ban: Ban)
    requires Fit(w) && e.Ref? && Steady(w, e, ban) && Eval(w, s, e).ok && s.depth <= d
    ensures Eval(w, s.(depth := d), e) == At(Eval(w, s, e), d)
    decreases s.depth, e, 3
  {
    hide Search, AllAvoid, FindExpr;
    FindDeeper(w, s, e, d, ban);
    var t := FindExpr(w, s, e);
    if t.IsTree? {
      Deeper(w, State(t.cur, s.depth - 1), t.tree, d - 1, ban);
    }
  }

  lemma {:induction false} FindDeeper(w: World, s: State, e: Node, d: nat, ban: Ban)
    requires Fit(w) && e.Ref? && Steady(w, e, ban) && !FindExpr(w, s, e).Fails? && s.depth <= d
    ensures FindExpr(w, s.(depth := d), e) == FindExpr(w, s, e)
    ensures FindExpr(w, s, e).IsTree? ==> Steady(w, FindExpr(w, s, e).tree, ban)
    decreases s.depth, e, 1
  {
    hide Search, AllAvoid;
    var s' := s.(depth := d);
    match e.scope
    case None =>
      SearchSteady(w, s, s', if e.absolute then w.root.value else s.cur, e.name, true, ban);
    case Some(x) =>
      Deeper(w, s, x, d, ban);
      var r := Eval(w, s, x);
      if r.value.VAd? {
        SearchSteady(w, r.state, r.state.(depth := d), r.value.ad, e.name, false, ban);
      }
  }

  lemma {:induction false} ChildDeeper(w: World, s: State, e: Node, child: Option<Node>, d: nat, ban: Ban)
    requires Fit(w) && e.Op? && Steady(w, e, ban) && s.depth <= d
    requires child.Some? ==> child == e.child1 || child == e.child2 || child == e.child3
    requires EvalChild(w, s, e, child).ok
    ensures EvalChild(w, s.(depth := d), e, child) == At(EvalChild(w, s, e, child), d)
    ensures EvalChild(w, s, e, child).state == s
    decreases s.depth, e, 0
  {
    hide Eval, AllAvoid;
    if child.Some? {
      Restores(w, s, child.value, ban);
      Deeper(w, s, child.value, d, ban);
    }
  }

  lemma {:induction false} RestDeeper(w: World, s: State, e: Node, v1: Option<Value>, d: nat, ban: Ban)
    requires Fit(w) && e.Op? && Steady(w, e, ban) && s.depth <= d && EvalRest(w, s, e, v1).ok
    ensures EvalRest(w, s.(depth := d), e, v1) == At(EvalRest(w, s, e, v1), d)
    decreases s.depth, e, 1
  {
    hide EvalChild, AllAvoid;
    ChildDeeper(w, s, e, e.child2, d, ban);
    ChildDeeper(w, s, e, e.child3, d, ban);
  }

  lemma {:induction false} OpDeeper(w: World, s: State, e: Node, d: nat, ban: Ban)
    requires Fit(w) && e.Op? && Steady(w, e, ban) && Eval(w, s, e).ok && s.depth <= d
    ensures Eval(w, s.(depth := d), e) == At(Eval(w, s, e), d)
    decreases s.depth, e, 3
  {
    hide EvalChild, EvalRest, AllAvoid, Steady;
    ChildDeeper(w, s, e, e.child1, d, ban);
    if e.child1.None? {
      RestDeeper(w, s, e, None, d, ban);
    } else {
      ShortDeeper(w, s, e, EvalChild(w, s, e, e.child1).value, d, ban);
    }
  }

  /** The rest of an operation once its first operand is known. */
  function Decide(w: World, s: State, e: Node, v: Value): Result
    requires Fit(w) && e.Op?
  {
    var q := ShortCircuit(w, s, e, v);
    if q.ok then q else EvalRest(w, q.state, e, Some(v))
  }

  lemma {:induction false} ShortDeeper(w: World, s: State, e: Node, v: Value, d: nat, ban: Ban)
    requires Fit(w) && e.Op? && Steady(w, e, ban) && s.depth <= d && Decide(w, s, e, v).ok
    ensures Decide(w, s.(depth := d), e, v) == At(Decide(w, s, e, v), d)
    decreases s.depth, e, 2
  {
    hide EvalChild, EvalRest, AllAvoid;
    var branch := if w.sem.truth(v) == Some(true) then e.child2 else e.child3;
    if e.kind.TernaryOp? && w.sem.truth(v).Some? && branch.Some? {
      ChildRestores(w, s, e, branch, ban);
      RestNeedsBoth(w, s, e, Some(v), ban);
      ChildDeeper(w, s, e, branch, d, ban);
    } else if !ShortCircuit(w, s, e, v).ok {
      RestDeeper(w, s, e, Some(v), d, ban);
    }
  }

  /** A branch that fails once fails again. */
  lemma RestNeedsBoth(w: World, s: State, e: Node, v1: Option<Value>, ban: Ban)
    requires Fit(w) && e.Op? && Steady(w, e, ban)
    ensures EvalRest(w, s, e, v1).ok ==> EvalChild(w, s, e, e.child2).ok && EvalChild(w, s, e, e.child3).ok
  {
    hide EvalChild, AllAvoid;
    ChildRestores(w, s, e, e.child2, ban);
  }

  /***** What operations evaluate *****/

  /** A ternary whose condition is decided is the operand it chooses; the other one does not matter, even if it fails. */
  lemma TernaryIsBranch(w: World, s: State, e: Node, b: bool, ban: Ban)
    requires Fit(w) && ban.ScopedRoots? && Steady(w, e, ban)
    requires e.Op? && e.kind.TernaryOp? && e.child1.Some? && e.child2.Some? && e.child3.Some?
    requires Eval(w, s, e.child1.value).ok && w.sem.truth(Eval(w, s, e.child1.value).value) == Some(b)
    ensures var branch := Eval(w, s, if b then e.child2.value else e.child3.value);
            Eval(w, s, e).ok == branch.ok && (branch.ok ==> Eval(w, s, e) == branch)
  {
    hide Avoids, AllAvoid;
    ChildRestores(w, s, e, e.child1, ban);
    ChildRestores(w, s, e, e.child2, ban);
    ChildRestores(w, s, e, e.child3, ban);
    hide EvalRest;
    RestNeedsBoth(w, s, e, Some(Eval(w, s, e.child1.value).value), ban);
    assert EvalChild(w, s, e, e.child1) == Eval(w, s, e.child1.value);
  }

  /** A first operand that decides a logical operation makes the others irrelevant, even if they fail. */
  lemma LogicalDecided(w: World, s: State, e: Node, ban: Ban)
    requires Fit(w) && Steady(w, e, ban) && e.Op? && (e.kind.OrOp? || e.kind.AndOp?) && e.child1.Some?
    requires Eval(w, s, e.child1.value).ok && w.sem.truth(Eval(w, s, e.child1.value).value) == Some(e.kind.OrOp?)
    ensures Eval(w, s, e) == Result(true, VBool(e.kind.OrOp?), s)
  {
    hide Avoids, AllAvoid, EvalRest;
    ChildRestores(w, s, e, e.child1, ban);
    assert EvalChild(w, s, e, e.child1) == Eval(w, s, e.child1.value);
  }

  /** A child that is missing or evaluates, on its own, where the operation starts. */
  predicate Sound(w: World, s: State, child: Option<Node>)
    requires Fit(w)
  {
    child.Some? ==> Eval(w, s, child.value).ok
  }

  function ValueAt(w: World, s: State, child: Option<Node>): Option<Value>
    requires Fit(w)
  {
    if child.Some? then Some(Eval(w, s, child.value).value) else None
  }

  /** Any other operation with sound operands, however many, is what the operator makes of their values. */
  lemma OperationCombines(w: World, s: State, e: Node, ban: Ban)
    requires Fit(w) && Steady(w, e, ban) && e.Op? && e.kind.OtherOp?
    requires Sound(w, s, e.child1) && Sound(w, s, e.child2) && Sound(w, s, e.child3)
    ensures var v := w.sem.combine(e.kind, [ValueAt(w, s, e.child1), ValueAt(w, s, e.child2), ValueAt(w, s, e.child3)]);
            if v.Some? then Eval(w, s, e) == Result(true, v.value, s) else !Eval(w, s, e).ok
  {
    hide Avoids, AllAvoid;
    ChildRestores(w, s, e, e.child1, ban);
    ChildRestores(w, s, e, e.child2, ban);
    ChildRestores(w, s, e, e.child3, ban);
    ChildValue(w, s, e, e.child1);
    ChildValue(w, s, e, e.child2);
    ChildValue(w, s, e, e.child3);
    hide EvalChild, ValueAt;
  }

  lemma ChildValue(w: World, s: State, e: Node, child: Option<Node>)
    requires Fit(w) && e.Op? && Sound(w, s, child)
    requires child.Some? ==> child == e.child1 || child == e.child2 || child == e.child3
    ensures EvalChild(w, s, e, child).ok && ScopedEval.Operand(child, EvalChild(w, s, e, child)) == ValueAt(w, s, child)
  {
  }

  /***** What references mean *****/

  /** The scope `k` steps up from `a` is the nearest that has the name. */
  ghost predicate Nearest(ads: Ads, a: AdId, name: string, k: nat)
    requires Acyclic(ads)
  {
    Ancestor(ads, a, k).Some? && NoneNearer(ads, a, name, k) && Lookup(ads, Ancestor(ads, a, k).value, name).Some?
  }

  /** No scope from `a` up has the name. */
  ghost predicate Nowhere(ads: Ads, a: AdId, name: string)
    requires Acyclic(ads)
  {
    forall k: nat :: Ancestor(ads, a, k).Some? ==> Lookup(ads, Ancestor(ads, a, k).value, name).None?
  }

  lemma SearchesNearest(w: World, a: AdId, name: string, k: nat)
    requires Fit(w) && !Reserved(name) && Nearest(w.ads, a, name, k)
    ensures var there := Ancestor(w.ads, a, k).value;
            LookupInScope(w.ads, w.root, a, name) == Found(Lookup(w.ads, there, name), false, there)
  {
    hide Lookup, Upward;
    assert PathOk(w.ads, a);
    var n := Steps(w.ads, a);
    UpwardFails(w.ads, w.root, a, a, name, n);
    var i := UpwardStops(w.ads, w.root, a, a, name, n);
    if LookupInScope(w.ads, w.root, a, name).tree.None? {
      FindsNothing(w.ads, w.root, a, name, k);
    }
    assert i == k;
  }

  lemma SearchesInVain(w: World, a: AdId, name: string)
    requires Fit(w) && !Reserved(name) && Nowhere(w.ads, a, name)
    ensures LookupInScope(w.ads, w.root, a, name).tree.None? && !LookupInScope(w.ads, w.root, a, name).failed
  {
    hide Lookup, Upward;
    assert PathOk(w.ads, a);
    var n := Steps(w.ads, a);
    UpwardFails(w.ads, w.root, a, a, name, n);
    var k := UpwardStops(w.ads, w.root, a, a, name, n);
  }

  /** Evaluation of the definition that `name` has in scope `there`, one reference deeper, from and back to `s`. */
  function Defined(w: World, s: State, there: AdId, name: string): Result
    requires Fit(w) && s.depth > 0 && Lookup(w.ads, there, name).Some?
  {
    Eval(w, State(there, s.depth - 1), Lookup(w.ads, there, name).value).(state := s)
  }

  /** A plain name means what the nearest enclosing scope says, evaluated there with one reference less to spend. */
  lemma NameMeansNearest(w: World, s: State, name: string, k: nat)
    requires Fit(w) && !Reserved(name) && s.depth > 0 && Nearest(w.ads, s.cur, name, k)
    ensures Eval(w, s, Ref(None, name, false)) == Defined(w, s, Ancestor(w.ads, s.cur, k).value, name)
  {
    SearchesNearest(w, s.cur, name, k);
    hide Fit, LookupInScope, Ancestor, Lookup, NoneNearer;
  }

  /** If no enclosing scope has it but the alternate scope's path does, it means what the nearest scope there says. */
  lemma NameMeansAlternate(w: World, s: State, name: string, k: nat)
    requires Fit(w) && !Reserved(name) && s.depth > 0 && Nowhere(w.ads, s.cur, name)
    requires AdOf(w.ads, s.cur).alternate.Some? && Nearest(w.ads, AdOf(w.ads, s.cur).alternate.value, name, k)
    ensures Eval(w, s, Ref(None, name, false))
         == Defined(w, s, Ancestor(w.ads, AdOf(w.ads, s.cur).alternate.value, k).value, name)
  {
    SearchesInVain(w, s.cur, name);
    SearchesNearest(w, AdOf(w.ads, s.cur).alternate.value, name, k);
    hide Fit, LookupInScope, Ancestor, Lookup, NoneNearer, Nowhere;
  }

  /** A plain name that neither path has is UNDEFINED. */
  lemma NameMeansUndefined(w: World, s: State, name: string)
    requires Fit(w) && !Reserved(name) && Nowhere(w.ads, s.cur, name)
    requires AdOf(w.ads, s.cur).alternate.Some? ==> Nowhere(w.ads, AdOf(w.ads, s.cur).alternate.value, name)
    ensures Eval(w, s, Ref(None, name, false)) == Result(true, VUndefined, s)
  {
    SearchesInVain(w, s.cur, name);
    if AdOf(w.ads, s.cur).alternate.Some? {
      SearchesInVain(w, AdOf(w.ads, s.cur).alternate.value, name);
    }
    hide Fit, LookupInScope, Nowhere;
  }

  /** A name behind a scope that is an ad is looked for from that ad up, and in no alternate scope. */
  lemma ScopedNameMeans(w: World, s: State, x: Node, name: string, k: nat)
    requires Fit(w) && !Reserved(name) && s.depth > 0 && Eval(w, s, x).ok && Eval(w, s, x).value.VAd?
    ensures var a := Eval(w, s, x).value.ad;
            && (Nearest(w.ads, a, name, k) ==>
                  Eval(w, s, Ref(Some(x), name, false)) == Defined(w, s, Ancestor(w.ads, a, k).value, name))
            && (Nowhere(w.ads, a, name) ==> Eval(w, s, Ref(Some(x), name, false)) == Result(true, VUndefined, s))
  {
    var a := Eval(w, s, x).value.ad;
    if Nearest(w.ads, a, name, k) {
      SearchesNearest(w, a, name, k);
    } else if Nowhere(w.ads, a, name) {
      SearchesInVain(w, a, name);
    }
    hide Fit, LookupInScope, Ancestor, Lookup, Nowhere, NoneNearer;
  }

  /** Behind UNDEFINED every name is UNDEFINED, and behind any other value an error. */
  lemma ScopedNameElsewhere(w: World, s: State, x: Node, name: string)
    requires Fit(w) && Eval(w, s, x).ok && !Eval(w, s, x).value.VAd?
    ensures Eval(w, s, Ref(Some(x), name, false))
         == Result(true, if Eval(w, s, x).value.VUndefined? then VUndefined else VError, s)
  {
    hide Fit, Search;
  }

  /** An absolute name means what it means in the root, wherever evaluation stands; without a root it fails. */
  lemma AbsoluteNameMeans(w: World, s: State, name: string)
    requires Fit(w) && !Reserved(name)
    ensures w.root.None? ==> !Eval(w, s, Ref(None, name, true)).ok
    ensures w.root.Some? ==>
              Eval(w, s, Ref(None, name, true)) == Eval(w, State(w.root.value, s.depth), Ref(None, name, false)).(state := s)
  {
    if w.root.Some? {
      SearchSteady(w, s, State(w.root.value, s.depth), w.root.value, name, true, Ternaries({}));
      hide Fit, Search;
    }
  }

  /** The reserved names, where no scope defines them: the scope itself, its parent and the root. */
  lemma ReservedNamesMean(w: World, s: State)
    requires Fit(w) && s.depth > 0
    ensures Lookup(w.ads, s.cur, "self").None? ==> Eval(w, s, Ref(None, "self", false)) == Result(true, VAd(s.cur), s)
    ensures Lookup(w.ads, s.cur, "parent").None? && Parent(w.ads, s.cur).Some? ==>
              Eval(w, s, Ref(None, "parent", false)) == Result(true, VAd(Parent(w.ads, s.cur).value), s)
    ensures Lookup(w.ads, s.cur, "root").None? && w.root.Some? ==>
              Eval(w, s, Ref(None, "root", false)) == Result(true, VAd(w.root.value), s)
    ensures Lookup(w.ads, s.cur, "toplevel").None? && w.root.Some? ==>
              Eval(w, s, Ref(None, "toplevel", false)) == Result(true, VAd(w.root.value), s)
  {
    ReservedFinds(w, s, "self", Some(s.cur));
    ReservedFinds(w, s, "parent", Parent(w.ads, s.cur));
    ReservedFinds(w, s, "root", w.root);
    ReservedFinds(w, s, "toplevel", w.root);
  }

  /** Without a parent there is no `parent`, and without a root evaluation of its names fails. */
  lemma ReservedNamesMissing(w: World, s: State)
    requires Fit(w) && AdOf(w.ads, s.cur).alternate.None?
    ensures Lookup(w.ads, s.cur, "parent").None? && Parent(w.ads, s.cur).None? ==>
              Eval(w, s, Ref(None, "parent", false)) == Result(true, VUndefined, s)
    ensures Lookup(w.ads, s.cur, "root").None? && w.root.None? ==> !Eval(w, s, Ref(None, "root", false)).ok
    ensures Lookup(w.ads, s.cur, "toplevel").None? && w.root.None? ==> !Eval(w, s, Ref(None, "toplevel", false)).ok
  {
    hide Lookup;
  }

  /** With no reference left to spend a name that is defined fails. */
  lemma NameNeedsDepth(w: World, s: State, name: string, k: nat)
    requires Fit(w) && !Reserved(name) && s.depth == 0 && Nearest(w.ads, s.cur, name, k)
    ensures !Eval(w, s, Ref(None, name, false)).ok
  {
    SearchesNearest(w, s.cur, name, k);
    hide Fit, LookupInScope, Ancestor, Lookup, NoneNearer;
  }

  lemma ReservedFinds(w: World, s: State, name: string, ad: Option<AdId>)
    requires Fit(w) && s.depth > 0
    requires (name, ad) in {("self", Some(s.cur)), ("parent", Parent(w.ads, s.cur)), ("root", w.root), ("toplevel", w.root)}
    ensures Lookup(w.ads, s.cur, name).None? && ad.Some? ==> Eval(w, s, Ref(None, name, false)) == Result(true, VAd(ad.value), s)
  {
    if Lookup(w.ads, s.cur, name).None? && ad.Some? {
      var there := State(s.cur, s.depth - 1);
      assert FindExpr(w, s, Ref(None, name, false)) == IsTree(Nested(ad.value), s.cur);
      assert Eval(w, there, Nested(ad.value)) == Result(true, VAd(ad.value), there);
    }
  }
}
