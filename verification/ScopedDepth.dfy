/**
  Without a root more depth keeps every success exactly if it changes nothing about any attribute: one that fails
  for want of depth and succeeds with more can be made to turn one success into another.
 */
module ScopedDepth {
  import opened Options
  import opened Finite
  import opened ScopedAds
  import opened ScopedEval
  import opened ScopedEvalQuirks
  import opened ScopedRootless

  /** The same success, or failures both. */
  predicate SameOutcome(r: Result, r': Result) {
    r.ok == r'.ok && (r.ok ==> r.value == r'.value)
  }

  /** Every attribute of every ad, inherited ones included, comes out the same one reference below `d` and `d'`. */
  ghost predicate Settled(w: World, d: nat, d': nat)
    requires Fit(w) && d > 0 && d' > 0
  {
    forall a, name | Lookup(w.ads, a, name).Some? ::
      SameOutcome(Eval(w, State(a, d - 1), Lookup(w.ads, a, name).value), Eval(w, State(a, d' - 1), Lookup(w.ads, a, name).value))
  }

  /***** If attributes come out the same, so does every expression *****/

  /** The same outcome, left in the same scope. */
  predicate Alike(r: Result, r': Result, d': nat) {
    SameOutcome(r, r') && r'.state == r.state.(depth := d')
  }

  /** What a search finds is an attribute of the scope it stops in, or the name of an ad. */
  lemma {:induction false} UpwardFinds(ads: Ads, root: Option<AdId>, start: AdId, c: AdId, name: string, n: nat)
    requires Acyclic(ads) && Returns(ads, start, Parent(ads, c), n)
    ensures var f := Upward(ads, root, start, c, name, n);
            f.tree.Some? ==> f.tree == Lookup(ads, f.cur, name) || f.tree.value.Nested?
    decreases n
  {
    hide Lookup;
    var next := Parent(ads, c);
    if InScope(ads, root, c, name).None? && next != None && next != Some(start) {
      UpwardFinds(ads, root, start, next.value, name, n - 1);
    }
  }

  lemma SearchFinds(w: World, s: State, a: AdId, name: string, unscoped: bool, d': nat)
    requires Fit(w) && s.depth > 0 && d' > 0 && Settled(w, s.depth, d')
    ensures var t := Search(w, s, a, name, unscoped);
            && Search(w, s.(depth := d'), a, name, unscoped) == (if t.Fails? then Fails(t.state.(depth := d')) else t)
            && (t.IsTree? ==> SameOutcome(Eval(w, State(t.cur, s.depth - 1), t.tree), Eval(w, State(t.cur, d' - 1), t.tree)))
  {
    hide Upward, Lookup, Eval;
    UpwardFinds(w.ads, w.root, a, a, name, Steps(w.ads, a));
    if AdOf(w.ads, a).alternate.Some? {
      var b := AdOf(w.ads, a).alternate.value;
      UpwardFinds(w.ads, w.root, b, b, name, Steps(w.ads, b));
    }
    var t := Search(w, s, a, name, unscoped);
    if t.IsTree? && t.tree.Nested? {
      NestedIs(w, State(t.cur, s.depth - 1), t.tree.ad);
      NestedIs(w, State(t.cur, d' - 1), t.tree.ad);
    }
  }

  lemma NestedIs(w: World, s: State, a: AdId)
    requires Fit(w)
    ensures Eval(w, s, Nested(a)) == Result(true, VAd(a), s)
  {
  }

  lemma {:induction false} SettledAgrees(w: World, s: State, e: Node, d': nat)
    requires Fit(w) && s.depth > 0 && d' > 0 && Settled(w, s.depth, d')
    ensures Alike(Eval(w, s, e), Eval(w, s.(depth := d'), e), d')
    decreases e, 4
  {
    hide Settled, FindExpr, EvalChild, ShortCircuit, EvalRest;
    match e
    case Ref(_, _, _) => RefAgrees(w, s, e, d');
    case Op(_, _, _, _) => OpAgrees(w, s, e, d');
    case _ =>
  }

  lemma {:induction false} RefAgrees(w: World, s: State, e: Node, d': nat)
    requires Fit(w) && e.Ref? && s.depth > 0 && d' > 0 && Settled(w, s.depth, d')
    ensures Alike(Eval(w, s, e), Eval(w, s.(depth := d'), e), d')
    decreases e, 3
  {
    hide Settled, Search;
    var s' := s.(depth := d');
    match e.scope
    case None =>
      SearchFinds(w, s, if e.absolute && w.root.Some? then w.root.value else s.cur, e.name, true, d');
    case Some(x) =>
      SettledAgrees(w, s, x, d');
      var r := Eval(w, s, x);
      if r.ok && r.value.VAd? {
        SearchFinds(w, r.state, r.value.ad, e.name, false, d');
      }
  }

  lemma {:induction false} ChildAgrees(w: World, s: State, e: Node, child: Option<Node>, d': nat)
    requires Fit(w) && e.Op? && s.depth > 0 && d' > 0 && Settled(w, s.depth, d')
    requires child.Some? ==> child == e.child1 || child == e.child2 || child == e.child3
    ensures Alike(EvalChild(w, s, e, child), EvalChild(w, s.(depth := d'), e, child), d')
    decreases e, 0
  {
    hide Settled, Eval;
    if child.Some? {
      SettledAgrees(w, s, child.value, d');
    }
  }

  lemma {:induction false} RestAgrees(w: World, s: State, e: Node, v1: Option<Value>, d': nat)
    requires Fit(w) && e.Op? && s.depth > 0 && d' > 0 && Settled(w, s.depth, d')
    ensures Alike(EvalRest(w, s, e, v1), EvalRest(w, s.(depth := d'), e, v1), d')
    decreases e, 1
  {
    hide Settled, EvalChild;
    ChildAgrees(w, s, e, e.child2, d');
    var r2 := EvalChild(w, s, e, e.child2);
    if r2.ok {
      ChildAgrees(w, r2.state, e, e.child3, d');
    }
  }

  lemma {:induction false} ShortAgrees(w: World, s: State, e: Node, v: Value, d': nat)
    requires Fit(w) && e.Op? && s.depth > 0 && d' > 0 && Settled(w, s.depth, d')
    ensures Alike(ShortCircuit(w, s, e, v), ShortCircuit(w, s.(depth := d'), e, v), d')
    decreases e, 1
  {
    hide Settled, EvalChild;
    var branch := if w.sem.truth(v) == Some(true) then e.child2 else e.child3;
    if branch.Some? {
      ChildAgrees(w, s, e, branch, d');
    }
  }

  lemma {:induction false} OpAgrees(w: World, s: State, e: Node, d': nat)
    requires Fit(w) && e.Op? && s.depth > 0 && d' > 0 && Settled(w, s.depth, d')
    ensures Alike(Eval(w, s, e), Eval(w, s.(depth := d'), e), d')
    decreases e, 3
  {
    hide Settled, EvalChild, ShortCircuit, EvalRest;
    ChildAgrees(w, s, e, e.child1, d');
    var r1 := EvalChild(w, s, e, e.child1);
    if r1.ok && e.child1.None? {
      RestAgrees(w, r1.state, e, None, d');
    } else if r1.ok {
      ShortAgrees(w, r1.state, e, r1.value, d');
      RestAgrees(w, ShortCircuit(w, r1.state, e, r1.value).state, e, Some(r1.value), d');
    }
  }

  /***** If an attribute does not, neither does some expression *****/

  const SEVEN := Literal(Plain(7))

  function Void(e: Node): Node {
    Op(VOID, Some(e), None, None)
  }

  /** The ad `c` in the scope asked for, and UNDEFINED in any other where `e` succeeds. */
  function PickOr(c: AdId, e: Node): Node {
    Op(TernaryOp, Some(IS_SELF), Some(Nested(c)), Some(Void(e)))
  }

  function RootOr(c: AdId, e: Node): Node {
    Ref(Some(PickOr(c, e)), "root", false)
  }

  function OnceOr(c: AdId, e: Node): Node {
    Op(TernaryOp, Some(IS_SELF), Some(RootOr(c, e)), Some(SEVEN))
  }

  function TwiceOr(c: AdId, e: Node): Node {
    Op(TernaryOp, Some(Literal(VBool(true))), Some(OnceOr(c, e)), Some(Literal(Plain(0))))
  }

  /** `e` leaves its scope alone in `s`, whether it succeeds or fails. */
  predicate Stays(w: World, s: State, e: Node)
    requires Fit(w)
  {
    Eval(w, s, e).state == s
  }

  lemma VoidIs(w: World, s: State, e: Node, a: AdId)
    requires Fit(w) && Tells(w.sem, a) && Stays(w, s, e)
    ensures var r := Eval(w, s, Void(e)); r.state == s && r.ok == Eval(w, s, e).ok && (r.ok ==> r.value == VUndefined)
  {
    hide Fit;
    var r, v := Eval(w, s, e), Void(e);
    assert EvalChild(w, s, v, v.child1) == r;
    if r.ok {
      assert w.sem.combine(VOID, [Some(r.value), None, None]) == Some(VUndefined);
      assert EvalRest(w, s, v, Some(r.value)) == Result(true, VUndefined, s);
    }
  }

  /** A ternary whose condition is false, and whose third operand stays where it is. */
  lemma ThirdOperand(w: World, s: State, e: Node)
    requires Fit(w) && e.Op? && e.kind.TernaryOp? && e.child1.Some? && e.child2.Some? && e.child3.Some?
    requires w.sem.truth(VBool(false)) == Some(false) && Eval(w, s, e.child1.value) == Result(true, VBool(false), s)
    requires Stays(w, s, e.child3.value) && (Eval(w, s, e.child3.value).ok || Eval(w, s, e.child2.value).state == s)
    ensures var r := Eval(w, s, e.child3.value); if r.ok then Eval(w, s, e) == r else !Eval(w, s, e).ok && Eval(w, s, e).state == s
  {
    hide Fit;
    assert EvalChild(w, s, e, e.child1) == Result(true, VBool(false), s);
    assert EvalChild(w, s, e, e.child2) == Eval(w, s, e.child2.value);
    assert EvalChild(w, s, e, e.child3) == Eval(w, s, e.child3.value);
  }

  /** An ad that is not there is an empty one. */
  lemma EmptyAd(ads: Ads, a: AdId, name: string)
    requires Acyclic(ads) && a !in ads
    ensures Lookup(ads, a, name).None?
  {
  }

  /** In `a` the pick is `c`; in `c` it comes out as `e` does. */
  lemma PicksOr(w: World, d: nat, a: AdId, c: AdId, e: Node)
    requires Fit(w) && Tells(w.sem, a) && d > 0 && a !in w.ads && c !in w.ads && a != c && Stays(w, State(c, d), e)
    ensures Eval(w, State(a, d), PickOr(c, e)) == Result(true, VAd(c), State(a, d))
    ensures var r := Eval(w, State(c, d), PickOr(c, e));
            r.state == State(c, d) && r.ok == Eval(w, State(c, d), e).ok && (r.ok ==> r.value == VUndefined)
  {
    EmptyAd(w.ads, a, "self");
    EmptyAd(w.ads, c, "self");
    hide Fit, EvalRest;
    AsksForSelf(w, State(a, d), a);
    AsksForSelf(w, State(c, d), a);
    FirstBranch(w, State(a, d), PickOr(c, e));
    VoidIs(w, State(c, d), e, a);
    ThirdOperand(w, State(c, d), PickOr(c, e));
  }

  /** A ternary whose condition is true and whose second operand names an ad. */
  lemma FirstBranch(w: World, s: State, e: Node)
    requires Fit(w) && e.Op? && e.kind.TernaryOp? && e.child1.Some? && e.child2.Some? && e.child2.value.Nested?
    requires w.sem.truth(VBool(true)) == Some(true) && Eval(w, s, e.child1.value) == Result(true, VBool(true), s)
    ensures Eval(w, s, e) == Result(true, VAd(e.child2.value.ad), s)
  {
    hide Fit, EvalRest;
    assert EvalChild(w, s, e, e.child1) == Result(true, VBool(true), s);
    assert EvalChild(w, s, e, e.child2) == Result(true, VAd(e.child2.value.ad), s);
  }

  /** In `a` asking for the root fails and moves to `c`; in `c` it comes out as `e` does. */
  lemma RootsOr(w: World, d: nat, a: AdId, c: AdId, e: Node)
    requires Fit(w) && w.root.None? && Tells(w.sem, a) && d > 0 && a !in w.ads && c !in w.ads && a != c && Stays(w, State(c, d), e)
    ensures Eval(w, State(a, d), RootOr(c, e)) == Result(false, VError, State(c, d))
    ensures var r := Eval(w, State(c, d), RootOr(c, e));
            r.state == State(c, d) && r.ok == Eval(w, State(c, d), e).ok && (r.ok ==> r.value == VUndefined)
  {
    PicksOr(w, d, a, c, e);
    EmptyAd(w.ads, c, "root");
    assert Search(w, State(a, d), c, "root", false) == Fails(State(c, d));
    hide Fit, Search, PickOr;
    assert FindExpr(w, State(a, d), RootOr(c, e)) == Fails(State(c, d));
    assert FindExpr(w, State(c, d), RootOr(c, e)) == if Eval(w, State(c, d), e).ok then IsUndefined else Fails(State(c, d));
  }

  /** From `a` the second try is UNDEFINED if `e` succeeds and 7 if it fails. */
  lemma TellsOutcome(w: World, d: nat, a: AdId, c: AdId, e: Node)
    requires Fit(w) && w.root.None? && Tells(w.sem, a) && d > 0 && a !in w.ads && c !in w.ads && a != c && Stays(w, State(c, d), e)
    ensures Eval(w, State(a, d), TwiceOr(c, e))
         == Result(true, if Eval(w, State(c, d), e).ok then VUndefined else Plain(7), State(c, d))
  {
    EmptyAd(w.ads, a, "self");
    EmptyAd(w.ads, c, "self");
    hide Fit, Eval, RootOr, Chooses;
    var once, here, there := OnceOr(c, e), State(a, d), State(c, d);
    AsksForSelf(w, here, a);
    AsksForSelf(w, there, a);
    RootsOr(w, d, a, c, e);
    SecondTry(w, here, once, there);
    TriedAgain(w, there, once);
    if Eval(w, there, e).ok {
      WholeIs(w, here, once, Plain(0));
    } else {
      LiteralIs(w, there, Plain(7));
      ThirdOperand(w, there, once);
      TriesTwice(w, here, there, once, Plain(0));
    }
  }

  lemma LiteralIs(w: World, s: State, v: Value)
    requires Fit(w)
    ensures Eval(w, s, Literal(v)) == Result(true, v, s)
  {
  }

  /** `true ? e : v` when `e` succeeds. */
  lemma WholeIs(w: World, s: State, e: Node, v: Value)
    requires Fit(w) && Chooses(w.sem) && Eval(w, s, e).ok
    ensures Eval(w, s, Op(TernaryOp, Some(Literal(VBool(true))), Some(e), Some(Literal(v)))) == Eval(w, s, e)
  {
    hide Fit, EvalRest;
    var t := Op(TernaryOp, Some(Literal(VBool(true))), Some(e), Some(Literal(v)));
    assert EvalChild(w, s, t, t.child1) == Result(true, VBool(true), s);
    assert EvalChild(w, s, t, t.child2) == Eval(w, s, e);
  }

  /** An attribute asked for by the name of its ad. */
  function Attribute(b: AdId, name: string): Node {
    Ref(Some(Nested(b)), name, false)
  }

  lemma AttributeIs(w: World, s: State, b: AdId, name: string)
    requires Fit(w) && s.depth > 0 && Lookup(w.ads, b, name).Some?
    ensures var r := Eval(w, State(b, s.depth - 1), Lookup(w.ads, b, name).value);
            SameOutcome(Eval(w, s, Attribute(b, name)), r) && Stays(w, s, Attribute(b, name))
  {
    assert Search(w, s, b, name, false) == IsTree(Lookup(w.ads, b, name).value, b);
    hide Search, Fit, Lookup;
    NestedIs(w, s, b);
    assert FindExpr(w, s, Attribute(b, name)) == IsTree(Lookup(w.ads, b, name).value, b);
  }

  /***** Both ways *****/

  /** Success at one depth is the same success at the other. */
  predicate KeepsSuccess(w: World, s: State, e: Node, d': nat)
    requires Fit(w)
  {
    Eval(w, s, e).ok ==> Eval(w, s.(depth := d'), e).ok && Eval(w, s.(depth := d'), e).value == Eval(w, s, e).value
  }

  /**
    Without a root, and with operators that tell ads apart, every success at depth `d` is the same success at `d'`
    exactly when every attribute comes out the same.
   */
  lemma DeeperIffSettled(w: World, a: AdId, d: nat, d': nat)
    requires Fit(w) && w.root.None? && a !in w.ads && Tells(w.sem, a) && d > 0 && d' > 0
    ensures (forall b, e :: KeepsSuccess(w, State(b, d), e, d')) <==> Settled(w, d, d')
  {
    hide Tells, Eval, Lookup, Acyclic, PathsOk;
    if Settled(w, d, d') {
      forall b, e
        ensures KeepsSuccess(w, State(b, d), e, d')
      {
        SettledAgrees(w, State(b, d), e, d');
      }
    } else {
      var b, name :| Lookup(w.ads, b, name).Some?
        && !SameOutcome(Eval(w, State(b, d - 1), Lookup(w.ads, b, name).value), Eval(w, State(b, d' - 1), Lookup(w.ads, b, name).value));
      var c := Above(w.ads.Keys + {a});
      var r := Attribute(b, name);
      AttributeIs(w, State(c, d), b, name);
      AttributeIs(w, State(c, d'), b, name);
      TellsOutcome(w, d, a, c, r);
      TellsOutcome(w, d', a, c, r);
      assert !KeepsSuccess(w, State(c, d), r, d') || !KeepsSuccess(w, State(a, d), TwiceOr(c, r), d');
    }
  }
}
