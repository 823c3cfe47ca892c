/**
  Without a root no scope is safe: from any ad that does not define `self` itself some expression succeeds and
  ends in whichever other ad it names. So evaluation restores its scope exactly where the path of parents ends.
 */
module ScopedRootless {
  import opened Options
  import opened Finite
  import opened ScopedAds
  import opened ScopedEval
  import opened ScopedEvalLaws
  import opened ScopedEvalQuirks

  /** A successful evaluation ends in the scope it started in. */
  predicate RestoresScope(w: World, s: State, e: Node)
    requires Fit(w)
  {
    Eval(w, s, e).ok ==> Eval(w, s, e).state == s
  }

  const IS_IT := OtherOp(0)

  const VOID := OtherOp(1)

  /** Booleans are booleans and ternaries choose; one operator tells whether an ad is `a`, and one gives UNDEFINED for any value. */
  ghost predicate Tells(sem: Semantics, a: AdId) {
    && Chooses(sem) && (forall b :: sem.truth(VBool(b)) == Some(b))
    && (forall vs: seq<Option<Value>> | |vs| == 3 && vs[0].Some? ::
          sem.combine(IS_IT, vs) == Some(VBool(vs[0] == Some(VAd(a)))) && sem.combine(VOID, vs) == Some(VUndefined))
  }

  /** There are such operators. */
  lemma SomeTell(a: AdId) returns (sem: Semantics)
    ensures Tells(sem, a)
  {
    sem := Semantics(
      (k, vs) => if k == IS_IT then Some(VBool(|vs| == 3 && vs[0] == Some(VAd(a)))) else if k == VOID then Some(VUndefined)
                 else Choose(k, vs),
      TruthOf);
  }

  const SELF := Ref(None, "self", false)
  const IS_SELF := Op(IS_IT, Some(SELF), None, None)

  /** The ad `b` in the scope asked for, and UNDEFINED in any other. */
  function Pick(b: AdId): Node {
    Op(TernaryOp, Some(IS_SELF), Some(Nested(b)), Some(Literal(VUndefined)))
  }

  function RootOf(b: AdId): Node {
    Ref(Some(Pick(b)), "root", false)
  }

  function Leaver(b: AdId): Node {
    Op(TernaryOp, Some(Literal(VBool(true))), Some(RootOf(b)), Some(Literal(VUndefined)))
  }

  lemma SelfIsHere(w: World, s: State)
    requires Fit(w) && s.depth > 0 && Lookup(w.ads, s.cur, "self").None?
    ensures Eval(w, s, SELF) == Result(true, VAd(s.cur), s)
  {
    var there := State(s.cur, s.depth - 1);
    assert FindExpr(w, s, SELF) == IsTree(Nested(s.cur), s.cur);
    assert Eval(w, there, Nested(s.cur)) == Result(true, VAd(s.cur), there);
  }

  lemma AsksForSelf(w: World, s: State, a: AdId)
    requires Fit(w) && Tells(w.sem, a) && s.depth > 0 && Lookup(w.ads, s.cur, "self").None?
    ensures Eval(w, s, IS_SELF) == Result(true, VBool(s.cur == a), s)
  {
    hide Fit;
    SelfIsHere(w, s);
    assert w.sem.combine(IS_IT, [Some(VAd(s.cur)), None, None]) == Some(VBool(s.cur == a));
    assert EvalChild(w, s, IS_SELF, IS_SELF.child1) == Result(true, VAd(s.cur), s);
    assert EvalRest(w, s, IS_SELF, Some(VAd(s.cur))) == Result(true, VBool(s.cur == a), s);
  }

  lemma Picks(w: World, s: State, a: AdId, b: AdId)
    requires Fit(w) && Tells(w.sem, a) && s.depth > 0 && Lookup(w.ads, s.cur, "self").None?
    ensures Eval(w, s, Pick(b)) == Result(true, if s.cur == a then VAd(b) else VUndefined, s)
  {
    hide Fit, EvalRest;
    AsksForSelf(w, s, a);
    var e := Pick(b);
    var v := VBool(s.cur == a);
    assert EvalChild(w, s, e, e.child1) == Result(true, v, s);
    assert EvalChild(w, s, e, e.child2) == Result(true, VAd(b), s);
    assert EvalChild(w, s, e, e.child3) == Result(true, VUndefined, s);
    assert ShortCircuit(w, s, e, v) == EvalChild(w, s, e, if s.cur == a then e.child2 else e.child3);
  }

  /** In `a` asking for the root fails and moves to `b`; elsewhere it is UNDEFINED. */
  lemma AsksForRoot(w: World, s: State, a: AdId, b: AdId)
    requires Fit(w) && w.root.None? && Tells(w.sem, a) && s.depth > 0
    requires Lookup(w.ads, s.cur, "self").None? && Lookup(w.ads, b, "root").None?
    ensures Eval(w, s, RootOf(b)) == if s.cur == a then Result(false, VError, s.(cur := b)) else Result(true, VUndefined, s)
  {
    Picks(w, s, a, b);
    assert Search(w, s, b, "root", false) == Fails(s.(cur := b));
    hide Fit, Search, Lookup;
    assert FindExpr(w, s, RootOf(b)) == if s.cur == a then Fails(s.(cur := b)) else IsUndefined;
  }

  /** Where there is no root, some operators and some expression succeed in `a` and end in `b`. */
  lemma LeavesScope(w: World, a: AdId, b: AdId, depth: nat)
    requires Fit(w) && w.root.None? && Tells(w.sem, a) && depth > 0 && a != b
    requires Lookup(w.ads, a, "self").None? && Lookup(w.ads, b, "self").None? && Lookup(w.ads, b, "root").None?
    ensures Eval(w, State(a, depth), Leaver(b)) == Result(true, VUndefined, State(b, depth))
  {
    hide Fit, Lookup, Eval, RootOf, Chooses;
    AsksForRoot(w, State(a, depth), a, b);
    AsksForRoot(w, State(b, depth), a, b);
    TriesTwice(w, State(a, depth), State(b, depth), RootOf(b), VUndefined);
  }

  /**
    With the root that scope `a` has, every expression restores its scope, whatever the operators and the depth,
    exactly when the path of parents does not loop.
   */
  lemma RestoresIffRooted(ads: Ads, a: AdId)
    requires Acyclic(ads) && PathsOk(ads) && Lookup(ads, a, "self").None?
    ensures (forall sem: Semantics, depth: nat, e: Node :: RestoresScope(World(ads, RootScope(ads, a), sem), State(a, depth), e))
            <==> !Loops(ads, a)
  {
    hide Loops, RootScope, Eval, Tells;
    RootIsTop(ads, a);
    var root := RootScope(ads, a);
    if root.Some? {
      forall sem: Semantics, depth: nat, e: Node
        ensures RestoresScope(World(ads, root, sem), State(a, depth), e)
      {
        Restores(World(ads, root, sem), State(a, depth), e, Ternaries({}));
      }
    } else {
      var b := Above(ads.Keys + {a});
      var sem := SomeTell(a);
      LeavesScope(World(ads, root, sem), a, b, 1);
      assert !RestoresScope(World(ads, root, sem), State(a, 1), Leaver(b));
    }
  }
}
