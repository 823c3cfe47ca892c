/**
  Two ads, each nested in the other, so that there is no root: here a successful evaluation does end in another scope than it
  started in, and more depth does give another value.
 */
module ScopedEvalQuirks {
  import opened Options
  import opened ScopedAds
  import opened ScopedEval

  /** A ternary is its second or third operand; only booleans count as booleans. */
  function Choose(k: Kind, vs: seq<Option<Value>>): Option<Value> {
    if |vs| == 3 && vs[0].Some? && vs[0].value.VBool? then if vs[0].value.truth then vs[1] else vs[2] else None
  }

  function TruthOf(v: Value): Option<bool> {
    if v.VBool? then Some(v.truth) else None
  }

  const OUTER := Ad(map["x" := Nested(1), "b" := Literal(VBool(true))], Some(1), None, None)
  const INNER := Ad(map["x" := Ref(None, "y", false), "y" := Literal(VUndefined), "b" := Literal(VBool(false))], Some(0), None, None)

  function Mutual(): World {
    World(map[0 := OUTER, 1 := INNER], None, Semantics(Choose, TruthOf))
  }

  lemma MutualFits()
    ensures Fit(Mutual()) && RootScope(Mutual().ads, 0).None?
  {
    var ads := Mutual().ads;
    forall a: AdId
      ensures PathOk(ads, a)
    {
      assert Parent(ads, a) == if a == 0 then Some(1) else if a == 1 then Some(0) else None;
      assert Returns(ads, a, Parent(ads, a), 1);
    }
    var n := Steps(ads, 0);
    assert Parent(ads, 0) == Some(1) && Parent(ads, 1) == Some(0);
  }

  const X := Ref(None, "x", false)
  const TOP := Ref(Some(X), "toplevel", false)
  /** `b ? x.toplevel : 7` */
  const CHOICE := Op(TernaryOp, Some(Ref(None, "b", false)), Some(TOP), Some(Literal(Plain(7))))
  /** `true ? CHOICE : 0` */
  const TWICE := Op(TernaryOp, Some(Literal(VBool(true))), Some(CHOICE), Some(Literal(Plain(0))))

  /** An attribute that the scope itself has is found there. */
  lemma FoundHere(s: State, name: string)
    requires s.cur in Mutual().ads && name in Mutual().ads[s.cur].attrs
    ensures Fit(Mutual()) && FindExpr(Mutual(), s, Ref(None, name, false)) == IsTree(Mutual().ads[s.cur].attrs[name], s.cur)
  {
    MutualFits();
  }

  lemma AttrValue(s: State, name: string, r: Result)
    requires s.cur in Mutual().ads && name in Mutual().ads[s.cur].attrs && s.depth > 0 && Fit(Mutual())
    requires r == Eval(Mutual(), s.(depth := s.depth - 1), Mutual().ads[s.cur].attrs[name])
    ensures Eval(Mutual(), s, Ref(None, name, false)) == r.(state := s)
  {
    FoundHere(s, name);
    hide FindExpr, Fit, Mutual;
  }

  /** `b` is true in the outer and false in the inner ad. */
  lemma ValueOfB(s: State)
    requires s.cur < 2 && s.depth > 0
    ensures Fit(Mutual()) && Eval(Mutual(), s, Ref(None, "b", false)) == Result(true, VBool(s.cur == 0), s)
  {
    MutualFits();
    hide Fit;
    AttrValue(s, "b", Result(true, VBool(s.cur == 0), s.(depth := s.depth - 1)));
  }

  lemma XInOuter(s: State)
    requires s.cur == 0 && s.depth > 0
    ensures Fit(Mutual()) && Eval(Mutual(), s, X) == Result(true, VAd(1), s)
  {
    MutualFits();
    hide Fit;
    AttrValue(s, "x", Result(true, VAd(1), s.(depth := s.depth - 1)));
  }

  lemma XInInner(s: State)
    requires s.cur == 1 && s.depth > 0
    ensures Fit(Mutual())
    ensures s.depth == 1 ==> !Eval(Mutual(), s, X).ok && Eval(Mutual(), s, X).state == s
    ensures s.depth > 1 ==> Eval(Mutual(), s, X) == Result(true, VUndefined, s)
  {
    MutualFits();
    hide Fit, FindExpr;
    var less := s.(depth := s.depth - 1);
    YInInner(less);
    AttrValue(s, "x", Eval(Mutual(), less, Ref(None, "y", false)));
  }

  lemma YInInner(s: State)
    requires s.cur == 1
    ensures Fit(Mutual())
    ensures Eval(Mutual(), s, Ref(None, "y", false)) == if s.depth == 0 then Result(false, VError, s) else Result(true, VUndefined, s)
  {
    FoundHere(s, "y");
    hide Fit;
    if s.depth > 0 {
      AttrValue(s, "y", Result(true, VUndefined, s.(depth := s.depth - 1)));
    } else {
      hide FindExpr;
    }
  }

  /** `x.toplevel` fails in the outer ad and leaves the evaluation in the inner one. */
  lemma TopInOuter(s: State)
    requires s.cur == 0 && s.depth > 0
    ensures Fit(Mutual()) && !Eval(Mutual(), s, TOP).ok && Eval(Mutual(), s, TOP).state == s.(cur := 1)
  {
    XInOuter(s);
    NoTopLevel(s);
    hide Fit, Mutual, Search;
    assert FindExpr(Mutual(), s, TOP) == Fails(s.(cur := 1));
  }

  lemma NoTopLevel(s: State)
    ensures Fit(Mutual()) && Search(Mutual(), s, 1, "toplevel", false) == Fails(s.(cur := 1))
  {
    MutualFits();
  }

  /** In the inner ad it is UNDEFINED if there is depth enough to follow two references. */
  lemma TopInInner(s: State)
    requires s.cur == 1 && s.depth > 0
    ensures Fit(Mutual())
    ensures s.depth == 1 ==> !Eval(Mutual(), s, TOP).ok && Eval(Mutual(), s, TOP).state == s
    ensures s.depth > 1 ==> Eval(Mutual(), s, TOP) == Result(true, VUndefined, s)
  {
    XInInner(s);
    hide Fit, Mutual, Search;
    var f := FindExpr(Mutual(), s, TOP);
    assert s.depth == 1 ==> f == Fails(s);
    assert s.depth > 1 ==> f == IsUndefined;
  }

  /** True is true, and a ternary on it is its second operand. */
  ghost predicate Chooses(sem: Semantics) {
    && sem.truth(VBool(true)) == Some(true)
    && forall vs: seq<Option<Value>> | |vs| == 3 && vs[0] == Some(VBool(true)) :: sem.combine(TernaryOp, vs) == vs[1]
  }

  lemma MutualChooses()
    ensures Chooses(Mutual().sem)
  {
  }

  /** A ternary whose first operand is true and whose second fails at first. */
  lemma SecondTry(w: World, s: State, e: Node, s': State)
    requires Fit(w) && e.Op? && e.kind.TernaryOp? && e.child1.Some? && e.child2.Some? && Chooses(w.sem)
    requires Eval(w, s, e.child1.value) == Result(true, VBool(true), s)
    requires !Eval(w, s, e.child2.value).ok && Eval(w, s, e.child2.value).state == s'
    ensures Eval(w, s, e) == EvalRest(w, s', e, Some(VBool(true)))
  {
    hide Fit, EvalRest;
    assert EvalChild(w, s, e, e.child1) == Result(true, VBool(true), s);
    assert EvalChild(w, s, e, e.child2) == Eval(w, s, e.child2.value);
  }

  /** The second try, when the third operand is a literal. */
  lemma TriedAgain(w: World, s: State, e: Node)
    requires Fit(w) && e.Op? && e.kind.TernaryOp? && e.child2.Some? && e.child3.Some? && e.child3.value.Literal? && Chooses(w.sem)
    ensures var r := Eval(w, s, e.child2.value);
            var q := EvalRest(w, s, e, Some(VBool(true)));
            if r.ok then q == r else !q.ok && q.state == r.state
  {
    hide Fit;
    var r := Eval(w, s, e.child2.value);
    assert EvalChild(w, s, e, e.child2) == r;
    if r.ok {
      var v := e.child3.value.value;
      assert EvalChild(w, r.state, e, e.child3) == Result(true, v, r.state);
      assert w.sem.combine(e.kind, [Some(VBool(true)), Some(r.value), Some(v)]) == Some(r.value);
    }
  }

  /** `true ? e : v` when `e` fails at first. */
  lemma TriesTwice(w: World, s: State, s': State, e: Node, v: Value)
    requires Fit(w) && Chooses(w.sem)
    requires !Eval(w, s, e).ok && Eval(w, s, e).state == s' && Eval(w, s', e).ok
    ensures Eval(w, s, Op(TernaryOp, Some(Literal(VBool(true))), Some(e), Some(Literal(v)))) == Eval(w, s', e)
  {
    hide Fit, Chooses, EvalRest;
    var t := Op(TernaryOp, Some(Literal(VBool(true))), Some(e), Some(Literal(v)));
    assert Eval(w, s, Literal(VBool(true))) == Result(true, VBool(true), s);
    SecondTry(w, s, t, s');
    TriedAgain(w, s', t);
  }

  /** One reference deep the choice fails in the outer ad; two deep it succeeds, in the inner one. */
  lemma ChoiceInOuter(s: State)
    requires s.cur == 0 && s.depth > 0
    ensures Fit(Mutual())
    ensures s.depth == 1 ==> !Eval(Mutual(), s, CHOICE).ok && Eval(Mutual(), s, CHOICE).state == s.(cur := 1)
    ensures s.depth > 1 ==> Eval(Mutual(), s, CHOICE) == Result(true, VUndefined, s.(cur := 1))
  {
    hide Fit, Mutual, Eval, Chooses;
    MutualChooses();
    ValueOfB(s);
    TopInOuter(s);
    SecondTry(Mutual(), s, CHOICE, s.(cur := 1));
    TopInInner(s.(cur := 1));
    TriedAgain(Mutual(), s.(cur := 1), CHOICE);
  }

  lemma ChoiceInInner(s: State)
    requires s.cur == 1 && s.depth > 0
    ensures Fit(Mutual()) && Eval(Mutual(), s, CHOICE) == Result(true, Plain(7), s)
  {
    ValueOfB(s);
    hide Fit, EvalRest;
    assert EvalChild(Mutual(), s, CHOICE, CHOICE.child1) == Result(true, VBool(false), s);
    assert EvalChild(Mutual(), s, CHOICE, CHOICE.child3) == Result(true, Plain(7), s);
    assert ShortCircuit(Mutual(), s, CHOICE, VBool(false)) == Result(true, Plain(7), s);
  }

  /** Success, but not in the scope it started in. */
  lemma ScopeNotRestored()
    ensures Fit(Mutual()) && Eval(Mutual(), State(0, 2), CHOICE).ok && Eval(Mutual(), State(0, 2), CHOICE).state.cur != 0
  {
    ChoiceInOuter(State(0, 2));
  }

  /** Success with 7 one reference deep, and with UNDEFINED two deep. */
  lemma DepthChangesValue()
    ensures Fit(Mutual())
    ensures Eval(Mutual(), State(0, 1), TWICE).ok && Eval(Mutual(), State(0, 1), TWICE).value == Plain(7)
    ensures Eval(Mutual(), State(0, 2), TWICE).ok && Eval(Mutual(), State(0, 2), TWICE).value == VUndefined
  {
    MutualFits();
    OneDeep();
    TwoDeep();
  }

  lemma OneDeep()
    requires Fit(Mutual())
    ensures Eval(Mutual(), State(0, 1), TWICE) == Result(true, Plain(7), State(1, 1))
  {
    hide Fit, Mutual, Eval, Chooses;
    ChoiceInOuter(State(0, 1));
    ChoiceInInner(State(1, 1));
    MutualChooses();
    TriesTwice(Mutual(), State(0, 1), State(1, 1), CHOICE, Plain(0));
  }

  lemma TwoDeep()
    requires Fit(Mutual())
    ensures Eval(Mutual(), State(0, 2), TWICE) == Result(true, VUndefined, State(1, 2))
  {
    hide Fit, EvalRest;
    var s := State(0, 2);
    ChoiceInOuter(s);
    assert EvalChild(Mutual(), s, TWICE, TWICE.child1) == Result(true, VBool(true), s);
    assert EvalChild(Mutual(), s, TWICE, TWICE.child2) == Result(true, VUndefined, State(1, 2));
    assert ShortCircuit(Mutual(), s, TWICE, VBool(true)) == Result(true, VUndefined, State(1, 2));
  }
}
