/** External references: the names that an expression of literals, plain names and operations needs from outside. */
module ScopedReferences {
  import opened Options
  import opened ScopedAds
  import opened ScopedEval
  import opened ScopedEvalLaws

  /** Literals, operations and names without a scope, none of them with a special meaning. */
  predicate Simple(e: Node) {
    match e
    case Literal(_) => true
    case Nested(_) => false
    case Ref(scope, name, absolute) => scope.None? && !absolute && !Reserved(name)
    case Op(_, c1, c2, c3) =>
      (c1.Some? ==> Simple(c1.value)) && (c2.Some? ==> Simple(c2.value)) && (c3.Some? ==> Simple(c3.value))
  }

  /** References to the ad's own attributes lead to attributes of lower rank. */
  predicate Below(ads: Ads, a: AdId, rank: map<string, nat>, e: Node, bound: nat)
    requires Acyclic(ads)
  {
    match e
    case Ref(_, name, _) => Lookup(ads, a, name).Some? ==> name in rank && rank[name] < bound
    case Op(_, c1, c2, c3) =>
      && (c1.Some? ==> Below(ads, a, rank, c1.value, bound))
      && (c2.Some? ==> Below(ads, a, rank, c2.value, bound))
      && (c3.Some? ==> Below(ads, a, rank, c3.value, bound))
    case _ => true
  }

  /** A top-level ad without an alternate scope; the ranked attributes are simple and do not refer to each other in circles. */
  ghost predicate TopLevel(ads: Ads, a: AdId, rank: map<string, nat>)
    requires Acyclic(ads)
  {
    && AdOf(ads, a).parent.None? && AdOf(ads, a).alternate.None?
    && forall name | name in rank && Lookup(ads, a, name).Some? ::
         var t := Lookup(ads, a, name).value;
         Simple(t) && Below(ads, a, rank, t, rank[name])
  }

  /** `_GetExternalReferences`: names not found are collected, names found are followed. */
  ghost function External(ads: Ads, a: AdId, rank: map<string, nat>, e: Node, bound: nat): set<string>
    requires Acyclic(ads) && TopLevel(ads, a, rank) && Simple(e) && Below(ads, a, rank, e, bound)
    decreases bound, e
  {
    match e
    case Ref(_, name, _) =>
      (match Lookup(ads, a, name)
       case Some(t) => External(ads, a, rank, t, rank[name])
       case None => {name})
    case Op(_, c1, c2, c3) =>
      (if c1.Some? then External(ads, a, rank, c1.value, bound) else {}) +
      (if c2.Some? then External(ads, a, rank, c2.value, bound) else {}) +
      (if c3.Some? then External(ads, a, rank, c3.value, bound) else {})
    case _ => {}
  }

  /** The external references are just names that the ad does not define. */
  lemma {:induction false} ExternalUndefined(ads: Ads, a: AdId, rank: map<string, nat>, e: Node, bound: nat, name: string)
    requires Acyclic(ads) && TopLevel(ads, a, rank) && Simple(e) && Below(ads, a, rank, e, bound)
    requires name in External(ads, a, rank, e, bound)
    ensures Lookup(ads, a, name).None? && !Reserved(name)
    decreases bound, e
  {
    hide Lookup;
    match e
    case Ref(_, n, _) =>
      if Lookup(ads, a, n).Some? {
        ExternalUndefined(ads, a, rank, Lookup(ads, a, n).value, rank[n], name);
      }
    case Op(_, c1, c2, c3) =>
      if c1.Some? && name in External(ads, a, rank, c1.value, bound) {
        ExternalUndefined(ads, a, rank, c1.value, bound, name);
      } else if c2.Some? && name in External(ads, a, rank, c2.value, bound) {
        ExternalUndefined(ads, a, rank, c2.value, bound, name);
      } else {
        ExternalUndefined(ads, a, rank, c3.value, bound, name);
      }
  }

  /***** Adding attributes *****/

  function Extend(ads: Ads, a: AdId, more: map<string, Node>): Ads {
    ads[a := AdOf(ads, a).(attrs := AdOf(ads, a).attrs + more)]
  }

  lemma {:induction false} ReturnsSame(ads: Ads, a: AdId, more: map<string, Node>, start: AdId, c: Option<AdId>, n: nat)
    ensures Returns(Extend(ads, a, more), start, c, n) == Returns(ads, start, c, n)
    decreases n
  {
    if c.Some? && n > 0 {
      ReturnsSame(ads, a, more, start, Parent(ads, c.value), n - 1);
    }
  }

  lemma ExtendFits(ads: Ads, a: AdId, more: map<string, Node>)
    requires Acyclic(ads) && PathsOk(ads)
    ensures Acyclic(Extend(ads, a, more)) && PathsOk(Extend(ads, a, more))
  {
    forall b
      ensures PathOk(Extend(ads, a, more), b)
    {
      assert PathOk(ads, b);
      var n := Steps(ads, b);
      ReturnsSame(ads, a, more, b, Parent(ads, b), n);
      assert Parent(Extend(ads, a, more), b) == Parent(ads, b);
    }
  }

  lemma {:induction false} LookupBelow(ads: Ads, a: AdId, more: map<string, Node>, c: AdId, name: string)
    requires Acyclic(ads) && Acyclic(Extend(ads, a, more)) && c < a
    ensures Lookup(Extend(ads, a, more), c, name) == Lookup(ads, c, name)
    decreases c
  {
    if name !in AdOf(ads, c).attrs && AdOf(ads, c).chain.Some? {
      LookupBelow(ads, a, more, AdOf(ads, c).chain.value, name);
    }
  }

  lemma LookupExtended(ads: Ads, a: AdId, more: map<string, Node>, name: string)
    requires Acyclic(ads) && Acyclic(Extend(ads, a, more)) && name !in more
    ensures Lookup(Extend(ads, a, more), a, name) == Lookup(ads, a, name)
  {
    if name !in AdOf(ads, a).attrs && AdOf(ads, a).chain.Some? {
      LookupBelow(ads, a, more, AdOf(ads, a).chain.value, name);
    }
  }

  /** In a top-level ad the search for a plain name is a lookup. */
  lemma SearchIsLookup(w: World, s: State, a: AdId, name: string)
    requires Fit(w) && AdOf(w.ads, a).parent.None? && AdOf(w.ads, a).alternate.None? && !Reserved(name)
    ensures var t := Lookup(w.ads, a, name);
            Search(w, s, a, name, true) == if t.Some? then IsTree(t.value, a) else IsUndefined
  {
  }

  /***** Soundness *****/

  /** An evaluation in the top-level ad `a`, and the same with attributes added to it. */
  ghost predicate Setting(w: World, v: World, a: AdId, rank: map<string, nat>, more: map<string, Node>) {
    && Fit(w) && Fit(v) && w.root.Some? && v == w.(ads := Extend(w.ads, a, more))
    && TopLevel(w.ads, a, rank)
    && forall name | name in more :: Lookup(w.ads, a, name).None? && !Reserved(name)
  }

  lemma {:induction false} SameValue(w: World, v: World, a: AdId, rank: map<string, nat>, more: map<string, Node>, s: State, e: Node, bound: nat)
    requires Setting(w, v, a, rank, more) && s.cur == a
    requires Simple(e) && Below(w.ads, a, rank, e, bound) && External(w.ads, a, rank, e, bound) !! more.Keys
    ensures Eval(v, s, e) == Eval(w, s, e)
    decreases s.depth, e, 1
  {
    hide Setting, TopLevel, Lookup;
    match e
    case Ref(_, _, _) => SameRef(w, v, a, rank, more, s, e, bound);
    case Op(_, _, _, _) => SameOp(w, v, a, rank, more, s, e, bound);
    case _ =>
  }

  lemma {:induction false} SameRef(w: World, v: World, a: AdId, rank: map<string, nat>, more: map<string, Node>, s: State, e: Node, bound: nat)
    requires Setting(w, v, a, rank, more) && s.cur == a && e.Ref?
    requires Simple(e) && Below(w.ads, a, rank, e, bound) && External(w.ads, a, rank, e, bound) !! more.Keys
    ensures Eval(v, s, e) == Eval(w, s, e)
    decreases s.depth, e, 0
  {
    hide Search, Lookup, Extend, Acyclic, PathsOk;
    assert e.name !in more;
    LookupExtended(w.ads, a, more, e.name);
    SearchIsLookup(w, s, a, e.name);
    SameScope(w.ads, a, more);
    SearchIsLookup(v, s, a, e.name);
    var t := Lookup(w.ads, a, e.name);
    if t.Some? && s.depth > 0 {
      SameValue(w, v, a, rank, more, State(a, s.depth - 1), t.value, rank[e.name]);
    }
  }

  lemma SameScope(ads: Ads, a: AdId, more: map<string, Node>)
    ensures AdOf(Extend(ads, a, more), a).parent == AdOf(ads, a).parent
    ensures AdOf(Extend(ads, a, more), a).alternate == AdOf(ads, a).alternate
  {
  }

  lemma {:induction false} SameOp(w: World, v: World, a: AdId, rank: map<string, nat>, more: map<string, Node>, s: State, e: Node, bound: nat)
    requires Setting(w, v, a, rank, more) && s.cur == a && e.Op?
    requires Simple(e) && Below(w.ads, a, rank, e, bound) && External(w.ads, a, rank, e, bound) !! more.Keys
    ensures Eval(v, s, e) == Eval(w, s, e)
    decreases s.depth, e, 0
  {
    hide Search, Lookup, Extend, Acyclic, PathsOk, TopLevel, Avoids, AllAvoid;
    if e.child1.Some? {
      SameValue(w, v, a, rank, more, s, e.child1.value, bound);
    }
    if e.child2.Some? {
      SameValue(w, v, a, rank, more, s, e.child2.value, bound);
    }
    if e.child3.Some? {
      SameValue(w, v, a, rank, more, s, e.child3.value, bound);
    }
    SameChildren(w, v, s, e);
  }

  /** Operations depend on their children's outcomes only. */
  lemma SameChildren(w: World, v: World, s: State, e: Node)
    requires Fit(w) && Fit(v) && w.root.Some? && v.root == w.root && v.sem == w.sem && e.Op?
    requires e.child1.Some? ==> Eval(v, s, e.child1.value) == Eval(w, s, e.child1.value)
    requires e.child2.Some? ==> Eval(v, s, e.child2.value) == Eval(w, s, e.child2.value)
    requires e.child3.Some? ==> Eval(v, s, e.child3.value) == Eval(w, s, e.child3.value)
    ensures Eval(v, s, e) == Eval(w, s, e)
  {
    hide Fit, Avoids, AllAvoid;
    ChildRestores(w, s, e, e.child1, Ternaries({}));
    ChildRestores(w, s, e, e.child2, Ternaries({}));
    ChildRestores(w, s, e, e.child3, Ternaries({}));
    assert EvalChild(v, s, e, e.child1) == EvalChild(w, s, e, e.child1);
    assert EvalChild(v, s, e, e.child2) == EvalChild(w, s, e, e.child2);
    assert EvalChild(v, s, e, e.child3) == EvalChild(w, s, e, e.child3);
    hide EvalChild;
    SameRest(w, v, s, e);
  }

  lemma SameRest(w: World, v: World, s: State, e: Node)
    requires Fit(w) && Fit(v) && v.sem == w.sem && e.Op?
    requires EvalChild(v, s, e, e.child2) == EvalChild(w, s, e, e.child2) && EvalChild(w, s, e, e.child2).state == s
    requires EvalChild(v, s, e, e.child3) == EvalChild(w, s, e, e.child3)
    ensures forall v1 :: EvalRest(v, s, e, v1) == EvalRest(w, s, e, v1)
    ensures forall x :: ShortCircuit(v, s, e, x) == ShortCircuit(w, s, e, x)
  {
    hide Fit, EvalChild;
  }

  /**
    Adding attributes that are neither among the external references of an expression nor reserved words
    does not change what the expression evaluates to in its ad, at any depth.
   */
  lemma ExternalReferencesSuffice(w: World, a: AdId, rank: map<string, nat>, more: map<string, Node>, depth: nat, e: Node, bound: nat)
    requires Fit(w) && w.root == Some(a) && TopLevel(w.ads, a, rank)
    requires Simple(e) && Below(w.ads, a, rank, e, bound) && External(w.ads, a, rank, e, bound) !! more.Keys
    requires forall name | name in more :: Lookup(w.ads, a, name).None? && !Reserved(name)
    ensures Fit(w.(ads := Extend(w.ads, a, more)))
    ensures Eval(w.(ads := Extend(w.ads, a, more)), State(a, depth), e) == Eval(w, State(a, depth), e)
  {
    hide TopLevel, Extend, Lookup, Eval;
    ExtendFits(w.ads, a, more);
    SameValue(w, w.(ads := Extend(w.ads, a, more)), a, rank, more, State(a, depth), e, bound);
  }
}
