/** Evaluation as it runs: a state whose scope moves with each search and whose depth is counted down and up again. */
module ScopedEvalImpl {
  import opened Options
  import opened ScopedAds
  import E = ScopedEval
  import opened ScopedReferences

  const MAX_CLASSAD_RECURSION := 1000

  class EvalState {
    const ads: Ads
    const sem: E.Semantics
    var rootAd: Option<AdId>
    var curAd: AdId
    var depthRemaining: nat

    ghost function World(): E.World
      reads this`rootAd
    {
      E.World(ads, rootAd, sem)
    }

    ghost function State(): E.State
      reads this`curAd, this`depthRemaining
    {
      E.State(curAd, depthRemaining)
    }

    /** A fresh state with its scopes set: the root is the topmost scope, or none if the path is a loop. */
    constructor (ads: Ads, sem: E.Semantics, a: AdId)
      requires Acyclic(ads) && PathsOk(ads)
      ensures this.ads == ads && this.sem == sem && E.Fit(World())
      ensures State() == E.State(a, MAX_CLASSAD_RECURSION) && rootAd == RootScope(ads, a)
    {
      this.ads := ads;
      this.sem := sem;
      rootAd := None;
      curAd := a;
      depthRemaining := MAX_CLASSAD_RECURSION;
      new;
      SetRootScope();
    }

    method SetRootScope()
      requires Acyclic(ads) && PathsOk(ads) && rootAd == None
      modifies this`rootAd
      ensures rootAd == RootScope(ads, curAd)
    {
      assert PathOk(ads, curAd);
      ghost var n := Steps(ads, curAd);
      var prev := curAd;
      var scope := Parent(ads, curAd);
      while scope.Some?
        invariant rootAd == None && scope == Parent(ads, prev) && Returns(ads, curAd, scope, n)
        invariant Top(ads, curAd, prev, n) == RootScope(ads, curAd)
        decreases n
      {
        if scope.value == curAd {
          return;
        }
        prev := scope.value;
        scope := Parent(ads, prev);
        n := n - 1;
      }
      rootAd := Some(prev);
    }

    /** Search scope after scope; the state stays in the last one searched. */
    method LookupInScope(a: AdId, name: string) returns (f: Found)
      requires E.Fit(World())
      modifies this`curAd
      ensures f == ScopedAds.LookupInScope(ads, rootAd, a, name) && curAd == f.cur
    {
      assert PathOk(ads, a);
      ghost var n := Steps(ads, a);
      var current := a;
      while true
        invariant Returns(ads, a, Parent(ads, current), n)
        invariant Upward(ads, rootAd, a, current, name, n) == ScopedAds.LookupInScope(ads, rootAd, a, name)
        decreases n
      {
        curAd := current;
        var here := InScope(ads, rootAd, current, name);
        if here.Some? {
          return here.value;
        }
        var next := Parent(ads, current);
        if next.None? || next.value == a {
          return Found(None, false, current);
        }
        current := next.value;
        n := n - 1;
      }
    }

    /** The search of an attribute reference from scope `a`, with the alternate scope behind it. */
    method Search(a: AdId, name: string, unscoped: bool) returns (t: E.Target)
      requires E.Fit(World())
      modifies this`curAd
      ensures t == E.Search(World(), old(State()), a, name, unscoped)
      ensures t.Fails? ==> State() == t.state
      ensures t.IsTree? ==> curAd == t.cur
    {
      hide ScopedAds.LookupInScope;
      var f := LookupInScope(a, name);
      if unscoped && f.tree.None? && !f.failed && AdOf(ads, a).alternate.Some? {
        f := LookupInScope(AdOf(ads, a).alternate.value, name);
      }
      t := if f.tree.Some? then E.IsTree(f.tree.value, curAd)
           else if f.failed then E.Fails(E.State(curAd, depthRemaining))
           else E.IsUndefined;
    }

    method FindExpr(e: Node) returns (t: E.Target)
      requires E.Fit(World()) && e.Ref?
      modifies this`curAd, this`depthRemaining
      ensures t == E.FindExpr(World(), old(State()), e) && depthRemaining == old(depthRemaining)
      ensures t.Fails? ==> State() == t.state
      ensures t.IsTree? ==> curAd == t.cur
      decreases depthRemaining, e, 0
    {
      hide E.Search, E.Fit;
      if e.scope.None? {
        if e.absolute {
          if rootAd.None? {
            t := E.Fails(E.State(curAd, depthRemaining));
          } else {
            t := Search(rootAd.value, e.name, true);
          }
        } else {
          t := Search(curAd, e.name, true);
        }
      } else {
        var ok, v := Evaluate(e.scope.value);
        if !ok {
          t := E.Fails(E.State(curAd, depthRemaining));
        } else if v.VUndefined? {
          t := E.IsUndefined;
        } else if v.VAd? {
          t := Search(v.ad, e.name, false);
        } else {
          t := E.IsError;
        }
      }
    }

    method Evaluate(e: Node) returns (ok: bool, v: Value)
      requires E.Fit(World())
      modifies this`curAd, this`depthRemaining
      ensures depthRemaining == old(depthRemaining)
      ensures var r := E.Eval(World(), old(State()), e); ok == r.ok && (ok ==> v == r.value) && State() == r.state
      decreases depthRemaining, e, 3
    {
      hide E.Fit, E.EvalChild, E.EvalRest, E.ShortCircuit, E.FindExpr;
      if e.Literal? {
        return true, e.value;
      } else if e.Nested? {
        return true, VAd(e.ad);
      } else if e.Ref? {
        ok, v := EvaluateReference(e);
      } else {
        ok, v := EvaluateOperation(e);
      }
    }

    method EvaluateReference(e: Node) returns (ok: bool, v: Value)
      requires E.Fit(World()) && e.Ref?
      modifies this`curAd, this`depthRemaining
      ensures depthRemaining == old(depthRemaining)
      ensures var r := E.Eval(World(), old(State()), e); ok == r.ok && (ok ==> v == r.value) && State() == r.state
      decreases depthRemaining, e, 1
    {
      hide E.Fit, E.FindExpr;
      var saved := curAd;
      var t := FindExpr(e);
      if t.Fails? {
        return false, VError;
      } else if t.IsError? {
        curAd := saved;
        return true, VError;
      } else if t.IsUndefined? {
        curAd := saved;
        return true, VUndefined;
      }
      if depthRemaining == 0 {
        curAd := saved;
        return false, VError;
      }
      depthRemaining := depthRemaining - 1;
      ok, v := Evaluate(t.tree);
      depthRemaining := depthRemaining + 1;
      curAd := saved;
    }

    method EvaluateChild(e: Node, child: Option<Node>) returns (ok: bool, v: Value)
      requires E.Fit(World()) && e.Op? && (child.Some? ==> child == e.child1 || child == e.child2 || child == e.child3)
      modifies this`curAd, this`depthRemaining
      ensures depthRemaining == old(depthRemaining)
      ensures var r := E.EvalChild(World(), old(State()), e, child); ok == r.ok && (ok ==> v == r.value) && State() == r.state
      decreases depthRemaining, e, 0
    {
      hide E.Fit, E.Eval;
      if child.None? {
        return true, VUndefined;
      }
      ok, v := Evaluate(child.value);
    }

    method EvaluateOperation(e: Node) returns (ok: bool, v: Value)
      requires E.Fit(World()) && e.Op?
      modifies this`curAd, this`depthRemaining
      ensures depthRemaining == old(depthRemaining)
      ensures var r := E.Eval(World(), old(State()), e); ok == r.ok && (ok ==> v == r.value) && State() == r.state
      decreases depthRemaining, e, 2
    {
      hide E.Fit, E.EvalChild, E.EvalRest;
      var first: Option<Value> := None;
      ok, v := EvaluateChild(e, e.child1);
      if !ok {
        return false, VError;
      }
      if e.child1.Some? {
        first := Some(v);
        var truth := sem.truth(v);
        if e.kind.OrOp? && truth == Some(true) {
          return true, VBool(true);
        } else if e.kind.AndOp? && truth == Some(false) {
          return true, VBool(false);
        } else if e.kind.TernaryOp? && truth.Some? {
          var branch := if truth.value then e.child2 else e.child3;
          if branch.Some? {
            ok, v := EvaluateChild(e, branch);
            if ok {
              return;
            }
          }
        }
      }
      ok, v := EvaluateRest(e, first);
    }

    method EvaluateRest(e: Node, first: Option<Value>) returns (ok: bool, v: Value)
      requires E.Fit(World()) && e.Op?
      modifies this`curAd, this`depthRemaining
      ensures depthRemaining == old(depthRemaining)
      ensures var r := E.EvalRest(World(), old(State()), e, first); ok == r.ok && (ok ==> v == r.value) && State() == r.state
      decreases depthRemaining, e, 1
    {
      hide E.Fit, E.EvalChild;
      var v2, v3;
      ok, v2 := EvaluateChild(e, e.child2);
      if !ok {
        return false, VError;
      }
      ok, v3 := EvaluateChild(e, e.child3);
      if !ok {
        return false, VError;
      }
      var result := sem.combine(e.kind, [first, if e.child2.Some? then Some(v2) else None, if e.child3.Some? then Some(v3) else None]);
      if result.None? {
        return false, VError;
      }
      return true, result.value;
    }

    /** Names not found join the set, names found are followed; the scope is put back after each. */
    method CollectReferences(e: Node, refs: set<string>, ghost rank: map<string, nat>, ghost bound: nat) returns (r: set<string>)
      requires E.Fit(World()) && TopLevel(ads, curAd, rank) && Simple(e) && Below(ads, curAd, rank, e, bound)
      modifies this`curAd
      ensures curAd == old(curAd) && r == refs + External(ads, curAd, rank, e, bound)
      decreases bound, e
    {
      r := refs;
      if e.Ref? {
        var saved := curAd;
        LookupOnly(ads, rootAd, curAd, e.name);
        hide ScopedAds.LookupInScope, Lookup;
        var f := LookupInScope(curAd, e.name);
        if f.tree.None? {
          r := refs + {e.name};
        } else {
          r := CollectReferences(f.tree.value, refs, rank, rank[e.name]);
        }
        curAd := saved;
      } else if e.Op? {
        if e.child1.Some? {
          r := CollectReferences(e.child1.value, r, rank, bound);
        }
        if e.child2.Some? {
          r := CollectReferences(e.child2.value, r, rank, bound);
        }
        if e.child3.Some? {
          r := CollectReferences(e.child3.value, r, rank, bound);
        }
      }
    }
  }

  /** In a top-level ad the search for a plain name ends where it starts. */
  lemma LookupOnly(ads: Ads, root: Option<AdId>, a: AdId, name: string)
    requires Acyclic(ads) && PathsOk(ads) && AdOf(ads, a).parent.None? && !Reserved(name)
    ensures ScopedAds.LookupInScope(ads, root, a, name) == Found(Lookup(ads, a, name), false, a)
  {
  }
}
