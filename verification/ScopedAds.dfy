/**
  New ClassAds: ads nested in scopes and chained to parents, and the lookup of a name in them. Names stand
  for their lower-case form; attribute tables ignore case.
 */
module ScopedAds {
  import opened Options

  type AdId = nat

  /** Strings, numbers and times are `Plain`. */
  datatype Value = VUndefined | VError | VAd(ad: AdId) | VBool(truth: bool) | Plain(code: int)

  datatype Kind = OrOp | AndOp | TernaryOp | OtherOp(code: nat)

  datatype Node =
    | Literal(value: Value)
    | Nested(ad: AdId)
    | Ref(scope: Option<Node>, name: string, absolute: bool)
    | Op(kind: Kind, child1: Option<Node>, child2: Option<Node>, child3: Option<Node>)

  datatype Ad = Ad(attrs: map<string, Node>, parent: Option<AdId>, chain: Option<AdId>, alternate: Option<AdId>)

  type Ads = map<AdId, Ad>

  function AdOf(ads: Ads, a: AdId): Ad {
    if a in ads then ads[a] else Ad(map[], None, None, None)
  }

  function Parent(ads: Ads, a: AdId): Option<AdId> {
    AdOf(ads, a).parent
  }

  /** The chains are acyclic: ads can be numbered so that each one is chained to a smaller one. */
  ghost predicate Acyclic(ads: Ads) {
    forall a | a in ads && ads[a].chain.Some? :: ads[a].chain.value < a
  }

  /** An ad's own attributes, then those of the ad it is chained to, and so on. */
  function Lookup(ads: Ads, a: AdId, name: string): Option<Node>
    requires Acyclic(ads)
    decreases a
  {
    if name in AdOf(ads, a).attrs then Some(ads[a].attrs[name])
    else
      match AdOf(ads, a).chain
      case Some(c) => Lookup(ads, c, name)
      case None => None
  }

  /***** Scopes *****/

  /** Going up from `current`, the path ends or comes to `start` within `n` steps. */
  predicate Returns(ads: Ads, start: AdId, current: Option<AdId>, n: nat)
    decreases n
  {
    current == None || current == Some(start) || (n > 0 && Returns(ads, start, Parent(ads, current.value), n - 1))
  }

  ghost predicate PathOk(ads: Ads, a: AdId) {
    exists n :: Returns(ads, a, Parent(ads, a), n)
  }

  /** From every ad the path of parents ends or returns to that ad. */
  ghost predicate PathsOk(ads: Ads) {
    forall a :: PathOk(ads, a)
  }

  ghost function Steps(ads: Ads, a: AdId): (n: nat)
    requires PathOk(ads, a)
    ensures Returns(ads, a, Parent(ads, a), n)
  {
    var n :| Returns(ads, a, Parent(ads, a), n);
    n
  }

  predicate Reserved(name: string) {
    name == "toplevel" || name == "root" || name == "self" || name == "parent"
  }

  /** What a search finds; `cur` is the scope it stopped in. */
  datatype Found = Found(tree: Option<Node>, failed: bool, cur: AdId)

  function FoundAd(a: Option<AdId>, failed: bool, cur: AdId): Found {
    if a.Some? then Found(Some(Nested(a.value)), false, cur) else Found(None, failed, cur)
  }

  /** One round of the search in scope `c`, if it ends there. */
  function InScope(ads: Ads, root: Option<AdId>, c: AdId, name: string): Option<Found>
    requires Acyclic(ads)
  {
    var t := Lookup(ads, c, name);
    if t.Some? then Some(Found(t, false, c))
    else if name == "toplevel" || name == "root" then Some(FoundAd(root, true, c))
    else if name == "self" then Some(FoundAd(Some(c), false, c))
    else if name == "parent" then Some(FoundAd(Parent(ads, c), false, c))
    else None
  }

  /** The search from scope `c` upwards until it comes back to `start`. */
  function Upward(ads: Ads, root: Option<AdId>, start: AdId, c: AdId, name: string, ghost n: nat): Found
    requires Acyclic(ads) && Returns(ads, start, Parent(ads, c), n)
    decreases n
  {
    match InScope(ads, root, c, name)
    case Some(f) => f
    case None =>
      var next := Parent(ads, c);
      if next == None || next == Some(start) then Found(None, false, c)
      else Upward(ads, root, start, next.value, name, n - 1)
  }

  function LookupInScope(ads: Ads, root: Option<AdId>, a: AdId, name: string): Found
    requires Acyclic(ads) && PathsOk(ads)
  {
    Upward(ads, root, a, a, name, Steps(ads, a))
  }

  /** The search fails only for want of a root. */
  lemma {:induction false} UpwardFails(ads: Ads, root: Option<AdId>, start: AdId, c: AdId, name: string, n: nat)
    requires Acyclic(ads) && Returns(ads, start, Parent(ads, c), n)
    ensures Upward(ads, root, start, c, name, n).failed ==> root.None? && (name == "toplevel" || name == "root")
    decreases n
  {
    var next := Parent(ads, c);
    if InScope(ads, root, c, name).None? && next != None && next != Some(start) {
      UpwardFails(ads, root, start, next.value, name, n - 1);
    }
  }

  /** The scope `k` steps up. */
  function Ancestor(ads: Ads, a: AdId, k: nat): Option<AdId>
    decreases k
  {
    if k == 0 then Some(a)
    else
      match Parent(ads, a)
      case Some(p) => Ancestor(ads, p, k - 1)
      case None => None
  }

  /** The scopes nearer than `k` steps do not have the name. */
  ghost predicate NoneNearer(ads: Ads, a: AdId, name: string, k: nat)
    requires Acyclic(ads)
  {
    forall j | 0 <= j < k :: Ancestor(ads, a, j).Some? && Lookup(ads, Ancestor(ads, a, j).value, name).None?
  }

  lemma NoneNearerUp(ads: Ads, c: AdId, p: AdId, name: string, k: nat)
    requires Acyclic(ads) && Parent(ads, c) == Some(p) && Lookup(ads, c, name).None? && NoneNearer(ads, p, name, k)
    ensures NoneNearer(ads, c, name, k + 1)
  {
    forall j | 0 <= j < k + 1
      ensures Ancestor(ads, c, j).Some? && Lookup(ads, Ancestor(ads, c, j).value, name).None?
    {
      if j > 0 {
        assert Ancestor(ads, c, j) == Ancestor(ads, p, j - 1);
      }
    }
  }

  lemma {:induction false} UpwardStops(ads: Ads, root: Option<AdId>, start: AdId, c: AdId, name: string, n: nat) returns (k: nat)
    requires Acyclic(ads) && Returns(ads, start, Parent(ads, c), n) && !Reserved(name)
    ensures NoneNearer(ads, c, name, k)
    ensures var f := Upward(ads, root, start, c, name, n);
            && Ancestor(ads, c, k) == Some(f.cur) && f.tree == Lookup(ads, f.cur, name)
            && (f.tree.None? ==> Parent(ads, f.cur) == None || Parent(ads, f.cur) == Some(start))
    decreases n
  {
    hide Lookup;
    var next := Parent(ads, c);
    if InScope(ads, root, c, name).None? && next != None && next != Some(start) {
      k := UpwardStops(ads, root, start, next.value, name, n - 1);
      NoneNearerUp(ads, c, next.value, name, k);
      k := k + 1;
    } else {
      k := 0;
    }
  }

  /** A search finds the name in the nearest enclosing scope that has it. */
  lemma FindsNearest(ads: Ads, root: Option<AdId>, a: AdId, name: string)
    requires Acyclic(ads) && PathsOk(ads) && !Reserved(name)
    requires LookupInScope(ads, root, a, name).tree.Some?
    ensures var f := LookupInScope(ads, root, a, name);
            f.tree == Lookup(ads, f.cur, name) && exists k :: Ancestor(ads, a, k) == Some(f.cur) && NoneNearer(ads, a, name, k)
  {
    hide Lookup, Upward;
    assert PathOk(ads, a);
    var k := UpwardStops(ads, root, a, a, name, Steps(ads, a));
  }

  lemma {:induction false} AncestorSplits(ads: Ads, a: AdId, i: nat, j: nat)
    requires Ancestor(ads, a, i).Some?
    ensures Ancestor(ads, a, i + j) == Ancestor(ads, Ancestor(ads, a, i).value, j)
    decreases i
  {
    if i > 0 {
      AncestorSplits(ads, Parent(ads, a).value, i - 1, j);
    }
  }

  /** A search that finds nothing means that no enclosing scope, however far, has the name. */
  lemma FindsNothing(ads: Ads, root: Option<AdId>, a: AdId, name: string, j: nat)
    requires Acyclic(ads) && PathsOk(ads) && !Reserved(name)
    requires LookupInScope(ads, root, a, name).tree.None?
    ensures Ancestor(ads, a, j).Some? ==> Lookup(ads, Ancestor(ads, a, j).value, name).None?
  {
    hide Lookup, Upward;
    assert PathOk(ads, a);
    var k := UpwardStops(ads, root, a, a, name, Steps(ads, a));
    var top := Ancestor(ads, a, k).value;
    Around(ads, a, name, k, top, j);
  }

  lemma {:induction false} Around(ads: Ads, a: AdId, name: string, k: nat, top: AdId, j: nat)
    requires Acyclic(ads) && NoneNearer(ads, a, name, k) && Ancestor(ads, a, k) == Some(top)
    requires Lookup(ads, top, name).None? && (Parent(ads, top) == None || Parent(ads, top) == Some(a))
    ensures Ancestor(ads, a, j).Some? ==> Lookup(ads, Ancestor(ads, a, j).value, name).None?
    decreases j
  {
    hide Lookup;
    if j > k {
      AncestorSplits(ads, a, k, j - k);
      if Parent(ads, top) == Some(a) {
        Around(ads, a, name, k, top, j - k - 1);
      }
    }
  }

  /***** The root *****/

  /** The topmost scope, if the path ends. */
  function Top(ads: Ads, start: AdId, c: AdId, ghost n: nat): Option<AdId>
    requires Returns(ads, start, Parent(ads, c), n)
    decreases n
  {
    match Parent(ads, c)
    case None => Some(c)
    case Some(p) => if p == start then None else Top(ads, start, p, n - 1)
  }

  function RootScope(ads: Ads, a: AdId): Option<AdId>
    requires PathsOk(ads)
  {
    Top(ads, a, a, Steps(ads, a))
  }

  /** The path of parents comes back to where it started. */
  ghost predicate Loops(ads: Ads, a: AdId) {
    exists k :: k > 0 && Ancestor(ads, a, k) == Some(a)
  }

  lemma {:induction false} TopIs(ads: Ads, start: AdId, c: AdId, n: nat) returns (k: nat)
    requires Returns(ads, start, Parent(ads, c), n)
    ensures var top := Top(ads, start, c, n);
            if top.Some? then Ancestor(ads, c, k) == top && Parent(ads, top.value).None?
            else k > 0 && Ancestor(ads, c, k) == Some(start)
    decreases n
  {
    var p := Parent(ads, c);
    if p.None? {
      k := 0;
    } else if p == Some(start) {
      k := 1;
    } else {
      k := TopIs(ads, start, p.value, n - 1);
      k := k + 1;
    }
  }

  lemma {:induction false} NearerThere(ads: Ads, a: AdId, i: nat, j: nat)
    requires i <= j && Ancestor(ads, a, j).Some?
    ensures Ancestor(ads, a, i).Some?
    decreases i
  {
    if i > 0 {
      NearerThere(ads, Parent(ads, a).value, i - 1, j - 1);
    }
  }

  /** A path that loops never ends. */
  lemma {:induction false} LoopGoesOn(ads: Ads, a: AdId, k: nat, m: nat)
    requires k > 0 && Ancestor(ads, a, k) == Some(a)
    ensures Ancestor(ads, a, m).Some?
    decreases m
  {
    if m <= k {
      NearerThere(ads, a, m, k);
    } else {
      AncestorSplits(ads, a, k, m - k);
      LoopGoesOn(ads, a, k, m - k);
    }
  }

  /** The root is the topmost scope, which has no parent; there is none exactly when the path is a loop. */
  lemma RootIsTop(ads: Ads, a: AdId)
    requires PathsOk(ads)
    ensures var root := RootScope(ads, a);
            && (root.None? <==> Loops(ads, a))
            && (root.Some? ==> Parent(ads, root.value).None? && exists k :: Ancestor(ads, a, k) == root)
  {
    assert PathOk(ads, a);
    hide Top;
    var k := TopIs(ads, a, a, Steps(ads, a));
    var root := RootScope(ads, a);
    if root.Some? && Loops(ads, a) {
      var j :| j > 0 && Ancestor(ads, a, j) == Some(a);
      LoopGoesOn(ads, a, j, k + 1);
      AncestorSplits(ads, a, k, 1);
    }
  }
}
