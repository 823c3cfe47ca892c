/**
  Evaluation of old ClassAd expressions over a pair of ads. Each tree node carries a flag that is set
  while the node is being evaluated; finding it set means a circular definition.
 */
module ClassAdEval {
  import opened Options
  import opened ClassAdSyntax
  import opened Lexer
  import opened ClassAdOperators

  type AdId = nat
  type TreeId = nat

  /** Ads map lower-case names to trees; a tree may be shared by several ads. The clock is fixed. */
  datatype World = World(ads: map<AdId, map<string, TreeId>>, trees: map<TreeId, Expr>, now: int)

  /** The ads that MY and TARGET stand for. */
  datatype Context = Context(my: Option<AdId>, target: Option<AdId>)

  function Swap(c: Context): Context {
    Context(c.target, c.my)
  }

  ghost predicate Closed(w: World) {
    forall ad, n | ad in w.ads && n in w.ads[ad] :: w.ads[ad][n] in w.trees && CallFree(w.trees[w.ads[ad][n]])
  }

  /** Function calls are not evaluated here. */
  predicate CallFree(e: Expr) {
    match e
    case Paren(x) => CallFree(x)
    case Neg(x) => CallFree(x)
    case Bin(_, l, r) => CallFree(l) && CallFree(r)
    case Func(_, _) => false
    case Float(_, _) => false
    case _ => true
  }

  function LookupExpr(w: World, ad: Option<AdId>, name: string): Option<TreeId> {
    if ad.Some? && ad.value in w.ads && LowerAll(name) in w.ads[ad.value]
    then Some(w.ads[ad.value][LowerAll(name)]) else None
  }

  /** What a variable stands for: a tree with the context to evaluate it in, or a value. */
  datatype Reference = Tree(id: TreeId, context: Context) | Immediate(value: Value)

  function FromEnvironment(w: World, name: string): Value {
    if LowerAll(name) == "currenttime" then VInt(w.now) else VUndefined
  }

  /** A simple name: in MY, then unless restricted in TARGET, then in the environment. */
  function ResolveSimple(w: World, name: string, c: Context, restrict: bool): Reference {
    match LookupExpr(w, c.my, name)
    case Some(t) => Tree(t, c)
    case None =>
      match if restrict then None else LookupExpr(w, c.target, name)
      case Some(t) => Tree(t, Swap(c))
      case None => Immediate(FromEnvironment(w, name))
  }

  /** Split off a scope prefix and switch the context accordingly; an unknown scope is UNDEFINED. */
  function Resolve(w: World, name: string, c: Context, restrict: bool): Reference
    decreases |name|
  {
    var d := Until('.', name);
    if d == |name| then ResolveSimple(w, name, c, restrict)
    else if d == 0 then ResolveSimple(w, name[1..], c, restrict)
    else
      var prefix, rest := LowerAll(name[..d]), name[d + 1..];
      if prefix == "my" then Resolve(w, rest, c, true)
      else if prefix == "target" then Resolve(w, rest, Swap(c), true)
      else Immediate(VUndefined)
  }

  lemma {:induction false} ResolveCloses(w: World, name: string, c: Context, restrict: bool)
    requires Closed(w) && Resolve(w, name, c, restrict).Tree?
    ensures Resolve(w, name, c, restrict).id in w.trees && CallFree(w.trees[Resolve(w, name, c, restrict).id])
    decreases |name|
  {
    var d := Until('.', name);
    if 0 < d < |name| {
      var prefix, rest := LowerAll(name[..d]), name[d + 1..];
      if prefix == "my" {
        ResolveCloses(w, rest, c, true);
      } else if prefix == "target" {
        ResolveCloses(w, rest, Swap(c), true);
      }
    }
  }

  /** A MY prefix, in any case, looks in the ad itself only; a TARGET prefix in the other ad only, which becomes MY. */
  lemma PrefixSwitches(w: World, prefix: string, rest: string, c: Context, restrict: bool)
    requires LowerAll(prefix) == "my" || LowerAll(prefix) == "target"
    ensures Resolve(w, prefix + "." + rest, c, restrict)
         == Resolve(w, rest, if LowerAll(prefix) == "my" then c else Swap(c), true)
  {
    var name := prefix + "." + rest;
    forall i | 0 <= i < |prefix|
      ensures prefix[i] != '.'
    {
      assert LowerAll(prefix)[i] == Lower(prefix[i]);
    }
    UntilConcat('.', prefix, rest);
    assert name == prefix + ['.'] + rest;
    assert name[..|prefix|] == prefix && name[|prefix| + 1..] == rest;
  }

  /** So the other ad's TARGET is this ad again. */
  lemma TargetOfTarget(w: World, rest: string, c: Context)
    ensures Resolve(w, "TARGET." + rest, Swap(c), false) == Resolve(w, rest, c, true)
  {
    assert LowerAll("TARGET") == "target";
    assert "TARGET" + "." + rest == "TARGET." + rest;
    PrefixSwitches(w, "TARGET", rest, Swap(c), false);
  }

  /** The ad, if there is one, defines the name, in whatever case it is written. */
  predicate Defines(w: World, ad: Option<AdId>, name: string) {
    ad.Some? && ad.value in w.ads && LowerAll(name) in w.ads[ad.value]
  }

  /**
    A name without a prefix: MY's definition seen from MY, else TARGET's seen from TARGET unless the search is restricted, else the
    clock or UNDEFINED. A leading dot is ignored.
   */
  lemma PlainNameResolves(w: World, name: string, c: Context, restrict: bool)
    requires '.' !in name
    ensures Defines(w, c.my, name) ==> Resolve(w, name, c, restrict) == Tree(w.ads[c.my.value][LowerAll(name)], c)
    ensures !Defines(w, c.my, name) && !restrict && Defines(w, c.target, name) ==>
              Resolve(w, name, c, restrict) == Tree(w.ads[c.target.value][LowerAll(name)], Context(c.target, c.my))
    ensures !Defines(w, c.my, name) && (restrict || !Defines(w, c.target, name)) ==>
              Resolve(w, name, c, restrict) == Immediate(if LowerAll(name) == "currenttime" then VInt(w.now) else VUndefined)
    ensures Resolve(w, "." + name, c, restrict) == Resolve(w, name, c, restrict)
  {
    var n := Until('.', name);
    assert n == |name|;
    assert ("." + name)[1..] == name;
  }

  /** So a MY prefix finds MY's definition only, and a TARGET prefix TARGET's only, each seen from the ad that has it. */
  lemma PrefixedNameResolves(w: World, prefix: string, name: string, c: Context, restrict: bool)
    requires '.' !in name && (LowerAll(prefix) == "my" || LowerAll(prefix) == "target")
    ensures var here := if LowerAll(prefix) == "my" then c else Context(c.target, c.my);
            Resolve(w, prefix + "." + name, c, restrict) ==
            if Defines(w, here.my, name) then Tree(w.ads[here.my.value][LowerAll(name)], here)
            else Immediate(if LowerAll(name) == "currenttime" then VInt(w.now) else VUndefined)
  {
    var here := if LowerAll(prefix) == "my" then c else Context(c.target, c.my);
    PrefixSwitches(w, prefix, name, c, restrict);
    PlainNameResolves(w, name, here, true);
    hide Resolve;
  }

  /** Any other prefix makes a name UNDEFINED. */
  lemma UnknownPrefix(w: World, prefix: string, rest: string, c: Context, restrict: bool)
    requires prefix != "" && '.' !in prefix && LowerAll(prefix) != "my" && LowerAll(prefix) != "target"
    ensures Resolve(w, prefix + "." + rest, c, restrict) == Immediate(VUndefined)
  {
    var name := prefix + "." + rest;
    UntilConcat('.', prefix, rest);
    assert name == prefix + ['.'] + rest;
    assert name[..|prefix|] == prefix;
  }

  /** The value of a literal. */
  function Constant(e: Expr): Value {
    match e
    case Int(v) => VInt(v)
    case Str(s) => VStr(s)
    case Time(t) => VTime(t)
    case Bool(b) => Truth(b)
    case Error => VError
    case _ => VUndefined
  }

  /** The value of a finished operation; `NeverExcept` says it always finishes. */
  function ValueOf(o: Outcome): Value {
    if o.Done? then o.value else VError
  }

  function Negated(v: Value): Value {
    ValueOf(Operate(UnaryMinus, Operand(v), VInt(0)))
  }

  /***** The evaluator with flags *****/

  /** A node: its tree and the way down to it. */
  datatype Place = Place(tree: TreeId, path: seq<bool>)

  function Left(p: Place): Place {
    p.(path := p.path + [false])
  }

  function Right(p: Place): Place {
    p.(path := p.path + [true])
  }

  datatype Result = Result(value: Value, flags: set<Place>)

  /**
    `EvalTree`: a flagged node is a circular reference, and loses its flag; otherwise the flag is set
    around the evaluation proper. `fuel` bounds the number of nested variable references.
   */
  function EvalTree(w: World, fuel: nat, c: Context, p: Place, e: Expr, flags: set<Place>): Option<Result>
    decreases fuel, e, 1
  {
    if p in flags then Some(Result(VError, flags - {p}))
    else
      match EvalNode(w, fuel, c, p, e, flags + {p})
      case None => None
      case Some(r) => Some(r.(flags := r.flags - {p}))
  }

  function EvalNode(w: World, fuel: nat, c: Context, p: Place, e: Expr, flags: set<Place>): Option<Result>
    decreases fuel, e, 0
  {
    match e
    case Var(name) =>
      (match Resolve(w, name, c, false)
       case Immediate(v) => Some(Result(v, flags))
       case Tree(t, c') =>
         if fuel == 0 || t !in w.trees then None
         else EvalTree(w, fuel - 1, c', Place(t, []), w.trees[t], flags))
    case Paren(x) =>
      (match EvalTree(w, fuel, c, Right(p), x, flags)
       case None => None
       case Some(r) => Some(r.(value := Operand(r.value))))
    case Neg(x) =>
      (match EvalTree(w, fuel, c, Right(p), x, flags)
       case None => None
       case Some(r) => Some(r.(value := Negated(r.value))))
    case Bin(op, l, r) =>
      (match EvalTree(w, fuel, c, Left(p), l, flags)
       case None => None
       case Some(a) =>
         match ShortCircuit(OpKindOf(op), Operand(a.value))
         case Some(v) => Some(Result(v, a.flags))
         case None =>
           match EvalTree(w, fuel, c, Right(p), r, a.flags)
           case None => None
           case Some(b) => Some(Result(ValueOf(Operate(OpKindOf(op), Operand(a.value), Operand(b.value))), b.flags)))
    case _ => Some(Result(Constant(e), flags))
  }
}
