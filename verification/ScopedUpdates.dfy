/** Changing new ClassAds: insertion, deletion, and flattening a chain into one ad. */
module ScopedUpdates {
  import opened Options
  import opened ScopedAds

  function SetAttr(ads: Ads, a: AdId, name: string, t: Node): Ads {
    ads[a := AdOf(ads, a).(attrs := AdOf(ads, a).attrs[name := t])]
  }

  /** Delete an attribute; one that the chain has is shadowed by UNDEFINED. */
  function Delete(ads: Ads, a: AdId, name: string): Ads
    requires Acyclic(ads)
  {
    var ad := AdOf(ads, a);
    var gone := ad.attrs - {name};
    var shadow := ad.chain.Some? && Lookup(ads, ad.chain.value, name).Some?;
    ads[a := ad.(attrs := if shadow then gone[name := Literal(VUndefined)] else gone)]
  }

  /** Everything that can be looked up in the ad: the chain's attributes, overridden by its own. */
  function Flatten(ads: Ads, a: AdId): map<string, Node>
    requires Acyclic(ads)
    decreases a
  {
    match AdOf(ads, a).chain
    case Some(c) => Flatten(ads, c) + AdOf(ads, a).attrs
    case None => AdOf(ads, a).attrs
  }

  /** The ad itself or an ad that it is chained to. */
  predicate InChain(ads: Ads, a: AdId, b: AdId)
    requires Acyclic(ads)
    decreases a
  {
    a == b || (AdOf(ads, a).chain.Some? && InChain(ads, AdOf(ads, a).chain.value, b))
  }

  /** The destination emptied and unchained, in the scope of the source. */
  function Cleared(ads: Ads, dst: AdId, src: AdId): Ads {
    ads[dst := AdOf(ads, dst).(attrs := map[], chain := None, parent := AdOf(ads, src).parent)]
  }

  /** Empty the destination, then put in what the source's chain still has. */
  function CopyFromChain(ads: Ads, dst: AdId, src: AdId): Ads
    requires Acyclic(ads)
  {
    var cleared := Cleared(ads, dst, src);
    WithAttrs(cleared, dst, Flatten(cleared, src))
  }

  function WithAttrs(ads: Ads, a: AdId, attrs: map<string, Node>): Ads {
    ads[a := AdOf(ads, a).(attrs := attrs)]
  }

  /***** Lookups *****/

  /** Flattening agrees with lookup. */
  lemma {:induction false} FlattenLookup(ads: Ads, a: AdId, name: string)
    requires Acyclic(ads)
    ensures Lookup(ads, a, name) == if name in Flatten(ads, a) then Some(Flatten(ads, a)[name]) else None
    decreases a
  {
    if AdOf(ads, a).chain.Some? {
      FlattenLookup(ads, AdOf(ads, a).chain.value, name);
    }
  }

  /** Copying a chain that the destination is not part of: the copy finds what the source found. */
  lemma CopyKeepsLookup(ads: Ads, dst: AdId, src: AdId, name: string)
    requires Acyclic(ads) && !InChain(ads, src, dst)
    ensures Acyclic(CopyFromChain(ads, dst, src))
    ensures Lookup(CopyFromChain(ads, dst, src), dst, name) == Lookup(ads, src, name)
  {
    FlattenLookup(ads, src, name);
    Unaffected(ads, Cleared(ads, dst, src), dst, src, name);
  }

  lemma {:induction false} FlattenSplits(ads: Ads, dst: AdId, src: AdId, top: AdId)
    requires Acyclic(ads) && InChain(ads, src, dst)
    ensures Flatten(ads, src) == Flatten(ads, dst) + Flatten(Cleared(ads, dst, top), src)
    decreases src
  {
    if src != dst {
      FlattenSplits(ads, dst, AdOf(ads, src).chain.value, top);
    }
  }

  /** Nothing that the destination supplies to the source's chain gets through. */
  ghost predicate Overridden(ads: Ads, dst: AdId, src: AdId)
    requires Acyclic(ads)
  {
    InChain(ads, src, dst) ==> Flatten(ads, dst).Keys <= Flatten(Cleared(ads, dst, src), src).Keys
  }

  /** In general the copy is faithful exactly when the source does not depend on the destination's attributes. */
  lemma CopyKeepsLookupIff(ads: Ads, dst: AdId, src: AdId)
    requires Acyclic(ads)
    ensures Acyclic(CopyFromChain(ads, dst, src))
    ensures (forall name :: Lookup(CopyFromChain(ads, dst, src), dst, name) == Lookup(ads, src, name))
            <==> Overridden(ads, dst, src)
  {
    hide Lookup, Flatten, CopyFromChain, Cleared;
    CopiedLookup(ads, dst, src, "");
    var rest := Flatten(Cleared(ads, dst, src), src);
    if Overridden(ads, dst, src) {
      forall name
        ensures Lookup(CopyFromChain(ads, dst, src), dst, name) == Lookup(ads, src, name)
      {
        OverriddenLookup(ads, dst, src, name);
      }
    } else {
      var name :| name in Flatten(ads, dst) && name !in rest;
      FlattenSplits(ads, dst, src, src);
      CopiedLookup(ads, dst, src, name);
      FlattenLookup(ads, src, name);
      assert Lookup(CopyFromChain(ads, dst, src), dst, name) != Lookup(ads, src, name);
    }
  }

  /** For instance a source that has nothing of its own and is chained to a destination with one attribute. */
  lemma CopyLosesInherited(name: string, t: Node)
    ensures var ads: Ads := map[0 := Ad(map[name := t], None, None, None), 1 := Ad(map[], None, Some(0), None)];
            && Acyclic(ads) && Acyclic(CopyFromChain(ads, 0, 1)) && !Overridden(ads, 0, 1)
            && Lookup(ads, 1, name) == Some(t) && Lookup(CopyFromChain(ads, 0, 1), 0, name) == None
  {
    var ads: Ads := map[0 := Ad(map[name := t], None, None, None), 1 := Ad(map[], None, Some(0), None)];
    var cleared := Cleared(ads, 0, 1);
    assert Flatten(ads, 0) == map[name := t];
    assert Lookup(ads, 0, name) == Some(t);
    assert Flatten(cleared, 0) == map[];
    assert Flatten(cleared, 1) == map[];
    assert InChain(ads, 0, 0) && InChain(ads, 1, 0);
    assert name in Flatten(ads, 0).Keys;
  }

  lemma CopiedLookup(ads: Ads, dst: AdId, src: AdId, name: string)
    requires Acyclic(ads)
    ensures Acyclic(Cleared(ads, dst, src)) && Acyclic(CopyFromChain(ads, dst, src))
    ensures var rest := Flatten(Cleared(ads, dst, src), src);
            Lookup(CopyFromChain(ads, dst, src), dst, name) == if name in rest then Some(rest[name]) else None
  {
    hide Flatten;
  }

  lemma OverriddenLookup(ads: Ads, dst: AdId, src: AdId, name: string)
    requires Acyclic(ads) && Overridden(ads, dst, src)
    ensures Acyclic(CopyFromChain(ads, dst, src))
    ensures Lookup(CopyFromChain(ads, dst, src), dst, name) == Lookup(ads, src, name)
  {
    CopiedLookup(ads, dst, src, name);
    FlattenLookup(ads, src, name);
    if InChain(ads, src, dst) {
      FlattenSplits(ads, dst, src, src);
    } else {
      Unaffected(ads, Cleared(ads, dst, src), dst, src, name);
    }
  }

  /** Ads that are not chained to the changed one keep their lookups. */
  lemma {:induction false} Unaffected(ads: Ads, ads': Ads, changed: AdId, a: AdId, name: string)
    requires Acyclic(ads) && Acyclic(ads') && !InChain(ads, a, changed)
    requires forall b | b != changed :: AdOf(ads', b) == AdOf(ads, b)
    ensures Lookup(ads', a, name) == Lookup(ads, a, name) && Flatten(ads', a) == Flatten(ads, a) && !InChain(ads', a, changed)
    decreases a
  {
    if AdOf(ads, a).chain.Some? {
      Unaffected(ads, ads', changed, AdOf(ads, a).chain.value, name);
    }
  }

  /** Insertion sets one name of one ad; ads that are not chained to it are as before. */
  lemma InsertSets(ads: Ads, a: AdId, name: string, t: Node, other: string)
    requires Acyclic(ads)
    ensures Acyclic(SetAttr(ads, a, name, t))
    ensures Lookup(SetAttr(ads, a, name, t), a, name) == Some(t)
    ensures other != name ==> Lookup(SetAttr(ads, a, name, t), a, other) == Lookup(ads, a, other)
    ensures forall b | b != a :: AdOf(SetAttr(ads, a, name, t), b) == AdOf(ads, b)
    ensures SetAttr(ads, a, name, t)[a] == AdOf(ads, a).(attrs := AdOf(ads, a).attrs[name := t])
  {
    if AdOf(ads, a).chain.Some? {
      var c := AdOf(ads, a).chain.value;
      BelowIsElsewhere(ads, c, a);
      Unaffected(ads, SetAttr(ads, a, name, t), a, c, other);
    }
  }

  /** A copy stands on its own, in the scope of its source; no other ad changes. */
  lemma CopyStandsAlone(ads: Ads, dst: AdId, src: AdId)
    requires Acyclic(ads)
    ensures var ads' := CopyFromChain(ads, dst, src);
            && AdOf(ads', dst).chain.None? && AdOf(ads', dst).parent == AdOf(ads, src).parent
            && AdOf(ads', dst).alternate == AdOf(ads, dst).alternate
            && forall b | b != dst :: AdOf(ads', b) == AdOf(ads, b)
  {
    hide Flatten;
  }

  /** Deletion leaves the name absent, or UNDEFINED if and only if the chain has it. */
  lemma DeleteHides(ads: Ads, a: AdId, name: string)
    requires Acyclic(ads)
    ensures Acyclic(Delete(ads, a, name))
    ensures Lookup(Delete(ads, a, name), a, name)
         == if AdOf(ads, a).chain.Some? && Lookup(ads, AdOf(ads, a).chain.value, name).Some?
            then Some(Literal(VUndefined)) else None
  {
    ChainedKept(ads, a, name, name);
  }

  /** Deletion leaves every other name alone. */
  lemma DeleteKeepsOthers(ads: Ads, a: AdId, name: string, other: string)
    requires Acyclic(ads) && other != name
    ensures Acyclic(Delete(ads, a, name)) && Lookup(Delete(ads, a, name), a, other) == Lookup(ads, a, other)
  {
    ChainedKept(ads, a, name, other);
  }

  lemma {:induction false} ChainedKept(ads: Ads, a: AdId, name: string, other: string)
    requires Acyclic(ads)
    ensures Acyclic(Delete(ads, a, name))
    ensures AdOf(ads, a).chain.Some? ==>
      Lookup(Delete(ads, a, name), AdOf(ads, a).chain.value, other) == Lookup(ads, AdOf(ads, a).chain.value, other)
  {
    if AdOf(ads, a).chain.Some? {
      var c := AdOf(ads, a).chain.value;
      BelowIsElsewhere(ads, c, a);
      Unaffected(ads, Delete(ads, a, name), a, c, other);
    }
  }

  lemma {:induction false} BelowIsElsewhere(ads: Ads, c: AdId, a: AdId)
    requires Acyclic(ads) && c < a
    ensures !InChain(ads, c, a)
    decreases c
  {
    if AdOf(ads, c).chain.Some? {
      BelowIsElsewhere(ads, AdOf(ads, c).chain.value, a);
    }
  }
}
