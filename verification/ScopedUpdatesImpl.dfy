/** Changing new ClassAds, as it runs. */
module ScopedUpdatesImpl {
  import opened Options
  import opened ScopedAds
  import U = ScopedUpdates

  /** Attributes have names; insertion sees to that. */
  ghost predicate Named(ads: Ads) {
    forall a | a in ads :: "" !in ads[a].attrs
  }

  lemma MergeStep(base: map<string, Node>, from: map<string, Node>, names: set<string>, name: string)
    requires name in names && names <= from.Keys
    ensures (base + (from - names))[name := from[name]] == base + (from - (names - {name}))
  {
  }

  lemma MergeNothing(base: map<string, Node>, from: map<string, Node>)
    ensures base + (from - from.Keys) == base && from - {} == from && map[] + from == from
  {
  }

  /** Setting one more attribute. */
  lemma SetMore(ads: Ads, a: AdId, attrs: map<string, Node>, name: string, t: Node)
    ensures U.SetAttr(U.WithAttrs(ads, a, attrs), a, name, t) == U.WithAttrs(ads, a, attrs[name := t])
    ensures a in U.WithAttrs(ads, a, attrs)
  {
  }

  lemma SetTwice(ads: Ads, a: AdId, attrs: map<string, Node>, b: AdId)
    requires a != b
    ensures AdOf(U.WithAttrs(ads, a, attrs), a).attrs == attrs && AdOf(U.WithAttrs(ads, a, attrs), b) == AdOf(ads, b)
    ensures forall more :: U.WithAttrs(U.WithAttrs(ads, a, attrs), a, more) == U.WithAttrs(ads, a, more)
  {
  }

  lemma LowerChain(ads: Ads, a: AdId)
    requires Acyclic(ads)
    ensures AdOf(ads, a).chain.Some? ==> AdOf(ads, a).chain.value < a
  {
  }

  lemma MergeThree(a: map<string, Node>, b: map<string, Node>, c: map<string, Node>)
    ensures a + b + c == a + (b + c)
  {
  }

  /** All ads there are. */
  class ClassAds {
    var ads: Ads

    ghost predicate Valid()
      reads this
    {
      Acyclic(ads) && Named(ads)
    }

    method Insert(a: AdId, name: string, tree: Node) returns (ok: bool)
      requires Valid() && a in ads
      modifies this
      ensures Valid() && ok == (name != "") && ads == if ok then U.SetAttr(old(ads), a, name, tree) else old(ads)
    {
      if name == "" {
        return false;
      }
      ads := U.SetAttr(ads, a, name, tree);
      return true;
    }

    method Lookup(a: AdId, name: string) returns (tree: Option<Node>)
      requires Valid()
      ensures tree == ScopedAds.Lookup(ads, a, name)
      decreases a
    {
      var ad := AdOf(ads, a);
      if name in ad.attrs {
        tree := Some(ad.attrs[name]);
      } else if ad.chain.Some? {
        tree := Lookup(ad.chain.value, name);
      } else {
        tree := None;
      }
    }

    method Delete(a: AdId, name: string) returns (deleted: bool)
      requires Valid() && a in ads
      modifies this
      ensures Valid() && ads == U.Delete(old(ads), a, name)
      ensures deleted == ScopedAds.Lookup(old(ads), a, name).Some?
    {
      deleted := false;
      var ad := ads[a];
      ghost var was := ads;
      assert name !in ad.attrs ==> ad.attrs - {name} == ad.attrs;
      if name in ad.attrs {
        ads := ads[a := ad.(attrs := ad.attrs - {name})];
        deleted := true;
      }
      if ad.chain.Some? {
        U.BelowIsElsewhere(was, ad.chain.value, a);
        U.Unaffected(was, ads, a, ad.chain.value, name);
        var inherited := Lookup(ad.chain.value, name);
        if inherited.Some? {
          deleted := true;
          Nameless(was, ad.chain.value, name);
          var _ := Insert(a, name, Literal(VUndefined));
        }
      }
      assert ads == U.Delete(was, a, name);
    }

    /** Insert copies of all of the source's own attributes. */
    method Update(dst: AdId, src: AdId) returns (ok: bool)
      requires Valid() && dst in ads
      modifies this
      ensures Valid() && dst in ads && ok
      ensures ads == U.WithAttrs(old(ads), dst, AdOf(old(ads), dst).attrs + AdOf(old(ads), src).attrs)
    {
      var from := AdOf(ads, src).attrs;
      var names := from.Keys;
      ghost var base := AdOf(ads, dst).attrs;
      assert "" !in from;
      hide Acyclic, Named;
      MergeNothing(base, from);
      assert ads == U.WithAttrs(ads, dst, base);
      while names != {}
        invariant Valid() && dst in ads && names <= from.Keys
        invariant ads == U.WithAttrs(old(ads), dst, base + (from - names))
        decreases |names|
      {
        var name :| name in names;
        MergeStep(base, from, names, name);
        SetMore(old(ads), dst, base + (from - names), name, from[name]);
        SetMore(old(ads), dst, base + (from - (names - {name})), name, from[name]);
        ok := Insert(dst, name, from[name]);
        names := names - {name};
      }
      ok := true;
    }

    /** The chain's attributes first, then the ad's own, so that these replace those. */
    method UpdateFromChain(dst: AdId, src: AdId) returns (ok: bool)
      requires Valid() && dst in ads && (U.InChain(ads, src, dst) ==> ads[dst].attrs == map[] && ads[dst].chain.None?)
      modifies this
      ensures Valid() && dst in ads && ok
      ensures ads == U.WithAttrs(old(ads), dst, AdOf(old(ads), dst).attrs + U.Flatten(old(ads), src))
      decreases src
    {
      assert AdOf(ads, dst) == ads[dst];
      hide Named, U.WithAttrs, AdOf;
      LowerChain(ads, src);
      var parent := AdOf(ads, src).chain;
      if parent.Some? {
        SetTwice(ads, dst, AdOf(ads, dst).attrs + U.Flatten(ads, parent.value), src);
        MergeThree(AdOf(ads, dst).attrs, U.Flatten(ads, parent.value), AdOf(ads, src).attrs);
        ok := UpdateFromChain(dst, parent.value);
      }
      ok := Update(dst, src);
    }

    /** Clear the destination, take over the scope, and flatten the source's chain into it. */
    method CopyFromChain(dst: AdId, src: AdId) returns (ok: bool)
      requires Valid() && dst in ads
      modifies this
      ensures Valid() && ok == (dst != src)
      ensures ads == if ok then U.CopyFromChain(old(ads), dst, src) else old(ads)
    {
      if dst == src {
        return false;
      }
      ads := U.Cleared(ads, dst, src);
      MergeNothing(map[], U.Flatten(ads, src));
      ok := UpdateFromChain(dst, src);
    }
  }

  /** The empty name is never found. */
  lemma {:induction false} Nameless(ads: Ads, a: AdId, name: string)
    requires Acyclic(ads) && Named(ads) && ScopedAds.Lookup(ads, a, name).Some?
    ensures name != ""
    decreases a
  {
    if name !in AdOf(ads, a).attrs {
      Nameless(ads, AdOf(ads, a).chain.value, name);
    }
  }
}
