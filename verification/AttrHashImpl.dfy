/** The hash table as it runs. */
module AttrHashImpl {
  import opened Options
  import AttrListModel
  import opened AttrHash

  /** Where the key is in the chain, or the chain's length. */
  method Position<V>(chain: Chain<V>, key: string) returns (i: nat)
    ensures i <= |chain|
    ensures i < |chain| ==> InChain(chain, key) == Some(chain[i].value) && Drop(chain, key) == chain[..i] + chain[i + 1..]
    ensures i == |chain| ==> InChain(chain, key).None? && Drop(chain, key) == chain
  {
    hide AttrListModel.Same;
    i := 0;
    while i < |chain| && !AttrListModel.Same(chain[i].key, key)
      invariant i <= |chain|
      invariant Drop(chain, key) == chain[..i] + Drop(chain[i..], key)
      invariant InChain(chain, key) == InChain(chain[i..], key)
    {
      assert chain[i..][1..] == chain[i + 1..];
      assert chain[..i + 1] == chain[..i] + [chain[i]];
      i := i + 1;
    }
    if i < |chain| {
      assert chain[i..][1..] == chain[i + 1..];
    }
  }

  class HashTable<V> {
    var ht: Table<V>
    var numElems: nat

    ghost predicate Good()
      reads this
    {
      Valid(ht) && numElems == |Flat(ht)|
    }

    constructor ()
      ensures Good() && forall key :: AttrHash.Lookup(ht, key).None?
    {
      ht := Empty(7);
      numElems := 0;
      EmptyFlat(Empty<V>(7));
    }

    method Lookup(key: string) returns (r: Option<V>)
      requires Good()
      ensures r == AttrHash.Lookup(ht, key)
    {
      if numElems == 0 {
        assert ht[0..] == ht;
        FlatLookup(ht, 0, key);
        return None;
      }
      var chain := ht[Index(ht, key)];
      var i := Position(chain, key);
      r := if i < |chain| then Some(chain[i].value) else None;
    }

    /** A key that is already there gets a second entry; one that is new is then found, and the table stays good. */
    method Insert(key: string, value: V)
      requires Good()
      modifies this
      ensures ht == AttrHash.Add(old(ht), old(numElems), key, value) && numElems == |Flat(ht)|
      ensures old(AttrHash.Lookup(ht, key)).None? ==>
                && Good()
                && forall k :: AttrHash.Lookup(ht, k) == if AttrListModel.Same(k, key) then Some(value) else old(AttrHash.Lookup(ht, k))
    {
      hide AttrHash.Lookup, Flat, Valid, Grow, TorekHash;
      ghost var was, count := ht, numElems;
      ht := Push(ht, Entry(key, value));
      numElems := numElems + 1;
      if 5 * numElems >= 4 * |ht| {
        Resize();
      }
      assert ht == AttrHash.Add(was, count, key, value);
      AddCounts(was, count, key, value);
      if AttrHash.Lookup(was, key).None? {
        AddSets(was, count, key, value, key);
        forall k
          ensures AttrHash.Lookup(ht, k) == if AttrListModel.Same(k, key) then Some(value) else AttrHash.Lookup(was, k)
        {
          AddSets(was, count, key, value, k);
        }
      }
    }

    /** Move every entry to a table of twice the size plus one. */
    method Resize()
      modifies this`ht
      ensures ht == Grow(old(ht))
    {
      hide Push;
      var copy := Empty((|ht| + 1) * 2 - 1);
      for i := 0 to |ht|
        invariant unchanged(this`ht)
        invariant PushAll(copy, Flat(ht[i..])) == Grow(ht)
      {
        var chain := ht[i];
        ghost var rest := Flat(ht[i + 1..]);
        assert ht[i..][1..] == ht[i + 1..];
        for j := 0 to |chain|
          invariant unchanged(this`ht)
          invariant PushAll(copy, chain[j..] + rest) == Grow(ht)
        {
          assert (chain[j..] + rest)[1..] == chain[j + 1..] + rest;
          copy := Push(copy, chain[j]);
        }
        assert chain[|chain|..] + rest == rest;
      }
      ht := copy;
    }

    method Remove(key: string)
      requires Good()
      modifies this
      ensures Good() && ht == AttrHash.Remove(old(ht), key)
      ensures forall k :: AttrHash.Lookup(ht, k) == if AttrListModel.Same(k, key) then None else old(AttrHash.Lookup(ht, k))
    {
      hide Index, Drop, InChain, Flat, Valid;
      RemoveCounts(ht, key);
      ghost var was := ht;
      var idx := Index(ht, key);
      var chain := ht[idx];
      var i := Position(chain, key);
      if i < |chain| {
        ht := ht[idx := chain[..i] + chain[i + 1..]];
        numElems := numElems - 1;
      }
      assert ht == AttrHash.Remove(was, key);
      RemoveSets(was, key, key);
      forall k
        ensures AttrHash.Lookup(ht, k) == if AttrListModel.Same(k, key) then None else AttrHash.Lookup(was, k)
      {
        RemoveSets(was, key, k);
      }
    }

    method Clear()
      modifies this
      ensures Good() && |ht| == |old(ht)| && forall key :: AttrHash.Lookup(ht, key).None?
    {
      for i := 0 to |ht|
        invariant |ht| == |old(ht)| && forall j | 0 <= j < i :: ht[j] == []
      {
        ht := ht[i := []];
      }
      numElems := 0;
      EmptyFlat(ht);
    }
  }
}
