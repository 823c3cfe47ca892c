/** The attribute list as it runs: a linked list with a tail pointer and a hash index, one ad chained to another. */
module AttrListImpl {
  import opened Options
  import opened ClassAdSyntax
  import opened AttrListModel
  import AttrHash
  import opened AttrHashImpl

  class AttrListElem {
    const tree: Attr
    var next: AttrListElem?
    var dirty: bool

    constructor (tree: Attr)
      ensures this.tree == tree && next == null && !dirty
    {
      this.tree := tree;
      next := null;
      dirty := false;
    }
  }

  /** The attributes of a list of nodes. */
  ghost function Trees(nodes: seq<AttrListElem>): (r: seq<Attr>)
    ensures |r| == |nodes| && forall i | 0 <= i < |nodes| :: r[i] == nodes[i].tree
  {
    seq(|nodes|, i requires 0 <= i < |nodes| => nodes[i].tree)
  }

  /** Linear search for a node. */
  ghost function FindNode(nodes: seq<AttrListElem>, key: string): Option<AttrListElem> {
    if nodes == [] then None
    else if Same(nodes[0].tree.name, key) then Some(nodes[0])
    else FindNode(nodes[1..], key)
  }

  lemma {:induction false} FindNodeTree(nodes: seq<AttrListElem>, key: string)
    ensures FindNode(nodes, key).Some? ==> Find(Trees(nodes), key) == Some(FindNode(nodes, key).value.tree)
    ensures FindNode(nodes, key).None? ==> Find(Trees(nodes), key).None?
  {
    if nodes != [] {
      assert Trees(nodes)[1..] == Trees(nodes[1..]);
      FindNodeTree(nodes[1..], key);
    }
  }

  lemma {:induction false} FindNodeConcat(a: seq<AttrListElem>, b: seq<AttrListElem>, key: string)
    ensures FindNode(a + b, key) == if FindNode(a, key).Some? then FindNode(a, key) else FindNode(b, key)
  {
    if a == [] {
      assert a + b == b;
    } else {
      assert (a + b)[1..] == a[1..] + b;
      FindNodeConcat(a[1..], b, key);
    }
  }

  lemma {:induction false} NotThere(nodes: seq<AttrListElem>, name: string)
    requires forall n | n in nodes :: !Same(name, n.tree.name)
    ensures Without(Trees(nodes), name) == Trees(nodes) && !Has(Trees(nodes), name)
    ensures forall key :: Same(key, name) ==> FindNode(nodes, key).None?
  {
    if nodes != [] {
      assert Trees(nodes)[1..] == Trees(nodes[1..]);
      NotThere(nodes[1..], name);
    }
  }

  /** Taking out the first attribute of a name. */
  lemma {:induction false} WithoutFirst(front: seq<Attr>, a: Attr, back: seq<Attr>, name: string)
    requires Same(a.name, name) && forall x | x in front :: !Same(x.name, name)
    ensures Without(front + [a] + back, name) == front + back
  {
    hide Same;
    var all := front + [a] + back;
    if front == [] {
      assert all[1..] == back;
    } else {
      assert all[1..] == front[1..] + [a] + back;
      WithoutFirst(front[1..], a, back, name);
      assert front + back == [front[0]] + (front[1..] + back);
    }
  }

  /** Taking out a node that is the only one of its name: what the list and a search in it become. */
  lemma TakeOut(front: seq<AttrListElem>, node: AttrListElem, back: seq<AttrListElem>, name: string)
    requires Same(node.tree.name, name) && forall n | n in front + back :: !Same(n.tree.name, name)
    ensures Trees(front + back) == Without(Trees(front + [node] + back), name)
    ensures forall key :: FindNode(front + back, key)
                       == if Same(key, name) then None else FindNode(front + [node] + back, key)
  {
    hide Same, Without, FindNode;
    AttrHash.SameIsEquivalence();
    WithoutFirst(Trees(front), node.tree, Trees(back), name);
    assert Trees(front + [node] + back) == Trees(front) + [node.tree] + Trees(back);
    assert Trees(front + back) == Trees(front) + Trees(back);
    NotThere(front + back, name);
    forall key | !Same(key, name)
      ensures FindNode(front + back, key) == FindNode(front + [node] + back, key)
    {
      SkipNode(front, node, back, key);
    }
  }

  lemma SkipNode(front: seq<AttrListElem>, node: AttrListElem, back: seq<AttrListElem>, key: string)
    requires !Same(node.tree.name, key)
    ensures FindNode(front + back, key) == FindNode(front + [node] + back, key)
  {
    FindNodeConcat(front, back, key);
    FindNodeConcat(front, [node] + back, key);
    assert ([node] + back)[1..] == back;
    assert front + [node] + back == front + ([node] + back);
  }

  class AttrList {
    var exprList: AttrListElem?
    var tail: AttrListElem?
    const hash: HashTable<AttrListElem>
    var chainedAd: AttrList?
    var insideInsert: bool
    /** The nodes from the head on, among all that were ever in the list. */
    ghost var nodes: seq<AttrListElem>
    ghost var owned: set<AttrListElem>

    ghost function Attrs(): seq<Attr>
      reads this
    {
      Trees(nodes)
    }

    /** Head, links and tail are those of the list of nodes. */
    ghost predicate Linked()
      reads this, owned
    {
      && (forall n | n in nodes :: n in owned)
      && (forall i, j | 0 <= i < j < |nodes| :: nodes[i] != nodes[j])
      && (nodes == [] ==> exprList == null && tail == null)
      && (nodes != [] ==> exprList == nodes[0] && tail == nodes[|nodes| - 1] && nodes[|nodes| - 1].next == null)
      && (forall i | 0 <= i < |nodes| - 1 :: nodes[i].next == nodes[i + 1])
    }

    /** The hash index finds what a linear search finds. */
    ghost predicate Hashed()
      reads this, hash
    {
      hash.Good() && forall key :: AttrHash.Lookup(hash.ht, key) == FindNode(nodes, key)
    }

    ghost predicate Valid()
      reads this, owned, hash
    {
      Linked() && Hashed() && Unique(Attrs())
    }

    /** The parent is another ad that shares nothing with this one. */
    ghost predicate Chained()
      reads this, chainedAd, if chainedAd == null then {} else {chainedAd.hash} + chainedAd.owned
    {
      chainedAd != null ==>
        chainedAd != this && chainedAd.hash != hash && chainedAd.owned !! owned && chainedAd.Valid()
    }

    ghost function View(): Ad
      reads this, chainedAd
    {
      Ad(Attrs(), if chainedAd == null then [] else chainedAd.Attrs())
    }

    constructor ()
      ensures Valid() && fresh(hash) && chainedAd == null && View() == Ad([], []) && !insideInsert
    {
      exprList, tail := null, null;
      hash := new HashTable();
      chainedAd := null;
      insideInsert := false;
      nodes, owned := [], {};
    }

    /** Own index first, then the parent's, but never the parent's while inserting. */
    method Lookup(name: string) returns (r: Option<Attr>)
      requires Valid() && (insideInsert || Chained())
      ensures r == if insideInsert then Find(Attrs(), name) else AttrListModel.Lookup(View(), name)
    {
      var node := hash.Lookup(name);
      FindNodeTree(nodes, name);
      if node.Some? {
        return Some(node.value.tree);
      }
      if chainedAd != null && !insideInsert {
        node := chainedAd.hash.Lookup(name);
        FindNodeTree(chainedAd.nodes, name);
        if node.Some? {
          return Some(node.value.tree);
        }
      }
      return None;
    }

    /** Take the node at `i` out of the list. */
    method UnlinkNode(previous: AttrListElem?, cur: AttrListElem, ghost i: nat)
      requires Linked() && i < |nodes| && cur == nodes[i] && (i > 0 ==> previous == nodes[i - 1])
      modifies this, owned
      ensures Linked() && nodes == old(nodes[..i] + nodes[i + 1..])
      ensures chainedAd == old(chainedAd) && insideInsert == old(insideInsert) && owned == old(owned)
    {
      if cur == exprList {
        exprList := exprList.next;
        if tail == cur {
          tail := null;
        }
      } else {
        previous.next := cur.next;
        if tail == cur {
          tail := previous;
        }
      }
      nodes := nodes[..i] + nodes[i + 1..];
    }

    /** Walk the list to the first node of that name. */
    method Search(name: string) returns (previous: AttrListElem?, cur: AttrListElem?, ghost i: nat)
      requires Linked()
      ensures i <= |nodes| && cur == (if i < |nodes| then nodes[i] else null) && (i > 0 ==> previous == nodes[i - 1])
      ensures forall j | 0 <= j < i :: !Same(name, nodes[j].tree.name)
      ensures i < |nodes| ==> Same(name, nodes[i].tree.name)
    {
      previous, cur := exprList, exprList;
      i := 0;
      while cur != null && !Same(name, cur.tree.name)
        invariant i <= |nodes| && cur == (if i < |nodes| then nodes[i] else null)
        invariant i > 0 ==> previous == nodes[i - 1]
        invariant forall j | 0 <= j < i :: !Same(name, nodes[j].tree.name)
        decreases |nodes| - i
      {
        previous, cur := cur, cur.next;
        i := i + 1;
      }
    }

    /** `Delete` as far as the ad's own list goes, which is all of it while inserting. */
    method Unlink(name: string) returns (found: bool)
      requires Valid()
      modifies this, owned, hash
      ensures Valid() && Attrs() == Without(old(Attrs()), name) && found == Has(old(Attrs()), name)
      ensures chainedAd == old(chainedAd) && insideInsert == old(insideInsert)
      ensures owned == old(owned)
    {
      hide AttrHash.Lookup, FindNode, Without, Same, Unique, AttrHash.Valid, AttrHash.Flat, AttrHash.Remove;
      ghost var was := nodes;
      hash.Remove(name);
      var previous, cur, i := Search(name);
      found := cur != null;
      if cur != null {
        Unlinked(was, i, name);
        UnlinkNode(previous, cur, i);
      } else {
        NotThere(nodes, name);
      }
    }

    method LinkNode(node: AttrListElem)
      requires Linked() && node !in owned && node.next == null
      modifies this, owned
      ensures Linked() && nodes == old(nodes) + [node] && owned == old(owned) + {node}
      ensures chainedAd == old(chainedAd) && !insideInsert
    {
      if tail == null {
        exprList := node;
      } else {
        tail.next := node;
      }
      tail := node;
      insideInsert := false;
      nodes, owned := nodes + [node], owned + {node};
    }

    /** A new node behind the tail, and an index entry for it. */
    method Append(a: Attr)
      requires Valid() && !Has(Attrs(), a.name)
      modifies this, owned, hash
      ensures Valid() && Attrs() == old(Attrs()) + [a]
      ensures chainedAd == old(chainedAd) && !insideInsert
      ensures old(owned) <= owned && fresh(owned - old(owned))
    {
      hide AttrHash.Lookup, FindNode, Same, AttrHash.Valid, AttrHash.Flat, AttrHash.Add, Linked, Unique, Find;
      Appended(nodes, a);
      var node := new AttrListElem(a);
      node.dirty := true;
      AppendedNode(nodes, node);
      FindNodeTree(nodes, a.name);
      assert Trees(nodes + [node]) == Trees(nodes) + [a];
      LinkNode(node);
      hash.Insert(a.name, node);
    }

    /** Insertion that checks for duplicates. */
    method Insert(a: Attr)
      requires Valid()
      modifies this, owned, hash
      ensures Valid() && Attrs() == AttrListModel.Insert(old(Attrs()), a)
      ensures chainedAd == old(chainedAd) && !insideInsert
      ensures old(owned) <= owned && fresh(owned - old(owned))
    {
      insideInsert := true;
      assert Valid();
      DropDuplicate(a.name);
      Append(a);
    }

    method DropDuplicate(name: string)
      requires Valid() && insideInsert
      modifies this, owned, hash
      ensures Valid() && Attrs() == Without(old(Attrs()), name) && !Has(Attrs(), name)
      ensures chainedAd == old(chainedAd) && owned == old(owned)
    {
      hide Linked, Hashed, Unique, Same, Find, Without;
      FoundNoMore(Attrs(), name);
      var there := Lookup(name);
      if there.Some? {
        var _ := Unlink(name);
      } else {
        AbsentWithout(Attrs(), name);
      }
    }

    /** Delete from the ad; what the parent has of that name is hidden behind UNDEFINED. */
    method Delete(name: string) returns (found: bool)
      requires Valid() && Chained() && !insideInsert
      modifies this, owned, hash
      ensures Valid() && Chained() && !insideInsert && View() == AttrListModel.Delete(old(View()), name)
      ensures found == (Has(old(View().own), name) || Has(old(View().parent), name))
      ensures old(owned) <= owned && fresh(owned - old(owned))
    {
      hide AttrListModel.Insert, ParseName, Valid, Unique, Same, Without, Find, Hashed, Linked;
      found := Unlink(name);
      var inParent := HideParents(name);
      found := found || inParent;
    }

    /** An insertion leaves the parent alone. */
    method InsertChained(a: Attr)
      requires Valid() && Chained()
      modifies this, owned, hash
      ensures Valid() && Chained() && !insideInsert
      ensures View() == old(View()).(own := AttrListModel.Insert(old(Attrs()), a))
      ensures chainedAd == old(chainedAd) && old(owned) <= owned && fresh(owned - old(owned))
    {
      hide AttrListModel.Insert, Valid, Unique, Hashed, Linked;
      Insert(a);
    }

    /** The second half of a deletion: UNDEFINED in front of what the parent has of that name. */
    method HideParents(name: string) returns (found: bool)
      requires Valid() && Chained() && !insideInsert
      modifies this, owned, hash
      ensures Valid() && Chained() && !insideInsert && found == Has(old(View().parent), name)
      ensures View() == var ad := old(View());
                        if found && ParseName(name).Some?
                        then ad.(own := AttrListModel.Insert(ad.own, Attr(ParseName(name).value, Undefined, false))) else ad
      ensures old(owned) <= owned && fresh(owned - old(owned))
    {
      assert !Has([], name);
      hide AttrListModel.Insert, ParseName, Valid, Unique, Same, Find, Without, FindNode, Hashed, Linked, Has;
      found := false;
      if chainedAd != null && !insideInsert {
        found := chainedAd.Contains(name);
        if found && ParseName(name).Some? {
          InsertChained(Attr(ParseName(name).value, Undefined, false));
        }
      }
    }

    /** A walk along the list, not through the index. */
    method Contains(name: string) returns (found: bool)
      requires Valid()
      ensures found == Has(Attrs(), name)
    {
      var _, cur, i := Search(name);
      InParent(nodes, i, name);
      found := cur != null;
    }

    method ChainToAd(ad: AttrList)
      requires Valid() && ad.Valid()
      modifies this`chainedAd
      ensures Valid() && View() == Ad(old(Attrs()), ad.Attrs())
      ensures ad != this && ad.hash != hash && ad.owned !! owned ==> Chained()
    {
      chainedAd := ad;
    }

    method Clear()
      requires Valid()
      modifies this, owned, hash
      ensures Valid() && chainedAd == null && View() == Ad([], []) && insideInsert == old(insideInsert) && owned == old(owned)
    {
      chainedAd := null;
      hash.Clear();
      DropNodes();
      assert forall key :: FindNode([], key).None?;
    }

    method DropNodes()
      requires Linked()
      modifies this, owned
      ensures Linked() && nodes == []
      ensures chainedAd == old(chainedAd) && insideInsert == old(insideInsert) && owned == old(owned)
    {
      while exprList != null
        invariant Linked() && owned == old(owned)
        invariant chainedAd == old(chainedAd) && insideInsert == old(insideInsert)
        decreases |nodes|
      {
        UnlinkNode(null, exprList, 0);
      }
      tail := null;
    }

    /** Copy over what the parent has and this ad has not, and unchain. */
    method ChainCollapse()
      requires Valid() && Chained() && !insideInsert
      modifies this, owned, hash
      ensures Valid() && !insideInsert && chainedAd == null && View() == Collapse(old(View()))
      ensures old(owned) <= owned && fresh(owned - old(owned))
    {
      if chainedAd != null {
        var parent := chainedAd;
        chainedAd := null;
        CopyAll(parent);
      }
    }

    lemma Next(i: nat)
      requires Valid() && i <= |nodes|
      ensures i < |nodes| ==> nodes[i].next == if i + 1 < |nodes| then nodes[i + 1] else null
      ensures i == 0 ==> exprList == if |nodes| > 0 then nodes[0] else null
    {
    }

    method CopyAll(parent: AttrList)
      requires Valid() && chainedAd == null && !insideInsert
      requires parent != this && parent.hash != hash && parent.owned !! owned && parent.Valid()
      modifies this, owned, hash
      ensures Valid() && !insideInsert && chainedAd == null && Attrs() == CollapseFrom(old(Attrs()), parent.Attrs())
      ensures old(owned) <= owned && fresh(owned - old(owned))
    {
      hide Valid, Linked, Hashed, Unique, Same, Find, CollapseFrom;
      parent.Next(0);
      var chained := parent.exprList;
      ghost var i := 0;
      assert parent.nodes[0..] == parent.nodes;
      while chained != null
        invariant parent.owned !! owned && parent.Valid() && i <= |parent.nodes|
        invariant chained == if i < |parent.nodes| then parent.nodes[i] else null
        invariant Valid() && chainedAd == null && !insideInsert
        invariant CollapseFrom(Attrs(), Trees(parent.nodes[i..])) == CollapseFrom(old(Attrs()), parent.Attrs())
        invariant old(owned) <= owned && fresh(owned - old(owned))
        decreases |parent.nodes| - i
      {
        NextTree(parent.nodes, i);
        CollapseStep(Attrs(), Trees(parent.nodes[i..]));
        CopyOver(chained);
        parent.Next(i);
        chained := chained.next;
        i := i + 1;
      }
      CollapseEnd(Attrs(), Trees(parent.nodes[i..]));
    }

    /** One step of the collapse. */
    method CopyOver(chained: AttrListElem)
      requires Valid() && chainedAd == null && !insideInsert
      modifies this, owned, hash
      ensures Valid() && chainedAd == null && !insideInsert
      ensures Attrs() == if Has(old(Attrs()), chained.tree.name) then old(Attrs()) else old(Attrs()) + [chained.tree]
      ensures old(owned) <= owned && fresh(owned - old(owned))
    {
      hide Linked, Hashed, Unique, Same;
      var there := Lookup(chained.tree.name);
      if there.None? {
        Append(chained.tree);
      }
    }
  }

  lemma CollapseStep(own: seq<Attr>, parent: seq<Attr>)
    requires parent != []
    ensures CollapseFrom(own, parent)
         == CollapseFrom(if Has(own, parent[0].name) then own else own + [parent[0]], parent[1..])
  {
  }

  lemma CollapseEnd(own: seq<Attr>, parent: seq<Attr>)
    requires parent == []
    ensures CollapseFrom(own, parent) == own
  {
  }

  lemma NextTree(nodes: seq<AttrListElem>, i: nat)
    requires i < |nodes|
    ensures Trees(nodes[i..]) != [] && Trees(nodes[i..])[0] == nodes[i].tree && Trees(nodes[i..])[1..] == Trees(nodes[i + 1..])
  {
  }

  lemma Appended(nodes: seq<AttrListElem>, a: Attr)
    requires Unique(Trees(nodes)) && !Has(Trees(nodes), a.name)
    ensures Unique(Trees(nodes) + [a])
  {
    FindMember(Trees(nodes), a.name);
  }

  lemma AppendedNode(nodes: seq<AttrListElem>, node: AttrListElem)
    requires !Has(Trees(nodes), node.tree.name)
    ensures forall key :: FindNode(nodes + [node], key) == if Same(key, node.tree.name) then Some(node) else FindNode(nodes, key)
  {
    hide Same, Find;
    AttrHash.SameIsEquivalence();
    forall key
      ensures FindNode(nodes + [node], key) == if Same(key, node.tree.name) then Some(node) else FindNode(nodes, key)
    {
      FindNodeConcat(nodes, [node], key);
      FindNodeTree(nodes, key);
      if Same(key, node.tree.name) {
        SameFinds(Trees(nodes), key, node.tree.name);
      }
    }
  }

  lemma {:induction false} AbsentWithout(attrs: seq<Attr>, name: string)
    requires !Has(attrs, name)
    ensures Without(attrs, name) == attrs
  {
    if attrs != [] {
      AbsentWithout(attrs[1..], name);
      assert attrs == [attrs[0]] + attrs[1..];
    }
  }

  lemma FoundNoMore(attrs: seq<Attr>, name: string)
    requires Unique(attrs)
    ensures !Has(Without(attrs, name), name)
  {
    FindWithout(attrs, name, name);
  }

  /** The walk along the parent's list finds the name exactly when the parent has it. */
  lemma InParent(nodes: seq<AttrListElem>, i: nat, name: string)
    requires i <= |nodes| && (forall j | 0 <= j < i :: !Same(name, nodes[j].tree.name))
    requires i < |nodes| ==> Same(name, nodes[i].tree.name)
    ensures Has(Trees(nodes), name) <==> i < |nodes|
  {
    FindMember(Trees(nodes), name);
    if i < |nodes| {
      assert Same(Trees(nodes)[i].name, name);
    }
  }

  lemma Unlinked(nodes: seq<AttrListElem>, i: nat, name: string)
    requires i < |nodes| && Unique(Trees(nodes)) && Same(name, nodes[i].tree.name)
    ensures Trees(nodes[..i] + nodes[i + 1..]) == Without(Trees(nodes), name) && Has(Trees(nodes), name)
    ensures Unique(Without(Trees(nodes), name))
    ensures forall key :: FindNode(nodes[..i] + nodes[i + 1..], key) == if Same(key, name) then None else FindNode(nodes, key)
  {
    hide Same, Without, FindNode;
    AttrHash.SameIsEquivalence();
    FindMember(Trees(nodes), name);
    UniqueWithout(Trees(nodes), name);
    assert nodes == nodes[..i] + [nodes[i]] + nodes[i + 1..];
    forall n | n in nodes[..i] + nodes[i + 1..]
      ensures !Same(n.tree.name, name)
    {
      var j :| 0 <= j < |nodes| && j != i && nodes[j] == n;
      assert !Same(Trees(nodes)[j].name, Trees(nodes)[i].name);
    }
    TakeOut(nodes[..i], nodes[i], nodes[i + 1..], name);
  }
}
