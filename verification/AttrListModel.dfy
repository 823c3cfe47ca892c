/**
  An AttrList as a sequence of attributes, with the attributes of the ad it is chained to: what each
  operation does to it, and what a lookup finds.
 */
module AttrListModel {
  import opened Options
  import opened ClassAdSyntax
  import opened ClassAdOperators
  import opened ClassAdParser
  import Lexer
  import opened RoundTrip

  datatype Attr = Attr(name: string, expr: Expr, invisible: bool)

  /** An ad that is not chained has an empty parent. */
  datatype Ad = Ad(own: seq<Attr>, parent: seq<Attr>)

  /** `strcasecmp` finds no difference. */
  predicate Same(a: string, b: string) {
    LowerAll(a) == LowerAll(b)
  }

  /** Linear search from the front. */
  function Find(attrs: seq<Attr>, name: string): Option<Attr> {
    if attrs == [] then None
    else if Same(attrs[0].name, name) then Some(attrs[0])
    else Find(attrs[1..], name)
  }

  predicate Has(attrs: seq<Attr>, name: string) {
    Find(attrs, name).Some?
  }

  /** The ad's own attributes come before its parent's. */
  function Lookup(ad: Ad, name: string): Option<Attr> {
    if Has(ad.own, name) then Find(ad.own, name) else Find(ad.parent, name)
  }

  ghost predicate Unique(attrs: seq<Attr>) {
    forall i, j | 0 <= i < j < |attrs| :: !Same(attrs[i].name, attrs[j].name)
  }

  /** The sequence without its first attribute of that name. */
  function Without(attrs: seq<Attr>, name: string): seq<Attr> {
    if attrs == [] then []
    else if Same(attrs[0].name, name) then attrs[1..]
    else [attrs[0]] + Without(attrs[1..], name)
  }

  /** Insertion that checks for duplicates: the new attribute goes to the end, an old one goes. */
  function Insert(attrs: seq<Attr>, a: Attr): seq<Attr> {
    Without(attrs, a.name) + [a]
  }

  /** The variable that a name parses to, if it does. */
  function ParseName(name: string): Option<string> {
    match ParseRval(name)
    case Some(Var(n)) => Some(n)
    case _ => None
  }

  /** Deletion; an attribute that the parent has is hidden behind UNDEFINED. */
  function Delete(ad: Ad, name: string): Ad {
    var own := Without(ad.own, name);
    match if Has(ad.parent, name) then ParseName(name) else None
    case Some(n) => ad.(own := Insert(own, Attr(n, Undefined, false)))
    case None => ad.(own := own)
  }

  /** Copy over the parent's attributes that the ad does not have, and unchain. */
  function Collapse(ad: Ad): Ad {
    Ad(CollapseFrom(ad.own, ad.parent), [])
  }

  function CollapseFrom(own: seq<Attr>, parent: seq<Attr>): seq<Attr>
    decreases parent
  {
    if parent == [] then own
    else CollapseFrom(if Has(own, parent[0].name) then own else own + [parent[0]], parent[1..])
  }

  /***** What a lookup finds after each operation *****/

  lemma {:induction false} FindAppend(a: seq<Attr>, b: seq<Attr>, name: string)
    ensures Find(a + b, name) == if Has(a, name) then Find(a, name) else Find(b, name)
  {
    if a == [] {
      assert a + b == b;
    } else {
      assert (a + b)[1..] == a[1..] + b;
      FindAppend(a[1..], b, name);
    }
  }

  /** What is found is an element, and an element's name is found. */
  lemma {:induction false} FindMember(attrs: seq<Attr>, name: string)
    ensures Has(attrs, name) <==> exists i :: 0 <= i < |attrs| && Same(attrs[i].name, name)
    ensures Has(attrs, name) ==> Find(attrs, name).value in attrs && Same(Find(attrs, name).value.name, name)
  {
    if attrs != [] && !Same(attrs[0].name, name) {
      FindMember(attrs[1..], name);
      if Has(attrs, name) {
        var i :| 0 <= i < |attrs[1..]| && Same(attrs[1..][i].name, name);
        assert Same(attrs[i + 1].name, name);
      }
      assert forall i | 1 <= i < |attrs| :: attrs[i] == attrs[1..][i - 1];
    }
  }

  lemma {:induction false} FindWithout(attrs: seq<Attr>, name: string, key: string)
    requires Unique(attrs)
    ensures Find(Without(attrs, name), key) == if Same(key, name) then None else Find(attrs, key)
  {
    if attrs != [] {
      if Same(attrs[0].name, name) {
        FindMember(attrs[1..], key);
        assert Same(key, name) ==> forall i | 1 <= i < |attrs| :: !Same(attrs[0].name, attrs[i].name);
        assert forall i | 0 <= i < |attrs[1..]| :: attrs[1..][i] == attrs[i + 1];
      } else {
        assert Unique(attrs[1..]);
        FindWithout(attrs[1..], name, key);
        assert Without(attrs, name)[1..] == Without(attrs[1..], name);
      }
    }
  }

  /** A duplicate-checked insertion sets one name and nothing else. */
  lemma InsertSets(attrs: seq<Attr>, a: Attr, key: string)
    requires Unique(attrs)
    ensures Find(Insert(attrs, a), key) == if Same(key, a.name) then Some(a) else Find(attrs, key)
  {
    FindAppend(Without(attrs, a.name), [a], key);
    FindWithout(attrs, a.name, key);
  }

  lemma {:induction false} WithoutAbsent(attrs: seq<Attr>, name: string)
    requires !Has(attrs, name)
    ensures Without(attrs, name) == attrs
  {
    if attrs != [] {
      WithoutAbsent(attrs[1..], name);
    }
  }

  lemma {:induction false} WithoutFirst(before: seq<Attr>, x: Attr, behind: seq<Attr>, name: string)
    requires !Has(before, name) && Same(x.name, name)
    ensures Without(before + [x] + behind, name) == before + behind
  {
    var attrs := before + [x] + behind;
    if before != [] {
      assert attrs[1..] == before[1..] + [x] + behind;
      WithoutFirst(before[1..], x, behind, name);
      assert before + behind == [before[0]] + (before[1..] + behind);
    } else {
      assert attrs[1..] == behind && before + behind == behind;
    }
  }

  /** The new attribute is last; the others keep their places, but for the first of the same name, if there is one. */
  lemma InsertIsLast(before: seq<Attr>, x: Attr, behind: seq<Attr>, a: Attr)
    requires !Has(before, a.name)
    ensures Same(x.name, a.name) ==> Insert(before + [x] + behind, a) == before + behind + [a]
    ensures Insert(before, a) == before + [a]
  {
    WithoutAbsent(before, a.name);
    if Same(x.name, a.name) {
      WithoutFirst(before, x, behind, a.name);
    }
  }

  /** Collapsing leaves the ad's own attributes in front and puts behind them, in order, those of the parent that it did not have. */
  lemma CollapseAppends(ad: Ad)
    requires Unique(ad.parent)
    ensures Collapse(ad) == Ad(ad.own + Lacking(ad.own, ad.parent), [])
  {
    CollapseFromAppends(ad.own, ad.parent);
  }

  lemma {:induction false} CollapseFromAppends(own: seq<Attr>, parent: seq<Attr>)
    requires Unique(parent)
    ensures CollapseFrom(own, parent) == own + Lacking(own, parent)
    decreases parent
  {
    hide Unique, Has;
    if parent != [] {
      var first, rest := parent[0], parent[1..];
      UniqueTail(parent);
      if Has(own, first.name) {
        CollapseFromAppends(own, rest);
      } else {
        CollapseFromAppends(own + [first], rest);
        LackingMore(own, first, rest);
        Regroup(own, first, Lacking(own, rest));
      }
    }
  }

  lemma UniqueTail(attrs: seq<Attr>)
    requires attrs != [] && Unique(attrs)
    ensures Unique(attrs[1..]) && forall i | 0 <= i < |attrs[1..]| :: !Same(attrs[0].name, attrs[1..][i].name)
  {
    hide Same;
    assert forall i | 0 <= i < |attrs[1..]| :: attrs[1..][i] == attrs[i + 1];
  }

  lemma Regroup(a: seq<Attr>, x: Attr, b: seq<Attr>)
    ensures a + [x] + b == a + ([x] + b)
  {
  }

  /** The attributes whose names the ad does not have. */
  function Lacking(own: seq<Attr>, attrs: seq<Attr>): seq<Attr> {
    if attrs == [] then [] else (if Has(own, attrs[0].name) then [] else [attrs[0]]) + Lacking(own, attrs[1..])
  }

  lemma {:induction false} LackingMore(own: seq<Attr>, x: Attr, attrs: seq<Attr>)
    requires forall i | 0 <= i < |attrs| :: !Same(x.name, attrs[i].name)
    ensures Lacking(own + [x], attrs) == Lacking(own, attrs)
  {
    if attrs != [] {
      FindAppend(own, [x], attrs[0].name);
      LackingMore(own, x, attrs[1..]);
    }
  }

  /** Collapsing a chain changes no lookup. */
  lemma CollapseKeepsLookup(ad: Ad, key: string)
    ensures Lookup(Collapse(ad), key) == Lookup(ad, key)
  {
    CollapseFromKeeps(ad.own, ad.parent, key);
  }

  lemma {:induction false} CollapseFromKeeps(own: seq<Attr>, parent: seq<Attr>, key: string)
    ensures Find(CollapseFrom(own, parent), key) == Lookup(Ad(own, parent), key)
    decreases parent
  {
    if parent != [] {
      var next := if Has(own, parent[0].name) then own else own + [parent[0]];
      CollapseFromKeeps(next, parent[1..], key);
      if Has(own, parent[0].name) {
        if Same(parent[0].name, key) {
          SameFinds(own, parent[0].name, key);
        }
      } else {
        FindAppend(own, [parent[0]], key);
      }
    }
  }

  lemma {:induction false} SameFinds(attrs: seq<Attr>, a: string, b: string)
    requires Same(a, b)
    ensures Find(attrs, a) == Find(attrs, b)
  {
    if attrs != [] {
      SameFinds(attrs[1..], a, b);
    }
  }

  /***** Deletion *****/

  /** The name does parse to itself up to case, or the parent has no such attribute. */
  predicate CanHide(ad: Ad, name: string) {
    Has(ad.parent, name) ==> ParseName(name).Some? && Same(ParseName(name).value, name)
  }

  /** Every name the scanner can return is such a name. */
  lemma ScannedNamesHide(ad: Ad, name: string)
    requires NameOk(name)
    ensures CanHide(ad, name)
  {
    hide NameOk, ParseRval;
    PrintThenParse(Var(name));
  }

  /** After a deletion the name is absent or UNDEFINED, exactly if it could be hidden; or it was UNDEFINED all along. */
  lemma DeleteHides(ad: Ad, name: string)
    requires Unique(ad.own)
    ensures (Lookup(Delete(ad, name), name).None? || Lookup(Delete(ad, name), name).value.expr == Undefined)
            <==> CanHide(ad, name) || Find(ad.parent, name).value.expr == Undefined
  {
    hide ParseRval;
    FindWithout(ad.own, name, name);
    UniqueWithout(ad.own, name);
    if Has(ad.parent, name) && ParseName(name).Some? {
      InsertSets(Without(ad.own, name), Attr(ParseName(name).value, Undefined, false), name);
    }
  }

  /** The name that the UNDEFINED entry is filed under, if deletion makes one. */
  function Shadow(ad: Ad, name: string): Option<string> {
    if Has(ad.parent, name) then ParseName(name) else None
  }

  /**
    Deletion leaves another name alone exactly when that is not the name of the UNDEFINED entry, or was that
    entry already. For a name that parses to itself up to case there is no such other name.
   */
  lemma DeleteKeepsOthers(ad: Ad, name: string, key: string)
    requires Unique(ad.own) && !Same(key, name)
    ensures var shadow := Shadow(ad, name);
            Lookup(Delete(ad, name), key) == Lookup(ad, key) <==>
              (shadow.Some? && Same(key, shadow.value) ==> Lookup(ad, key) == Some(Attr(shadow.value, Undefined, false)))
    ensures CanHide(ad, name) ==> Lookup(Delete(ad, name), key) == Lookup(ad, key)
  {
    hide ParseRval;
    FindWithout(ad.own, name, key);
    UniqueWithout(ad.own, name);
    if Has(ad.parent, name) && ParseName(name).Some? {
      InsertSets(Without(ad.own, name), Attr(ParseName(name).value, Undefined, false), key);
    }
  }

  /** A keyword is no variable, so an attribute of that name that the parent has stays visible. */
  lemma KeywordNotHidden(e: Expr)
    requires e != Undefined
    ensures var ad := Ad([], [Attr("T", e, false)]);
            !CanHide(ad, "T") && Lookup(Delete(ad, "T"), "T") == Some(Attr("T", e, false))
  {
    ParsesAsTrue();
    hide ParseRval;
    var ad := Ad([], [Attr("T", e, false)]);
    assert Find(ad.parent, "T") == Some(ad.parent[0]);
    assert ParseName("T") == None;
    assert Delete(ad, "T") == ad;
  }

  lemma ParsesAsTrue()
    ensures ParseRval("T") == Some(Bool(true))
  {
    assert Lexer.UpperAll("T") == "T";
    assert "T" + "" == "T";
    ScanKeyword("T", TBool(true), "");
    ScanEnd();
    hide Lexer.Scan;
    Settle(0, Bool(true), "T", "");
  }

  /***** Names stay unique over every run *****/

  lemma {:induction false} UniqueWithout(attrs: seq<Attr>, name: string)
    requires Unique(attrs)
    ensures Unique(Without(attrs, name))
    ensures forall a | a in Without(attrs, name) :: a in attrs && !Same(a.name, name)
  {
    if attrs != [] {
      assert attrs == [attrs[0]] + attrs[1..];
      if Same(attrs[0].name, name) {
        assert forall i | 1 <= i < |attrs| :: !Same(attrs[0].name, attrs[i].name);
      } else {
        UniqueWithout(attrs[1..], name);
        var rest := Without(attrs[1..], name);
        assert forall a | a in attrs[1..] :: !Same(attrs[0].name, a.name);
        assert forall i | 0 <= i < |rest| :: rest[i] in attrs[1..];
      }
    }
  }

  lemma UniqueInsert(attrs: seq<Attr>, a: Attr)
    requires Unique(attrs)
    ensures Unique(Insert(attrs, a))
  {
    UniqueWithout(attrs, a.name);
    var rest := Without(attrs, a.name);
    assert forall i | 0 <= i < |rest| :: rest[i] in rest;
  }

  lemma UniqueDelete(ad: Ad, name: string)
    requires Unique(ad.own)
    ensures Unique(Delete(ad, name).own)
  {
    hide ParseRval;
    UniqueWithout(ad.own, name);
    if ParseName(name).Some? {
      UniqueInsert(Without(ad.own, name), Attr(ParseName(name).value, Undefined, false));
    }
  }

  lemma {:induction false} UniqueCollapse(own: seq<Attr>, parent: seq<Attr>)
    requires Unique(own)
    ensures Unique(CollapseFrom(own, parent))
    decreases parent
  {
    if parent != [] {
      var next := if Has(own, parent[0].name) then own else own + [parent[0]];
      FindMember(own, parent[0].name);
      assert Unique(next);
      UniqueCollapse(next, parent[1..]);
    }
  }

  datatype Op =
    | DoInsert(attr: Attr)
    | DoDelete(name: string)
    | DoClear
    | DoCollapse
    | DoChain(parent: seq<Attr>)
    | DoUnchain

  function Apply(ad: Ad, op: Op): Ad {
    match op
    case DoInsert(a) => ad.(own := Insert(ad.own, a))
    case DoDelete(name) => Delete(ad, name)
    case DoClear => Ad([], [])
    case DoCollapse => Collapse(ad)
    case DoChain(p) => ad.(parent := p)
    case DoUnchain => ad.(parent := [])
  }

  function Run(ad: Ad, ops: seq<Op>): Ad
    decreases ops
  {
    if ops == [] then ad else Run(Apply(ad, ops[0]), ops[1..])
  }

  lemma {:induction false} AlwaysUnique(ad: Ad, ops: seq<Op>)
    requires Unique(ad.own)
    ensures Unique(Run(ad, ops).own)
    decreases ops
  {
    if ops != [] {
      match ops[0] {
        case DoInsert(a) => UniqueInsert(ad.own, a);
        case DoDelete(name) => UniqueDelete(ad, name);
        case DoCollapse => UniqueCollapse(ad.own, ad.parent);
        case _ =>
      }
      AlwaysUnique(Apply(ad, ops[0]), ops[1..]);
    }
  }
}
