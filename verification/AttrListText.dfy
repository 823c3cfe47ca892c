/** Printing an ad as lines of text, the parent's attributes first, and reading such text back. */
module AttrListText {
  import opened Options
  import Lexer
  import opened ClassAdPrinter
  import opened ClassAdParser
  import opened RoundTrip
  import opened RoundTripLimits
  import opened AttrListModel

  /** The attributes that are printed. */
  function Visible(attrs: seq<Attr>): (r: seq<Attr>)
    ensures forall a | a in r :: a in attrs && !a.invisible
  {
    if attrs == [] then []
    else (if attrs[0].invisible then [] else [attrs[0]]) + Visible(attrs[1..])
  }

  predicate Printable(attrs: seq<Attr>) {
    forall a | a in attrs :: FloatFree(a.expr)
  }

  function Line(a: Attr): string
    requires FloatFree(a.expr)
  {
    PrintAssign(a.name, a.expr) + "\n"
  }

  function Lines(attrs: seq<Attr>): string
    requires Printable(attrs)
  {
    if attrs == [] then "" else Line(attrs[0]) + Lines(attrs[1..])
  }

  /** `sPrint`: the parent first, so that on reading the ad's own attributes replace the parent's. */
  function Text(ad: Ad): string
    requires Printable(Visible(ad.parent)) && Printable(Visible(ad.own))
  {
    Lines(Visible(ad.parent)) + Lines(Visible(ad.own))
  }

  datatype ReadResult = ReadResult(ok: bool, attrs: seq<Attr>)

  /**
    `initFromString`: skip white space, take a line, insert it. Reading stops at the first line that is
    no assignment, such as an empty one, which can only be white space at the very end.
   */
  function Read(attrs: seq<Attr>, s: string): ReadResult
    decreases |s|
  {
    if s == "" then ReadResult(true, attrs)
    else
      var t := s[Lexer.Run(Lexer.Space, s)..];
      var n := Lexer.Until('\n', t);
      match ParseAssign(t[..n])
      case None => ReadResult(false, attrs)
      case Some((name, e)) =>
        EmptyLineIsNoAssignment();
        Read(AttrListModel.Insert(attrs, Attr(name, e, false)), t[if n < |t| then n + 1 else n..])
  }

  lemma EmptyLineIsNoAssignment()
    ensures ParseAssign("").None?
  {
    hide Lexer.Scan;
    ScanEnd();
    if ParseLevel(0, "").ok {
      StartsWithFactor(0, "");
    }
  }

  /***** Reading back *****/

  /** Names and values within the limits of the round trip, on one line. */
  predicate Readable(attrs: seq<Attr>) {
    forall a | a in attrs :: NameOk(a.name) && LexOk(a.expr, true) && Shape(a.expr, 0) && '\n' !in Print(a.expr)
  }

  function InsertAll(attrs: seq<Attr>, more: seq<Attr>): seq<Attr>
    decreases more
  {
    if more == [] then attrs else InsertAll(AttrListModel.Insert(attrs, more[0]), more[1..])
  }

  lemma OneLine(a: Attr)
    requires Readable([a])
    ensures PrintAssign(a.name, a.expr) != "" && '\n' !in PrintAssign(a.name, a.expr)
    ensures !Lexer.Has(Lexer.Space, PrintAssign(a.name, a.expr)[0])
  {
    hide Print, LexOk, Shape;
    assert a in [a];
  }

  lemma ReadLine(attrs: seq<Attr>, a: Attr, rest: string)
    requires Readable([a]) && !a.invisible
    ensures Read(attrs, Line(a) + rest) == Read(AttrListModel.Insert(attrs, a), rest)
  {
    assert a in [a];
    var line := PrintAssign(a.name, a.expr);
    var s := Line(a) + rest;
    OneLine(a);
    AssignmentRoundTrip(a.name, a.expr);
    hide PrintAssign, ParseAssign, Print, LexOk, Shape, NameOk, AttrListModel.Insert;
    assert s == line + "\n" + rest;
    assert s[0] == line[0];
    assert Lexer.Run(Lexer.Space, s) == 0 && s[0..] == s;
    Lexer.UntilConcat('\n', line, rest);
    assert s[..|line|] == line && s[|line| + 1..] == rest;
  }

  lemma {:induction false} ReadLines(attrs: seq<Attr>, more: seq<Attr>, rest: string)
    requires Readable(more) && forall a | a in more :: !a.invisible
    ensures Read(attrs, Lines(more) + rest) == Read(InsertAll(attrs, more), rest)
    decreases more
  {
    hide AttrListModel.Insert, Read, Line;
    if more == [] {
      assert Lines(more) + rest == rest;
    } else {
      var tail := Lines(more[1..]) + rest;
      assert Lines(more) + rest == Line(more[0]) + tail;
      ReadLine(attrs, more[0], tail);
      ReadLines(AttrListModel.Insert(attrs, more[0]), more[1..], rest);
    }
  }

  /** Inserting attributes with distinct names: the inserted ones are found before the older ones. */
  lemma {:induction false} InsertAllSets(attrs: seq<Attr>, more: seq<Attr>, key: string)
    requires Unique(attrs) && Unique(more)
    ensures Unique(InsertAll(attrs, more))
    ensures Find(InsertAll(attrs, more), key) == Lookup(Ad(more, attrs), key)
    decreases more
  {
    hide AttrListModel.Insert;
    if more != [] {
      UniqueInsert(attrs, more[0]);
      assert Unique(more[1..]);
      InsertAllSets(AttrListModel.Insert(attrs, more[0]), more[1..], key);
      InsertSets(attrs, more[0], key);
      if Same(key, more[0].name) {
        DistinctFromFirst(more, key);
      }
    }
  }

  lemma DistinctFromFirst(attrs: seq<Attr>, key: string)
    requires attrs != [] && Unique(attrs) && Same(key, attrs[0].name)
    ensures !AttrListModel.Has(attrs[1..], key)
  {
    FindMember(attrs[1..], key);
    assert forall i | 1 <= i < |attrs| :: !Same(attrs[0].name, attrs[i].name);
    assert forall i | 0 <= i < |attrs[1..]| :: attrs[1..][i] == attrs[i + 1];
  }

  lemma {:induction false} UniqueVisible(attrs: seq<Attr>)
    requires Unique(attrs)
    ensures Unique(Visible(attrs))
  {
    if attrs != [] {
      UniqueVisible(attrs[1..]);
      var rest := Visible(attrs[1..]);
      assert forall a | a in attrs[1..] :: !Same(attrs[0].name, a.name);
      assert forall i | 0 <= i < |rest| :: rest[i] in attrs[1..];
    }
  }

  lemma {:induction false} VisibleAppend(a: seq<Attr>, b: seq<Attr>)
    ensures Visible(a + b) == Visible(a) + Visible(b)
  {
    if a == [] {
      assert a + b == b;
    } else {
      assert (a + b)[1..] == a[1..] + b;
      VisibleAppend(a[1..], b);
    }
  }

  /** Wherever an attribute stands, it is printed in its place exactly if it is not invisible. */
  lemma VisibleInPlace(before: seq<Attr>, x: Attr, behind: seq<Attr>)
    ensures Visible(before + [x] + behind) == Visible(before) + (if x.invisible then [] else [x]) + Visible(behind)
    ensures Visible([]) == []
  {
    VisibleOne(x);
    hide Visible;
    VisibleAppend(before + [x], behind);
    VisibleAppend(before, [x]);
  }

  lemma VisibleOne(x: Attr)
    ensures Visible([x]) == (if x.invisible then [] else [x]) && Visible([]) == []
  {
    assert [x][1..] == [];
  }

  lemma {:induction false} FindVisible(attrs: seq<Attr>, key: string)
    requires Unique(attrs)
    ensures Find(Visible(attrs), key)
         == if AttrListModel.Has(attrs, key) && !Find(attrs, key).value.invisible then Find(attrs, key) else None
  {
    if attrs != [] {
      assert Unique(attrs[1..]);
      FindVisible(attrs[1..], key);
      FindAppend(if attrs[0].invisible then [] else [attrs[0]], Visible(attrs[1..]), key);
      if Same(attrs[0].name, key) {
        DistinctFromFirst(attrs, key);
      }
    }
  }

  /**
    Reading the printed text of a chained ad succeeds and gives an ad on its own in which every
    lookup finds what it found among the printed attributes of the chain.
   */
  lemma ReadsBack(ad: Ad, key: string)
    requires Unique(ad.own) && Unique(ad.parent)
    requires Readable(Visible(ad.own)) && Readable(Visible(ad.parent))
    ensures Read([], Text(ad)).ok && Unique(Read([], Text(ad)).attrs)
    ensures Find(Read([], Text(ad)).attrs, key) == Lookup(Ad(Visible(ad.own), Visible(ad.parent)), key)
  {
    hide Read, Lines, InsertAll;
    var own, parent := Visible(ad.own), Visible(ad.parent);
    ReadLines([], parent, Lines(own));
    ReadLines(InsertAll([], parent), own, "");
    assert Lines(own) + "" == Lines(own);
    ReadNothing(InsertAll(InsertAll([], parent), own));
    UniqueVisible(ad.own);
    UniqueVisible(ad.parent);
    InsertAllSets([], parent, key);
    InsertAllSets(InsertAll([], parent), own, key);
  }

  /** So an attribute of the ad itself comes back unless it is invisible, and then, or if it has none, the parent's does unless invisible. */
  lemma ReadsBackVisible(ad: Ad, key: string)
    requires Unique(ad.own) && Unique(ad.parent)
    requires Readable(Visible(ad.own)) && Readable(Visible(ad.parent))
    ensures Find(Read([], Text(ad)).attrs, key) ==
            if AttrListModel.Has(ad.own, key) && !Find(ad.own, key).value.invisible then Find(ad.own, key)
            else if AttrListModel.Has(ad.parent, key) && !Find(ad.parent, key).value.invisible then Find(ad.parent, key)
            else None
  {
    hide Read, Text, Readable;
    ReadsBack(ad, key);
    FindVisible(ad.own, key);
    FindVisible(ad.parent, key);
  }

  /** White space behind the last line is taken for one more line, which is no assignment. */
  lemma TrailingSpaceFails(ad: Ad, space: string)
    requires Readable(Visible(ad.own)) && Readable(Visible(ad.parent))
    requires space != "" && forall i | 0 <= i < |space| :: Lexer.Has(Lexer.Space, space[i])
    ensures !Read([], Text(ad) + space).ok
  {
    hide Read, Lines, InsertAll, Lexer.Has, Visible, LeavesOk, BackslashLast, Shape, NameOk, Print;
    var own, parent := Visible(ad.own), Visible(ad.parent);
    ReadLines([], parent, Lines(own) + space);
    ReadLines(InsertAll([], parent), own, space);
    assert Text(ad) + space == Lines(parent) + (Lines(own) + space);
    OnlySpaceFails(InsertAll(InsertAll([], parent), own), space);
  }

  lemma OnlySpaceFails(attrs: seq<Attr>, space: string)
    requires space != "" && forall i | 0 <= i < |space| :: Lexer.Has(Lexer.Space, space[i])
    ensures !Read(attrs, space).ok
  {
    EmptyLineIsNoAssignment();
    hide AttrListModel.Insert, ParseAssign;
    assert space + "" == space;
    Lexer.RunConcat(Lexer.Space, space, "");
    assert space[|space|..] == "";
  }

  lemma ReadNothing(attrs: seq<Attr>)
    ensures Read(attrs, "") == ReadResult(true, attrs)
  {
  }

  lemma {:induction false} AllVisible(attrs: seq<Attr>)
    requires forall a | a in attrs :: !a.invisible
    ensures Visible(attrs) == attrs
  {
    if attrs != [] {
      AllVisible(attrs[1..]);
      assert attrs == [attrs[0]] + attrs[1..];
    }
  }

  /** With no attribute invisible, the text loses nothing that a lookup can see. */
  lemma ReadsBackWhole(ad: Ad, key: string)
    requires Unique(ad.own) && Unique(ad.parent) && Readable(ad.own) && Readable(ad.parent)
    requires (forall a | a in ad.own :: !a.invisible) && (forall a | a in ad.parent :: !a.invisible)
    ensures Printable(Visible(ad.parent)) && Printable(Visible(ad.own)) && Read([], Text(ad)).ok
    ensures Find(Read([], Text(ad)).attrs, key) == Lookup(ad, key)
  {
    hide Read, Text;
    AllVisible(ad.own);
    AllVisible(ad.parent);
    ReadsBack(ad, key);
  }
}
