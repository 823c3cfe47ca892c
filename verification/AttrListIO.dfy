/** Printing an attribute list and reading one, as they run. */
module AttrListIO {
  import Lexer
  import opened ClassAdPrinter
  import opened ClassAdParser
  import opened AttrListModel
  import opened AttrListText
  import opened AttrListImpl

  /** The lines of one list, appended to what is there. */
  method PrintList(list: AttrList, output: string) returns (r: string)
    requires list.Valid() && Printable(Visible(list.Attrs()))
    ensures r == output + Lines(Visible(list.Attrs()))
  {
    hide AttrList.Valid, Printable, Line, Lines, Visible;
    r := output;
    list.Next(0);
    var elem := list.exprList;
    ghost var i := 0;
    assert list.nodes[0..] == list.nodes;
    while elem != null
      invariant i <= |list.nodes| && elem == if i < |list.nodes| then list.nodes[i] else null
      invariant Printable(Visible(Trees(list.nodes[i..])))
      invariant r + Lines(Visible(Trees(list.nodes[i..]))) == output + Lines(Visible(list.Attrs()))
      decreases |list.nodes| - i
    {
      NextTree(list.nodes, i);
      NextLine(Trees(list.nodes[i..]), r);
      if !elem.tree.invisible {
        r := r + Line(elem.tree);
      }
      list.Next(i);
      elem := elem.next;
      i := i + 1;
    }
    NoLines(Trees(list.nodes[i..]), r);
  }

  lemma NextLine(attrs: seq<Attr>, done: string)
    requires attrs != [] && Printable(Visible(attrs))
    ensures Printable(Visible(attrs[1..])) && (!attrs[0].invisible ==> FloatFree(attrs[0].expr))
    ensures done + Lines(Visible(attrs))
         == done + (if attrs[0].invisible then "" else Line(attrs[0])) + Lines(Visible(attrs[1..]))
  {
    hide Line, Lines, Printable, Visible;
    var rest := Visible(attrs[1..]);
    VisibleStep(attrs);
    if !attrs[0].invisible {
      PrintableStep(attrs[0], rest);
      LinesStep(attrs[0], rest);
    }
  }

  lemma VisibleStep(attrs: seq<Attr>)
    requires attrs != []
    ensures Visible(attrs) == if attrs[0].invisible then Visible(attrs[1..]) else [attrs[0]] + Visible(attrs[1..])
  {
  }

  lemma PrintableStep(a: Attr, rest: seq<Attr>)
    requires Printable([a] + rest)
    ensures FloatFree(a.expr) && Printable(rest)
  {
    var all := [a] + rest;
    assert all[0] in all && forall x | x in rest :: x in all;
  }

  lemma LinesStep(a: Attr, rest: seq<Attr>)
    requires Printable([a] + rest) && FloatFree(a.expr) && Printable(rest)
    ensures Lines([a] + rest) == Line(a) + Lines(rest)
  {
    hide Line;
    assert ([a] + rest)[1..] == rest;
  }

  lemma NoLines(attrs: seq<Attr>, done: string)
    requires attrs == []
    ensures Printable(Visible(attrs)) && done + Lines(Visible(attrs)) == done
  {
  }

  /** The parent's attributes first. */
  method SPrint(ad: AttrList) returns (output: string)
    requires ad.Valid() && ad.Chained()
    requires Printable(Visible(ad.View().parent)) && Printable(Visible(ad.View().own))
    ensures output == Text(ad.View())
  {
    hide AttrList.Valid, Lines, Visible, Printable;
    output := "";
    if ad.chainedAd != null {
      output := PrintList(ad.chainedAd, output);
    }
    NoLines([], "");
    output := PrintList(ad, output);
  }

  method SkipSpace(s: string) returns (t: string)
    ensures t == s[Lexer.Run(Lexer.Space, s)..]
  {
    t := s;
    while t != "" && Lexer.Has(Lexer.Space, t[0])
      invariant t[Lexer.Run(Lexer.Space, t)..] == s[Lexer.Run(Lexer.Space, s)..]
      decreases |t|
    {
      t := t[1..];
    }
  }

  /** Start afresh and insert line by line; stop at the first line that is no assignment. */
  method InitFromString(ad: AttrList, str: string) returns (ok: bool)
    requires ad.Valid()
    modifies ad, ad.owned, ad.hash
    ensures ad.Valid() && ad.chainedAd == null && ReadResult(ok, ad.Attrs()) == Read([], str)
  {
    hide AttrList.Valid, AttrListModel.Insert, ParseAssign, Lexer.Run, Lexer.Until, Read;
    ad.Clear();
    assert ad.Attrs() == ad.View().own;
    var s := str;
    while s != ""
      invariant ad.Valid() && ad.chainedAd == null && old(ad.owned) <= ad.owned && fresh(ad.owned - old(ad.owned))
      invariant Read(ad.Attrs(), s) == Read([], str)
      decreases |s|
    {
      ReadStep(ad.Attrs(), s);
      s := SkipSpace(s);
      var len := Lexer.Until('\n', s);
      var line := ParseAssign(s[..len]);
      if line.None? {
        return false;
      }
      ad.Insert(Attr(line.value.0, line.value.1, false));
      EmptyLineIsNoAssignment();
      s := s[if len < |s| then len + 1 else len..];
    }
    ReadNothing(ad.Attrs());
    return true;
  }

  lemma ReadStep(attrs: seq<Attr>, s: string)
    requires s != ""
    ensures var t := s[Lexer.Run(Lexer.Space, s)..];
            var n := Lexer.Until('\n', t);
            if ParseAssign(t[..n]).None? then Read(attrs, s) == ReadResult(false, attrs)
            else
              var (name, e) := ParseAssign(t[..n]).value;
              Read(attrs, s) == Read(AttrListModel.Insert(attrs, Attr(name, e, false)), t[if n < |t| then n + 1 else n..])
  {
    hide AttrListModel.Insert, ParseAssign, Lexer.Run, Lexer.Has, Lexer.Until;
  }
}
