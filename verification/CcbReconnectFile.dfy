/** The append-only reconnect file: what replaying it at start-up reproduces. */
module CcbReconnectFile {
  import opened Options
  import opened CcbTables

  /** A line that parses, or one that is skipped. */
  datatype Line = Line(ip: string, ccbid: CCBID, cookie: CCBID) | Invalid

  datatype Saved = Saved(ip: string, cookie: CCBID)

  /** Reading the lines in order; a later line replaces an earlier one with the same identifier. */
  function Replay(lines: seq<Line>): map<CCBID, Saved> {
    if lines == [] then map[]
    else
      var before := Replay(lines[..|lines| - 1]);
      match lines[|lines| - 1]
      case Line(ip, c, cookie) => before[c := Saved(ip, cookie)]
      case Invalid => before
  }

  /** The file, if it exists, and the half-written replacement beside it. */
  datatype Disk = Disk(file: Option<seq<Line>>, rewrite: seq<Line>) {
    /** The lines there are to read. */
    function Main(): seq<Line> {
      if file.Some? then file.value else []
    }

    /** Appending creates the file. */
    function Append(line: Line): Disk {
      this.(file := Some(Main() + [line]))
    }
  }

  function RecordLine(c: CCBID, r: Record): Line {
    Line(r.ip, c, r.cookie)
  }

  /** Every record in memory is reproduced by a replay of the file. */
  ghost predicate Faithful(records: map<CCBID, Record>, lines: seq<Line>) {
    forall c | c in records :: c in Replay(lines) && Replay(lines)[c] == Saved(records[c].ip, records[c].cookie)
  }

  lemma ReplayLast(lines: seq<Line>, last: Line)
    ensures Replay(lines + [last]) ==
            if last.Line? then Replay(lines)[last.ccbid := Saved(last.ip, last.cookie)] else Replay(lines)
  {
    assert (lines + [last])[..|lines|] == lines;
  }

  /** A replay has exactly the identifiers of the lines, each with what its last line says. */
  lemma {:induction false} ReplayIsLast(lines: seq<Line>, c: CCBID)
    ensures c in Replay(lines) <==> exists i :: 0 <= i < |lines| && LastOf(lines, c, i)
    ensures forall i | 0 <= i < |lines| && LastOf(lines, c, i) ::
              c in Replay(lines) && Replay(lines)[c] == Saved(lines[i].ip, lines[i].cookie)
    decreases |lines|
  {
    if lines != [] {
      var init, n := lines[..|lines| - 1], |lines| - 1;
      ReplayIsLast(init, c);
      if lines[n].Line? && lines[n].ccbid == c {
        assert LastOf(lines, c, n);
      } else {
        forall i | 0 <= i < n
          ensures LastOf(init, c, i) <==> LastOf(lines, c, i)
        {
          assert forall j | 0 <= j < n :: init[j] == lines[j];
        }
      }
    }
  }

  /** Line `i` is the last one with that identifier. */
  ghost predicate LastOf(lines: seq<Line>, c: CCBID, i: nat)
    requires i < |lines|
  {
    lines[i].Line? && lines[i].ccbid == c && forall j | i < j < |lines| :: !(lines[j].Line? && lines[j].ccbid == c)
  }

  /** Registering a new target appends its record. */
  lemma AppendKeeps(records: map<CCBID, Record>, lines: seq<Line>, c: CCBID, r: Record)
    requires Faithful(records, lines)
    ensures Faithful(records[c := r], lines + [RecordLine(c, r)])
  {
    ReplayLast(lines, RecordLine(c, r));
  }

  /***** Pruning: rewriting the file beside the old one *****/

  /** The lines of one pass over the table, in the order of iteration. */
  ghost predicate Listing(records: map<CCBID, Record>, order: seq<CCBID>) {
    && (forall i | 0 <= i < |order| :: order[i] in records)
    && (forall c | c in records :: c in order)
  }

  function LinesOf(records: map<CCBID, Record>, order: seq<CCBID>): seq<Line>
    requires forall i | 0 <= i < |order| :: order[i] in records
  {
    if order == [] then []
    else LinesOf(records, order[..|order| - 1]) + [RecordLine(order[|order| - 1], records[order[|order| - 1]])]
  }

  /** Whatever stood in the file before, replaying a full listing behind it reproduces the table. */
  lemma {:induction false} ListingReplays(records: map<CCBID, Record>, stale: seq<Line>, order: seq<CCBID>)
    requires forall i | 0 <= i < |order| :: order[i] in records
    ensures forall c | c in order ::
              && c in Replay(stale + LinesOf(records, order))
              && Replay(stale + LinesOf(records, order))[c] == Saved(records[c].ip, records[c].cookie)
    decreases |order|
  {
    if order != [] {
      var init, last := order[..|order| - 1], order[|order| - 1];
      ListingReplays(records, stale, init);
      var line := RecordLine(last, records[last]);
      assert stale + LinesOf(records, order) == stale + LinesOf(records, init) + [line];
      ReplayLast(stale + LinesOf(records, init), line);
      assert forall c | c in order :: c in init || c == last;
    }
  }

  /** How a rewrite ended: after so many lines, or complete and then rotated or not. */
  datatype Rewrite = OpenFailed | Aborted(written: nat) | Complete(rotated: bool)

  /** Saving all records: nothing to save removes the file; otherwise the replacement is appended to and rotated in. */
  function SaveAll(disk: Disk, records: map<CCBID, Record>, order: seq<CCBID>, outcome: Rewrite): Disk
    requires forall i | 0 <= i < |order| :: order[i] in records
  {
    if |records| == 0 then disk.(file := None)
    else
      match outcome
      case OpenFailed => disk
      case Aborted(n) =>
        var k := if n < |order| then n else |order|;
        disk.(rewrite := disk.rewrite + LinesOf(records, order[..k]))
      case Complete(rotated) =>
        var written := disk.rewrite + LinesOf(records, order);
        if rotated then Disk(Some(written), []) else disk.(rewrite := written)
  }

  /** However the rewrite ends, the file still reproduces every record, old or new. */
  lemma SaveAllKeeps(disk: Disk, records: map<CCBID, Record>, order: seq<CCBID>, outcome: Rewrite)
    requires Listing(records, order) && Faithful(records, disk.Main())
    ensures Faithful(records, SaveAll(disk, records, order, outcome).Main())
  {
    if |records| != 0 && outcome == Complete(true) {
      ListingReplays(records, disk.rewrite, order);
    }
  }

  lemma {:induction false} LinesListed(records: map<CCBID, Record>, stale: seq<Line>, order: seq<CCBID>, c: CCBID)
    requires forall i | 0 <= i < |order| :: order[i] in records
    ensures c in Replay(stale + LinesOf(records, order)) <==> c in Replay(stale) || c in order
    decreases |order|
  {
    if order == [] {
      assert stale + [] == stale;
    } else {
      var init, last := order[..|order| - 1], order[|order| - 1];
      var line := RecordLine(last, records[last]);
      LinesListed(records, stale, init, c);
      assert stale + LinesOf(records, order) == stale + LinesOf(records, init) + [line];
      ReplayLast(stale + LinesOf(records, init), line);
      assert order == init + [last];
    }
  }

  /** With no record there is no file; a rewrite that is not rotated in leaves the file as it was. */
  lemma SaveAllLeaves(disk: Disk, records: map<CCBID, Record>, order: seq<CCBID>, outcome: Rewrite)
    requires Listing(records, order)
    ensures records == map[] ==> SaveAll(disk, records, order, outcome).file.None?
    ensures records != map[] && outcome != Complete(true) ==> SaveAll(disk, records, order, outcome).file == disk.file
  {
    NotEmpty(records);
  }

  lemma NotEmpty(records: map<CCBID, Record>)
    ensures |records| == 0 <==> records == map[]
  {
    if records != map[] {
      assert records.Keys != {};
    }
  }

  /** A rewrite that is rotated in brings back exactly the records, so that pruned ones are gone, if and only if no earlier rewrite left others behind. */
  lemma SaveAllPrunesIff(disk: Disk, records: map<CCBID, Record>, order: seq<CCBID>)
    requires Listing(records, order) && records != map[]
    ensures var disk' := SaveAll(disk, records, order, Complete(true));
            && disk'.rewrite == []
            && (Replay(disk'.Main()).Keys == records.Keys <==> Replay(disk.rewrite).Keys <= records.Keys)
  {
    hide Replay;
    NotEmpty(records);
    var lines := disk.rewrite + LinesOf(records, order);
    assert SaveAll(disk, records, order, Complete(true)).Main() == lines;
    forall c
      ensures c in Replay(lines) <==> c in Replay(disk.rewrite) || c in records
    {
      LinesListed(records, disk.rewrite, order, c);
    }
  }

  /** For instance one line left behind brings its record back. */
  lemma LeftoverReturns(c: CCBID, d: CCBID, r: Record, cookie: CCBID)
    requires c != d
    ensures var disk := SaveAll(Disk(None, [Line("", c, cookie)]), map[d := r], [d], Complete(true));
            Listing(map[d := r], [d]) && c in Replay(disk.Main())
  {
    var records: map<CCBID, Record>, stale := map[d := r], [Line("", c, cookie)];
    assert d in records && records != map[];
    NotEmpty(records);
    LinesListed(records, stale, [d], c);
    ReplayLast([], stale[0]);
    assert [] + stale == stale;
  }

  /** A sweep drops records and changes their time stamps, neither of which the file shows. */
  lemma SweepStaysFaithful(s: State, lines: seq<Line>, now: int, interval: int)
    requires Faithful(s.records, lines)
    ensures Faithful(Sweep(s, now, interval).records, lines)
  {
  }

  /***** Start-up *****/

  /** The identifier counter while lines are read. */
  function LoadNext(lines: seq<Line>, next: CCBID): CCBID {
    if lines == [] then next
    else
      var n := LoadNext(lines[..|lines| - 1], next);
      match lines[|lines| - 1]
      case Line(_, c, _) => if c > n then Succ(c) else n
      case Invalid => n
  }

  function Plus100(n: CCBID): CCBID {
    (n + 100) % ID_SPACE
  }

  /** Start-up: the records of the file, marked alive now, and the counter moved past them; without a file, nothing. */
  function Load(disk: Disk, now: int): State {
    if disk.file.None? then Initial
    else
      var saved := Replay(disk.Main());
      Initial.(records := map c | c in saved :: Record(saved[c].ip, saved[c].cookie, now),
               nextCcbid := Plus100(LoadNext(disk.Main(), Initial.nextCcbid)))
  }

  /** No identifier in the file makes the counter wrap. */
  predicate NoWrap(lines: seq<Line>) {
    forall i | 0 <= i < |lines| && lines[i].Line? :: lines[i].ccbid + 101 < ID_SPACE
  }

  lemma {:induction false} LoadNextAbove(lines: seq<Line>, next: CCBID)
    requires NoWrap(lines) && next + 100 < ID_SPACE
    ensures forall i | 0 <= i < |lines| && lines[i].Line? :: lines[i].ccbid <= LoadNext(lines, next)
    ensures next <= LoadNext(lines, next) && LoadNext(lines, next) + 100 < ID_SPACE
    decreases |lines|
  {
    if lines != [] {
      LoadNextAbove(lines[..|lines| - 1], next);
    }
  }

  lemma {:induction false} ReplayedIsListed(lines: seq<Line>, c: CCBID)
    requires c in Replay(lines)
    ensures exists i :: 0 <= i < |lines| && lines[i].Line? && lines[i].ccbid == c
    decreases |lines|
  {
    var last := lines[|lines| - 1];
    if !(last.Line? && last.ccbid == c) {
      ReplayedIsListed(lines[..|lines| - 1], c);
      var i :| 0 <= i < |lines| - 1 && lines[..|lines| - 1][i].Line? && lines[..|lines| - 1][i].ccbid == c;
      assert lines[i].ccbid == c;
    } else {
      assert lines[|lines| - 1].ccbid == c;
    }
  }

  /**
    A restart brings back every record, in a consistent state, and hands out next an identifier at
    least 100 above all loaded ones: up to 99 lost registrations are not given away again.
   */
  lemma LoadRestores(records: map<CCBID, Record>, disk: Disk, now: int)
    requires Faithful(records, disk.Main())
    ensures var s := Load(disk, now);
            && Invariant(s) && Faithful(s.records, disk.Main())
            && (forall c | c in records ::
                  c in s.records && s.records[c] == records[c].(lastAlive := now))
            && (NoWrap(disk.Main()) ==> forall c | c in s.records :: c + 100 <= s.nextCcbid)
  {
    var s := Load(disk, now);
    if NoWrap(disk.Main()) {
      LoadNextAbove(disk.Main(), Initial.nextCcbid);
      forall c | c in s.records
        ensures c + 100 <= s.nextCcbid
      {
        ReplayedIsListed(disk.Main(), c);
      }
    }
  }

  /** What is loaded is what the file says: each identifier once, with its last line, and marked alive; nothing without a file. */
  lemma LoadIsFile(disk: Disk, now: int, c: CCBID)
    ensures disk.file.None? ==> Load(disk, now) == Initial
    ensures disk.file.Some? ==>
              (c in Load(disk, now).records <==> exists i :: 0 <= i < |disk.Main()| && LastOf(disk.Main(), c, i))
    ensures forall i | disk.file.Some? && 0 <= i < |disk.Main()| && LastOf(disk.Main(), c, i) ::
              var line := disk.Main()[i];
              c in Load(disk, now).records && Load(disk, now).records[c] == Record(line.ip, line.cookie, now)
  {
    ReplayIsLast(disk.Main(), c);
  }

  /** The next identifier is 100 above the first one, or 101 above one that the file has. */
  lemma {:induction false} LoadNextIs(lines: seq<Line>)
    requires NoWrap(lines)
    ensures var next := Plus100(LoadNext(lines, Initial.nextCcbid));
            next == 101 || exists i :: 0 <= i < |lines| && lines[i].Line? && next == lines[i].ccbid + 101
    decreases |lines|
  {
    if lines != [] {
      var init, n := lines[..|lines| - 1], |lines| - 1;
      LoadNextIs(init);
      if LoadNext(lines, Initial.nextCcbid) == LoadNext(init, Initial.nextCcbid) {
        if Plus100(LoadNext(init, Initial.nextCcbid)) != 101 {
          var i :| 0 <= i < n && init[i].Line? && Plus100(LoadNext(init, Initial.nextCcbid)) == init[i].ccbid + 101;
          assert lines[i] == init[i];
        }
      } else {
        assert lines[n].Line?;
      }
    }
  }

  /** Two lines with consecutive identifiers move the counter behind the first one only: it is the 100 that keep it clear of the second. */
  lemma LoadNextLags(ip: string, c: CCBID, cookie: CCBID, next: CCBID)
    requires next < c && c + 1 < ID_SPACE
    ensures LoadNext([Line(ip, c, cookie), Line(ip, c + 1, cookie)], next) == c + 1
  {
    var lines := [Line(ip, c, cookie), Line(ip, c + 1, cookie)];
    assert lines[..1] == [lines[0]] && [lines[0]][..0] == [];
    assert LoadNext([lines[0]], next) == c + 1;
  }
}
