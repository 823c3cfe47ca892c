/** The broker's server object and its target objects; every handler is one step of the tables. */
module CcbServer {
  import opened Options
  import opened CcbTables
  import Inv = CcbInvariants
  import opened CcbReconnectFile

  /** The server's state associated with a registered daemon. */
  class CCBTarget {
    const sock: Sock
    var ccbid: CCBID
    var pending: int
    var registered: bool
    var requests: map<CCBID, Request>

    constructor (sock: Sock)
      ensures this.sock == sock && View() == NewTarget(sock)
    {
      this.sock := sock;
      ccbid := 0;
      pending := 0;
      registered := false;
      requests := map[];
    }

    function View(): Target
      reads this
    {
      Target(sock, pending, registered, requests)
    }

    /** A request was sent; its result is awaited on a registered socket. */
    method AddRequest(r: Request)
      requires r.id !in requests
      modifies this
      ensures View() == old(View()).(pending := old(pending) + 1, registered := true,
                                     requests := old(requests)[r.id := r])
      ensures ccbid == old(ccbid)
    {
      pending := pending + 1;
      if !registered {
        registered := true;
      }
      requests := requests[r.id := r];
    }

    method RemoveRequest(id: CCBID)
      modifies this`requests
      ensures requests == old(requests) - {id}
    {
      requests := requests - {id};
    }

    method DecPendingRequestResults()
      modifies this`pending, this`registered
      ensures View() == GotResult(old(View()))
    {
      pending := pending - 1;
      if pending <= 0 {
        if registered {
          registered := false;
        }
      }
    }
  }

  ghost function Views(ts: map<CCBID, CCBTarget>): (vs: map<CCBID, Target>)
    reads ts.Values
    ensures vs.Keys == ts.Keys
  {
    map c | c in ts :: ts[c].View()
  }

  lemma ViewsInsert(ts: map<CCBID, CCBTarget>, c: CCBID, t: CCBTarget)
    ensures Views(ts[c := t]) == Views(ts)[c := t.View()]
  {
  }

  lemma ViewAt(ts: map<CCBID, CCBTarget>, c: CCBID)
    requires c in ts
    ensures Views(ts)[c] == ts[c].View()
  {
  }

  lemma ViewsRemove(ts: map<CCBID, CCBTarget>, c: CCBID)
    ensures Views(ts - {c}) == Views(ts) - {c}
  {
  }

  class CCBServer {
    var targets: map<CCBID, CCBTarget>
    var requests: map<CCBID, Request>
    var records: map<CCBID, Record>
    var nextCcbid: CCBID
    var nextRequestId: CCBID
    var lastSweep: int
    var sweepInterval: int
    var disk: Disk
    ghost var replies: seq<Reply>

    /** Each target object is filed under its own identifier, so no two entries share an object. */
    ghost predicate Valid()
      reads this, targets.Values
    {
      forall c | c in targets :: targets[c].ccbid == c
    }

    ghost function View(): State
      reads this, targets.Values
    {
      State(Views(targets), requests, records, nextCcbid, nextRequestId, replies)
    }

    constructor (disk: Disk, now: int, sweepInterval: int)
      ensures Valid() && View() == Initial && this.disk == disk
      ensures lastSweep == now && this.sweepInterval == sweepInterval
    {
      targets, requests, records := map[], map[], map[];
      nextCcbid, nextRequestId := 1, 1;
      lastSweep := now;
      this.sweepInterval := sweepInterval;
      this.disk := disk;
      replies := [];
    }

    /** Count up from the next request identifier, wrapping around, to one that is not in use. */
    method FreeRequestId() returns (id: CCBID)
      requires |requests| < ID_SPACE
      ensures id == NextFree(nextRequestId, requests.Keys) && id !in requests
    {
      ghost var want := NextFree(nextRequestId, requests.Keys);
      id := nextRequestId;
      while id in requests
        invariant FirstFree(id, requests.Keys, want)
        decreases Distance(id, want)
      {
        SkipUsed(id, requests.Keys, want);
        id := Succ(id);
      }
      FirstFreeUnique(id, requests.Keys, id, want);
    }

    method FileWith(target: CCBTarget, r: Request)
      requires Valid() && target.ccbid in targets && targets[target.ccbid] == target && r.id !in target.requests
      modifies target
      ensures Valid() && target.ccbid == old(target.ccbid)
      ensures Views(targets) == old(Views(targets))[target.ccbid := old(target.View()).(
                pending := old(target.pending) + 1, registered := true, requests := old(target.requests)[r.id := r])]
    {
      target.AddRequest(r);
    }

    method DropFrom(c: CCBID, id: CCBID)
      requires Valid() && c in targets
      modifies targets[c]
      ensures Valid()
      ensures Views(targets) == old(Views(targets))[c := old(targets[c].View()).(requests := old(targets[c].requests) - {id})]
    {
      targets[c].RemoveRequest(id);
    }

    /**
      File a request under a new identifier, globally and with its target. That the tables index each other
      is what makes the target's table take it.
     */
    method AddRequest(sock: Sock, target: CCBTarget, addr: string, connectId: string) returns (id: CCBID)
      requires Valid() && target.ccbid in targets && targets[target.ccbid] == target
      requires Indexed(View()) && |requests| < ID_SPACE
      modifies this, target
      ensures Valid() && targets == old(targets) && target.ccbid == old(target.ccbid)
      ensures id == NextFree(old(nextRequestId), old(requests).Keys)
      ensures View() == CcbTables.AddRequest(old(View()), sock, target.ccbid, addr, connectId) && disk == old(disk)
      ensures lastSweep == old(lastSweep) && sweepInterval == old(sweepInterval)
    {
      hide FirstFree, NextFree, Views, Indexed;
      ViewAt(targets, target.ccbid);
      id := FreeRequestId();
      NotFiled(View(), target.ccbid, id);
      var r := Request(id, sock, target.ccbid, addr, connectId);
      FileWith(target, r);
      nextRequestId := Succ(id);
      requests := requests[id := r];
    }

    method RemoveRequest(id: CCBID)
      requires Valid() && id in requests
      modifies this, targets.Values
      ensures Valid() && targets == old(targets)
      ensures View() == CcbTables.RemoveRequest(old(View()), id) && disk == old(disk)
      ensures lastSweep == old(lastSweep) && sweepInterval == old(sweepInterval)
    {
      hide Views;
      var c := requests[id].target;
      if c in targets {
        ViewAt(targets, c);
        DropFrom(c, id);
      }
      requests := requests - {id};
    }

    /** Reply to the client and forget the request. */
    method RequestFinished(id: CCBID, success: bool, hungUp: bool)
      requires Valid() && id in requests
      modifies this, targets.Values
      ensures Valid() && targets == old(targets)
      ensures View() == FinishRequest(old(View()), id, success, hungUp) && disk == old(disk)
      ensures lastSweep == old(lastSweep) && sweepInterval == old(sweepInterval)
    {
      if !(success && hungUp) {
        replies := replies + [Reply(requests[id].sock, success)];
      }
      RemoveRequest(id);
    }

    /**
      Drain the target's table one request at a time. The drain ends because each round finds its
      request in the global table and takes it out of this one.
     */
    method DrainTarget(target: CCBTarget)
      requires Valid() && target.ccbid in targets && targets[target.ccbid] == target
      requires Indexed(View())
      modifies this, targets.Values
      ensures Valid() && targets == old(targets) && target.ccbid == old(target.ccbid)
      ensures View() == Drained(old(View()), target.ccbid, old(target.requests).Keys)
      ensures disk == old(disk) && lastSweep == old(lastSweep) && sweepInterval == old(sweepInterval)
    {
      ghost var before := View();
      ghost var c := target.ccbid;
      ghost var drained: set<CCBID> := {};
      assert before.targets[c] == target.View();
      DrainedNone(before, c);
      hide Indexed, Drained, CcbTables.RemoveRequest;
      while target.requests != map[]
        invariant Valid() && targets == old(targets) && target.ccbid == c
        invariant drained <= before.targets[c].requests.Keys
        invariant View() == Drained(before, c, drained) && disk == old(disk)
        invariant lastSweep == old(lastSweep) && sweepInterval == old(sweepInterval)
        decreases |target.requests|
      {
        var id :| id in target.requests;
        ghost var was := target.requests;
        assert View().targets[c] == target.View();
        DrainedHas(before, c, drained, id);
        RemoveRequest(id);
        DrainOne(before, c, drained, id);
        assert View().targets[c] == target.View();
        DrainedTable(before, c, drained + {id});
        DrainedTable(before, c, drained);
        Shrinks(was, before.targets[c].requests, drained, id);
        drained := drained + {id};
      }
      assert View().targets[c] == target.View();
      DrainedTable(before, c, drained);
      assert (before.targets[c].requests - drained).Keys == {} && drained == before.targets[c].requests.Keys;
    }

    /** Hang up on the target's requests and forget the target. */
    method RemoveTarget(target: CCBTarget)
      requires Valid() && target.ccbid in targets && targets[target.ccbid] == target
      requires Indexed(View())
      modifies this, targets.Values
      ensures Valid() && targets == old(targets) - {old(target.ccbid)}
      ensures View() == CcbTables.RemoveTarget(old(View()), old(target.ccbid))
      ensures disk == old(disk) && lastSweep == old(lastSweep) && sweepInterval == old(sweepInterval)
    {
      hide Views, Indexed;
      ViewAt(targets, target.ccbid);
      DrainTarget(target);
      ViewsRemove(targets, target.ccbid);
      DrainedRest(old(View()), target.ccbid, old(target.requests).Keys);
      targets := targets - {target.ccbid};
    }

    /** Count up to an identifier that is neither live nor reserved by a record. */
    method FreeCcbid() returns (c: CCBID)
      requires |Used(View())| < ID_SPACE
      ensures c == NextFree(nextCcbid, Used(View())) && c !in targets && c !in records
    {
      ghost var used := Used(View());
      ghost var want := NextFree(nextCcbid, used);
      c := nextCcbid;
      while c in records || c in targets
        invariant FirstFree(c, used, want)
        decreases Distance(c, want)
      {
        SkipUsed(c, used, want);
        c := Succ(c);
      }
      FirstFreeUnique(c, used, c, want);
    }

    /** File a target object under an identifier that no live target has. */
    method Install(target: CCBTarget, c: CCBID)
      requires Valid() && c !in targets && target !in targets.Values && target.View() == NewTarget(target.sock)
      modifies this`targets, target`ccbid
      ensures Valid() && target.ccbid == c && targets == old(targets)[c := target]
      ensures View() == old(View()).(targets := old(View()).targets[c := NewTarget(target.sock)])
    {
      hide Views;
      target.ccbid := c;
      assert Views(targets) == old(Views(targets));
      ViewsInsert(targets, c, target);
      targets := targets[c := target];
    }

    /** Register a new target under a fresh identifier with a new record, also in the file. */
    method AddTarget(target: CCBTarget, ip: string, cookie: CCBID, now: int)
      requires Valid() && target !in targets.Values && target.View() == NewTarget(target.sock)
      requires |Used(View())| < ID_SPACE
      modifies this, target`ccbid
      ensures Valid() && targets == old(targets)[target.ccbid := target]
      ensures target.ccbid == NextFree(old(nextCcbid), Used(old(View())))
      ensures View() == CcbTables.AddTarget(old(View()), target.sock, ip, cookie, now)
      ensures disk == old(disk).Append(Line(ip, target.ccbid, cookie))
    {
      hide Views, FirstFree, NextFree, Used;
      var c := FreeCcbid();
      Install(target, c);
      nextCcbid := Succ(c);
      records := records[c := Record(ip, cookie, now)];
      disk := disk.Append(RecordLine(c, records[c]));
    }

    /** Take over a recorded identifier, hanging up on whatever connection still held it. */
    method ReconnectTarget(target: CCBTarget, ip: string, cookie: CCBID, now: int) returns (ok: bool)
      requires Valid() && Indexed(View()) && target !in targets.Values && target.View() == NewTarget(target.sock)
      modifies this, targets.Values
      ensures Valid() && ok == CanReconnect(old(View()), target.ccbid, ip, cookie)
      ensures target.ccbid == old(target.ccbid) && target.View() == NewTarget(target.sock)
      ensures targets == if ok then old(targets)[target.ccbid := target] else old(targets)
      ensures View() == if ok then Reconnect(old(View()), target.ccbid, target.sock, now) else old(View())
      ensures disk == old(disk) && lastSweep == old(lastSweep) && sweepInterval == old(sweepInterval)
    {
      hide Views;
      var c := target.ccbid;
      if c !in records || records[c].ip != ip || records[c].cookie != cookie {
        return false;
      }
      records := records[c := records[c].(lastAlive := now)];
      assert Indexed(View());
      hide Indexed;
      if c in targets {
        RemoveTarget(targets[c]);
      }
      assert c !in targets;
      ViewsInsert(targets, c, target);
      targets := targets[c := target];
      ok := true;
    }

    /** Register a target object, anew or under the identifier its daemon claims. */
    method Admit(target: CCBTarget, ip: string, claim: Claim, cookie: CCBID, now: int)
      requires Valid() && Indexed(View()) && |Used(View())| < ID_SPACE
      requires target !in targets.Values && target.View() == NewTarget(target.sock)
      modifies this, targets.Values, target`ccbid
      ensures Valid() && target.ccbid in targets && targets[target.ccbid] == target
      ensures forall t | t in targets.Values :: t in old(targets.Values) || t == target
      ensures (View(), target.ccbid) == Registered(old(View()), target.sock, ip, claim, cookie, now)
      ensures disk == if claim.Claim? && CanReconnect(old(View()), claim.ccbid, ip, claim.cookie) then old(disk)
                      else old(disk).Append(Line(ip, target.ccbid, cookie))
    {
      hide Views, FirstFree, NextFree, Used, Reconnect, CcbTables.AddTarget, Indexed;
      if claim.Claim? {
        target.ccbid := claim.ccbid;
        assert View() == old(View());
        var reconnected := ReconnectTarget(target, ip, claim.cookie, now);
        if reconnected {
          return;
        }
      }
      AddTarget(target, ip, cookie, now);
    }

    /** A daemon registers; a reply that cannot be sent undoes the registration. */
    method HandleRegistration(sock: Sock, ip: string, claim: Claim, cookie: CCBID, now: int, replyOk: bool)
      requires Valid() && Invariant(View()) && |Used(View())| < ID_SPACE
      modifies this, targets.Values
      ensures Valid() && Invariant(View())
      ensures View() == CcbTables.HandleRegistration(old(View()), sock, ip, claim, cookie, now, replyOk)
      ensures disk == if claim.Claim? && CanReconnect(old(View()), claim.ccbid, ip, claim.cookie) then old(disk)
                      else old(disk).Append(Line(ip, NextFree(old(nextCcbid), Used(old(View()))), cookie))
    {
      hide Views, FirstFree, NextFree, Used, Reconnect, CcbTables.AddTarget, CcbTables.RemoveTarget, Indexed, Recorded, AnsweredOnce;
      Inv.RegistrationKeeps(View(), sock, ip, claim, cookie, now, true);
      Inv.RegistrationKeeps(View(), sock, ip, claim, cookie, now, replyOk);
      var target := new CCBTarget(sock);
      Admit(target, ip, claim, cookie, now);
      if !replyOk {
        RemoveTarget(target);
      }
    }

    /** A client asks for a target; the request is forwarded or answered at once. */
    method HandleRequest(sock: Sock, ccbid: CCBID, addr: string, connectId: string, forwardOk: bool)
      requires Valid() && Invariant(View()) && FreshSock(View(), sock) && |requests| < ID_SPACE
      modifies this, targets.Values
      ensures Valid() && Invariant(View()) && targets == old(targets)
      ensures View() == CcbTables.HandleRequest(old(View()), sock, ccbid, addr, connectId, forwardOk)
      ensures disk == old(disk) && lastSweep == old(lastSweep) && sweepInterval == old(sweepInterval)
    {
      hide Views, FirstFree, NextFree, Invariant, FreshSock, CcbTables.AddRequest, FinishRequest;
      Inv.HandleRequestKeeps(View(), sock, ccbid, addr, connectId, forwardOk);
      IndexedOf(View());
      hide Indexed;
      if ccbid !in targets {
        replies := replies + [Reply(sock, false)];
      } else {
        var id := AddRequest(sock, targets[ccbid], addr, connectId);
        if !forwardOk {
          AddedIsPending(old(View()), sock, ccbid, addr, connectId);
          RequestFinished(id, false, false);
        }
      }
    }

    /** A target's socket is readable: a disconnect, a heartbeat, or the result of a request. */
    method HandleRequestResultsMsg(target: CCBTarget, msg: TargetMsg)
      requires Valid() && Invariant(View()) && target.ccbid in targets && targets[target.ccbid] == target
      modifies this, targets.Values
      ensures Valid() && Invariant(View()) && targets.Keys <= old(targets).Keys
      ensures targets.Values <= old(targets.Values) && lastSweep == old(lastSweep) && sweepInterval == old(sweepInterval) && disk == old(disk)
      ensures View() == HandleResult(old(View()), old(target.ccbid), msg)
    {
      Inv.HandleResultKeeps(View(), target.ccbid, msg);
      if msg.Result? {
        HandleResultOf(target, msg);
      } else if !(msg.Alive? && msg.replyOk) {
        RemoveTarget(target);
      }
    }

    method HandleResultOf(target: CCBTarget, msg: TargetMsg)
      requires Valid() && Invariant(View()) && target.ccbid in targets && targets[target.ccbid] == target
      requires msg.Result?
      modifies this, targets.Values
      ensures Valid() && targets.Keys <= old(targets).Keys && targets.Values <= old(targets.Values)
      ensures lastSweep == old(lastSweep) && sweepInterval == old(sweepInterval) && disk == old(disk)
      ensures View() == HandleResult(old(View()), old(target.ccbid), msg)
    {
      Inv.GotResultKeeps(View(), target.ccbid);
      hide Invariant, GotResult, CcbTables.RemoveTarget, CcbTables.RemoveRequest, FinishRequest;
      CountResult(target);
      var id := msg.requestId;
      if id in requests {
        if msg.clientGone {
          RemoveRequest(id);
        } else if requests[id].connectId != msg.connectId {
          IndexedOf(View());
          RemoveTarget(target);
        } else {
          RequestFinished(id, msg.success, msg.hungUp);
        }
      }
    }

    method CountResult(target: CCBTarget)
      requires Valid() && target.ccbid in targets && targets[target.ccbid] == target
      modifies target
      ensures Valid() && target.ccbid == old(target.ccbid)
      ensures View() == old(View()).(targets := old(View()).targets[target.ccbid := GotResult(old(View()).targets[target.ccbid])])
    {
      target.DecPendingRequestResults();
    }

    /** The client's connection closed. */
    method HandleRequestDisconnect(id: CCBID)
      requires Valid() && Invariant(View()) && id in requests
      modifies this, targets.Values
      ensures Valid() && Invariant(View())
      ensures View() == CcbTables.RemoveRequest(old(View()), id)
      ensures disk == old(disk) && lastSweep == old(lastSweep) && sweepInterval == old(sweepInterval)
    {
      Inv.RemoveRequestKeeps(View(), id);
      RemoveRequest(id);
    }

    /** What polling has done so far, with the targets in `todo` still to come. */
    ghost predicate Polled(ready: map<CCBID, TargetMsg>, before: State, events: seq<Inv.Event>, todo: set<CCBID>)
      reads this, targets.Values
    {
      && Inv.Reaches(before, events, View())
      && (forall e | e in events :: e.FromTarget? && e.ccbid in ready && e.msg == ready[e.ccbid] && e.ccbid !in todo)
      && (forall i, j | 0 <= i < j < |events| :: events[i] != events[j])
      && (forall c | c in before.targets && c in ready :: c in todo || Inv.FromTarget(c, ready[c]) in events)
    }

    /** Every target that is readable is handled, once, whatever the others' messages did. */
    method PollTargets(ready: map<CCBID, TargetMsg>) returns (ghost events: seq<Inv.Event>)
      requires Valid() && Invariant(View())
      modifies this, targets.Values
      ensures Valid() && Invariant(View()) && Polled(ready, old(View()), events, {})
      ensures lastSweep == old(lastSweep) && sweepInterval == old(sweepInterval) && disk == old(disk)
    {
      hide Invariant, Views, Inv.Reaches;
      Inv.ReachesSelf(View());
      events := [];
      var todo := targets.Keys;
      while todo != {}
        invariant Valid() && Invariant(View()) && targets.Values <= old(targets.Values) && todo <= targets.Keys
        invariant Polled(ready, old(View()), events, todo)
        invariant lastSweep == old(lastSweep) && sweepInterval == old(sweepInterval) && disk == old(disk)
        decreases |todo|
      {
        var c :| c in todo;
        if c in ready {
          events := PollOne(c, ready, old(View()), events, todo);
        }
        todo := todo - {c};
      }
    }

    method PollOne(c: CCBID, ready: map<CCBID, TargetMsg>, ghost before: State, ghost events: seq<Inv.Event>, ghost todo: set<CCBID>)
      returns (ghost events': seq<Inv.Event>)
      requires Valid() && Invariant(View()) && c in targets && c in ready && c in todo && todo <= targets.Keys
      requires Polled(ready, before, events, todo)
      modifies this, targets.Values
      ensures Valid() && Invariant(View()) && targets.Values <= old(targets.Values) && todo - {c} <= targets.Keys
      ensures Polled(ready, before, events', todo - {c})
      ensures lastSweep == old(lastSweep) && sweepInterval == old(sweepInterval) && disk == old(disk)
    {
      hide Invariant, Views, HandleResult, Inv.Reaches;
      ghost var e := Inv.FromTarget(c, ready[c]);
      Inv.ReachesOneMore(before, events, View(), e);
      OthersStay(View(), c, ready[c]);
      HandleRequestResultsMsg(targets[c], ready[c]);
      events' := events + [e];
    }

    /**
      Poll every target's socket once, then sweep. What happens is a run of messages, one from each readable
      target, to a state `polled`, and from there one sweep if it is due.
     */
    method PollSockets(ready: map<CCBID, TargetMsg>, now: int, outcome: Rewrite)
      returns (ghost events: seq<Inv.Event>, ghost polled: State, ghost order: seq<CCBID>)
      requires Valid() && Invariant(View())
      modifies this, targets.Values
      ensures Valid() && Invariant(polled) && Inv.Reaches(old(View()), events, polled)
      ensures forall e | e in events :: e.FromTarget? && e.ccbid in ready && e.msg == ready[e.ccbid]
      ensures forall i, j | 0 <= i < j < |events| :: events[i] != events[j]
      ensures forall c | c in old(targets) && c in ready :: Inv.FromTarget(c, ready[c]) in events
      ensures View() == if old(lastSweep) + sweepInterval > now then polled else Sweep(polled, now, sweepInterval)
      ensures if old(lastSweep) + sweepInterval > now then disk == old(disk)
              else Rewritten(old(disk), polled.records, order, outcome)
      ensures 0 <= sweepInterval ==> Invariant(View())
    {
      hide Invariant, Views, Inv.Reaches, Sweep, Rewritten;
      events := PollTargets(ready);
      polled := View();
      order := SweepReconnectInfo(now, outcome);
    }

    /** Mark the records of all live targets. */
    method MarkAlive(now: int)
      requires targets.Keys <= records.Keys
      modifies `records
      ensures records.Keys == old(records).Keys
      ensures forall c | c in records ::
                records[c] == if c in targets then old(records)[c].(lastAlive := now) else old(records)[c]
    {
      var todo := targets.Keys;
      while todo != {}
        invariant todo <= targets.Keys <= records.Keys && records.Keys == old(records).Keys
        invariant forall c | c in records ::
                    records[c] == if c in targets && c !in todo then old(records)[c].(lastAlive := now) else old(records)[c]
        decreases |todo|
      {
        var c :| c in todo;
        records := records[c := records[c].(lastAlive := now)];
        todo := todo - {c};
      }
    }

    /** Drop the records that nobody has claimed for more than two intervals. */
    method DropExpired(now: int) returns (removed: nat)
      modifies `records
      ensures records == map c | c in old(records) && !(now - old(records)[c].lastAlive > 2 * sweepInterval) :: old(records)[c]
      ensures removed == 0 <==> records.Keys == old(records).Keys
    {
      var todo := records.Keys;
      removed := 0;
      while todo != {}
        invariant todo <= records.Keys <= old(records).Keys
        invariant forall c | c in old(records) ::
                    c in records <==> c in todo || !(now - old(records)[c].lastAlive > 2 * sweepInterval)
        invariant forall c | c in records :: records[c] == old(records)[c]
        invariant removed == 0 <==> records.Keys == old(records).Keys
        decreases |todo|
      {
        var c :| c in todo;
        if now - records[c].lastAlive > 2 * sweepInterval {
          records := records - {c};
          removed := removed + 1;
        }
        todo := todo - {c};
      }
    }

    /** One pass over the table of records, in table order. */
    method ListRecords() returns (lines: seq<Line>, ghost order: seq<CCBID>)
      ensures Listing(records, order) && lines == LinesOf(records, order)
    {
      order, lines := [], [];
      var todo := records.Keys;
      while todo != {}
        invariant todo <= records.Keys
        invariant forall i | 0 <= i < |order| :: order[i] in records
        invariant forall c | c in records :: c in todo || c in order
        invariant lines == LinesOf(records, order)
        decreases |todo|
      {
        var c :| c in todo;
        todo := todo - {c};
        LinesOfOneMore(records, order, c);
        order := order + [c];
        lines := lines + [RecordLine(c, records[c])];
      }
    }

    /** Write all records to the replacement file, in table order, and rotate it in. */
    method SaveAllReconnectInfo(outcome: Rewrite) returns (ghost order: seq<CCBID>)
      modifies `disk
      ensures Listing(records, order) && disk == SaveAll(old(disk), records, order, outcome)
    {
      hide LinesOf;
      var lines;
      lines, order := ListRecords();
      LinesOfPrefix(records, order, if outcome.Aborted? && outcome.written < |order| then outcome.written else |order|);
      if |records| == 0 {
        disk := disk.(file := None);
      } else if outcome.Aborted? {
        var k := if outcome.written < |lines| then outcome.written else |lines|;
        disk := disk.(rewrite := disk.rewrite + lines[..k]);
      } else if outcome.Complete? && outcome.rotated {
        disk := Disk(Some(disk.rewrite + lines), []);
      } else if outcome.Complete? {
        disk := disk.(rewrite := disk.rewrite + lines);
      }
    }

    /** The periodic sweep; it does nothing before the interval has passed. */
    method SweepReconnectInfo(now: int, outcome: Rewrite) returns (ghost order: seq<CCBID>)
      requires Valid() && Invariant(View())
      modifies `lastSweep, `records, `disk
      ensures Valid() && (Invariant(View()) <==> 0 <= sweepInterval || old(lastSweep) + sweepInterval > now || targets == map[])
      ensures old(lastSweep) + sweepInterval > now ==> View() == old(View()) && disk == old(disk)
      ensures old(lastSweep) + sweepInterval <= now ==>
                && lastSweep == now && View() == Sweep(old(View()), now, sweepInterval)
                && Rewritten(old(disk), old(records), order, outcome)
    {
      hide Views, Invariant, Sweep, Rewritten;
      order := [];
      if lastSweep + sweepInterval > now {
        return;
      }
      Inv.SweepKeepsIff(View(), now, sweepInterval);
      IndexedOf(View());
      lastSweep := now;
      order := SweepNow(now, outcome);
    }

    /** The file is rewritten exactly when records were dropped. */
    ghost predicate Rewritten(before: Disk, had: map<CCBID, Record>, order: seq<CCBID>, outcome: Rewrite)
      reads this
    {
      if records.Keys == had.Keys then disk == before
      else Listing(records, order) && disk == SaveAll(before, records, order, outcome)
    }

    method SweepNow(now: int, outcome: Rewrite) returns (ghost order: seq<CCBID>)
      requires targets.Keys <= records.Keys
      modifies `records, `disk
      ensures View() == Sweep(old(View()), now, sweepInterval)
      ensures Rewritten(old(disk), old(records), order, outcome)
    {
      hide Views, Sweep, SaveAll, Listing;
      order := [];
      var removed := Prune(now);
      if removed > 0 {
        order := SaveAllReconnectInfo(outcome);
      }
    }

    /** Both passes of the sweep over the tables. */
    method Prune(now: int) returns (removed: nat)
      requires targets.Keys <= records.Keys
      modifies `records
      ensures View() == Sweep(old(View()), now, sweepInterval)
      ensures removed == 0 <==> records.Keys == old(records).Keys
    {
      hide Views;
      MarkAlive(now);
      removed := DropExpired(now);
      assert records == Sweep(old(View()), now, sweepInterval).records;
    }

    /** Start-up: replay the file and move the identifier counter past what was handed out. */
    method LoadReconnectInfo(now: int)
      requires Valid() && View() == Initial
      modifies this
      ensures Valid() && View() == Load(disk, now) && disk == old(disk)
      ensures lastSweep == old(lastSweep) && sweepInterval == old(sweepInterval)
    {
      if disk.file.None? {
        return;
      }
      var lines := disk.file.value;
      var i := 0;
      while i < |lines|
        invariant i <= |lines| && disk == old(disk) && targets == map[] && requests == map[]
        invariant nextRequestId == Initial.nextRequestId && replies == []
        invariant lastSweep == old(lastSweep) && sweepInterval == old(sweepInterval)
        invariant nextCcbid == LoadNext(lines[..i], Initial.nextCcbid)
        invariant records.Keys == Replay(lines[..i]).Keys
        invariant forall c | c in records ::
                    records[c] == Record(Replay(lines[..i])[c].ip, Replay(lines[..i])[c].cookie, now)
      {
        assert lines[..i + 1][..i] == lines[..i];
        var line := lines[i];
        if line.Line? {
          if line.ccbid > nextCcbid {
            nextCcbid := Succ(line.ccbid);
          }
          records := records[line.ccbid := Record(line.ip, line.cookie, now)];
        }
        i := i + 1;
      }
      assert lines[..|lines|] == lines;
      nextCcbid := Plus100(nextCcbid);
    }
  }

  lemma LinesOfOneMore(records: map<CCBID, Record>, order: seq<CCBID>, c: CCBID)
    requires c in records && forall i | 0 <= i < |order| :: order[i] in records
    ensures LinesOf(records, order + [c]) == LinesOf(records, order) + [RecordLine(c, records[c])]
  {
    assert (order + [c])[..|order|] == order;
  }

  /** A prefix of the listing is the listing of a prefix. */
  lemma {:induction false} LinesOfPrefix(records: map<CCBID, Record>, order: seq<CCBID>, k: nat)
    requires forall i | 0 <= i < |order| :: order[i] in records
    requires k <= |order|
    ensures |LinesOf(records, order)| == |order|
    ensures LinesOf(records, order)[..k] == LinesOf(records, order[..k])
    decreases |order|
  {
    if k == |order| {
      assert order[..k] == order;
      if order != [] {
        LinesOfPrefix(records, order[..|order| - 1], k - 1);
      }
      assert LinesOf(records, order)[..k] == LinesOf(records, order);
    } else {
      var init := order[..|order| - 1];
      LinesOfPrefix(records, init, k);
      assert order[..k] == init[..k];
      assert LinesOf(records, order)[..k] == LinesOf(records, init)[..k];
    }
  }

  /** A target's message removes no other target. */
  lemma OthersStay(s: State, c: CCBID, msg: TargetMsg)
    requires c in s.targets
    ensures s.targets.Keys - {c} <= HandleResult(s, c, msg).targets.Keys
  {
  }

  /** An identifier that the global table does not have no target's table has. */
  lemma NotFiled(s: State, c: CCBID, id: CCBID)
    requires Indexed(s) && c in s.targets && id !in s.requests
    ensures id !in s.targets[c].requests
  {
  }

  lemma IndexedOf(s: State)
    requires Invariant(s)
    ensures Indexed(s) && s.targets.Keys <= s.records.Keys
  {
  }

  lemma AddedIsPending(s: State, sock: Sock, target: CCBID, addr: string, connectId: string)
    requires target in s.targets && |s.requests| < ID_SPACE
    ensures NextFree(s.nextRequestId, s.requests.Keys) in CcbTables.AddRequest(s, sock, target, addr, connectId).requests
  {
  }

  /** The tables after part of a target's requests have been taken out. */
  ghost function Drained(s: State, c: CCBID, ids: set<CCBID>): State
    requires c in s.targets
  {
    s.(requests := s.requests - ids,
       targets := s.targets[c := s.targets[c].(requests := s.targets[c].requests - ids)])
  }

  lemma DrainedHas(s: State, c: CCBID, ids: set<CCBID>, id: CCBID)
    requires Indexed(s) && c in s.targets
    requires c in Drained(s, c, ids).targets && id in Drained(s, c, ids).targets[c].requests
    ensures id in Drained(s, c, ids).requests && Drained(s, c, ids).requests[id].target == c
    ensures id in s.targets[c].requests
  {
  }

  lemma DrainOne(s: State, c: CCBID, ids: set<CCBID>, id: CCBID)
    requires c in s.targets && id in Drained(s, c, ids).requests && Drained(s, c, ids).requests[id].target == c
    ensures CcbTables.RemoveRequest(Drained(s, c, ids), id) == Drained(s, c, ids + {id})
  {
    var d := Drained(s, c, ids);
    assert d.requests - {id} == s.requests - (ids + {id});
    assert d.targets[c].requests - {id} == s.targets[c].requests - (ids + {id});
  }

  lemma DrainedTable(s: State, c: CCBID, ids: set<CCBID>)
    requires c in s.targets
    ensures c in Drained(s, c, ids).targets && Drained(s, c, ids).targets[c].requests == s.targets[c].requests - ids
  {
  }

  lemma DrainedRest(s: State, c: CCBID, ids: set<CCBID>)
    requires c in s.targets
    ensures Drained(s, c, ids).targets - {c} == s.targets - {c}
  {
  }

  lemma Shrinks(was: map<CCBID, Request>, all: map<CCBID, Request>, ids: set<CCBID>, id: CCBID)
    requires was == all - ids && id in was
    ensures |all - (ids + {id})| < |was| && id in all
  {
    assert (all - (ids + {id})).Keys == was.Keys - {id};
  }

  lemma DrainedNone(s: State, c: CCBID)
    requires c in s.targets
    ensures Drained(s, c, {}) == s
  {
    assert s.requests - {} == s.requests;
    assert s.targets[c].requests - {} == s.targets[c].requests;
  }

  /** The search may start behind an identifier in use. */
  lemma SkipUsed(start: CCBID, used: set<CCBID>, id: CCBID)
    requires FirstFree(start, used, id) && start in used
    ensures FirstFree(Succ(start), used, id)
    ensures Distance(Succ(start), id) < Distance(start, id)
  {
    forall i: CCBID | Distance(Succ(start), i) < Distance(Succ(start), id)
      ensures i in used
    {
      assert Distance(start, i) < Distance(start, id);
    }
  }
}
