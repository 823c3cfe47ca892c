/** What every step of the broker keeps, over every run. */
module CcbInvariants {
  import opened CcbTables

  lemma AddRequestKeeps(s: State, sock: Sock, target: CCBID, addr: string, connectId: string)
    requires Invariant(s) && target in s.targets && |s.requests| < ID_SPACE && FreshSock(s, sock)
    ensures Invariant(AddRequest(s, sock, target, addr, connectId))
  {
    var id := NextFree(s.nextRequestId, s.requests.Keys);
    var s' := AddRequest(s, sock, target, addr, connectId);
    forall c, r | c in s'.targets && r in s'.targets[c].requests
      ensures r in s'.requests && s'.requests[r] == s'.targets[c].requests[r] && s'.requests[r].target == c
    {
      assert r != id ==> r in s.targets[c].requests;
    }
  }

  lemma RemoveRequestKeeps(s: State, id: CCBID)
    requires Indexed(s) && Recorded(s) && id in s.requests
    requires AnsweredOnce(s.(requests := s.requests - {id}))
    ensures Invariant(RemoveRequest(s, id))
  {
    var s' := RemoveRequest(s, id);
    forall c, r | c in s'.targets && r in s'.targets[c].requests
      ensures r in s'.requests && s'.requests[r] == s'.targets[c].requests[r] && s'.requests[r].target == c
    {
      assert r in s.targets[c].requests;
    }
  }

  lemma FinishRequestKeeps(s: State, id: CCBID, success: bool, hungUp: bool)
    requires Invariant(s) && id in s.requests
    ensures Invariant(FinishRequest(s, id, success, hungUp))
  {
    RemoveRequestKeeps(s.(replies := s.replies + [Reply(s.requests[id].sock, success)]), id);
  }

  lemma RemoveTargetKeeps(s: State, c: CCBID)
    requires Invariant(s) && c in s.targets
    ensures Invariant(RemoveTarget(s, c))
    ensures forall r | r in s.requests :: r in RemoveTarget(s, c).requests <==> s.requests[r].target != c
  {
    assert forall r | r in s.requests :: r in s.targets[c].requests <==> s.requests[r].target == c;
  }

  /** A fresh target under a recorded identifier that is not in use. */
  lemma InsertTargetKeeps(s: State, c: CCBID, sock: Sock)
    requires Invariant(s) && c !in s.targets && c in s.records
    ensures Invariant(s.(targets := s.targets[c := NewTarget(sock)]))
  {
    assert forall r | r in s.requests :: s.requests[r].target != c;
  }

  lemma AddTargetKeeps(s: State, sock: Sock, ip: string, cookie: CCBID, now: int)
    requires Invariant(s) && |Used(s)| < ID_SPACE
    ensures Invariant(AddTarget(s, sock, ip, cookie, now))
  {
    hide Invariant;
    var c := NextFree(s.nextCcbid, Used(s));
    RecordsGrow(s, s.records[c := Record(ip, cookie, now)], Succ(c));
    InsertTargetKeeps(s.(records := s.records[c := Record(ip, cookie, now)], nextCcbid := Succ(c)), c, sock);
  }

  lemma RecordsGrow(s: State, records: map<CCBID, Record>, next: CCBID)
    requires Invariant(s) && s.records.Keys <= records.Keys
    ensures Invariant(s.(records := records, nextCcbid := next))
  {
  }

  lemma ReconnectKeeps(s: State, c: CCBID, sock: Sock, now: int)
    requires Invariant(s) && c in s.records
    ensures Invariant(Reconnect(s, c, sock, now))
  {
    hide Invariant;
    var s1 := s.(records := s.records[c := s.records[c].(lastAlive := now)]);
    RecordsGrow(s, s1.records, s.nextCcbid);
    if c in s1.targets {
      RemoveTargetKeeps(s1, c);
      InsertTargetKeeps(RemoveTarget(s1, c), c, sock);
    } else {
      InsertTargetKeeps(s1, c, sock);
    }
  }

  lemma RegistrationKeeps(s: State, sock: Sock, ip: string, claim: Claim, cookie: CCBID, now: int, replyOk: bool)
    requires Invariant(s) && |Used(s)| < ID_SPACE
    ensures Invariant(HandleRegistration(s, sock, ip, claim, cookie, now, replyOk))
  {
    if claim.Claim? && CanReconnect(s, claim.ccbid, ip, claim.cookie) {
      ReconnectKeeps(s, claim.ccbid, sock, now);
    } else {
      AddTargetKeeps(s, sock, ip, cookie, now);
    }
    var (s', c) := Registered(s, sock, ip, claim, cookie, now);
    if !replyOk {
      RemoveTargetKeeps(s', c);
    }
  }

  lemma HandleRequestKeeps(s: State, sock: Sock, target: CCBID, addr: string, connectId: string, forwardOk: bool)
    requires Invariant(s) && |s.requests| < ID_SPACE && FreshSock(s, sock)
    ensures Invariant(HandleRequest(s, sock, target, addr, connectId, forwardOk))
  {
    if target in s.targets {
      AddRequestKeeps(s, sock, target, addr, connectId);
      if !forwardOk {
        var s' := AddRequest(s, sock, target, addr, connectId);
        FinishRequestKeeps(s', NextFree(s.nextRequestId, s.requests.Keys), false, false);
      }
    }
  }

  lemma GotResultKeeps(s: State, c: CCBID)
    requires Invariant(s) && c in s.targets
    ensures Invariant(s.(targets := s.targets[c := GotResult(s.targets[c])]))
  {
    var s' := s.(targets := s.targets[c := GotResult(s.targets[c])]);
    assert forall d | d in s'.targets :: s'.targets[d].requests == s.targets[d].requests;
  }

  lemma HandleResultKeeps(s: State, c: CCBID, msg: TargetMsg)
    requires Invariant(s) && c in s.targets
    ensures Invariant(HandleResult(s, c, msg))
  {
    match msg
    case Result(id, connectId, success, clientGone, hungUp) =>
      var s' := s.(targets := s.targets[c := GotResult(s.targets[c])]);
      GotResultKeeps(s, c);
      if id in s.requests {
        if clientGone {
          RemoveRequestKeeps(s', id);
        } else if s.requests[id].connectId != connectId {
          RemoveTargetKeeps(s', c);
        } else {
          FinishRequestKeeps(s', id, success, hungUp);
        }
      }
    case Alive(replyOk) => if !replyOk { RemoveTargetKeeps(s, c); }
    case _ => RemoveTargetKeeps(s, c);
  }

  /**
    The record of a live target goes exactly when the interval is negative; any other record goes exactly
    when it has been unclaimed for over two intervals.
   */
  lemma SweepDrops(s: State, now: int, interval: int, c: CCBID)
    requires c in s.records
    ensures c !in Sweep(s, now, interval).records <==>
            if c in s.targets then interval < 0 else now - s.records[c].lastAlive > 2 * interval
    ensures c in Sweep(s, now, interval).records ==>
              Sweep(s, now, interval).records[c] ==
              if c in s.targets then s.records[c].(lastAlive := now) else s.records[c]
  {
  }

  /** A sweep keeps the records of live targets exactly when the interval is not negative, or there are none. */
  lemma SweepKeepsIff(s: State, now: int, interval: int)
    requires Invariant(s)
    ensures Recorded(Sweep(s, now, interval)) <==> 0 <= interval || s.targets == map[]
    ensures Invariant(Sweep(s, now, interval)) <==> 0 <= interval || s.targets == map[]
  {
    hide Sweep;
    SweepTables(s, now, interval);
    if 0 <= interval {
      forall c | c in s.targets
        ensures c in Sweep(s, now, interval).records
      {
        SweepDrops(s, now, interval, c);
      }
    } else if s.targets != map[] {
      var c :| c in s.targets;
      SweepDrops(s, now, interval, c);
    }
  }

  lemma SweepTables(s: State, now: int, interval: int)
    ensures var s' := Sweep(s, now, interval); s' == s.(records := s'.records)
  {
  }

  /** For instance one target and the interval -1. */
  lemma NegativeIntervalBreaks(c: CCBID, sock: Sock, r: Record, now: int)
    ensures var s := Initial.(targets := map[c := NewTarget(sock)], records := map[c := r]);
            Invariant(s) && !Recorded(Sweep(s, now, -1))
  {
    var s := Initial.(targets := map[c := NewTarget(sock)], records := map[c := r]);
    assert c in s.targets && Invariant(s);
    SweepKeepsIff(s, now, -1);
  }

  /** Only a daemon that shows the recorded address and cookie takes over a recorded identifier. */
  lemma OwnershipNeedsCookie(s: State, sock: Sock, ip: string, claim: Claim, cookie: CCBID, now: int, replyOk: bool, c: CCBID)
    requires Invariant(s) && |Used(s)| < ID_SPACE && c in s.records
    ensures var s' := HandleRegistration(s, sock, ip, claim, cookie, now, replyOk);
            && c in s'.records && s'.records[c].ip == s.records[c].ip && s'.records[c].cookie == s.records[c].cookie
            && (c in s'.targets && (c !in s.targets || s'.targets[c] != s.targets[c]) ==>
                  claim == Claim(c, s.records[c].cookie) && ip == s.records[c].ip && s'.targets[c].sock == sock)
  {
    assert c in s.targets ==> c in s.records;
    hide Indexed, AnsweredOnce;
    var (s', d) := Registered(s, sock, ip, claim, cookie, now);
    if claim.Claim? && CanReconnect(s, claim.ccbid, ip, claim.cookie) {
      assert c != d ==> c in s'.targets ==> s'.targets[c] == s.targets[c];
    } else {
      assert d !in s.records;
    }
  }

  /***** Whole runs *****/

  datatype Event =
    | Register(sock: Sock, ip: string, claim: Claim, cookie: CCBID, now: int, replyOk: bool)
    | ClientRequest(sock: Sock, target: CCBID, addr: string, connectId: string, forwardOk: bool)
    | FromTarget(ccbid: CCBID, msg: TargetMsg)
    | ClientGone(id: CCBID)
    | SweepTick(now: int, interval: int)

  /** Handlers run on live objects and new connections; tables never hold all identifiers. */
  ghost predicate Enabled(s: State, e: Event) {
    match e
    case Register(_, _, _, _, _, _) => |Used(s)| < ID_SPACE
    case ClientRequest(sock, _, _, _, _) => FreshSock(s, sock) && |s.requests| < ID_SPACE
    case FromTarget(c, _) => c in s.targets
    case ClientGone(id) => id in s.requests
    case SweepTick(_, interval) => 0 <= interval
  }

  ghost function Step(s: State, e: Event): State
    requires Enabled(s, e)
  {
    match e
    case Register(sock, ip, claim, cookie, now, replyOk) =>
      HandleRegistration(s, sock, ip, claim, cookie, now, replyOk)
    case ClientRequest(sock, target, addr, connectId, forwardOk) =>
      HandleRequest(s, sock, target, addr, connectId, forwardOk)
    case FromTarget(c, msg) => HandleResult(s, c, msg)
    case ClientGone(id) => RemoveRequest(s, id)
    case SweepTick(now, interval) => Sweep(s, now, interval)
  }

  lemma StepKeeps(s: State, e: Event)
    requires Invariant(s) && Enabled(s, e)
    ensures Invariant(Step(s, e))
  {
    match e
    case Register(sock, ip, claim, cookie, now, replyOk) =>
      RegistrationKeeps(s, sock, ip, claim, cookie, now, replyOk);
    case ClientRequest(sock, target, addr, connectId, forwardOk) =>
      HandleRequestKeeps(s, sock, target, addr, connectId, forwardOk);
    case FromTarget(c, msg) => HandleResultKeeps(s, c, msg);
    case ClientGone(id) => RemoveRequestKeeps(s, id);
    case SweepTick(now, interval) => SweepKeepsIff(s, now, interval);
  }

  /** A target reports on a pending request, with that request's connect id, and the client is still there. */
  ghost predicate Reports(s: State, e: Event, id: CCBID) {
    && e.FromTarget? && e.msg.Result? && e.msg.requestId == id && id in s.requests
    && e.msg.connectId == s.requests[id].connectId && !e.msg.clientGone && !(e.msg.success && e.msg.hungUp)
  }

  /** A reply says success only after such a report of success; and whatever is replied goes to the socket that asked. */
  lemma SuccessNeedsReport(s: State, e: Event)
    requires Enabled(s, e)
    ensures var s' := Step(s, e);
            || s'.replies == s.replies
            || (exists id :: Reports(s, e, id) && s'.replies == s.replies + [Reply(s.requests[id].sock, e.msg.success)])
            || (e.ClientRequest? && s'.replies == s.replies + [Reply(e.sock, false)])
  {
    hide FreshSock, HandleRegistration, HandleRequest, HandleResult, Reports;
    if e.FromTarget? {
      ReportReplies(s, e.ccbid, e.msg);
      assert e.msg.Result? ==> Reports(s, e, e.msg.requestId) || Step(s, e).replies == s.replies;
    } else if e.Register? {
      RegistrationReplies(s, e.sock, e.ip, e.claim, e.cookie, e.now, e.replyOk);
    } else if e.ClientRequest? {
      RequestReplies(s, e.sock, e.target, e.addr, e.connectId, e.forwardOk);
    }
  }

  lemma RegistrationReplies(s: State, sock: Sock, ip: string, claim: Claim, cookie: CCBID, now: int, replyOk: bool)
    requires |Used(s)| < ID_SPACE
    ensures HandleRegistration(s, sock, ip, claim, cookie, now, replyOk).replies == s.replies
  {
    var (s', c) := Registered(s, sock, ip, claim, cookie, now);
    assert s'.replies == s.replies;
  }

  lemma RequestReplies(s: State, sock: Sock, target: CCBID, addr: string, connectId: string, forwardOk: bool)
    requires |s.requests| < ID_SPACE
    ensures HandleRequest(s, sock, target, addr, connectId, forwardOk).replies
         == if target in s.targets && forwardOk then s.replies else s.replies + [Reply(sock, false)]
  {
  }

  lemma ReportReplies(s: State, c: CCBID, msg: TargetMsg)
    requires c in s.targets
    ensures HandleResult(s, c, msg).replies ==
            if msg.Result? && Reports(s, FromTarget(c, msg), msg.requestId) then s.replies + [Reply(s.requests[msg.requestId].sock, msg.success)] else s.replies
  {
    hide GotResult;
  }

  /** `s'` is reached from `s` by handling `events` in order. */
  ghost predicate Reaches(s: State, events: seq<Event>, s': State)
    decreases |events|
  {
    if events == [] then s == s'
    else Enabled(s, events[0]) && Reaches(Step(s, events[0]), events[1..], s')
  }

  /** From any consistent state every run stays consistent. */
  lemma {:induction false} RunKeeps(s: State, events: seq<Event>, s': State)
    requires Invariant(s) && Reaches(s, events, s')
    ensures Invariant(s')
    decreases |events|
  {
    if events != [] {
      StepKeeps(s, events[0]);
      RunKeeps(Step(s, events[0]), events[1..], s');
    }
  }

  lemma ReachesSelf(s: State)
    ensures Reaches(s, [], s)
  {
  }

  lemma {:induction false} ReachesOneMore(s: State, events: seq<Event>, s1: State, e: Event)
    requires Reaches(s, events, s1) && Enabled(s1, e)
    ensures Reaches(s, events + [e], Step(s1, e))
    decreases |events|
  {
    hide Enabled, Step;
    if events != [] {
      assert (events + [e])[1..] == events[1..] + [e];
      ReachesOneMore(Step(s, events[0]), events[1..], s1, e);
    } else {
      assert (events + [e])[1..] == [];
    }
  }
}
