/** What each message does to the broker's tables, and what it leaves alone. */
module CcbEffects {
  import opened CcbTables

  /** A target as it was, whatever became of its requests. */
  predicate SameTarget(t: Target, t': Target) {
    t.sock == t'.sock && t.pending == t'.pending && t.registered == t'.registered
  }

  /** All targets but `c` stay, and none comes. */
  ghost predicate OthersStay(s: State, s': State, c: CCBID) {
    forall d | d != c :: (d in s'.targets <==> d in s.targets) && (d in s.targets ==> SameTarget(s.targets[d], s'.targets[d]))
  }

  /** The requests that are left are the old ones without those of `gone`. */
  ghost predicate RequestsWithout(s: State, s': State, gone: iset<CCBID>) {
    && (forall r | r in s.requests :: r !in s'.requests <==> r in gone)
    && (forall r | r in s'.requests :: r in s.requests && s'.requests[r] == s.requests[r])
  }

  /** The pending requests for target `c`. */
  ghost function Of(s: State, c: CCBID): iset<CCBID> {
    iset r | r in s.requests && s.requests[r].target == c
  }

  predicate CountersStay(s: State, s': State) {
    s'.records == s.records && s'.nextCcbid == s.nextCcbid && s'.nextRequestId == s.nextRequestId
  }

  /***** Messages of targets *****/

  /** The report on a pending request of a client that is there, but with another connect id. */
  predicate Mismatch(s: State, msg: TargetMsg) {
    msg.Result? && msg.requestId in s.requests && !msg.clientGone && msg.connectId != s.requests[msg.requestId].connectId
  }

  predicate DropsTarget(s: State, msg: TargetMsg) {
    msg.Hangup? || msg.BadResult? || msg == Alive(false) || Mismatch(s, msg)
  }

  /** The requests that a message of target `c` ends: all of a target that is dropped, else the one reported on. */
  ghost function Ended(s: State, c: CCBID, msg: TargetMsg): iset<CCBID> {
    if DropsTarget(s, msg) then Of(s, c)
    else if msg.Result? && msg.requestId in s.requests then iset{msg.requestId}
    else iset{}
  }

  /** One result fewer is awaited, and the socket is watched only while there are some. */
  predicate Counted(t: Target, t': Target) {
    t'.sock == t.sock && t'.pending == t.pending - 1 && (t'.registered <==> t.registered && t'.pending > 0)
  }

  lemma ResultEffects(s: State, c: CCBID, msg: TargetMsg)
    requires Invariant(s) && c in s.targets
    ensures var s' := HandleResult(s, c, msg);
            && (c !in s'.targets <==> DropsTarget(s, msg)) && OthersStay(s, s', c)
            && RequestsWithout(s, s', Ended(s, c, msg)) && CountersStay(s, s')
    ensures !DropsTarget(s, msg) && !msg.Result? ==> HandleResult(s, c, msg) == s
    ensures !DropsTarget(s, msg) && msg.Result? ==> Counted(s.targets[c], HandleResult(s, c, msg).targets[c])
  {
    hide OthersStay, RequestsWithout, CountersStay, Counted, Invariant;
    if msg.Result? {
      ReportEffects(s, c, msg);
    } else if DropsTarget(s, msg) {
      DropEffects(s, s, c);
      assert Ended(s, c, msg) == Of(s, c);
    } else {
      assert Ended(s, c, msg) == iset{};
      Unchanged(s, c);
    }
  }

  lemma Unchanged(s: State, c: CCBID)
    ensures OthersStay(s, s, c) && RequestsWithout(s, s, iset{}) && CountersStay(s, s)
  {
  }

  /** Dropping a target ends its requests and nothing else. */
  lemma DropEffects(s: State, s1: State, c: CCBID)
    requires Invariant(s) && c in s.targets && s1 in {s, s.(targets := s.targets[c := GotResult(s.targets[c])])}
    ensures var s' := RemoveTarget(s1, c);
            && c !in s'.targets && OthersStay(s, s', c) && CountersStay(s, s')
            && RequestsWithout(s, s', Of(s, c))
  {
    assert s1.targets[c].requests == s.targets[c].requests;
    assert forall r | r in s.requests :: r in s.targets[c].requests <==> s.requests[r].target == c;
  }

  lemma ReportEffects(s: State, c: CCBID, msg: TargetMsg)
    requires Invariant(s) && c in s.targets && msg.Result?
    ensures var s' := HandleResult(s, c, msg);
            && (c !in s'.targets <==> Mismatch(s, msg)) && OthersStay(s, s', c)
            && RequestsWithout(s, s', Ended(s, c, msg)) && CountersStay(s, s')
    ensures !Mismatch(s, msg) ==> Counted(s.targets[c], HandleResult(s, c, msg).targets[c])
  {
    var s1 := s.(targets := s.targets[c := GotResult(s.targets[c])]);
    if Mismatch(s, msg) {
      DropEffects(s, s1, c);
      assert Ended(s, c, msg) == Of(s, c);
      assert HandleResult(s, c, msg) == RemoveTarget(s1, c);
      hide *;
    } else if msg.requestId in s.requests {
      assert Ended(s, c, msg) == iset{msg.requestId};
      SettledEffects(s, c, msg);
      hide *;
      CountedAndRemoved(s, c, msg.requestId, HandleResult(s, c, msg).replies);
    } else {
      assert Ended(s, c, msg) == iset{} && HandleResult(s, c, msg) == s1;
      hide *;
      OnlyCounted(s, c);
    }
  }

  lemma OnlyCounted(s: State, c: CCBID)
    requires c in s.targets
    ensures var s1 := s.(targets := s.targets[c := GotResult(s.targets[c])]);
            && OthersStay(s, s1, c) && RequestsWithout(s, s1, iset{}) && CountersStay(s, s1)
            && c in s1.targets && Counted(s.targets[c], s1.targets[c])
  {
  }

  lemma CountedAndRemoved(s: State, c: CCBID, id: CCBID, replies: seq<Reply>)
    requires c in s.targets && id in s.requests
    ensures var s1 := s.(targets := s.targets[c := GotResult(s.targets[c])]);
            var s' := RemoveRequest(s1, id).(replies := replies);
            && OthersStay(s, s', c) && RequestsWithout(s, s', iset{id}) && CountersStay(s, s')
            && c in s'.targets && Counted(s.targets[c], s'.targets[c])
  {
    var s1 := s.(targets := s.targets[c := GotResult(s.targets[c])]);
    OnlyCounted(s, c);
    RemovalEffects(s1, id);
    hide RemoveRequest, GotResult;
  }

  /** A report that ends its own request: the reply aside, the request is removed. */
  lemma SettledEffects(s: State, c: CCBID, msg: TargetMsg)
    requires c in s.targets && msg.Result? && msg.requestId in s.requests && !Mismatch(s, msg)
    ensures var s1, s' := s.(targets := s.targets[c := GotResult(s.targets[c])]), HandleResult(s, c, msg);
            s' == RemoveRequest(s1, msg.requestId).(replies := s'.replies)
  {
    hide GotResult;
  }

  /** Removing a request leaves every target as it was, but for that request. */
  lemma RemovalEffects(s: State, id: CCBID)
    requires id in s.requests
    ensures var s' := RemoveRequest(s, id);
            && RequestsWithout(s, s', iset{id}) && CountersStay(s, s') && s'.replies == s.replies
            && s'.targets.Keys == s.targets.Keys && forall d | d in s.targets :: SameTarget(s.targets[d], s'.targets[d])
  {
  }

  /***** Requests of clients *****/

  /** One more pending request, awaited over the target's socket. */
  ghost predicate Pending(s: State, s': State, r: Request) {
    && r.target in s.targets && s'.requests == s.requests[r.id := r]
    && var t := s.targets[r.target];
    && s'.targets == s.targets[r.target := Target(t.sock, t.pending + 1, true, t.requests[r.id := r])]
  }

  /** No request comes or goes, and targets keep their sockets and requests. */
  ghost predicate NoRequest(s: State, s': State) {
    && s'.requests == s.requests && s'.targets.Keys == s.targets.Keys
    && forall d | d in s.targets :: s'.targets[d].sock == s.targets[d].sock && s'.targets[d].requests == s.targets[d].requests
  }

  /** A request for a registered target that can be forwarded becomes one more pending request; any other leaves a refusal and nothing else. */
  lemma RequestEffects(s: State, sock: Sock, target: CCBID, addr: string, connectId: string, forwardOk: bool) returns (id: CCBID)
    requires Invariant(s) && |s.requests| < ID_SPACE
    ensures FirstFree(s.nextRequestId, s.requests.Keys, id)
    ensures var s' := HandleRequest(s, sock, target, addr, connectId, forwardOk);
            && s'.records == s.records && s'.nextCcbid == s.nextCcbid
            && s'.nextRequestId == (if target in s.targets then Succ(id) else s.nextRequestId)
            && if target in s.targets && forwardOk
               then s'.replies == s.replies && Pending(s, s', Request(id, sock, target, addr, connectId))
               else s'.replies == s.replies + [Reply(sock, false)] && NoRequest(s, s')
  {
    id := NextFree(s.nextRequestId, s.requests.Keys);
    if target in s.targets && !forwardOk {
      Withdrawn(s, sock, target, addr, connectId);
    }
    hide Invariant, FirstFree;
  }

  lemma Withdrawn(s: State, sock: Sock, target: CCBID, addr: string, connectId: string)
    requires Invariant(s) && |s.requests| < ID_SPACE && target in s.targets
    ensures var s' := HandleRequest(s, sock, target, addr, connectId, false);
            && s'.replies == s.replies + [Reply(sock, false)] && NoRequest(s, s') && s'.records == s.records && s'.nextCcbid == s.nextCcbid
            && s'.nextRequestId == Succ(NextFree(s.nextRequestId, s.requests.Keys))
  {
    var id := NextFree(s.nextRequestId, s.requests.Keys);
    assert id !in s.requests && id !in s.targets[target].requests;
    hide NextFree, Invariant, FirstFree;
    var s1 := AddRequest(s, sock, target, addr, connectId);
    AddedThenRemoved(s.requests, id, s1.requests[id]);
    AddedThenRemoved(s.targets[target].requests, id, s1.requests[id]);
  }

  lemma AddedThenRemoved(m: map<CCBID, Request>, id: CCBID, r: Request)
    requires id !in m
    ensures m[id := r] - {id} == m
  {
  }

  /***** Registrations *****/

  /** The claim is for a recorded identifier and shows its cookie from its address. */
  predicate Rightful(s: State, ip: string, claim: Claim) {
    claim.Claim? && claim.ccbid in s.records && s.records[claim.ccbid] == Record(ip, claim.cookie, s.records[claim.ccbid].lastAlive)
  }

  /** The socket is registered under `c`, without requests; those of an older socket there have ended. */
  ghost predicate Enters(s: State, s': State, c: CCBID, sock: Sock) {
    c in s'.targets && s'.targets[c] == Target(sock, 0, false, map[]) && Displaced(s, s', c)
  }

  ghost predicate Displaced(s: State, s': State, c: CCBID) {
    && OthersStay(s, s', c) && s'.replies == s.replies
    && RequestsWithout(s, s', Of(s, c))
  }

  /**
    A rightful claim gets its identifier, any other registration the first one free. If the reply goes out the new socket is registered
    there without requests, else nothing is; requests of an older socket there end. The record is new, or marked alive.
   */
  lemma RegistrationEffects(s: State, sock: Sock, ip: string, claim: Claim, cookie: CCBID, now: int, replyOk: bool) returns (c: CCBID)
    requires Invariant(s) && |Used(s)| < ID_SPACE
    ensures if Rightful(s, ip, claim) then c == claim.ccbid else FirstFree(s.nextCcbid, Used(s), c)
    ensures var s' := HandleRegistration(s, sock, ip, claim, cookie, now, replyOk);
            && (if replyOk then Enters(s, s', c, sock) else c !in s'.targets && Displaced(s, s', c))
            && s'.records == s.records[c := Record(ip, if Rightful(s, ip, claim) then claim.cookie else cookie, now)]
            && s'.nextCcbid == (if Rightful(s, ip, claim) then s.nextCcbid else Succ(c)) && s'.nextRequestId == s.nextRequestId
  {
    c := if Rightful(s, ip, claim) then claim.ccbid else NextFree(s.nextCcbid, Used(s));
    assert Rightful(s, ip, claim) <==> claim.Claim? && CanReconnect(s, claim.ccbid, ip, claim.cookie);
    if Rightful(s, ip, claim) {
      TakeOver(s, c, sock, now);
    } else {
      Arrives(s, sock, ip, cookie, now);
    }
    hide Invariant, NextFree, Enters, Displaced, AddTarget, Reconnect, RemoveTarget, FirstFree, Used;
    if !replyOk {
      LeavesAgain(s, Registered(s, sock, ip, claim, cookie, now).0, c, sock);
    }
  }

  lemma Arrives(s: State, sock: Sock, ip: string, cookie: CCBID, now: int)
    requires Invariant(s) && |Used(s)| < ID_SPACE
    ensures var c, s' := NextFree(s.nextCcbid, Used(s)), AddTarget(s, sock, ip, cookie, now);
            && Enters(s, s', c, sock) && s'.records == s.records[c := Record(ip, cookie, now)]
            && s'.nextCcbid == Succ(c) && s'.nextRequestId == s.nextRequestId
  {
    var c := NextFree(s.nextCcbid, Used(s));
    assert c !in s.targets && forall r | r in s.requests :: s.requests[r].target != c;
    hide *;
    Inserted(s, c, sock, s.records[c := Record(ip, cookie, now)], Succ(c));
    AddedIs(s, sock, ip, cookie, now);
  }

  lemma Inserted(s: State, c: CCBID, sock: Sock, records: map<CCBID, Record>, next: CCBID)
    requires c !in s.targets && forall r | r in s.requests :: s.requests[r].target != c
    ensures Enters(s, s.(targets := s.targets[c := Target(sock, 0, false, map[])], records := records, nextCcbid := next), c, sock)
  {
  }

  lemma AddedIs(s: State, sock: Sock, ip: string, cookie: CCBID, now: int)
    requires |Used(s)| < ID_SPACE
    ensures var c := NextFree(s.nextCcbid, Used(s));
            AddTarget(s, sock, ip, cookie, now) == s.(targets := s.targets[c := Target(sock, 0, false, map[])],
                                                      records := s.records[c := Record(ip, cookie, now)], nextCcbid := Succ(c))
  {
    hide NextFree, Used, FirstFree;
  }

  lemma TakeOver(s: State, c: CCBID, sock: Sock, now: int)
    requires Invariant(s) && c in s.records
    ensures var s' := Reconnect(s, c, sock, now);
            && Enters(s, s', c, sock) && s'.records == s.records[c := s.records[c].(lastAlive := now)]
            && s'.nextCcbid == s.nextCcbid && s'.nextRequestId == s.nextRequestId
  {
    if c in s.targets {
      assert forall r | r in s.requests :: r in s.targets[c].requests <==> s.requests[r].target == c;
    } else {
      assert forall r | r in s.requests :: s.requests[r].target != c;
    }
  }

  lemma LeavesAgain(s: State, s1: State, c: CCBID, sock: Sock)
    requires Enters(s, s1, c, sock)
    ensures var s' := RemoveTarget(s1, c); c !in s'.targets && Displaced(s, s', c) && CountersStay(s1, s')
  {
  }
}
