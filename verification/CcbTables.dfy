/**
  The state of the connection broker's server and its steps as functions: live targets, pending
  client requests (indexed globally and per target) and reconnect records.
 */
module CcbTables {

  const ID_SPACE: nat := 0x1_0000_0000_0000_0000

  /** An `unsigned long`. */
  type CCBID = x: nat | x < ID_SPACE

  type Sock = nat

  function Succ(n: CCBID): CCBID {
    if n + 1 == ID_SPACE then 0 else n + 1
  }

  datatype Request = Request(id: CCBID, sock: Sock, target: CCBID, returnAddr: string, connectId: string)

  datatype Target = Target(sock: Sock, pending: int, registered: bool, requests: map<CCBID, Request>)

  datatype Record = Record(ip: string, cookie: CCBID, lastAlive: int)

  /** A reply on a client's socket. */
  datatype Reply = Reply(sock: Sock, success: bool)

  datatype State = State(
    targets: map<CCBID, Target>,
    requests: map<CCBID, Request>,
    records: map<CCBID, Record>,
    nextCcbid: CCBID,
    nextRequestId: CCBID,
    replies: seq<Reply>)

  const Initial := State(map[], map[], map[], 1, 1, [])

  /***** Identifiers: counting up with wrap-around, skipping the ones in use *****/

  /** How far `to` lies ahead of `from` on the circle of identifiers. */
  function Distance(from: CCBID, to: CCBID): (d: nat)
    ensures d < ID_SPACE
  {
    if from <= to then to - from else ID_SPACE - from + to
  }

  /** `id` is the first identifier from `start` on that is not in use. */
  ghost predicate FirstFree(start: CCBID, used: set<CCBID>, id: CCBID) {
    id !in used && forall i: CCBID :: Distance(start, i) < Distance(start, id) ==> i in used
  }

  lemma {:induction false} Crowded(used: set<CCBID>, n: nat)
    requires n <= ID_SPACE && forall i: CCBID | i < n :: i in used
    ensures n <= |used|
  {
    if n > 0 {
      var last: CCBID := n - 1;
      Crowded(used - {last}, n - 1);
    }
  }

  /** A table smaller than the identifier space leaves an identifier free. */
  lemma SomeFree(used: set<CCBID>) returns (id: CCBID)
    requires |used| < ID_SPACE
    ensures id !in used
  {
    if forall i: CCBID :: i in used {
      Crowded(used, ID_SPACE);
      assert false;
    }
    id :| id !in used;
  }

  lemma {:induction false} FirstFreeExists(start: CCBID, used: set<CCBID>, free: CCBID) returns (id: CCBID)
    requires free !in used
    ensures FirstFree(start, used, id)
    decreases Distance(start, free)
  {
    if start !in used {
      id := start;
    } else {
      id := FirstFreeExists(Succ(start), used, free);
      forall i: CCBID | Distance(start, i) < Distance(start, id)
        ensures i in used
      {
        assert i == start || Distance(Succ(start), i) < Distance(Succ(start), id);
      }
    }
  }

  ghost function NextFree(start: CCBID, used: set<CCBID>): (id: CCBID)
    requires |used| < ID_SPACE
    ensures FirstFree(start, used, id)
  {
    assert exists id :: FirstFree(start, used, id) by {
      var free := SomeFree(used);
      var id := FirstFreeExists(start, used, free);
    }
    var id :| FirstFree(start, used, id);
    id
  }

  lemma FirstFreeUnique(start: CCBID, used: set<CCBID>, a: CCBID, b: CCBID)
    requires FirstFree(start, used, a) && FirstFree(start, used, b)
    ensures a == b
  {
    assert Distance(start, a) == Distance(start, b);
  }

  /***** Requests *****/

  /** A new request joins the global table and its target's table, and a result is awaited. */
  ghost function AddRequest(s: State, sock: Sock, target: CCBID, addr: string, connectId: string): State
    requires target in s.targets && |s.requests| < ID_SPACE
  {
    var id := NextFree(s.nextRequestId, s.requests.Keys);
    var r := Request(id, sock, target, addr, connectId);
    var t := s.targets[target];
    s.(requests := s.requests[id := r],
       nextRequestId := Succ(id),
       targets := s.targets[target := t.(pending := t.pending + 1, registered := true, requests := t.requests[id := r])])
  }

  function RemoveRequest(s: State, id: CCBID): State
    requires id in s.requests
  {
    var c := s.requests[id].target;
    s.(requests := s.requests - {id},
       targets := if c in s.targets
                  then s.targets[c := s.targets[c].(requests := s.targets[c].requests - {id})]
                  else s.targets)
  }

  /** Reply to the client, unless the news is good and it has hung up by now; then forget its request. */
  function FinishRequest(s: State, id: CCBID, success: bool, hungUp: bool): State
    requires id in s.requests
  {
    RemoveRequest(if success && hungUp then s else s.(replies := s.replies + [Reply(s.requests[id].sock, success)]), id)
  }

  /***** Targets *****/

  /** Hang up on the target's requests and forget the target. */
  function RemoveTarget(s: State, c: CCBID): State
    requires c in s.targets
  {
    s.(requests := s.requests - s.targets[c].requests.Keys, targets := s.targets - {c})
  }

  function NewTarget(sock: Sock): Target {
    Target(sock, 0, false, map[])
  }

  ghost function AddTarget(s: State, sock: Sock, ip: string, cookie: CCBID, now: int): State
    requires |Used(s)| < ID_SPACE
  {
    var c := NextFree(s.nextCcbid, Used(s));
    s.(targets := s.targets[c := NewTarget(sock)],
       records := s.records[c := Record(ip, cookie, now)],
       nextCcbid := Succ(c))
  }

  /** Identifiers that are live or reserved. */
  function Used(s: State): set<CCBID> {
    s.records.Keys + s.targets.Keys
  }

  predicate CanReconnect(s: State, c: CCBID, ip: string, cookie: CCBID) {
    c in s.records && s.records[c].ip == ip && s.records[c].cookie == cookie
  }

  function Reconnect(s: State, c: CCBID, sock: Sock, now: int): State
    requires c in s.records
  {
    var s1 := s.(records := s.records[c := s.records[c].(lastAlive := now)]);
    var s2 := if c in s1.targets then RemoveTarget(s1, c) else s1;
    s2.(targets := s2.targets[c := NewTarget(sock)])
  }

  /***** Message handlers *****/

  /** What a registering daemon presents when it has been registered before. */
  datatype Claim = NoClaim | Claim(ccbid: CCBID, cookie: CCBID)

  ghost function Registered(s: State, sock: Sock, ip: string, claim: Claim, cookie: CCBID, now: int): (State, CCBID)
    requires |Used(s)| < ID_SPACE
  {
    if claim.Claim? && CanReconnect(s, claim.ccbid, ip, claim.cookie) then
      (Reconnect(s, claim.ccbid, sock, now), claim.ccbid)
    else
      (AddTarget(s, sock, ip, cookie, now), NextFree(s.nextCcbid, Used(s)))
  }

  /** A daemon registers; a reply that cannot be sent undoes the registration but keeps its record. */
  ghost function HandleRegistration(s: State, sock: Sock, ip: string, claim: Claim, cookie: CCBID, now: int, replyOk: bool): State
    requires |Used(s)| < ID_SPACE
  {
    var (s', c) := Registered(s, sock, ip, claim, cookie, now);
    if replyOk then s' else RemoveTarget(s', c)
  }

  /** A client asks for a target: rejected if it is not registered, else recorded and forwarded. */
  ghost function HandleRequest(s: State, sock: Sock, target: CCBID, addr: string, connectId: string, forwardOk: bool): State
    requires |s.requests| < ID_SPACE
  {
    if target !in s.targets then s.(replies := s.replies + [Reply(sock, false)])
    else
      var s' := AddRequest(s, sock, target, addr, connectId);
      if forwardOk then s' else FinishRequest(s', NextFree(s.nextRequestId, s.requests.Keys), false, false)
  }

  /** What a readable target socket delivers; the client may turn out to be gone at once, or only when it is replied to. */
  datatype TargetMsg =
    | Hangup
    | Alive(replyOk: bool)
    | BadResult
    | Result(requestId: CCBID, connectId: string, success: bool, clientGone: bool, hungUp: bool)

  /** One fewer result awaited; at none the socket goes back to slow polling. */
  function GotResult(t: Target): Target {
    t.(pending := t.pending - 1, registered := if t.pending - 1 <= 0 then false else t.registered)
  }

  function HandleResult(s: State, c: CCBID, msg: TargetMsg): State
    requires c in s.targets
  {
    match msg
    case Hangup => RemoveTarget(s, c)
    case Alive(replyOk) => if replyOk then s else RemoveTarget(s, c)
    case BadResult => RemoveTarget(s, c)
    case Result(id, connectId, success, clientGone, hungUp) =>
      var s' := s.(targets := s.targets[c := GotResult(s.targets[c])]);
      if id !in s.requests then s'
      else if clientGone then RemoveRequest(s', id)
      else if s.requests[id].connectId != connectId then RemoveTarget(s', c)
      else FinishRequest(s', id, success, hungUp)
  }

  /***** Reconnect records *****/

  /** Mark the records of live targets, then drop the ones nobody has claimed for two intervals. */
  function Sweep(s: State, now: int, interval: int): State {
    var marked := map c | c in s.records :: if c in s.targets then s.records[c].(lastAlive := now) else s.records[c];
    s.(records := map c | c in marked && !(now - marked[c].lastAlive > 2 * interval) :: marked[c])
  }

  /***** The invariant *****/

  /** The global table and the per-target tables index each other exactly. */
  ghost predicate Indexed(s: State) {
    && (forall r | r in s.requests ::
          && s.requests[r].id == r
          && s.requests[r].target in s.targets
          && r in s.targets[s.requests[r].target].requests)
    && (forall c, r | c in s.targets && r in s.targets[c].requests ::
          r in s.requests && s.requests[r] == s.targets[c].requests[r] && s.requests[r].target == c)
  }

  /** Every live target has a reconnect record under its own identifier. */
  ghost predicate Recorded(s: State) {
    s.targets.Keys <= s.records.Keys
  }

  /** Sockets with a pending request are distinct, and no socket is answered twice. */
  ghost predicate AnsweredOnce(s: State) {
    && (forall r, q | r in s.requests && q in s.requests && r != q :: s.requests[r].sock != s.requests[q].sock)
    && (forall r, i | r in s.requests && 0 <= i < |s.replies| :: s.replies[i].sock != s.requests[r].sock)
    && (forall i, j | 0 <= i < j < |s.replies| :: s.replies[i].sock != s.replies[j].sock)
  }

  ghost predicate Invariant(s: State) {
    Indexed(s) && Recorded(s) && AnsweredOnce(s)
  }

  /** A connection the server has not seen yet. */
  ghost predicate FreshSock(s: State, sock: Sock) {
    && (forall r | r in s.requests :: s.requests[r].sock != sock)
    && (forall i | 0 <= i < |s.replies| :: s.replies[i].sock != sock)
  }
}
