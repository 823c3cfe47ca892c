/** The protocol never gets stuck: from every point of every run a new client can still be connected to a daemon. */
module CcbProgress {
  import opened Options
  import opened Finite
  import opened CcbTables
  import opened CcbInvariants
  import opened CcbReconnectFile
  import opened CcbDurable
  import opened CcbProtocol

  /** A run that has come to `s`. */
  ghost predicate RunTo(states: seq<System>, actions: seq<Action>, s: System) {
    Run(states, actions) && states[|actions|] == s
  }

  /** A run that has come to `s` can go on to `s'`. */
  ghost predicate LeadsTo(states: seq<System>, actions: seq<Action>, s': System) {
    exists states', actions' :: states <= states' && actions <= actions' && RunTo(states', actions', s')
  }

  lemma GoesOn(states: seq<System>, actions: seq<Action>, s: System, a: Action)
    requires LeadsTo(states, actions, s) && CanAct(s, a)
    ensures LeadsTo(states, actions, Act(s, a))
  {
    var states', actions' :| states <= states' && actions <= actions' && RunTo(states', actions', s);
    Extend(states', actions', s, a);
  }

  lemma Extend(states: seq<System>, actions: seq<Action>, s: System, a: Action)
    requires RunTo(states, actions, s) && CanAct(s, a)
    ensures RunTo(states + [Act(s, a)], actions + [a], Act(s, a))
  {
    hide CanAct, Act, Initially;
  }

  /** The client waits for a connection and has none yet. */
  predicate Waits(s: System, cl: Client, connectId: string) {
    && cl in s.clients && s.clients[cl].machine.inTable
    && s.clients[cl].connectId == connectId && s.clients[cl].attached == []
  }

  /** The daemon reads from the socket. */
  predicate Listens(s: System, link: Link, sock: Sock) {
    && sock in s.owner && s.owner[sock] == link && link in s.listeners
    && s.listeners[link].sock == Some(sock) && !s.listeners[link].waitingForConnect
  }

  /** The client asks a broker that has room for a request, for a target that is registered over the socket. */
  predicate Asks(s: System, cl: Client, i: nat, sock: Sock) {
    && Asking(cl, i) in s.asks && cl in s.clients && i < |s.clients[cl].contacts|
    && var Contact(b, c) := s.clients[cl].contacts[i];
    && b in s.brokers && |s.brokers[b].server.requests| < ID_SPACE
    && c in s.brokers[b].server.targets && s.brokers[b].server.targets[c].sock == sock
  }

  /***** A request under way completes *****/

  lemma SomeFreshSock(s: State) returns (sock: Sock)
    ensures FreshSock(s, sock)
  {
    var used := (set r | r in s.requests :: s.requests[r].sock) + (set i | 0 <= i < |s.replies| :: s.replies[i].sock);
    sock := Above(used);
    forall r | r in s.requests
      ensures s.requests[r].sock != sock
    {
      assert s.requests[r].sock in used;
    }
    forall i | 0 <= i < |s.replies|
      ensures s.replies[i].sock != sock
    {
      assert s.replies[i].sock in used;
    }
  }

  lemma Forwarded(s: System, cl: Client, i: nat, link: Link, sock: Sock, k: string, addr: string) returns (a: Action)
    requires Asks(s, cl, i, sock) && Waits(s, cl, k) && Listens(s, link, sock)
    ensures CanAct(s, a)
    ensures Waits(Act(s, a), cl, k) && Listens(Act(s, a), link, sock) && Forward(sock, k, addr) in Act(s, a).forwards
  {
    var at := s.clients[cl].contacts[i];
    var client := SomeFreshSock(s.brokers[at.broker].server);
    a := Ask(cl, i, Handle(ClientRequest(client, at.ccbid, addr, k, true), [], OpenFailed));
    hide FreshSock, DStep;
  }

  lemma Delivered(s: System, cl: Client, link: Link, sock: Sock, k: string, addr: string, now: int, tooOld: bool)
    requires Forward(sock, k, addr) in s.forwards && Waits(s, cl, k) && Listens(s, link, sock)
    ensures var a := Deliver(Forward(sock, k, addr), now, tooOld);
            CanAct(s, a) && Waits(Act(s, a), cl, k) && Hello(link.daemon, k, addr) in Act(s, a).connecting
  {
    hide L.ReadMessage;
  }

  lemma SaidHello(s: System, cl: Client, k: string, h: Hello)
    requires h in s.connecting && Waits(s, cl, k)
    ensures CanAct(s, ConnectBack(h)) && Waits(Act(s, ConnectBack(h)), cl, k) && h in Act(s, ConnectBack(h)).hellos
  {
  }

  lemma Attached(s: System, cl: Client, k: string, h: Hello)
    requires h in s.hellos && h.connectId == k && Waits(s, cl, k)
    ensures CanAct(s, Greet(h, cl)) && cl in Act(s, Greet(h, cl)).clients
    ensures Act(s, Greet(h, cl)).clients[cl].attached == [Attachment(h.daemon, k)]
  {
    hide Moved;
  }

  /** The run can go on so that the client has just this connection. */
  ghost predicate CanGet(states: seq<System>, actions: seq<Action>, cl: Client, at: Attachment) {
    exists s :: LeadsTo(states, actions, s) && cl in s.clients && s.clients[cl].attached == [at]
  }

  /** A request under way to a registered daemon that reads its socket can complete. */
  lemma RequestCanComplete(states: seq<System>, actions: seq<Action>, s: System, cl: Client, i: nat, link: Link, sock: Sock, addr: string)
    requires LeadsTo(states, actions, s) && Asks(s, cl, i, sock) && Listens(s, link, sock) && s.clients[cl].machine.inTable
    ensures CanGet(states, actions, cl, Attachment(link.daemon, s.clients[cl].connectId))
  {
    var k := s.clients[cl].connectId;
    NoneYet(states, actions, s, cl);
    hide LeadsTo, Asks, Listens, Act, CanAct;
    assert Waits(s, cl, k);
    var a := Forwarded(s, cl, i, link, sock, k, addr);
    GoesOn(states, actions, s, a);
    var s1 := Act(s, a);
    var delivery := Deliver(Forward(sock, k, addr), 0, false);
    Delivered(s1, cl, link, sock, k, addr, 0, false);
    GoesOn(states, actions, s1, delivery);
    var s2, h := Act(s1, delivery), Hello(link.daemon, k, addr);
    SaidHello(s2, cl, k, h);
    GoesOn(states, actions, s2, ConnectBack(h));
    var s3 := Act(s2, ConnectBack(h));
    Attached(s3, cl, k, h);
    GoesOn(states, actions, s3, Greet(h, cl));
  }

  lemma NoneYet(states: seq<System>, actions: seq<Action>, s: System, cl: Client)
    requires LeadsTo(states, actions, s) && cl in s.clients && s.clients[cl].machine.inTable
    ensures s.clients[cl].attached == []
  {
    var states', actions' :| states <= states' && actions <= actions' && RunTo(states', actions', s);
    hide Initially, CanAct, Act;
    AttachedOnce(states', actions', |actions'|, cl);
  }

  /***** A daemon can register and a client can ask for it *****/

  /** The listener awaits its connection to the broker. */
  predicate Connecting(s: System, link: Link, sock: Sock) {
    && sock in s.owner && s.owner[sock] == link && link in s.listeners
    && s.listeners[link].sock == Some(sock) && s.listeners[link].waitingForConnect
    && !s.listeners[link].waitingForRegistration && !s.listeners[link].registered && !s.listeners[link].reconnectTimer
  }

  lemma Started(s: System, link: Link, sock: Sock, interval: int)
    requires link !in s.listeners && sock !in s.owner
    ensures var a := NewListener(link, interval, sock);
            CanAct(s, a) && Connecting(Act(s, a), link, sock) && Act(s, a).brokers == s.brokers && Act(s, a).clients == s.clients
  {
  }

  lemma Connected(s: System, link: Link, sock: Sock, now: int, tooOld: bool)
    requires Connecting(s, link, sock)
    ensures var a := ListenerEvent(link, L.Connect(sock, true, true, now, tooOld));
            && CanAct(s, a) && Listens(Act(s, a), link, sock) && sock in Act(s, a).registrations
            && Act(s, a).brokers == s.brokers && Act(s, a).clients == s.clients
  {
    L.RescheduleFlags(s.listeners[link].(waitingForConnect := false, lastContact := now), now, tooOld);
    hide L.RescheduleHeartbeat;
  }

  /** There is room for one more daemon and one more request. */
  predicate HasRoom(d: Durable) {
    |Used(d.server)| < ID_SPACE && |d.server.requests| < ID_SPACE
  }

  /** The broker has registered the socket under `c`. */
  predicate Enrolled(s: System, b: Broker, c: CCBID, sock: Sock) {
    && b in s.brokers && |s.brokers[b].server.requests| < ID_SPACE
    && c in s.brokers[b].server.targets && s.brokers[b].server.targets[c].sock == sock
  }

  lemma Registers(s: System, link: Link, sock: Sock, ip: string, cookie: CCBID, now: int) returns (c: CCBID)
    requires Listens(s, link, sock) && sock in s.registrations && link.broker in s.brokers && HasRoom(s.brokers[link.broker])
    ensures var a := Enroll(sock, Handle(Register(sock, ip, NoClaim, cookie, now, true), [], OpenFailed));
            && CanAct(s, a) && Enrolled(Act(s, a), link.broker, c, sock) && Listens(Act(s, a), link, sock)
            && Act(s, a).clients == s.clients
  {
    hide NextFree;
    var server := s.brokers[link.broker].server;
    c := NextFree(server.nextCcbid, Used(server));
  }

  lemma StartsAsking(s: System, cl: Client, k: string, b: Broker, c: CCBID, link: Link, sock: Sock)
    requires cl !in s.clients && (forall d | d in s.clients :: s.clients[d].connectId != k)
    requires Enrolled(s, b, c, sock) && Listens(s, link, sock)
    ensures var a := NewClient(cl, k, [Contact(b, c)]);
            && CanAct(s, a) && Asks(Act(s, a), cl, 0, sock) && Listens(Act(s, a), link, sock)
            && Act(s, a).clients[cl].machine.inTable && Act(s, a).clients[cl].connectId == k
  {
    FirstAsked(cl, 1);
    hide Moved, C.NewClient, Sent, WellFormed;
  }

  lemma FirstAsked(cl: Client, n: nat)
    requires n > 0
    ensures var m := C.NewClient(WellFormed(n), 0);
            Moved(m, C.Start).inTable && Asking(cl, 0) in Sent(cl, m, Moved(m, C.Start))
  {
    var m := C.NewClient(WellFormed(n), 0);
    assert Moved(m, C.Start).sent == [] + [0];
  }

  /**
    From every point of every run: a daemon that has no listener for a broker with room can register with it, and
    a new client with any new connect id can then get a connection from that daemon.
   */
  lemma ConnectionStaysPossible(states: seq<System>, actions: seq<Action>, s: System, link: Link, sock: Sock, cl: Client, k: string)
    requires LeadsTo(states, actions, s)
    requires link !in s.listeners && sock !in s.owner && cl !in s.clients && forall d | d in s.clients :: s.clients[d].connectId != k
    requires link.broker in s.brokers && HasRoom(s.brokers[link.broker])
    ensures CanGet(states, actions, cl, Attachment(link.daemon, k))
  {
    hide LeadsTo, Act, CanAct, Listens, Connecting, Enrolled, Asks, CanGet;
    var start := NewListener(link, 0, sock);
    Started(s, link, sock, 0);
    GoesOn(states, actions, s, start);
    var s1 := Act(s, start);
    var connect := ListenerEvent(link, L.Connect(sock, true, true, 0, false));
    Connected(s1, link, sock, 0, false);
    GoesOn(states, actions, s1, connect);
    var s2 := Act(s1, connect);
    var enroll := Enroll(sock, Handle(Register(sock, "", NoClaim, 0, 0, true), [], OpenFailed));
    var c := Registers(s2, link, sock, "", 0, 0);
    GoesOn(states, actions, s2, enroll);
    var s3 := Act(s2, enroll);
    var ask := NewClient(cl, k, [Contact(link.broker, c)]);
    StartsAsking(s3, cl, k, link.broker, c, link, sock);
    GoesOn(states, actions, s3, ask);
    RequestCanComplete(states, actions, Act(s3, ask), cl, 0, link, sock, "");
  }

  const BROKER := Durable(Initial, Disk(None, []))
  const QUIET := System(map[0 := BROKER], map[], map[], {}, map[], {}, {}, {}, {})

  /** So there is a run, starting with one fresh broker, that connects a client. */
  lemma SomeRunConnects()
    ensures Run([QUIET], []) && CanGet([QUIET], [], 0, Attachment(0, "id"))
  {
    hide CanGet;
    assert Consistent(BROKER);
    assert QUIET.brokers[0] == BROKER;
    assert RunTo([QUIET], [], QUIET);
    ConnectionStaysPossible([QUIET], [], QUIET, Link(0, 0), 0, 0, "id");
  }
}
