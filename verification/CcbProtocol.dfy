/**
  The three-party protocol: clients ask brokers for a registered daemon, the broker forwards the request over
  the daemon's registered socket, and the daemon connects back to the client and presents the client's connect
  id. Each party takes the steps of its own model: brokers with their reconnect files, which may restart at any
  time, the non-blocking client, and one listener per daemon and broker.
 */
module CcbProtocol {
  import opened Options
  import opened CcbTables
  import opened CcbInvariants
  import opened CcbReconnectFile
  import opened CcbDurable
  import C = CcbClient
  import L = CcbListener

  type Broker = nat
  type Daemon = nat
  type Client = nat

  /** A daemon's registration with a broker. */
  datatype Link = Link(daemon: Daemon, broker: Broker)

  /** Where a client can ask: a broker, and an identifier of that broker. */
  datatype Contact = Contact(broker: Broker, ccbid: CCBID)

  /** A connection that reached a waiting client: who opened it and what it presented. */
  datatype Attachment = Attachment(daemon: Daemon, presented: string)

  datatype ClientState = ClientState(connectId: string, contacts: seq<Contact>, machine: C.Client, attached: seq<Attachment>)

  /** A client's request on its way to the broker of one of its contacts. */
  datatype Asking = Asking(client: Client, contact: nat)

  /** A request on its way to a daemon over one of its sockets. */
  datatype Forward = Forward(sock: Sock, connectId: string, addr: string)

  /** A daemon that connects back, or has connected and said hello. */
  datatype Hello = Hello(daemon: Daemon, connectId: string, addr: string)

  datatype System = System(
    brokers: map<Broker, Durable>,
    owner: map<Sock, Link>,             // who opened a socket to a broker
    listeners: map<Link, L.Listener>,
    registrations: set<Sock>,           // sent and not yet handled
    clients: map<Client, ClientState>,
    asks: set<Asking>,
    forwards: set<Forward>,
    connecting: set<Hello>,
    hellos: set<Hello>)

  datatype Action =
    | NewClient(client: Client, connectId: string, contacts: seq<Contact>)
    | ClientEvent(client: Client, event: C.Event)
    | Ask(client: Client, contact: nat, request: DEvent)
    | NewListener(link: Link, interval: int, sock: Sock)
    | ListenerEvent(link: Link, input: L.Event)
    | Enroll(sock: Sock, registration: DEvent)
    | BrokerEvent(broker: Broker, step: DEvent)
    | Deliver(forward: Forward, now: int, tooOld: bool)
    | ConnectBack(hello: Hello)
    | Greet(hello: Hello, client: Client)

  ghost predicate Initially(s: System) {
    && (forall b | b in s.brokers :: Consistent(s.brokers[b]))
    && s.clients == map[] && s.asks == {} && s.forwards == {} && s.connecting == {} && s.hellos == {}
    && SocketsOwned(s)
  }

  /** All contacts are well-formed. */
  function WellFormed(n: nat): seq<bool> {
    seq(n, i => true)
  }

  /** The client after one of its events. */
  function Moved(m: C.Client, e: C.Event): C.Client {
    match C.Handle(m, e)
    case Running(m') => m'
    case Aborted => m
  }

  /** The requests a client sends as it goes from `m` to `m'`. */
  function Sent(cl: Client, m: C.Client, m': C.Client): set<Asking> {
    set i | i in m'.sent && i !in m.sent :: Asking(cl, i)
  }

  /** When an action can happen. Connect ids and sockets are distinct; everything else may happen at any time. */
  ghost predicate CanAct(s: System, a: Action) {
    match a
    case NewClient(cl, k, _) => cl !in s.clients && forall d | d in s.clients :: s.clients[d].connectId != k
    case ClientEvent(cl, e) => cl in s.clients && !e.Start? && !e.ReverseConnect? && C.Enabled(s.clients[cl].machine, e)
    case Ask(cl, i, e) =>
      && Asking(cl, i) in s.asks && cl in s.clients && i < |s.clients[cl].contacts|
      && var at := s.clients[cl].contacts[i];
      && at.broker in s.brokers && DEnabled(s.brokers[at.broker], e)
      && e.Handle? && e.event.ClientRequest? && e.event.target == at.ccbid && e.event.connectId == s.clients[cl].connectId
    case NewListener(link, _, sock) => link !in s.listeners && sock !in s.owner
    case ListenerEvent(link, e) =>
      && link in s.listeners && L.Enabled(s.listeners[link], e) && L.RightSocket(s.listeners[link], e)
      && L.Handle(s.listeners[link], e).Running?
      && (e.ReconnectTime? ==> e.newSock !in s.owner) && !(e.Receive? && e.msg.Request?)
    case Enroll(sock, e) =>
      && sock in s.registrations && sock in s.owner && s.owner[sock].broker in s.brokers
      && DEnabled(s.brokers[s.owner[sock].broker], e) && e.Handle? && e.event.Register? && e.event.sock == sock
    case BrokerEvent(b, e) =>
      && b in s.brokers && DEnabled(s.brokers[b], e)
      && (e.Handle? ==> e.event.FromTarget? || e.event.ClientGone? || e.event.SweepTick?)
    case Deliver(f, now, tooOld) =>
      && f in s.forwards && f.sock in s.owner && s.owner[f.sock] in s.listeners
      && s.listeners[s.owner[f.sock]].sock == Some(f.sock)
      && L.Enabled(s.listeners[s.owner[f.sock]], L.Receive(L.Request, now, tooOld))
    case ConnectBack(h) => h in s.connecting
    case Greet(h, cl) =>
      // the waiting table is looked up by the presented connect id
      h in s.hellos && cl in s.clients && s.clients[cl].machine.inTable && s.clients[cl].connectId == h.connectId
  }

  ghost function Act(s: System, a: Action): System
    requires CanAct(s, a)
  {
    match a
    case NewClient(cl, k, contacts) =>
      var m := C.NewClient(WellFormed(|contacts|), 0);
      var m' := Moved(m, C.Start);
      s.(clients := s.clients[cl := ClientState(k, contacts, m', [])], asks := s.asks + Sent(cl, m, m'))
    case ClientEvent(cl, e) =>
      var st := s.clients[cl];
      var m' := Moved(st.machine, e);
      s.(clients := s.clients[cl := st.(machine := m')], asks := s.asks + Sent(cl, st.machine, m'))
    case Ask(cl, i, e) =>
      var Contact(b, c) := s.clients[cl].contacts[i];
      var d := s.brokers[b];
      s.(asks := s.asks - {Asking(cl, i)}, brokers := s.brokers[b := DStep(d, e)],
         forwards := if c in d.server.targets && e.event.forwardOk
                     then s.forwards + {Forward(d.server.targets[c].sock, e.event.connectId, e.event.addr)} else s.forwards)
    case NewListener(link, interval, sock) =>
      s.(listeners := s.listeners[link := L.RegisterWithServer(L.NewListener(interval), sock, true)],
         owner := s.owner[sock := link])
    case ListenerEvent(link, e) =>
      var l := s.listeners[link];
      var l' := L.Handle(l, e).listener;
      s.(listeners := s.listeners[link := l'],
         owner := if e.ReconnectTime? then s.owner[e.newSock := link] else s.owner,
         registrations := if l'.waitingForRegistration && !l.waitingForRegistration && l'.sock.Some?
                          then s.registrations + {l'.sock.value} else s.registrations)
    case Enroll(sock, e) =>
      var b := s.owner[sock].broker;
      s.(brokers := s.brokers[b := DStep(s.brokers[b], e)], registrations := s.registrations - {sock})
    case BrokerEvent(b, e) => s.(brokers := s.brokers[b := DStep(s.brokers[b], e)])
    case Deliver(f, now, tooOld) =>
      var link := s.owner[f.sock];
      s.(forwards := s.forwards - {f}, connecting := s.connecting + {Hello(link.daemon, f.connectId, f.addr)},
         listeners := s.listeners[link := L.ReadMessage(s.listeners[link], L.Request, now, tooOld)])
    case ConnectBack(h) => s.(connecting := s.connecting - {h}, hellos := s.hellos + {h})
    case Greet(h, cl) =>
      var st := s.clients[cl];
      s.(hellos := s.hellos - {h},
         clients := s.clients[cl := st.(machine := Moved(st.machine, C.ReverseConnect),
                                        attached := st.attached + [Attachment(h.daemon, h.connectId)])])
  }

  /** A run: states with the actions between them. */
  ghost predicate Run(states: seq<System>, actions: seq<Action>) {
    && |states| == |actions| + 1 && Initially(states[0])
    && forall i | 0 <= i < |actions| :: CanAct(states[i], actions[i]) && states[i + 1] == Act(states[i], actions[i])
  }

  /** Step `i` forwarded a request of the client to a daemon registered under one of the contacts the client was given. */
  ghost predicate AskedAt(states: seq<System>, actions: seq<Action>, i: nat, cl: Client, daemon: Daemon)
    requires Run(states, actions) && i < |actions|
  {
    var a, s := actions[i], states[i];
    && a.Ask? && a.client == cl && a.request.event.forwardOk
    && var Contact(b, c) := s.clients[cl].contacts[a.contact];
    && c in s.brokers[b].server.targets
    && var sock := s.brokers[b].server.targets[c].sock;
    && sock in s.owner && s.owner[sock].daemon == daemon
  }

  /** Before step `n` the client with this connect id asked for the daemon. */
  ghost predicate Asked(states: seq<System>, actions: seq<Action>, n: nat, connectId: string, daemon: Daemon)
    requires Run(states, actions) && n <= |actions|
  {
    exists i, cl | 0 <= i < n :: AskedAt(states, actions, i, cl, daemon)
                              && cl in states[n].clients && states[n].clients[cl].connectId == connectId
  }

  /***** The inductive invariant at step `n`, in parts *****/

  ghost predicate SocketsOwned(s: System) {
    forall b, c | b in s.brokers && c in s.brokers[b].server.targets :: s.brokers[b].server.targets[c].sock in s.owner
  }

  ghost predicate BrokersOk(s: System) {
    forall b | b in s.brokers :: Consistent(s.brokers[b])
  }

  ghost predicate DistinctIds(s: System) {
    forall d, e | d in s.clients && e in s.clients && d != e :: s.clients[d].connectId != s.clients[e].connectId
  }

  /** Between events a client is quiescent, and it has a connection only once it has handed its socket back. */
  predicate ClientOk(st: ClientState) {
    && C.Quiescent(st.machine) && st.machine.contacts == WellFormed(|st.contacts|)
    && |st.attached| <= 1 && (st.attached != [] ==> !st.machine.target)
  }

  ghost predicate ClientsOk(s: System) {
    forall cl | cl in s.clients :: ClientOk(s.clients[cl])
  }

  ghost predicate ForwardsAsked(states: seq<System>, actions: seq<Action>, n: nat)
    requires Run(states, actions) && n <= |actions|
  {
    forall f | f in states[n].forwards ::
      f.sock in states[n].owner && Asked(states, actions, n, f.connectId, states[n].owner[f.sock].daemon)
  }

  ghost predicate HellosAsked(states: seq<System>, actions: seq<Action>, n: nat)
    requires Run(states, actions) && n <= |actions|
  {
    forall h | h in states[n].connecting || h in states[n].hellos :: Asked(states, actions, n, h.connectId, h.daemon)
  }

  ghost predicate AttachedAsked(states: seq<System>, actions: seq<Action>, n: nat)
    requires Run(states, actions) && n <= |actions|
  {
    forall cl, at | cl in states[n].clients && at in states[n].clients[cl].attached ::
      at.presented == states[n].clients[cl].connectId && Asked(states, actions, n, at.presented, at.daemon)
  }

  ghost predicate Honest(states: seq<System>, actions: seq<Action>, n: nat)
    requires Run(states, actions) && n <= |actions|
  {
    && BrokersOk(states[n]) && SocketsOwned(states[n]) && DistinctIds(states[n]) && ClientsOk(states[n])
    && ForwardsAsked(states, actions, n) && HellosAsked(states, actions, n) && AttachedAsked(states, actions, n)
  }

  /***** Brokers *****/

  /** A target's socket is an old target's, or the one that registers now. */
  lemma SocketOrigin(s: State, e: Event, c: CCBID)
    requires Enabled(s, e) && c in Step(s, e).targets
    ensures (c in s.targets && Step(s, e).targets[c].sock == s.targets[c].sock)
         || (e.Register? && Step(s, e).targets[c].sock == e.sock)
  {
    hide FreshSock, HandleRegistration, HandleRequest, HandleResult, Sweep, NextFree;
    match e
    case FromTarget(d, msg) => ResultSocket(s, d, msg, c);
    case Register(sock, ip, claim, cookie, now, replyOk) => RegisterSocket(s, sock, ip, claim, cookie, now, replyOk, c);
    case ClientRequest(sock, target, addr, k, ok) => RequestSocket(s, sock, target, addr, k, ok, c);
    case SweepTick(now, interval) => SweepTables(s, now, interval);
    case ClientGone(_) =>
  }

  lemma RegisterSocket(s: State, sock: Sock, ip: string, claim: Claim, cookie: CCBID, now: int, replyOk: bool, c: CCBID)
    requires |Used(s)| < ID_SPACE && c in HandleRegistration(s, sock, ip, claim, cookie, now, replyOk).targets
    ensures var t := HandleRegistration(s, sock, ip, claim, cookie, now, replyOk).targets[c];
            (c in s.targets && t.sock == s.targets[c].sock) || t.sock == sock
  {
    hide NextFree;
    var (s', d) := Registered(s, sock, ip, claim, cookie, now);
    assert c != d ==> c in s.targets && s'.targets[c] == s.targets[c];
  }

  lemma RequestSocket(s: State, sock: Sock, target: CCBID, addr: string, k: string, ok: bool, c: CCBID)
    requires |s.requests| < ID_SPACE && c in HandleRequest(s, sock, target, addr, k, ok).targets
    ensures c in s.targets && HandleRequest(s, sock, target, addr, k, ok).targets[c].sock == s.targets[c].sock
  {
    hide NextFree;
  }

  lemma ResultSocket(s: State, d: CCBID, msg: TargetMsg, c: CCBID)
    requires d in s.targets && c in HandleResult(s, d, msg).targets
    ensures c in s.targets && HandleResult(s, d, msg).targets[c].sock == s.targets[c].sock
  {
  }

  /** The same for a broker with its file; after a restart there are no targets. */
  lemma DurableSocket(d: Durable, e: DEvent, c: CCBID)
    requires DEnabled(d, e) && c in DStep(d, e).server.targets
    ensures (c in d.server.targets && DStep(d, e).server.targets[c].sock == d.server.targets[c].sock)
         || (e.Handle? && e.event.Register? && DStep(d, e).server.targets[c].sock == e.event.sock)
  {
    hide Step, Enabled, SaveAll, Listing, Replay;
    if e.Handle? {
      assert DStep(d, e).server == Step(d.server, e.event);
      SocketOrigin(d.server, e.event, c);
    }
  }

  /** The broker that an action concerns, and its step. */
  ghost function BrokerOf(s: System, a: Action): Option<(Broker, DEvent)>
    requires CanAct(s, a)
  {
    match a
    case Ask(cl, i, e) => Some((s.clients[cl].contacts[i].broker, e))
    case Enroll(sock, e) => Some((s.owner[sock].broker, e))
    case BrokerEvent(b, e) => Some((b, e))
    case _ => None
  }

  lemma BrokerSteps(s: System, a: Action)
    requires CanAct(s, a)
    ensures var o := BrokerOf(s, a);
            if o.None? then Act(s, a).brokers == s.brokers
            else
              var (b, e) := o.value;
              b in s.brokers && DEnabled(s.brokers[b], e) && Act(s, a).brokers == s.brokers[b := DStep(s.brokers[b], e)]
    ensures forall sock | sock in s.owner :: sock in Act(s, a).owner && Act(s, a).owner[sock] == s.owner[sock]
    ensures var o := BrokerOf(s, a);
            o.Some? && o.value.1.Handle? && o.value.1.event.Register? ==> o.value.1.event.sock in s.owner
  {
    hide DStep, DEnabled, C.Handle, L.Handle;
  }

  lemma OwnedStep(s: System, a: Action)
    requires CanAct(s, a) && SocketsOwned(s)
    ensures SocketsOwned(Act(s, a))
  {
    BrokerSteps(s, a);
    hide DStep, DEnabled, Act, CanAct;
    var s', o := Act(s, a), BrokerOf(s, a);
    forall b, c | b in s'.brokers && c in s'.brokers[b].server.targets
      ensures s'.brokers[b].server.targets[c].sock in s'.owner
    {
      if o.Some? && o.value.0 == b {
        DurableSocket(s.brokers[b], o.value.1, c);
      }
    }
  }

  lemma ServerStep(s: System, a: Action)
    requires CanAct(s, a) && BrokersOk(s)
    ensures BrokersOk(Act(s, a))
  {
    BrokerSteps(s, a);
    hide DStep, DEnabled, Act, CanAct, Consistent;
    var o := BrokerOf(s, a);
    if o.Some? {
      DStepKeeps(s.brokers[o.value.0], o.value.1);
    }
  }

  /***** Clients *****/

  lemma GoodContacts(m: C.Client, n: nat)
    requires m.contacts == WellFormed(n)
    ensures C.NextIsGood(m)
  {
  }

  /** A client that has handed its socket back can only be cancelled, which does nothing. */
  lemma DoneStays(m: C.Client, e: C.Event)
    requires C.Quiescent(m) && !m.target && C.Enabled(m, e) && !e.Start?
    ensures C.Handle(m, e) == C.Running(m)
  {
  }

  lemma MovedOk(m: C.Client, e: C.Event, n: nat)
    requires (C.Quiescent(m) || e.Start?) && C.Enabled(m, e) && m.contacts == WellFormed(n)
    ensures C.Quiescent(Moved(m, e)) && Moved(m, e).contacts == WellFormed(n)
    ensures C.Quiescent(m) && !m.target && !e.Start? ==> !Moved(m, e).target
    ensures e.ReverseConnect? ==> !Moved(m, e).target
  {
    hide C.Quiescent, C.TryNext, C.HandleResults;
    GoodContacts(m, n);
    C.HandleOk(m, e);
    if C.Quiescent(m) && !m.target && !e.Start? {
      DoneStays(m, e);
    }
  }

  lemma TableMeansSocket(m: C.Client)
    requires C.Quiescent(m) && m.inTable
    ensures m.target && C.Enabled(m, C.ReverseConnect)
  {
  }

  lemma ClientsStep(s: System, a: Action)
    requires CanAct(s, a) && ClientsOk(s)
    ensures ClientsOk(Act(s, a))
  {
    hide DStep, DEnabled, Moved, C.Quiescent, C.Enabled, L.Handle, L.Enabled, L.RightSocket, WellFormed;
    match a
    case NewClient(cl, k, contacts) => MovedOk(C.NewClient(WellFormed(|contacts|), 0), C.Start, |contacts|) by {
        FreshStarts(|contacts|);
      }
    case ClientEvent(cl, e) => MovedOk(s.clients[cl].machine, e, |s.clients[cl].contacts|);
    case Greet(h, cl) =>
      TableMeansSocket(s.clients[cl].machine);
      MovedOk(s.clients[cl].machine, C.ReverseConnect, |s.clients[cl].contacts|);
    case _ =>
  }

  lemma FreshStarts(n: nat)
    ensures C.Enabled(C.NewClient(WellFormed(n), 0), C.Start)
  {
  }

  /***** Whole runs *****/

  /** Clients and sockets stay, with their connect ids and owners. */
  lemma IdentitiesStay(s: System, a: Action)
    requires CanAct(s, a)
    ensures forall cl | cl in s.clients ::
              cl in Act(s, a).clients && Act(s, a).clients[cl].connectId == s.clients[cl].connectId
    ensures forall sock | sock in s.owner :: sock in Act(s, a).owner && Act(s, a).owner[sock] == s.owner[sock]
    ensures DistinctIds(s) ==> DistinctIds(Act(s, a))
  {
    BrokerSteps(s, a);
    ClientsStay(s, a);
    hide Act, CanAct;
  }

  /** A new client brings a new connect id; the others keep theirs. */
  lemma ClientsStay(s: System, a: Action)
    requires CanAct(s, a)
    ensures forall cl | cl in s.clients ::
              cl in Act(s, a).clients && Act(s, a).clients[cl].connectId == s.clients[cl].connectId
    ensures forall cl | cl in Act(s, a).clients && cl !in s.clients ::
              && (forall d | d in Act(s, a).clients && d !in s.clients :: d == cl)
              && (forall d | d in s.clients :: s.clients[d].connectId != Act(s, a).clients[cl].connectId)
  {
    hide DStep, DEnabled, Moved, C.Enabled, L.Handle, L.Enabled, L.RightSocket;
  }

  lemma AskedStays(states: seq<System>, actions: seq<Action>, n: nat, k: string, d: Daemon)
    requires Run(states, actions) && n < |actions| && Asked(states, actions, n, k, d)
    ensures Asked(states, actions, n + 1, k, d)
  {
    hide AskedAt, Act;
    var i, cl :| 0 <= i < n && AskedAt(states, actions, i, cl, d)
              && cl in states[n].clients && states[n].clients[cl].connectId == k;
    IdentitiesStay(states[n], actions[n]);
    assert AskedAt(states, actions, i, cl, d);
  }

  lemma ForwardsStep(states: seq<System>, actions: seq<Action>, n: nat)
    requires Run(states, actions) && n < |actions| && Honest(states, actions, n)
    ensures ForwardsAsked(states, actions, n + 1)
  {
    var s, a, s' := states[n], actions[n], states[n + 1];
    assert s' == Act(s, a);
    IdentitiesStay(s, a);
    hide Act, CanAct, BrokersOk, ClientsOk, Asked;
    forall f | f in s'.forwards
      ensures f.sock in s'.owner && Asked(states, actions, n + 1, f.connectId, s'.owner[f.sock].daemon)
    {
      if f in s.forwards {
        AskedStays(states, actions, n, f.connectId, s.owner[f.sock].daemon);
      } else {
        NewForward(states, actions, n, f);
      }
    }
  }

  /** The one action that forwards is an `Ask` for a registered identifier. */
  lemma NewForward(states: seq<System>, actions: seq<Action>, n: nat, f: Forward)
    requires Run(states, actions) && n < |actions| && SocketsOwned(states[n])
    requires f in states[n + 1].forwards && f !in states[n].forwards
    ensures f.sock in states[n + 1].owner
    ensures Asked(states, actions, n + 1, f.connectId, states[n + 1].owner[f.sock].daemon)
  {
    var s, a := states[n], actions[n];
    assert states[n + 1] == Act(s, a);
    hide DStep, DEnabled, Moved, C.Enabled, L.Handle, L.Enabled, L.RightSocket;
    assert a.Ask? && AskedAt(states, actions, n, a.client, s.owner[f.sock].daemon);
  }

  lemma HellosStep(states: seq<System>, actions: seq<Action>, n: nat)
    requires Run(states, actions) && n < |actions| && Honest(states, actions, n)
    ensures HellosAsked(states, actions, n + 1)
  {
    var s, a, s' := states[n], actions[n], states[n + 1];
    assert s' == Act(s, a);
    hide Act, CanAct, BrokersOk, ClientsOk, Asked;
    forall h | h in s'.connecting || h in s'.hellos
      ensures Asked(states, actions, n + 1, h.connectId, h.daemon)
    {
      if h in s.connecting || h in s.hellos {
        AskedStays(states, actions, n, h.connectId, h.daemon);
      } else {
        NewHello(s, a, h);
        AskedStays(states, actions, n, a.forward.connectId, s.owner[a.forward.sock].daemon);
      }
    }
  }

  /** The one action that makes a daemon connect back is the delivery of a forwarded request on one of its sockets. */
  lemma NewHello(s: System, a: Action, h: Hello)
    requires CanAct(s, a) && (h in Act(s, a).connecting || h in Act(s, a).hellos) && h !in s.connecting && h !in s.hellos
    ensures a.Deliver? && a.forward in s.forwards && a.forward.sock in s.owner
    ensures h.connectId == a.forward.connectId && h.daemon == s.owner[a.forward.sock].daemon
  {
    hide DStep, DEnabled, Moved, C.Enabled, L.Handle, L.Enabled, L.RightSocket;
  }

  /** The one action that attaches is a `Greet` whose hello presents the client's connect id. */
  lemma NewAttachment(s: System, a: Action, cl: Client, at: Attachment)
    requires CanAct(s, a) && cl in Act(s, a).clients && at in Act(s, a).clients[cl].attached
    requires !(cl in s.clients && at in s.clients[cl].attached)
    ensures a.Greet? && a.client == cl && at == Attachment(a.hello.daemon, a.hello.connectId) && a.hello in s.hellos
    ensures cl in s.clients && s.clients[cl].connectId == a.hello.connectId
  {
    hide DStep, DEnabled, Moved, C.Enabled, L.Handle, L.Enabled, L.RightSocket;
  }

  lemma AttachedStep(states: seq<System>, actions: seq<Action>, n: nat)
    requires Run(states, actions) && n < |actions| && Honest(states, actions, n)
    ensures AttachedAsked(states, actions, n + 1)
  {
    var s, a, s' := states[n], actions[n], states[n + 1];
    assert s' == Act(s, a);
    IdentitiesStay(s, a);
    hide Act, CanAct, BrokersOk, ClientsOk, Asked, DistinctIds, SocketsOwned;
    forall cl, at | cl in s'.clients && at in s'.clients[cl].attached
      ensures at.presented == s'.clients[cl].connectId && Asked(states, actions, n + 1, at.presented, at.daemon)
    {
      if !(cl in s.clients && at in s.clients[cl].attached) {
        NewAttachment(s, a, cl, at);
      }
      AskedStays(states, actions, n, at.presented, at.daemon);
    }
  }

  lemma {:induction false} AlwaysHonest(states: seq<System>, actions: seq<Action>, n: nat)
    requires Run(states, actions) && n <= |actions|
    ensures Honest(states, actions, n)
  {
    hide Act, CanAct, Consistent, ClientOk;
    if n > 0 {
      AlwaysHonest(states, actions, n - 1);
      var s, a := states[n - 1], actions[n - 1];
      assert states[n] == Act(s, a);
      OwnedStep(s, a);
      ServerStep(s, a);
      ClientsStep(s, a);
      IdentitiesStay(s, a);
      ForwardsStep(states, actions, n - 1);
      HellosStep(states, actions, n - 1);
      AttachedStep(states, actions, n - 1);
    }
  }

  /**
    In every run, at every point: a connection attached to a client presented that client's connect
    id, and came from a daemon that was registered under one of the client's contacts at the moment
    its request was forwarded.
   */
  lemma AttachedToRequestedTarget(states: seq<System>, actions: seq<Action>, n: nat, cl: Client, at: Attachment)
    requires Run(states, actions) && n <= |actions|
    requires cl in states[n].clients && at in states[n].clients[cl].attached
    ensures at.presented == states[n].clients[cl].connectId
    ensures exists i | 0 <= i < n :: AskedAt(states, actions, i, cl, at.daemon)
  {
    hide Act, CanAct, Consistent, ClientOk, AskedAt;
    AlwaysHonest(states, actions, n);
    var i, other :| 0 <= i < n && AskedAt(states, actions, i, other, at.daemon)
                 && other in states[n].clients && states[n].clients[other].connectId == at.presented;
    assert other == cl;
  }

  /** In every run a client gets at most one connection, and none while it holds its socket or waits in the table. */
  lemma AttachedOnce(states: seq<System>, actions: seq<Action>, n: nat, cl: Client)
    requires Run(states, actions) && n <= |actions| && cl in states[n].clients
    ensures |states[n].clients[cl].attached| <= 1
    ensures states[n].clients[cl].machine.target || states[n].clients[cl].machine.inTable ==> states[n].clients[cl].attached == []
  {
    hide Act, CanAct, Consistent;
    AlwaysHonest(states, actions, n);
  }

  /** In every run every broker's tables are consistent and its file reproduces its records, restarts included. */
  lemma BrokersStayConsistent(states: seq<System>, actions: seq<Action>, n: nat, b: Broker)
    requires Run(states, actions) && n <= |actions| && b in states[n].brokers
    ensures Consistent(states[n].brokers[b])
  {
    hide Act, CanAct, Consistent;
    AlwaysHonest(states, actions, n);
  }
}
