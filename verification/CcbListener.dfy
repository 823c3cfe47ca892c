/**
  The target daemon's side: a listener that keeps itself registered with a broker, reconnecting when
  the connection fails, and checks with heartbeats that the broker is still there.
 */
module CcbListener {
  import opened Options

  /** A periodic timer: its next expiry and its period. */
  datatype Timer = Timer(due: int, period: int)

  datatype Listener = Listener(
    sock: Option<nat>,
    waitingForConnect: bool,
    waitingForRegistration: bool,
    registered: bool,
    reconnectTimer: bool,
    heartbeat: Option<Timer>,
    interval: int,
    lastContact: int,
    heartbeatDisabled: bool,
    heartbeatInitialized: bool)

  function NewListener(interval: int): Listener {
    Listener(None, false, false, false, false, None, interval, 0, false, false)
  }

  /** The connection is gone: drop it and plan to reconnect. */
  function Disconnected(l: Listener): Listener {
    l.(sock := None, waitingForRegistration := false, registered := false, heartbeat := None, reconnectTimer := true)
  }

  /** A message to the broker over the current socket, if there is one. */
  function Write(l: Listener, ok: bool): Listener {
    if l.sock.None? || ok then l else Disconnected(l)
  }

  /** Start registering: connect first, or send the registration over a connected socket. */
  function RegisterWithServer(l: Listener, newSock: nat, writeOk: bool): Listener {
    if l.waitingForConnect || l.reconnectTimer || l.waitingForRegistration || l.registered then l
    else if l.sock.None? then l.(sock := Some(newSock), waitingForConnect := true)
    else if writeOk then l.(waitingForRegistration := true)
    else Disconnected(l)
  }

  /** Restart the heartbeat timer after contact with the broker; `tooOld` brokers do not answer heartbeats. */
  function RescheduleHeartbeat(l: Listener, now: int, tooOld: bool): Listener {
    if !l.heartbeatInitialized && l.sock.None? then l
    else
      var h := if l.heartbeatInitialized then l
               else l.(heartbeatInitialized := true, heartbeatDisabled := 0 < l.interval && tooOld);
      if h.interval <= 0 || h.heartbeatDisabled then h.(heartbeat := None)
      else if h.sock.None? then h
      else
        var wait := h.interval - (now - h.lastContact);
        var next := if wait < 0 || wait > h.interval then 0 else wait;
        h.(lastContact := if h.heartbeat.None? then now else h.lastContact,
           heartbeat := Some(Timer(now + next, h.interval)))
  }

  datatype Message = RegistrationReply | Request | Heartbeat | Unknown | Unreadable

  datatype Event =
    | Connect(sock: nat, ok: bool, writeOk: bool, now: int, tooOld: bool)
    | ReconnectTime(newSock: nat)
    | Receive(msg: Message, now: int, tooOld: bool)
    | HeartbeatTime(now: int, writeOk: bool)
    | ReportResult(writeOk: bool)

  /** A handler runs to its end or trips an assertion. */
  datatype Outcome = Running(listener: Listener) | Aborted

  /** The non-blocking connect finished; it must be the one this listener is waiting for. */
  function Connected(l: Listener, sock: nat, ok: bool, writeOk: bool, now: int, tooOld: bool): Outcome {
    var l := l.(waitingForConnect := false);
    if l.sock != Some(sock) then Aborted
    else if ok then Running(RegisterWithServer(RescheduleHeartbeat(l.(lastContact := now), now, tooOld), 0, writeOk))
    else Running(Disconnected(l))
  }

  function ReadMessage(l: Listener, msg: Message, now: int, tooOld: bool): Listener {
    if l.sock.None? then l
    else if msg.Unreadable? then Disconnected(l)
    else
      var l := RescheduleHeartbeat(l.(lastContact := now), now, tooOld);
      if msg.RegistrationReply? then l.(waitingForRegistration := false, registered := true) else l
  }

  /** Give up on a broker that has been silent for more than three intervals, else send a heartbeat. */
  function Beat(l: Listener, now: int, writeOk: bool): Listener {
    if now - l.lastContact > 3 * l.interval then Disconnected(l) else Write(l, writeOk)
  }

  /** The timer's own step: its next expiry. */
  function Tick(l: Listener): Listener
    requires l.heartbeat.Some?
  {
    l.(heartbeat := Some(Timer(l.heartbeat.value.due + l.heartbeat.value.period, l.heartbeat.value.period)))
  }

  /** What the runtime may deliver: callbacks of pending operations, timers that are set, sockets that are registered. */
  predicate Enabled(l: Listener, e: Event) {
    match e
    case Connect(sock, _, _, _, _) => l.waitingForConnect
    case ReconnectTime(_) => l.reconnectTimer
    case Receive(_, _, _) => l.sock.Some? && !l.waitingForConnect
    case HeartbeatTime(now, _) => l.heartbeat.Some? && now == l.heartbeat.value.due
    case ReportResult(_) => true
  }

  function Handle(l: Listener, e: Event): Outcome
    requires Enabled(l, e)
  {
    match e
    case Connect(sock, ok, writeOk, now, tooOld) => Connected(l, sock, ok, writeOk, now, tooOld)
    case ReconnectTime(newSock) => Running(RegisterWithServer(l.(reconnectTimer := false), newSock, true))
    case Receive(msg, now, tooOld) => Running(ReadMessage(l, msg, now, tooOld))
    case HeartbeatTime(now, writeOk) => Running(Beat(Tick(l), now, writeOk))
    case ReportResult(writeOk) => Running(Write(l, writeOk))
  }

  /***** The mode of a started listener *****/

  function B(b: bool): nat {
    if b then 1 else 0
  }

  /** Exactly one of: connecting, awaiting the registration reply, registered, waiting to reconnect. */
  predicate OneMode(l: Listener) {
    B(l.waitingForConnect) + B(l.waitingForRegistration) + B(l.registered) + B(l.reconnectTimer) == 1
  }

  predicate Ok(l: Listener) {
    && OneMode(l)
    && (l.sock.None? <==> l.reconnectTimer)
    && (l.heartbeat.Some? ==> l.waitingForRegistration || l.registered)
  }

  /** The one event that spoils the mode: a result that cannot be sent while a connect is pending. */
  predicate Spoils(l: Listener, e: Event) {
    e.ReportResult? && !e.writeOk && l.waitingForConnect
  }

  /** The connect callback is for the socket of the pending connect. */
  predicate RightSocket(l: Listener, e: Event) {
    e.Connect? ==> l.sock == Some(e.sock)
  }

  lemma StepKeeps(l: Listener, e: Event)
    requires Ok(l) && Enabled(l, e) && RightSocket(l, e)
    ensures Handle(l, e).Running?
    ensures Ok(Handle(l, e).listener) <==> !Spoils(l, e)
  {
    match e
    case Connect(sock, ok, writeOk, now, tooOld) => RescheduleFlags(l.(waitingForConnect := false, lastContact := now), now, tooOld);
    case Receive(msg, now, tooOld) => RescheduleFlags(l.(lastContact := now), now, tooOld);
    case _ =>
  }

  /** Rescheduling touches heartbeat fields only, and sets a timer only with a socket. */
  lemma RescheduleFlags(l: Listener, now: int, tooOld: bool)
    ensures var h := RescheduleHeartbeat(l, now, tooOld);
            && h == l.(heartbeat := h.heartbeat, lastContact := h.lastContact, heartbeatDisabled := h.heartbeatDisabled,
                       heartbeatInitialized := h.heartbeatInitialized)
            && (h.heartbeat.Some? ==> l.sock.Some? || l.heartbeat.Some?)
  {
  }

  /** The same mode over the same socket. */
  predicate SameMode(l: Listener, l': Listener) {
    && l'.sock == l.sock && l'.waitingForConnect == l.waitingForConnect && l'.waitingForRegistration == l.waitingForRegistration
    && l'.registered == l.registered && l'.reconnectTimer == l.reconnectTimer
  }

  /** An event that ends the connection, if there is one. */
  predicate Loses(l: Listener, e: Event) {
    match e
    case Connect(_, ok, writeOk, _, _) => !ok || !writeOk
    case Receive(msg, _, _) => msg.Unreadable?
    case HeartbeatTime(now, writeOk) => now - l.lastContact > 3 * l.interval || !writeOk
    case ReportResult(writeOk) => l.sock.Some? && !writeOk
    case ReconnectTime(_) => false
  }

  /**
    Where every event leads: a lost connection to waiting for a reconnect, the end of that wait to a new connect, a connect to
    waiting for the reply, the reply to being registered. Nothing else changes the mode.
   */
  lemma Moves(l: Listener, e: Event)
    requires Ok(l) && Enabled(l, e) && RightSocket(l, e)
    ensures var l' := Handle(l, e).listener;
            && (Loses(l, e) ==> l'.reconnectTimer && l'.sock.None? && !l'.registered && !l'.waitingForRegistration)
            && (e.ReconnectTime? ==> l'.waitingForConnect && l'.sock == Some(e.newSock))
            && (e.Connect? && !Loses(l, e) ==> l'.waitingForRegistration && l'.sock == l.sock)
            && (e.Receive? && e.msg.RegistrationReply? ==> l'.registered && l'.sock == l.sock)
            && (!Loses(l, e) && !e.ReconnectTime? && !e.Connect? && !(e.Receive? && e.msg.RegistrationReply?) ==> SameMode(l, l'))
  {
    StepKeeps(l, e);
    match e
    case Connect(sock, ok, writeOk, now, tooOld) => RescheduleFlags(l.(waitingForConnect := false, lastContact := now), now, tooOld);
    case Receive(msg, now, tooOld) => RescheduleFlags(l.(lastContact := now), now, tooOld);
    case _ =>
  }

  /** Heartbeats are off: decided before, or now, at the first contact, for a broker that is too old to answer them. */
  predicate HeartbeatsOff(l: Listener, tooOld: bool) {
    if l.heartbeatInitialized then l.heartbeatDisabled else 0 < l.interval && tooOld
  }

  /** With a socket the timer is set exactly if heartbeats are on, to expire within one interval of now. */
  lemma RescheduleTimer(l: Listener, now: int, tooOld: bool)
    requires l.sock.Some?
    ensures var h := RescheduleHeartbeat(l, now, tooOld);
            && h.heartbeatInitialized && h.heartbeatDisabled == HeartbeatsOff(l, tooOld)
            && (h.heartbeat.Some? <==> 0 < l.interval && !HeartbeatsOff(l, tooOld))
            && (h.heartbeat.Some? ==>
                  && now <= h.heartbeat.value.due <= now + h.interval && h.heartbeat.value.period == h.interval
                  && (l.lastContact == now ==> h.heartbeat.value.due == now + h.interval && h.lastContact == now))
  {
  }

  /** A timer runs out one interval after the last contact, or at once if that has passed. */
  lemma RescheduleDue(l: Listener, now: int, tooOld: bool)
    requires l.sock.Some? && 0 < l.interval && !HeartbeatsOff(l, tooOld) && l.lastContact <= now
    ensures RescheduleHeartbeat(l, now, tooOld).heartbeat.Some?
    ensures RescheduleHeartbeat(l, now, tooOld).heartbeat.value.due
         == if now <= l.lastContact + l.interval then l.lastContact + l.interval else now
    ensures l.heartbeat.Some? ==> RescheduleHeartbeat(l, now, tooOld).lastContact == l.lastContact
  {
  }

  /** Without a socket no timer is set, and one that runs stays only if heartbeats are on. */
  lemma RescheduleLater(l: Listener, now: int, tooOld: bool)
    requires l.sock.None?
    ensures RescheduleHeartbeat(l, now, tooOld)
         == if l.heartbeatInitialized && (l.interval <= 0 || l.heartbeatDisabled) then l.(heartbeat := None) else l
  {
  }

  /** After the spoiling event the pending connect's callback trips the assertion on its socket. */
  lemma SpoiledAborts(l: Listener, sock: nat, ok: bool, writeOk: bool, now: int, tooOld: bool)
    requires Ok(l) && l.waitingForConnect
    ensures var l' := Handle(l, ReportResult(false)).listener;
            Enabled(l', Connect(sock, ok, writeOk, now, tooOld)) && Handle(l', Connect(sock, ok, writeOk, now, tooOld)).Aborted?
  {
  }

  /** Starting from nothing, a non-blocking registration puts the listener into a mode. */
  lemma StartOk(interval: int, newSock: nat)
    ensures Ok(RegisterWithServer(NewListener(interval), newSock, true))
  {
  }

  /** A run without the spoiling event. */
  predicate GoodRun(l: Listener, events: seq<Event>)
    decreases |events|
  {
    events == [] ||
    (&& Enabled(l, events[0]) && RightSocket(l, events[0]) && !Spoils(l, events[0])
     && (Handle(l, events[0]).Running? ==> GoodRun(Handle(l, events[0]).listener, events[1..])))
  }

  function After(l: Listener, events: seq<Event>): Outcome
    requires GoodRun(l, events)
    decreases |events|
  {
    if events == [] then Running(l)
    else match Handle(l, events[0])
         case Aborted => Aborted
         case Running(l') => After(l', events[1..])
  }

  /** After every run the listener is in exactly one mode, and some event is still to come: it never gets stuck. */
  lemma {:induction false} NeverStuck(l: Listener, events: seq<Event>)
    requires Ok(l) && GoodRun(l, events)
    ensures After(l, events).Running? && Ok(After(l, events).listener)
    ensures var l' := After(l, events).listener;
            || (l'.reconnectTimer && forall s :: Enabled(l', ReconnectTime(s)))
            || (l'.waitingForConnect && forall ok, w, t, o :: Enabled(l', Connect(l'.sock.value, ok, w, t, o)))
            || ((l'.waitingForRegistration || l'.registered) && forall m, t, o :: Enabled(l', Receive(m, t, o)))
    decreases |events|
  {
    if events != [] {
      StepKeeps(l, events[0]);
      NeverStuck(Handle(l, events[0]).listener, events[1..]);
    }
  }

  /***** A silent broker *****/

  /** The listener after `n` further heartbeats at their exact times, all sent, and no message received. */
  function Silence(l: Listener, n: nat): Listener
    decreases n
  {
    if n == 0 || l.heartbeat.None? then l
    else Silence(Beat(Tick(l), l.heartbeat.value.due, true), n - 1)
  }

  /** A registered listener that has just heard from the broker. */
  predicate JustHeard(l: Listener, now: int) {
    && Ok(l) && l.sock.Some? && 0 < l.interval && l.lastContact == now
    && l.heartbeat == Some(Timer(now + l.interval, l.interval))
  }

  /** Every message from a broker that supports heartbeats restarts the count. */
  lemma ContactRestarts(l: Listener, msg: Message, now: int, tooOld: bool)
    requires Ok(l) && l.sock.Some? && !l.waitingForConnect && !msg.Unreadable?
    requires 0 < l.interval && l.heartbeatInitialized && !l.heartbeatDisabled
    ensures JustHeard(ReadMessage(l, msg, now, tooOld), now)
  {
  }

  /** From then on silence is tolerated for three heartbeats; at the fourth the connection is dropped. */
  lemma DroppedAtFourth(l: Listener, now: int, n: nat)
    requires JustHeard(l, now)
    ensures n <= 3 ==> Silence(l, n) == l.(heartbeat := Some(Timer(now + (n + 1) * l.interval, l.interval)))
    ensures n >= 4 ==> Silence(l, n) == Disconnected(l)
  {
    var l1 := Beat(Tick(l), now + l.interval, true);
    var l2 := Beat(Tick(l1), now + 2 * l.interval, true);
    var l3 := Beat(Tick(l2), now + 3 * l.interval, true);
    var l4 := Beat(Tick(l3), now + 4 * l.interval, true);
    assert l4 == Disconnected(l);
    if n >= 1 { assert Silence(l, n) == Silence(l1, n - 1); }
    if n >= 2 { assert Silence(l1, n - 1) == Silence(l2, n - 2); }
    if n >= 3 { assert Silence(l2, n - 2) == Silence(l3, n - 3); }
    if n >= 4 { assert Silence(l3, n - 3) == Silence(l4, n - 4); }
  }

  /***** The object *****/

  /** In no mode yet: new, or between two modes inside a handler. */
  predicate Idle(l: Listener) {
    && !l.waitingForConnect && !l.waitingForRegistration && !l.registered && !l.reconnectTimer
    && (l.sock.None? ==> l.heartbeat.None?)
  }

  class CCBListener {
    var sock: Option<nat>
    var waitingForConnect: bool
    var waitingForRegistration: bool
    var registered: bool
    var reconnectTimer: bool
    var heartbeat: Option<Timer>
    var interval: int
    var lastContact: int
    var heartbeatDisabled: bool
    var heartbeatInitialized: bool

    function View(): Listener
      reads this
    {
      Listener(sock, waitingForConnect, waitingForRegistration, registered, reconnectTimer, heartbeat, interval,
               lastContact, heartbeatDisabled, heartbeatInitialized)
    }

    constructor (interval: int)
      ensures View() == NewListener(interval) && Idle(View())
    {
      sock, waitingForConnect, waitingForRegistration, registered := None, false, false, false;
      reconnectTimer, heartbeat, this.interval, lastContact := false, None, interval, 0;
      heartbeatDisabled, heartbeatInitialized := false, false;
    }

    /** Whatever the mode was, the listener now waits to reconnect and nothing else, unless a connect is pending. */
    method Disconnect()
      modifies this
      ensures View() == Disconnected(old(View()))
      ensures reconnectTimer && (Ok(View()) <==> !waitingForConnect)
    {
      if sock.Some? {
        sock := None;
      }
      waitingForRegistration := false;
      registered := false;
      heartbeat := None;
      if reconnectTimer {
        return;
      }
      reconnectTimer := true;
    }

    /** A message to the broker: the mode stays proper exactly unless sending fails while a connect is pending. */
    method WriteMsgToCCB(ok: bool)
      modifies this
      ensures View() == Write(old(View()), ok)
      ensures old(Ok(View())) ==> (Ok(View()) <==> !Spoils(old(View()), ReportResult(ok)))
    {
      if sock.Some? && !ok {
        Disconnect();
      }
    }

    /** From no mode into a proper one; in a mode nothing happens. */
    method RegisterWithCCBServer(newSock: nat, writeOk: bool)
      modifies this
      ensures View() == RegisterWithServer(old(View()), newSock, writeOk)
      ensures old(Ok(View())) ==> View() == old(View())
      ensures old(Idle(View())) ==>
                Ok(View()) && waitingForConnect == old(sock.None?) && waitingForRegistration == (old(sock.Some?) && writeOk)
    {
      if waitingForConnect || reconnectTimer || waitingForRegistration || registered {
        return;
      }
      if sock.None? {
        sock := Some(newSock);
        waitingForConnect := true;
      } else {
        WriteMsgToCCB(writeOk);
        if writeOk {
          waitingForRegistration := true;
        }
      }
    }

    /**
      The mode stays as it is. With a socket the timer, if heartbeats are on, expires within one interval from
      now, and after exactly one if the broker was heard just now.
     */
    method Reschedule(now: int, tooOld: bool)
      modifies this
      ensures View() == RescheduleHeartbeat(old(View()), now, tooOld)
      ensures sock == old(sock) && waitingForConnect == old(waitingForConnect) && registered == old(registered)
      ensures waitingForRegistration == old(waitingForRegistration) && reconnectTimer == old(reconnectTimer)
      ensures old(Ok(View())) && !waitingForConnect ==> Ok(View())
      ensures old(Idle(View())) ==> Idle(View())
      ensures sock.Some? ==> (heartbeat.Some? <==> 0 < interval && !heartbeatDisabled)
      ensures sock.Some? && heartbeat.Some? ==>
                && now <= heartbeat.value.due <= now + interval && heartbeat.value.period == interval
                && (old(lastContact) == now ==> heartbeat.value.due == now + interval && lastContact == now)
    {
      hide RescheduleHeartbeat;
      RescheduleFlags(View(), now, tooOld);
      if sock.Some? {
        RescheduleTimer(View(), now, tooOld);
      }
      SetTimer(now, tooOld);
    }

    method SetTimer(now: int, tooOld: bool)
      modifies this
      ensures View() == RescheduleHeartbeat(old(View()), now, tooOld)
    {
      if !heartbeatInitialized {
        if sock.None? {
          return;
        }
        heartbeatInitialized := true;
        heartbeatDisabled := false;
        if interval > 0 && tooOld {
          heartbeatDisabled := true;
        }
      }
      if interval <= 0 || heartbeatDisabled {
        heartbeat := None;
        heartbeatInitialized := true;
      } else if sock.Some? {
        var next := interval - (now - lastContact);
        if next < 0 || next > interval {
          next := 0;
        }
        if heartbeat.None? {
          lastContact := now;
        }
        heartbeat := Some(Timer(now + next, interval));
      }
    }

    /** The connect callback: the registration is sent at once, or the listener waits to reconnect. */
    method CCBConnectCallback(s: nat, ok: bool, writeOk: bool, now: int, tooOld: bool)
      requires Ok(View()) && waitingForConnect && sock == Some(s)
      modifies this
      ensures Running(View()) == Connected(old(View()), s, ok, writeOk, now, tooOld)
      ensures Ok(View()) && !waitingForConnect && !registered
      ensures waitingForRegistration == (ok && writeOk)
    {
      hide RescheduleHeartbeat;
      waitingForConnect := false;
      if ok {
        lastContact := now;
        assert Idle(View());
        Reschedule(now, tooOld);
        RegisterWithCCBServer(0, writeOk);
      } else {
        sock := None;
        Disconnect();
      }
    }

    /** From waiting to reconnect to connecting. */
    method ReconnectTimeExpired(newSock: nat)
      requires Ok(View()) && reconnectTimer
      modifies this
      ensures Running(View()) == Handle(old(View()), ReconnectTime(newSock))
      ensures Ok(View()) && waitingForConnect && sock == Some(newSock)
    {
      reconnectTimer := false;
      RegisterWithCCBServer(newSock, true);
    }

    /** A reply registers the listener; any readable message restarts the heartbeat; an unreadable one means to reconnect. */
    method ReadMsgFromCCB(msg: Message, now: int, tooOld: bool)
      requires Ok(View()) && !waitingForConnect
      modifies this
      ensures View() == ReadMessage(old(View()), msg, now, tooOld)
      ensures Ok(View()) && reconnectTimer == (old(reconnectTimer) || msg.Unreadable?)
      ensures registered == (!reconnectTimer && (old(registered) || msg.RegistrationReply?))
      ensures !reconnectTimer && heartbeat.Some? ==> JustHeard(View(), now)
    {
      hide RescheduleHeartbeat;
      if sock.None? {
        return;
      }
      if msg.Unreadable? {
        Disconnect();
        return;
      }
      lastContact := now;
      Reschedule(now, tooOld);
      if msg.RegistrationReply? {
        waitingForRegistration := false;
        registered := true;
      }
    }

    /** The handler of the heartbeat timer, which re-arms itself: a broker silent for too long, or out of reach, is dropped. */
    method Heartbeat(now: int, writeOk: bool)
      requires Ok(View()) && heartbeat.Some?
      modifies this
      ensures View() == Beat(Tick(old(View())), now, writeOk)
      ensures Ok(View()) && (reconnectTimer <==> now - lastContact > 3 * interval || !writeOk)
      ensures !reconnectTimer ==> registered == old(registered) && heartbeat.Some?
    {
      heartbeat := Some(Timer(heartbeat.value.due + heartbeat.value.period, heartbeat.value.period));
      if now - lastContact > 3 * interval {
        Disconnect();
        return;
      }
      WriteMsgToCCB(writeOk);
    }
  }
}
