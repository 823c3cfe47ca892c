/**
  The non-blocking client: it asks one broker after another for a reverse connection and waits in a
  table, under its connect id, until a connection arrives, the brokers are used up, the deadline
  expires or the caller cancels.
 */
module CcbClient {
  import opened Options

  /** A client; `contacts` says of each broker contact whether it is well-formed. */
  datatype Client = Client(
    contacts: seq<bool>,
    next: nat,                // the contact to try next
    target: bool,             // the socket to be completed is still ours
    cb: Option<nat>,          // the last request's callback
    timer: bool,
    inTable: bool,
    external: nat,            // references held by others
    refs: int,
    // history
    live: set<nat>,           // callbacks registered and not cancelled
    sent: seq<nat>,           // contacts asked, in order
    completions: nat)

  function NewClient(contacts: seq<bool>, external: nat): Client {
    Client(contacts, 0, true, None, false, false, external, external, {}, [], 0)
  }

  /** A handler runs to its end or trips one of its assertions. */
  datatype Outcome = Running(client: Client) | Aborted

  /** Enter the waiting table and make sure there is a deadline; a second entry is refused. */
  function Register(c: Client): Outcome {
    if c.inTable then Aborted else Running(c.(timer := true, inTable := true, refs := c.refs + 1))
  }

  /** Cancel the deadline and leave the table. */
  function Unregister(c: Client): Outcome {
    if c.inTable then Running(c.(timer := false, inTable := false, refs := c.refs - 1)) else Aborted
  }

  /** Hand the socket back, connected or not; a request still under way is cancelled. */
  function Complete(c: Client): Outcome {
    if !c.target then Aborted
    else
      var done := c.(target := false, completions := c.completions + 1);
      Unregister(if c.cb.Some? then done.(live := c.live - {c.cb.value}, refs := c.refs - 1) else done)
  }

  /** Register and ask the next broker; with none left, complete without a connection. */
  function TryNext(c: Client): Outcome
    decreases |c.contacts| - c.next
  {
    match Register(c)
    case Aborted => Aborted
    case Running(r) =>
      if c.next >= |c.contacts| then Complete(r)
      else if !c.contacts[c.next] then TryNext(r.(next := c.next + 1))
      else
        Running(r.(next := c.next + 1, cb := Some(c.next), live := r.live + {c.next},
                   sent := r.sent + [c.next], refs := r.refs + 1))
  }

  datatype Event =
    | Start
    | Results(cb: nat, delivered: bool, success: bool)
    | ReverseConnect
    | Deadline
    | Cancel

  /** The broker answered: on failure go on to the next broker; the request's reference goes last. */
  function HandleResults(c: Client, cb: nat, delivered: bool, success: bool): Outcome {
    var c := c.(cb := None, live := c.live - {cb});
    if delivered && success then Running(c.(refs := c.refs - 1))
    else
      match Unregister(c)
      case Aborted => Aborted
      case Running(u) =>
        match TryNext(u)
        case Aborted => Aborted
        case Running(t) => Running(t.(refs := t.refs - 1))
  }

  /** When the runtime delivers an event. */
  predicate Enabled(c: Client, e: Event) {
    match e
    case Start => c == NewClient(c.contacts, c.external)
    case Results(cb, _, _) => cb in c.live
    case ReverseConnect => c.inTable
    case Deadline => c.timer
    case Cancel => c.inTable || c.completions > 0
  }

  function Handle(c: Client, e: Event): Outcome {
    match e
    case Start => TryNext(c)
    case Results(cb, delivered, success) => HandleResults(c, cb, delivered, success)
    case ReverseConnect => Complete(c)
    case Deadline => if c.target then Complete(c.(timer := false)) else Running(c.(timer := false))
    case Cancel => if c.target then Complete(c) else Running(c)
  }

  /***** Between events *****/

  /** The first `n` contacts, each once and in order: none was skipped. */
  predicate AllBefore(s: seq<nat>, n: nat) {
    |s| == n && forall i | 0 <= i < n :: s[i] == i
  }

  /** Started or not: the books balance, and all contacts before the next one were asked. */
  predicate Balanced(c: Client) {
    && c.timer == c.inTable
    && c.live == (if c.inTable && c.cb.Some? then {c.cb.value} else {})
    && c.refs == c.external + (if c.inTable then 1 else 0) + |c.live|
    && AllBefore(c.sent, c.next) && c.next <= |c.contacts|
    && (c.cb.Some? ==> c.cb.value < c.next)
    && c.completions == if c.target then 0 else 1
  }

  /**
    A started client is in the waiting table exactly while it still holds the socket. Once the
    socket is handed back there is no timer, no table entry and no live callback.
   */
  predicate Quiescent(c: Client) {
    Balanced(c) && c.inTable == c.target
  }

  predicate Same(c: Client, d: Client) {
    c.contacts == d.contacts && c.external == d.external
  }

  /** The next broker contact is not malformed. */
  predicate NextIsGood(c: Client) {
    c.next < |c.contacts| ==> c.contacts[c.next]
  }

  /**
    Asking the next broker is fine exactly when its contact is well-formed: a malformed one makes
    the client register itself a second time.
   */
  lemma TryNextOk(c: Client)
    requires Balanced(c) && c.target && !c.inTable && c.cb.None?
    ensures TryNext(c).Running? <==> NextIsGood(c)
    ensures TryNext(c).Running? ==> Quiescent(TryNext(c).client) && Same(c, TryNext(c).client)
  {
  }

  /** Whether an event makes the client ask another broker. */
  predicate Asks(c: Client, e: Event) {
    e.Start? || (e.Results? && !(e.delivered && e.success))
  }

  /** Every event of a quiescent client leaves it quiescent, unless it runs into a malformed contact. */
  lemma HandleOk(c: Client, e: Event)
    requires (Quiescent(c) || e.Start?) && Enabled(c, e)
    ensures Handle(c, e).Aborted? <==> Asks(c, e) && !NextIsGood(c)
    ensures Handle(c, e).Running? ==> Quiescent(Handle(c, e).client) && Same(c, Handle(c, e).client)
  {
    hide TryNext, HandleResults;
    match e
    case Start => TryNextOk(c);
    case Results(cb, delivered, success) =>
      ResultsOk(c, cb, delivered, success);
    case _ =>
  }

  lemma ResultsOk(c: Client, cb: nat, delivered: bool, success: bool)
    requires Quiescent(c) && cb in c.live
    ensures var r := HandleResults(c, cb, delivered, success);
            && (r.Aborted? <==> !(delivered && success) && !NextIsGood(c))
            && (r.Running? ==> Quiescent(r.client) && Same(c, r.client))
  {
    hide TryNext;
    if !(delivered && success) {
      var u := Unregister(c.(cb := None, live := c.live - {cb})).client;
      TryNextOk(u.(refs := u.refs - 1));
      TryNextRefs(u.(refs := u.refs - 1), 1);
    }
  }

  /** The reference count is only added to. */
  lemma TryNextRefs(c: Client, n: int)
    requires !c.inTable && c.target && c.cb.None?
    ensures TryNext(c).Running? <==> TryNext(c.(refs := c.refs + n)).Running?
    ensures TryNext(c).Running? ==>
              TryNext(c.(refs := c.refs + n)).client == TryNext(c).client.(refs := TryNext(c).client.refs + n)
  {
  }

  /** The first contact is asked at the start, and after each failure the one right behind the last. */
  lemma AsksNext(c: Client, e: Event)
    requires (Quiescent(c) || e.Start?) && Enabled(c, e) && Handle(c, e).Running?
    ensures var c' := Handle(c, e).client;
            if Asks(c, e) && c.next < |c.contacts|
            then c'.sent == c.sent + [c.next] && c'.next == c.next + 1 && c'.cb == Some(c.next) && c.next in c'.live
            else c'.sent == c.sent && c'.next == c.next
  {
    HandleOk(c, e);
    hide HandleResults;
    if e.Results? {
      ResultsAsk(c, e.cb, e.delivered, e.success);
    }
  }

  lemma ResultsAsk(c: Client, cb: nat, delivered: bool, success: bool)
    requires Quiescent(c) && cb in c.live && HandleResults(c, cb, delivered, success).Running?
    ensures var c' := HandleResults(c, cb, delivered, success).client;
            if !(delivered && success) && c.next < |c.contacts|
            then c'.sent == c.sent + [c.next] && c'.next == c.next + 1 && c'.cb == Some(c.next) && c.next in c'.live
            else c'.sent == c.sent && c'.next == c.next
    ensures HandleResults(c, cb, delivered, success).client.target == ((delivered && success) || c.next < |c.contacts|)
  {
    ResultsOk(c, cb, delivered, success);
  }

  /**
    A client that still holds its socket hands it back on a connection, at the deadline, when cancelled, and on a failure with
    no broker left to ask; on nothing else.
   */
  lemma CompletesIff(c: Client, e: Event)
    requires Quiescent(c) && c.target && Enabled(c, e) && !e.Start? && Handle(c, e).Running?
    ensures Handle(c, e).client.target <==> e.Results? && ((e.delivered && e.success) || c.next < |c.contacts|)
    ensures e.Results? && !Handle(c, e).client.target ==> AllBefore(Handle(c, e).client.sent, |c.contacts|)
  {
    hide HandleResults;
    if e.Results? {
      ResultsAsk(c, e.cb, e.delivered, e.success);
    }
  }

  /***** Whole runs *****/

  /** A client handles events until the last one, or aborts on the way. */
  function Run(c: Client, events: seq<Event>): Outcome
    decreases |events|
  {
    if events == [] then Running(c)
    else
      match Handle(c, events[0])
      case Aborted => Aborted
      case Running(c') => Run(c', events[1..])
  }

  predicate Plausible(c: Client, events: seq<Event>)
    decreases |events|
  {
    events == [] || (Enabled(c, events[0]) && !events[0].Start?
                     && (Handle(c, events[0]).Running? ==> Plausible(Handle(c, events[0]).client, events[1..])))
  }

  /** With well-formed contacts no run trips an assertion, and the client is quiescent after every event. */
  lemma {:induction false} RunOk(c: Client, events: seq<Event>)
    requires Quiescent(c) && Plausible(c, events) && forall i | 0 <= i < |c.contacts| :: c.contacts[i]
    ensures Run(c, events).Running? && Quiescent(Run(c, events).client) && Same(c, Run(c, events).client)
    decreases |events|
  {
    if events != [] {
      HandleOk(c, events[0]);
      RunOk(Handle(c, events[0]).client, events[1..]);
    }
  }

  /** From its creation: started once, the client completes its socket at most once, asking the brokers in order and skipping none. */
  lemma LifeOk(contacts: seq<bool>, external: nat, events: seq<Event>)
    requires forall i | 0 <= i < |contacts| :: contacts[i]
    requires var c := NewClient(contacts, external);
             TryNext(c).Running? ==> Plausible(TryNext(c).client, events)
    ensures var c := NewClient(contacts, external);
            && Run(c, [Start] + events).Running?
            && var end := Run(c, [Start] + events).client;
            && Quiescent(end) && end.completions <= 1 && AllBefore(end.sent, end.next) && end.next <= |contacts|
            && (end.completions == 1 ==> !end.timer && !end.inTable && end.live == {} && end.refs == external)
  {
    var c := NewClient(contacts, external);
    HandleOk(c, Start);
    assert ([Start] + events)[1..] == events;
    RunOk(TryNext(c).client, events);
    hide TryNext, Plausible;
  }

  /***** The objects *****/

  /** Quiescent, or not yet started. */
  predicate Settled(c: Client) {
    Quiescent(c) || c == NewClient(c.contacts, c.external)
  }

  lemma SettledMeans(c: Client, e: Event)
    requires Settled(c) && Enabled(c, e)
    ensures !e.Start? ==> Quiescent(c)
    ensures e.Start? ==> c.target && !c.inTable && c.cb.None?
    ensures Quiescent(c) ==> c.target == c.inTable && c.timer == c.inTable
  {
  }

  /** The table of clients waiting for a reverse connection, shared by all clients of the process. */
  class WaitingTable {
    var entries: map<string, CCBClient>
    constructor ()
      ensures entries == map[]
    {
      entries := map[];
    }
  }

  class CCBClient {
    const connectId: string
    const table: WaitingTable
    const contacts: seq<bool>
    const external: nat
    var next: nat
    var targetSock: bool
    var ccbCb: Option<nat>
    var deadlineTimer: bool
    var refCount: int
    ghost var live: set<nat>
    ghost var sent: seq<nat>
    ghost var completions: nat

    /** Whatever is filed under this client's connect id is this client. */
    ghost predicate Valid()
      reads this, table
    {
      next <= |contacts| && (connectId in table.entries ==> table.entries[connectId] == this)
    }

    ghost function View(): Client
      reads this, table
    {
      Client(contacts, next, targetSock, ccbCb, deadlineTimer, connectId in table.entries, external, refCount,
             live, sent, completions)
    }

    constructor (connectId: string, contacts: seq<bool>, table: WaitingTable, external: nat)
      requires connectId !in table.entries
      ensures Valid() && View() == NewClient(contacts, external) && this.table == table && this.connectId == connectId
    {
      this.connectId, this.contacts, this.table, this.external := connectId, contacts, table, external;
      next, targetSock, ccbCb, deadlineTimer, refCount := 0, true, None, false, external;
      live, sent, completions := {}, [], 0;
    }

    /** Other clients' entries stay as they are. */
    twostate predicate OnlyMine()
      reads this, table
    {
      forall k | k != connectId ::
        && (k in table.entries <==> k in old(table.entries))
        && (k in table.entries ==> table.entries[k] == old(table.entries)[k])
    }

    /** Enter the table; `running` is false if the assertion that the table takes the entry trips. */
    method RegisterReverseConnectCallback() returns (running: bool)
      requires Valid()
      modifies this, table
      ensures running == Register(old(View())).Running?
      ensures running ==> Valid() && OnlyMine() && Running(View()) == Register(old(View()))
    {
      if !deadlineTimer {
        deadlineTimer := true;
      }
      running := connectId !in table.entries;
      table.entries := table.entries[connectId := this];
      refCount := refCount + 1;
    }

    method UnregisterReverseConnectCallback()
      requires Valid() && connectId in table.entries
      modifies this, table
      ensures Valid() && OnlyMine() && Running(View()) == Unregister(old(View()))
    {
      if deadlineTimer {
        deadlineTimer := false;
      }
      table.entries := table.entries - {connectId};
      refCount := refCount - 1;
    }

    /** Hand the socket back, once; a quiescent client is then done: no timer, table entry or callback is left. */
    method ReverseConnectCallback()
      requires Valid() && targetSock && connectId in table.entries
      modifies this, table
      ensures Valid() && OnlyMine() && Running(View()) == Complete(old(View()))
      ensures old(Quiescent(View())) ==> Quiescent(View()) && !targetSock
    {
      completions := completions + 1;
      targetSock := false;
      if ccbCb.Some? {
        live := live - {ccbCb.value};
        refCount := refCount - 1;
      }
      UnregisterReverseConnectCallback();
    }

    /** Ask the next broker. A malformed contact is skipped by starting over, which registers a second time. */
    method TryNextCcb() returns (running: bool)
      requires Valid() && targetSock && ccbCb.None?
      modifies this, table
      ensures running == TryNext(old(View())).Running?
      ensures running ==> Valid() && OnlyMine() && Running(View()) == TryNext(old(View()))
      decreases |contacts| - next
    {
      running := RegisterReverseConnectCallback();
      if !running {
        return;
      }
      if next >= |contacts| {
        ReverseConnectCallback();
        return;
      }
      var contact := next;
      next := next + 1;
      if !contacts[contact] {
        running := TryNextCcb();
        return;
      }
      refCount := refCount + 1;
      ccbCb := Some(contact);
      live := live + {contact};
      sent := sent + [contact];
    }

    /** The broker answered. A quiescent client stays quiescent, or trips its assertion on a malformed next contact. */
    method CCBResultsCallback(cb: nat, delivered: bool, success: bool) returns (running: bool)
      requires Valid() && Quiescent(View()) && cb in live
      modifies this, table
      ensures running <==> (delivered && success) || NextIsGood(old(View()))
      ensures running ==> Valid() && OnlyMine() && Quiescent(View())
      ensures running ==> Running(View()) == HandleResults(old(View()), cb, delivered, success)
    {
      ResultsOk(View(), cb, delivered, success);
      hide TryNext, Quiescent, Balanced;
      running := true;
      ccbCb := None;
      live := live - {cb};
      if !delivered || !success {
        UnregisterReverseConnectCallback();
        running := TryNextCcb();
        if !running {
          return;
        }
      }
      refCount := refCount - 1;
    }

    method CancelReverseConnect()
      requires Valid() && (targetSock ==> connectId in table.entries)
      modifies this, table
      ensures Valid() && OnlyMine()
      ensures Running(View()) == if old(targetSock) then Complete(old(View())) else Running(old(View()))
      ensures old(Quiescent(View())) ==> Quiescent(View()) && !targetSock
    {
      if targetSock {
        ReverseConnectCallback();
      }
    }

    method DeadlineExpired()
      requires Valid() && Quiescent(View()) && deadlineTimer
      modifies this, table
      ensures Valid() && OnlyMine() && Running(View()) == Handle(old(View()), Deadline)
      ensures Quiescent(View()) && !targetSock
    {
      HandleOk(View(), Deadline);
      hide Quiescent, Balanced;
      deadlineTimer := false;
      CancelReverseConnect();
    }

    /** One event that the runtime delivers: the model's step, or the assertion that the model says trips. */
    method Step(e: Event) returns (running: bool)
      requires Valid() && Settled(View()) && Enabled(View(), e)
      modifies this, table
      ensures running <==> !(Asks(old(View()), e) && !NextIsGood(old(View())))
      ensures running ==> Valid() && OnlyMine() && Settled(View()) && Running(View()) == Handle(old(View()), e)
    {
      SettledMeans(View(), e);
      HandleOk(View(), e);
      hide TryNext, Quiescent, HandleResults, Balanced, Complete;
      running := true;
      if e.Start? {
        running := TryNextCcb();
      } else if e.Results? {
        running := CCBResultsCallback(e.cb, e.delivered, e.success);
      } else if e.ReverseConnect? {
        ReverseConnectCallback();
      } else if e.Deadline? {
        DeadlineExpired();
      } else {
        CancelReverseConnect();
      }
    }

    /** Whether the runtime can deliver the event now, as far as the object itself shows. */
    predicate Due(e: Event)
      reads this, table
    {
      var waiting := connectId in table.entries;
      match e
      case Start => targetSock && !waiting
      case Results(cb, _, _) => waiting && ccbCb == Some(cb)
      case ReverseConnect => waiting
      case Deadline => deadlineTimer
      case Cancel => waiting || !targetSock
    }
  }

  /***** Several clients on one table *****/

  /** The clients of a process: they share the table, their connect ids differ, and the table holds nobody else. */
  ghost predicate Sharing(table: WaitingTable, clients: set<CCBClient>)
    reads table, clients
  {
    && (forall c | c in clients :: c.table == table && c.Valid() && Settled(c.View()))
    && (forall c, d | c in clients && d in clients && c != d :: c.connectId != d.connectId)
    && (forall k | k in table.entries :: table.entries[k] in clients && table.entries[k].connectId == k)
  }

  /** What the object shows is what the model says about a settled client. */
  lemma DueIsEnabled(c: CCBClient, e: Event)
    requires c.Valid() && Settled(c.View())
    ensures c.Due(e) <==> Enabled(c.View(), e)
  {
  }

  /** One event for one client: its own step, or its assertion; no other client changes, and the sharing goes on. */
  method Dispatch(table: WaitingTable, ghost clients: set<CCBClient>, c: CCBClient, e: Event) returns (running: bool)
    requires Sharing(table, clients) && c in clients && Enabled(c.View(), e)
    modifies table, c
    ensures running <==> !(Asks(old(c.View()), e) && !NextIsGood(old(c.View())))
    ensures running ==> Sharing(table, clients) && Running(c.View()) == Handle(old(c.View()), e)
    ensures running ==> forall d | d in clients && d != c :: d.View() == old(d.View())
  {
    hide Settled, Handle, Enabled, Asks, NextIsGood;
    running := c.Step(e);
  }

  /** A client after those of the events that are meant for it and that it can take, as if they had come alone. */
  ghost function Alone(c: Client, who: CCBClient, events: seq<(CCBClient, Event)>): Client
    decreases |events|
  {
    if events == [] then c
    else
      var d := Alone(c, who, events[..|events| - 1]);
      var (x, e) := events[|events| - 1];
      if x == who && Enabled(d, e) && Handle(d, e).Running? then Handle(d, e).client else d
  }

  /**
    Any interleaving of events for any of the clients: with well-formed contacts nothing trips, each client
    ends as if its events had come alone, and between events each started client is in the table, under its own
    connect id, exactly while it holds its socket.
   */
  method Deliver(table: WaitingTable, clients: set<CCBClient>, events: seq<(CCBClient, Event)>)
    requires Sharing(table, clients)
    requires forall c | c in clients :: forall i | 0 <= i < |c.contacts| :: c.contacts[i]
    modifies table, clients
    ensures Sharing(table, clients)
    ensures forall c | c in clients :: c.View() == Alone(old(c.View()), c, events)
  {
    hide Settled, Handle, Enabled;
    for i := 0 to |events|
      invariant Sharing(table, clients)
      invariant forall c | c in clients :: c.View() == Alone(old(c.View()), c, events[..i])
    {
      var (c, e) := events[i];
      assert events[..i + 1][..i] == events[..i];
      if c in clients {
        DueIsEnabled(c, e);
        if c.Due(e) {
          var running := Dispatch(table, clients, c, e);
          assert running;
        }
      }
    }
    assert events[..|events|] == events;
  }

  /** The command handler: the connection goes to the client filed under the presented connect id, if any. */
  method ReverseConnectCommandHandler(table: WaitingTable, presented: string, ghost clients: set<CCBClient>) returns (found: bool)
    requires Sharing(table, clients)
    modifies table, table.entries.Values
    ensures found == (presented in old(table.entries)) && Sharing(table, clients)
    ensures table.entries == old(table.entries) - {presented}
    ensures found ==> var c := old(table.entries)[presented];
                      c.connectId == presented && Running(c.View()) == Complete(old(c.View()))
    ensures forall c | c in clients && c.connectId != presented :: unchanged(c) && c.View() == old(c.View())
  {
    hide Quiescent, Balanced, Complete;
    found := presented in table.entries;
    if found {
      var client := table.entries[presented];
      SettledMeans(client.View(), ReverseConnect);
      client.ReverseConnectCallback();
    } else {
      assert table.entries - {presented} == table.entries;
    }
  }
}
