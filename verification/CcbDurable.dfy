/** The broker together with its reconnect file, over runs that may restart at any time. */
module CcbDurable {
  import opened CcbTables
  import opened CcbInvariants
  import opened CcbReconnectFile

  datatype Durable = Durable(server: State, disk: Disk)

  /** A handled event, with how a rewrite would go if this one prunes records; or a restart. */
  datatype DEvent =
    | Handle(event: Event, order: seq<CCBID>, outcome: Rewrite)
    | Restart(now: int)

  ghost predicate Consistent(d: Durable) {
    Invariant(d.server) && Faithful(d.server.records, d.disk.Main())
  }

  ghost predicate DEnabled(d: Durable, e: DEvent) {
    match e
    case Handle(event, order, _) =>
      && Enabled(d.server, event)
      && (event.SweepTick? ==> Listing(Step(d.server, event).records, order))
    case Restart(_) => true
  }

  /** A new record is appended to the file; a sweep that drops records rewrites it. */
  ghost function DStep(d: Durable, e: DEvent): Durable
    requires DEnabled(d, e)
  {
    match e
    case Restart(now) => Durable(Load(d.disk, now), d.disk)
    case Handle(event, order, outcome) =>
      var s := Step(d.server, event);
      match event
      case Register(_, ip, claim, cookie, now, _) =>
        if claim.Claim? && CanReconnect(d.server, claim.ccbid, ip, claim.cookie) then Durable(s, d.disk)
        else
          var c := NextFree(d.server.nextCcbid, Used(d.server));
          Durable(s, d.disk.Append(Line(ip, c, cookie)))
      case SweepTick(_, _) =>
        if s.records.Keys == d.server.records.Keys then Durable(s, d.disk)
        else Durable(s, SaveAll(d.disk, s.records, order, outcome))
      case _ => Durable(s, d.disk)
  }

  /** What an event does to the table of records. */
  ghost function RecordsAfter(s: State, e: Event): map<CCBID, Record>
    requires Enabled(s, e)
  {
    match e
    case Register(_, ip, claim, cookie, now, _) =>
      if claim.Claim? && CanReconnect(s, claim.ccbid, ip, claim.cookie) then
        s.records[claim.ccbid := s.records[claim.ccbid].(lastAlive := now)]
      else s.records[NextFree(s.nextCcbid, Used(s)) := Record(ip, cookie, now)]
    case SweepTick(now, interval) => Sweep(s, now, interval).records
    case _ => s.records
  }

  lemma StepRecords(s: State, e: Event)
    requires Enabled(s, e)
    ensures Step(s, e).records == RecordsAfter(s, e)
  {
    hide FreshSock, Sweep, HandleRegistration, HandleRequest, HandleResult;
    match e
    case Register(sock, ip, claim, cookie, now, replyOk) => RegistrationRecords(s, sock, ip, claim, cookie, now, replyOk);
    case ClientRequest(sock, target, addr, connectId, forwardOk) => RequestRecords(s, sock, target, addr, connectId, forwardOk);
    case FromTarget(c, msg) => ResultRecords(s, c, msg);
    case _ =>
  }

  lemma RegistrationRecords(s: State, sock: Sock, ip: string, claim: Claim, cookie: CCBID, now: int, replyOk: bool)
    requires |Used(s)| < ID_SPACE
    ensures HandleRegistration(s, sock, ip, claim, cookie, now, replyOk).records
         == RecordsAfter(s, Register(sock, ip, claim, cookie, now, replyOk))
  {
    hide Used, NextFree;
    var (s', c) := Registered(s, sock, ip, claim, cookie, now);
    assert s'.records == RecordsAfter(s, Register(sock, ip, claim, cookie, now, replyOk));
  }

  lemma RequestRecords(s: State, sock: Sock, target: CCBID, addr: string, connectId: string, forwardOk: bool)
    requires |s.requests| < ID_SPACE
    ensures HandleRequest(s, sock, target, addr, connectId, forwardOk).records == s.records
  {
    hide NextFree;
  }

  lemma ResultRecords(s: State, c: CCBID, msg: TargetMsg)
    requires c in s.targets
    ensures HandleResult(s, c, msg).records == s.records
  {
    hide GotResult;
  }

  lemma DStepKeeps(d: Durable, e: DEvent)
    requires Consistent(d) && DEnabled(d, e)
    ensures Consistent(DStep(d, e))
  {
    hide Invariant, FreshSock, Replay, Step, Sweep, Listing, SaveAll;
    if e.Restart? {
      LoadRestores(d.server.records, d.disk, e.now);
    } else {
      StepKeeps(d.server, e.event);
      StepRecords(d.server, e.event);
      match e.event
      case Register(_, ip, claim, cookie, now, _) =>
        if !(claim.Claim? && CanReconnect(d.server, claim.ccbid, ip, claim.cookie)) {
          var c := NextFree(d.server.nextCcbid, Used(d.server));
          AppendKeeps(d.server.records, d.disk.Main(), c, Record(ip, cookie, now));
        }
      case SweepTick(now, interval) =>
        SweepStaysFaithful(d.server, d.disk.Main(), now, interval);
        SaveAllKeeps(d.disk, Step(d.server, e.event).records, e.order, e.outcome);
      case _ =>
    }
  }

  ghost predicate DReaches(d: Durable, events: seq<DEvent>, d': Durable)
    decreases |events|
  {
    if events == [] then d == d'
    else DEnabled(d, events[0]) && DReaches(DStep(d, events[0]), events[1..], d')
  }

  /** At every point of every run, restarts included, the file reproduces the table of records. */
  lemma {:induction false} DRunKeeps(d: Durable, events: seq<DEvent>, d': Durable)
    requires Consistent(d) && DReaches(d, events, d')
    ensures Consistent(d')
    decreases |events|
  {
    if events != [] {
      DStepKeeps(d, events[0]);
      DRunKeeps(DStep(d, events[0]), events[1..], d');
    }
  }

  /** The reservation of `c`: whose it is. */
  ghost predicate Reserved(d: Durable, c: CCBID, owner: Saved) {
    c in d.server.records && d.server.records[c].ip == owner.ip && d.server.records[c].cookie == owner.cookie
  }

  /** Pruning, the one step that may end a reservation. */
  ghost predicate Prunes(d: Durable, e: DEvent, c: CCBID)
    requires c in d.server.records
  {
    && e.Handle? && e.event.SweepTick? && c !in d.server.targets
    && e.event.now - d.server.records[c].lastAlive > 2 * e.event.interval
  }

  /** A record keeps its owner, unless it is pruned. */
  lemma RecordStays(s: State, e: Event, c: CCBID)
    requires Enabled(s, e) && c in s.records
    ensures var after := RecordsAfter(s, e);
            && (c in after <==> !(e.SweepTick? && c !in s.targets && e.now - s.records[c].lastAlive > 2 * e.interval))
            && (c in after ==> after[c].ip == s.records[c].ip && after[c].cookie == s.records[c].cookie)
  {
    hide FreshSock, Sweep;
    if e.Register? {
      assert c != NextFree(s.nextCcbid, Used(s));
    } else if e.SweepTick? {
      SweepDrops(s, e.now, e.interval, c);
    }
  }

  /** A reservation survives every step, a restart too, except pruning of an absent target's old record. */
  lemma ReservationStays(d: Durable, e: DEvent, c: CCBID, owner: Saved)
    requires Consistent(d) && DEnabled(d, e) && Reserved(d, c, owner)
    ensures Reserved(DStep(d, e), c, owner) <==> !Prunes(d, e, c)
  {
    hide Invariant, FreshSock, Replay, Step, Sweep, Listing, SaveAll, RecordsAfter;
    if e.Restart? {
      LoadRestores(d.server.records, d.disk, e.now);
    } else {
      StepRecords(d.server, e.event);
      RecordStays(d.server, e.event, c);
      assert DStep(d, e).server == Step(d.server, e.event);
    }
  }
}
