/** When removeRegisteredPrefix is final, and how a removed registration comes back. */
module NodeRemovals {
  import opened NdnNames
  import opened Interests
  import opened NodeModel
  import opened NodeRuns
  import opened NodeRegistrations
  import opened NodeTables
  import opened NodeEntries
  import opened NodeLimits

  const NOW_WORKS := At(0.0)

  /** The entries that the hub's key may still be delivered to. Those in flight get the Data that arrived. */
  ghost function Reachable(s: State): set<Pending>
  {
    (set e | e in s.pit) + if IsKey(s.arrived) then (set e | e in s.inFlight) else {}
  }

  /** Some entry will add the row of the registration when the hub's key is delivered to it. */
  ghost predicate WillAddRow(s: State, reg: nat)
  {
    exists e :: e in Reachable(s) && AddsRows(e) && e.handler.reg == reg
  }

  /** The registration was made, has no row and will get none. */
  ghost predicate Gone(s: State, reg: nat)
  {
    reg in UpTo(s.lastPrefixId) && reg !in PrefixIds(s.prefixes) && !WillAddRow(s, reg)
  }

  lemma SameReachable(s: State, t: State)
    requires t.pit == s.pit && t.inFlight == s.inFlight && t.arrived == s.arrived
    ensures Reachable(t) == Reachable(s)
  {
  }

  lemma ReachableAppend(s: State, t: State, e: Pending)
    requires t.pit == s.pit + [e] && t.inFlight == s.inFlight && t.arrived == s.arrived
    ensures Reachable(t) == Reachable(s) + {e}
  {
  }

  /** Entries only move from the table to those in flight, and only when new Data arrives. */
  lemma FewerReachable(s: State, t: State)
    requires forall e :: e in t.pit ==> e in s.pit
    requires forall e :: e in t.inFlight ==> e in s.pit || (e in s.inFlight && t.arrived == s.arrived)
    ensures Reachable(t) <= Reachable(s)
  {
    hide IsKey;
  }

  lemma FewerKeepGone(s: State, t: State, reg: nat)
    requires Gone(s, reg) && Reachable(t) <= Reachable(s) && t.lastPrefixId >= s.lastPrefixId
    requires forall p :: p in t.prefixes ==> p in s.prefixes
    ensures Gone(t, reg)
  {
    hide Reachable;
  }

  lemma ExpressKeepsGone(s: State, interest: Interest, handler: Handler, env: Env, reg: nat)
    requires Gone(s, reg)
    requires handler.IdFetcher? && handler.registeredPrefixId != 0 ==> handler.reg != reg
    ensures Gone(Express(s, interest, handler, env).state, reg)
  {
    var t := Express(s, interest, handler, env).state;
    if env.connects {
      ReachableAppend(s, t, t.pit[|s.pit|]);
      hide Reachable;
    }
  }

  lemma AddRowsKeepsGone(s: State, id: nat, prefix: NameValue, hasOnInterest: bool, reg: nat)
    requires Gone(s, reg) && id != reg
    ensures Gone(AddRows(s, id, prefix, hasOnInterest), reg)
  {
    var t := AddRows(s, id, prefix, hasOnInterest);
    SameReachable(s, t);
    hide Reachable;
    if id != 0 {
      PushIds(s.prefixes, t.prefixes[|s.prefixes|]);
      assert t.prefixes == s.prefixes + [t.prefixes[|s.prefixes|]];
    }
  }

  lemma RegisterNdnxKeepsGone(cfg: Config, s: State, r: nat, id: nat, prefix: NameValue, hasOnInterest: bool, env: Env,
                              reg: nat)
    requires Gone(s, reg) && id != reg
    ensures Gone(RegisterNdnx(cfg, s, r, id, prefix, hasOnInterest, env).state, reg)
  {
    AddRowsKeepsGone(s, id, prefix, hasOnInterest, reg);
    hide Gone, AddRows, Express, NdnxInterest;
    ExpressKeepsGone(AddRows(s, id, prefix, hasOnInterest), NdnxInterest(s.ndndId, env.appended),
                     RegisterResponse(r, prefix, hasOnInterest, false), env, reg);
  }

  lemma RegisterNfdKeepsGone(cfg: Config, s: State, r: nat, prefix: NameValue, hasOnInterest: bool,
                             hasCertificate: bool, env: Env, reg: nat)
    requires Gone(s, reg) && r != reg
    ensures Gone(RegisterNfd(cfg, s, r, prefix, hasOnInterest, hasCertificate, env).state, reg)
  {
    AddRowsKeepsGone(s, r, prefix, hasOnInterest, reg);
    hide Gone, AddRows, Express, NfdInterest;
    ExpressKeepsGone(AddRows(s, r, prefix, hasOnInterest), NfdInterest(cfg.isLocal, env.appended),
                     RegisterResponse(r, prefix, hasOnInterest, true), env, reg);
  }

  lemma GoneIsOld(s: State, reg: nat)
    requires Gone(s, reg)
    ensures 1 <= reg <= s.lastPrefixId
  {
  }

  /** Changing counters upwards and what was accepted. */
  lemma RenumberedKeepsGone(s: State, last: nat, accepted: set<nat>, reg: nat)
    requires Gone(s, reg) && last >= s.lastPrefixId
    ensures Gone(s.(lastPrefixId := last), reg) && Gone(s.(accepted := accepted), reg)
  {
    SameReachable(s, s.(lastPrefixId := last));
    SameReachable(s, s.(accepted := accepted));
    hide Reachable;
  }

  lemma RegisterKeepsGone(cfg: Config, s: State, prefix: NameValue, hasOnInterest: bool, hasKeyChain: bool,
                          hasCertificate: bool, env: Env, reg: nat)
    requires Gone(s, reg)
    ensures Gone(Register(cfg, s, prefix, hasOnInterest, hasKeyChain, hasCertificate, env).state, reg)
  {
    hide Gone, Express, RegisterNdnx, RegisterNfd, FetchInterest;
    var r := s.lastPrefixId + 1;
    var t := s.(lastPrefixId := r);
    GoneIsOld(s, reg);
    RenumberedKeepsGone(s, r, s.accepted, reg);
    ExpressKeepsGone(t, FetchInterest(), IdFetcher(r, r, prefix, hasOnInterest), env, reg);
    RegisterNdnxKeepsGone(cfg, t, r, r, prefix, hasOnInterest, env, reg);
    RegisterNfdKeepsGone(cfg, t, r, prefix, hasOnInterest, hasCertificate, env, reg);
    var q :=
      if t.ndndId != [] || !hasKeyChain then
        if !cfg.enableNdnx then Result(t, true)
        else if t.ndndId == [] then Express(t, FetchInterest(), IdFetcher(r, r, prefix, hasOnInterest), env)
        else RegisterNdnx(cfg, t, r, r, prefix, hasOnInterest, env)
      else RegisterNfd(cfg, t, r, prefix, hasOnInterest, hasCertificate, env);
    RenumberedKeepsGone(q.state, q.state.lastPrefixId, q.state.accepted + {r}, reg);
  }

  lemma CallOnDataKeepsGone(cfg: Config, s: State, handler: Handler, data: Data, env: Env, reg: nat)
    requires Gone(s, reg)
    requires handler.IdFetcher? && handler.registeredPrefixId != 0 && IsKey(data) ==>
      handler.registeredPrefixId != reg
    ensures Gone(CallOnData(cfg, s, handler, data, env).state, reg)
  {
    GoneIsOld(s, reg);
    hide RegisterNdnx, Gone, KeyDigest, Reachable;
    if !handler.Application? {
      RecordKeepsGone(s, handler.reg, false, reg);
      RecordKeepsGone(s, handler.reg, true, reg);
    }
    if handler.IdFetcher? && IsKey(data) {
      var t := s.(ndndId := KeyDigest(data.content));
      SameReachable(s, t);
      FewerKeepGone(s, t, reg);
      RegisterNdnxKeepsGone(cfg, t, handler.reg, handler.registeredPrefixId, handler.prefix, handler.hasOnInterest,
                            env, reg);
    }
  }

  lemma CallOnTimeoutKeepsGone(cfg: Config, s: State, handler: Handler, env: Env, reg: nat)
    requires Gone(s, reg)
    ensures Gone(CallOnTimeout(cfg, s, handler, env), reg)
  {
    GoneIsOld(s, reg);
    hide RegisterNdnx, Gone, Express, FetchInterest;
    if !handler.Application? {
      RecordKeepsGone(s, handler.reg, false, reg);
    }
    if handler.RegisterResponse? {
      ExpressKeepsGone(s, FetchInterest(), IdFetcher(handler.reg, 0, handler.prefix, handler.hasOnInterest), env, reg);
      RegisterNdnxKeepsGone(cfg, s, handler.reg, 0, handler.prefix, handler.hasOnInterest, env, reg);
    }
  }

  lemma RecordKeepsGone(s: State, r: nat, success: bool, reg: nat)
    requires Gone(s, reg)
    ensures Gone(Record(s, r, success), reg)
  {
    SameReachable(s, Record(s, r, success));
    FewerKeepGone(s, Record(s, r, success), reg);
  }

  lemma {:induction false} WithoutPrefixElements(q: seq<RegisteredPrefix>, id: nat)
    ensures forall p :: p in WithoutPrefix(q, id) <==> p in q && p.id != id
  {
    if q != [] {
      WithoutPrefixElements(q[1..], id);
      assert q == [q[0]] + q[1..];
    }
  }

  lemma ApplyKeepsGone(cfg: Config, s: State, event: Event, reg: nat)
    requires IdInv(s) && TableInv(s) && Gone(s, reg)
    ensures Gone(Apply(cfg, s, event), reg)
  {
    hide IdInv, Gone, Express, Register, CallOnData, CallOnTimeout, DropRest, Kept, Taken, IsTimedOut, WithoutPrefix,
      WithoutRelated, UnsetFilter, SetFilter, UsedIds, DistinctPrefixes, AscendingFilters, OwnersMatch;
    var u := Apply(cfg, s, event);
    match event
    case ExpressInterest(interest, tag, env) =>
      ExpressKeepsGone(s, interest, Application(tag), env, reg);
    case RemovePendingInterest(id) =>
      WithoutIdElements(s.pit, id);
      FewerReachable(s, u);
      FewerKeepGone(s, u, reg);
    case RegisterPrefix(prefix, hasOnInterest, hasKeyChain, hasCertificate, env) =>
      RegisterKeepsGone(cfg, s, prefix, hasOnInterest, hasKeyChain, hasCertificate, env, reg);
    case Timeout(index, now, env) =>
      if index < |s.pit| && IsTimedOut(s.pit[index], now) {
        var e := s.pit[index];
        var t := s.(pit := s.pit[..index] + s.pit[index + 1..], fates := s.fates[e.id := TimedOut]);
        FewerReachable(s, t);
        FewerKeepGone(s, t, reg);
        CallOnTimeoutKeepsGone(cfg, t, e.handler, env, reg);
      }
    case DataArrives(data) =>
      if s.inFlight == [] {
        TakenElements(s.pit, data.name);
        KeptElements(s.pit, data.name);
        FewerReachable(s, u);
        FewerKeepGone(s, u, reg);
      }
    case Deliver(env) =>
      if s.inFlight != [] {
        var e := s.inFlight[0];
        var t := s.(inFlight := s.inFlight[1..], fates := s.fates[e.id := Delivered]);
        FewerReachable(s, t);
        FewerKeepGone(s, t, reg);
        if IsKey(s.arrived) { GoneHandler(s, e, reg); }
        CallOnDataKeepsGone(cfg, t, e.handler, s.arrived, env, reg);
        DropRestKeepsGone(CallOnData(cfg, t, e.handler, s.arrived, env).state, reg);
      }
    case OnDataThrows =>
      DropRestKeepsGone(s, reg);
    case _ =>
      FilterEventKeepsGone(cfg, s, event, reg);
  }

  lemma FilterEventKeepsGone(cfg: Config, s: State, event: Event, reg: nat)
    requires event.SetInterestFilter? || event.UnsetInterestFilter? || event.RemoveRegisteredPrefix?
    requires Gone(s, reg)
    ensures Gone(Apply(cfg, s, event), reg)
  {
    var u := Apply(cfg, s, event);
    SameTables(s, event, cfg);
    SameReachable(s, u);
    if event.RemoveRegisteredPrefix? { WithoutPrefixElements(s.prefixes, event.id); }
    hide Live, Gone, WithoutPrefix, WithoutRelated, WithoutFilter;
    FewerKeepGone(s, u, reg);
  }

  lemma GoneHandler(s: State, e: Pending, reg: nat)
    requires TableInv(s) && Gone(s, reg) && e in s.inFlight && IsKey(s.arrived)
    ensures AddsRows(e) ==> e.handler.registeredPrefixId != reg
  {
    assert e in Live(s) && e in Reachable(s);
    hide Live, Reachable, IsKey;
  }

  lemma DropRestKeepsGone(s: State, reg: nat)
    requires Gone(s, reg)
    ensures Gone(DropRest(s), reg)
  {
    DropRestEffect(s);
    FewerReachable(s, DropRest(s));
    FewerKeepGone(s, DropRest(s), reg);
  }

  /** In every continuation of a run, a registration that is gone never gets a row again. */
  lemma {:induction false} GoneForGood(cfg: Config, events: seq<Event>, more: seq<Event>, reg: nat)
    requires Gone(Run(cfg, events), reg)
    ensures Gone(Run(cfg, events + more), reg)
    decreases |more|
  {
    hide Apply, Run, Gone;
    if more == [] {
      assert events + more == events;
    } else {
      var n := |more| - 1;
      GoneForGood(cfg, events, more[..n], reg);
      RunKeepsIds(cfg, events + more[..n]);
      RunKeepsTables(cfg, events + more[..n]);
      RunOfMore(cfg, events, more);
      ApplyKeepsGone(cfg, Run(cfg, events + more[..n]), more[n], reg);
    }
  }

  /** A node whose key is on its way: the registration without a key chain waits for it. */
  function KeylessEvent(prefix: NameValue, hasOnInterest: bool): Event
  {
    RegisterPrefix(prefix, hasOnInterest, false, false, NOW_WORKS)
  }

  lemma KeylessWaits(cfg: Config, prefix: NameValue, hasOnInterest: bool)
    requires cfg.enableNdnx
    ensures var s := Apply(cfg, INITIAL, KeylessEvent(prefix, hasOnInterest));
      s.inFlight == [] && s.prefixes == [] && s.filters == []
      && s.pit == [NewPending(1, FetchInterest(), IdFetcher(1, 1, prefix, hasOnInterest), 0.0)]
  {
    hide FetchInterest, TimeoutPrefix;
  }

  lemma RemovingNothing(cfg: Config, s: State, id: nat)
    requires s.prefixes == [] && s.filters == []
    ensures Apply(cfg, s, RemoveRegisteredPrefix(id)) == s
  {
    ApiCallIs(cfg, s, RemoveRegisteredPrefix(id));
    assert WithoutPrefix([], id) == [] && WithoutRelated([], [], id) == [];
    hide WithoutPrefix, WithoutRelated, Apply;
  }

  /** Registering, removing the registration and then receiving the key ends with the row in the table. */
  lemma RemovedAndBack(cfg: Config, prefix: NameValue, hasOnInterest: bool)
    requires cfg.enableNdnx
    ensures var events := [KeylessEvent(prefix, hasOnInterest), RemoveRegisteredPrefix(1), DataArrives(HubKey()),
                           Deliver(NOW_WORKS)];
      1 in PrefixIds(Run(cfg, events).prefixes)
  {
    hide Run, Apply, KeylessEvent, HubKey, PrefixIds, FetchInterest, Accepts, Kept, Taken;
    var e0 := KeylessEvent(prefix, hasOnInterest);
    var s := Apply(cfg, INITIAL, e0);
    RunOfNothing(cfg);
    RunStep(cfg, [], INITIAL, e0, s);
    KeylessWaits(cfg, prefix, hasOnInterest);
    RemovingNothing(cfg, s, 1);
    RunStep(cfg, [] + [e0], s, RemoveRegisteredPrefix(1), s);
    DataArrivesEffect(cfg, s, HubKey());
    TakesFetchers(cfg, s, s.pit[0]);
    TakenAlone(s.pit[0], HubKey().name);
    var events := [] + [e0] + [RemoveRegisteredPrefix(1)] + [DataArrives(HubKey())];
    var t := Apply(cfg, s, DataArrives(HubKey()));
    RunStep(cfg, [] + [e0] + [RemoveRegisteredPrefix(1)], s, DataArrives(HubKey()), t);
    KeyDeliveredAddsRow(cfg, events);
    assert events + [Deliver(NOW_WORKS)] == [e0, RemoveRegisteredPrefix(1), DataArrives(HubKey()), Deliver(NOW_WORKS)];
  }

  lemma TakesFetchers(cfg: Config, s: State, e: Pending)
    requires e.interest == FetchInterest()
    ensures Accepts(e.interest, HubKey().name) && IsKey(HubKey())
  {
    FetchAcceptsKey();
    hide FetchInterest, Accepts;
  }

  /** Delivering the key to an entry that adds a row adds it. */
  lemma KeyDeliveredAddsRow(cfg: Config, events: seq<Event>)
    requires var s := Run(cfg, events);
      cfg.enableNdnx && s.inFlight != [] && AddsRows(s.inFlight[0]) && IsKey(s.arrived)
    ensures Run(cfg, events).inFlight[0].handler.reg in PrefixIds(Run(cfg, events + [Deliver(NOW_WORKS)]).prefixes)
  {
    RemovalBeforeKeyIsLost(cfg, events, NOW_WORKS);
    DeliverEffect(cfg, Run(cfg, events), NOW_WORKS);
    hide Run, Apply, DeliverFirst, PrefixIds;
    RunOfPrefix(cfg, events, Deliver(NOW_WORKS));
  }

  // ----- the continuation that brings a removed registration back -----

  function DeliverAll(n: nat): seq<Event> { if n == 0 then [] else DeliverAll(n - 1) + [Deliver(NOW_WORKS)] }

  lemma DeliverOne(cfg: Config, s: State)
    requires cfg.enableNdnx && s.inFlight != []
    ensures var t := DeliverFirst(cfg, s, NOW_WORKS);
      t.inFlight == s.inFlight[1..] && t.arrived == s.arrived && forall f :: f in s.pit ==> f in t.pit
  {
    var e := s.inFlight[0];
    var t := s.(inFlight := s.inFlight[1..], fates := s.fates[e.id := Delivered]);
    CallOnDataCovers(cfg, t, e.handler, s.arrived, NOW_WORKS);
    CallOnDataKeepsFlight(cfg, t, e.handler, s.arrived, NOW_WORKS);
    HelpersOnlyAppend(cfg, t, e.handler, s.arrived, NOW_WORKS);
    hide CallOnData, Covered;
  }

  /** Where nothing throws, n deliveries serve the first n extracted entries and keep the table's. */
  lemma {:induction false} DeliversFirst(cfg: Config, events: seq<Event>, n: nat)
    requires cfg.enableNdnx && n <= |Run(cfg, events).inFlight|
    ensures var s, t := Run(cfg, events), Run(cfg, events + DeliverAll(n));
      t.inFlight == s.inFlight[n..] && t.arrived == s.arrived && forall f :: f in s.pit ==> f in t.pit
  {
    hide Run, Apply, DeliverFirst;
    if n == 0 {
      assert events + [] == events;
    } else {
      DeliversFirst(cfg, events, n - 1);
      var s := Run(cfg, events + DeliverAll(n - 1));
      DeliverOne(cfg, s);
      DeliverEffect(cfg, s, NOW_WORKS);
      RunOfPrefix(cfg, events + DeliverAll(n - 1), Deliver(NOW_WORKS));
      assert events + DeliverAll(n) == events + DeliverAll(n - 1) + [Deliver(NOW_WORKS)];
    }
  }

  /** The key's arrival at a quiescent state extracts every fetcher. */
  lemma KeyTakes(cfg: Config, events: seq<Event>, e: Pending)
    requires var s := Run(cfg, events);
      s.inFlight == [] && e in s.pit && e.interest == FetchInterest()
    ensures var t := Run(cfg, events + [DataArrives(HubKey())]);
      e in t.inFlight && IsKey(t.arrived)
  {
    hide Run, Apply, FetchInterest, Accepts, HubKey, Taken, Kept;
    var s := Run(cfg, events);
    TakesFetchers(cfg, s, e);
    TakenElements(s.pit, HubKey().name);
    DataArrivesEffect(cfg, s, HubKey());
    RunOfPrefix(cfg, events, DataArrives(HubKey()));
  }

  /** A reachable fetcher gets the key: with the Data being delivered, or after that with the next. */
  lemma KeyComes(cfg: Config, events: seq<Event>, e: Pending) returns (more: seq<Event>)
    requires cfg.enableNdnx && e in Reachable(Run(cfg, events)) && e.interest == FetchInterest()
    ensures var t := Run(cfg, events + more); e in t.inFlight && IsKey(t.arrived)
  {
    hide Run, HubKey, DeliverAll, FetchInterest, IsKey;
    var s := Run(cfg, events);
    if e in s.inFlight && IsKey(s.arrived) {
      more := [];
      assert events + more == events;
    } else {
      var n := |s.inFlight|;
      DeliversFirst(cfg, events, n);
      KeyTakes(cfg, events + DeliverAll(n), e);
      more := DeliverAll(n) + [DataArrives(HubKey())];
      assert events + more == events + DeliverAll(n) + [DataArrives(HubKey())];
    }
  }

  lemma AddersAreFetchers(cfg: Config, events: seq<Event>, e: Pending)
    requires e in Reachable(Run(cfg, events)) && AddsRows(e)
    ensures cfg.enableNdnx && e.interest == FetchInterest()
  {
    RunKeepsEntries(cfg, events);
    hide Run, FetchInterest, IsKey;
    assert e in Live(Run(cfg, events));
    hide Reachable, Live;
    assert WellBorn(cfg, e);
  }

  /** From any state, the key's arrival adds the row of a registration that waits for it. */
  lemma RowComesBack(cfg: Config, events: seq<Event>, e: Pending) returns (more: seq<Event>)
    requires e in Reachable(Run(cfg, events)) && AddsRows(e)
    ensures e.handler.reg in PrefixIds(Run(cfg, events + more).prefixes)
  {
    hide Run, PrefixIds, DeliverAll, Reachable, FetchInterest, IsKey, HubKey;
    AddersAreFetchers(cfg, events, e);
    var first := KeyComes(cfg, events, e);
    var arrived := events + first;
    var q := Run(cfg, arrived).inFlight;
    var k :| 0 <= k < |q| && q[k] == e;
    DeliversFirst(cfg, arrived, k);
    KeyDeliveredAddsRow(cfg, arrived + DeliverAll(k));
    more := first + DeliverAll(k) + [Deliver(NOW_WORKS)];
    assert events + more == arrived + DeliverAll(k) + [Deliver(NOW_WORKS)];
  }

  /** The registration never appears in the prefix table again, whatever happens. */
  ghost predicate NeverBack(cfg: Config, events: seq<Event>, reg: nat)
  {
    forall more :: reg !in PrefixIds(Run(cfg, events + more).prefixes)
  }

  lemma RemovalEffect(cfg: Config, s: State, reg: nat)
    requires reg in UpTo(s.lastPrefixId)
    ensures var t := Apply(cfg, s, RemoveRegisteredPrefix(reg));
      Reachable(t) == Reachable(s) && (!WillAddRow(s, reg) ==> Gone(t, reg))
  {
    hide Apply, WithoutPrefix, WithoutRelated;
    ApiCallIs(cfg, s, RemoveRegisteredPrefix(reg));
    var t := RemoveRegistered(s, reg);
    WithoutPrefixElements(s.prefixes, reg);
    SameReachable(s, t);
    hide Reachable;
  }

  /**
    At any time, inside a callback too, removeRegisteredPrefix is final exactly if no entry of the registration
    is left that would add its row with the hub's key: none in the table, and none in flight if the Data being
    delivered is a key.
   */
  lemma RemovalIsFinalIff(cfg: Config, events: seq<Event>, reg: nat)
    requires 1 <= reg <= Run(cfg, events).lastPrefixId
    ensures NeverBack(cfg, events + [RemoveRegisteredPrefix(reg)], reg) <==> !WillAddRow(Run(cfg, events), reg)
  {
    var s := Run(cfg, events);
    var removed := events + [RemoveRegisteredPrefix(reg)];
    RemovalEffect(cfg, s, reg);
    hide Run, Apply, Reachable, PrefixIds, AddsRows;
    RunOfPrefix(cfg, events, RemoveRegisteredPrefix(reg));
    if WillAddRow(s, reg) {
      var e :| e in Reachable(s) && AddsRows(e) && e.handler.reg == reg;
      var more := RowComesBack(cfg, removed, e);
      assert reg in PrefixIds(Run(cfg, removed + more).prefixes);
    } else {
      forall more
        ensures reg !in PrefixIds(Run(cfg, removed + more).prefixes)
      {
        GoneForGood(cfg, removed, more, reg);
      }
    }
  }
}
