/** What the rows of the pending interest table carry from their birth, and when they may time out. */
module NodeEntries {
  import opened NdnNames
  import opened Interests
  import opened NodeModel
  import opened NodeRuns
  import opened NodeRegistrations
  import opened NodeTables

  /** No lifetime means no deadline, and fetchers of the hub's key all ask the same. */
  predicate WellBorn(cfg: Config, e: Pending)
  {
    && (e.deadline >= 0.0 ==> e.interest.lifetime >= 0.0)
    && (e.handler.IdFetcher? ==> e.interest == FetchInterest())
    && (AddsRows(e) ==> cfg.enableNdnx)
  }

  ghost predicate EntryInv(cfg: Config, s: State) { forall e :: e in Live(s) ==> WellBorn(cfg, e) }

  lemma FewerKeepEntries(cfg: Config, s: State, t: State)
    requires EntryInv(cfg, s) && Live(t) <= Live(s)
    ensures EntryInv(cfg, t)
  {
    hide Live;
  }

  lemma ExpressKeepsEntries(cfg: Config, s: State, interest: Interest, handler: Handler, env: Env)
    requires EntryInv(cfg, s)
    requires handler.IdFetcher? ==> interest == FetchInterest() && (handler.registeredPrefixId != 0 ==> cfg.enableNdnx)
    ensures EntryInv(cfg, Express(s, interest, handler, env).state)
  {
    hide FetchInterest;
    var t := Express(s, interest, handler, env).state;
    if env.connects {
      LiveAppend(s, t, t.pit[|s.pit|]);
      hide Live;
    }
  }

  lemma RegisterNdnxKeepsEntries(cfg: Config, s: State, reg: nat, id: nat, prefix: NameValue, hasOnInterest: bool,
                                 env: Env)
    requires EntryInv(cfg, s)
    ensures EntryInv(cfg, RegisterNdnx(cfg, s, reg, id, prefix, hasOnInterest, env).state)
  {
    var t := AddRows(s, id, prefix, hasOnInterest);
    SameLive(s, t);
    hide Express, EntryInv, NdnxInterest;
    FewerKeepEntries(cfg, s, t);
    ExpressKeepsEntries(cfg, t, NdnxInterest(s.ndndId, env.appended),
      RegisterResponse(reg, prefix, hasOnInterest, false), env);
  }

  lemma RegisterKeepsEntries(cfg: Config, s: State, prefix: NameValue, hasOnInterest: bool, hasKeyChain: bool,
                             hasCertificate: bool, env: Env)
    requires EntryInv(cfg, s)
    ensures EntryInv(cfg, Register(cfg, s, prefix, hasOnInterest, hasKeyChain, hasCertificate, env).state)
  {
    hide Express, RegisterNdnx, EntryInv, FetchInterest, NfdInterest;
    var reg := s.lastPrefixId + 1;
    var t := s.(lastPrefixId := reg);
    SameLive(s, t);
    FewerKeepEntries(cfg, s, t);
    var u := AddRows(t, reg, prefix, hasOnInterest);
    SameLive(t, u);
    FewerKeepEntries(cfg, t, u);
    if cfg.enableNdnx {
      ExpressKeepsEntries(cfg, t, FetchInterest(), IdFetcher(reg, reg, prefix, hasOnInterest), env);
    }
    RegisterNdnxKeepsEntries(cfg, t, reg, reg, prefix, hasOnInterest, env);
    ExpressKeepsEntries(cfg, u, NfdInterest(cfg.isLocal, env.appended),
      RegisterResponse(reg, prefix, hasOnInterest, true), env);
    var r :=
      if t.ndndId != [] || !hasKeyChain then
        if !cfg.enableNdnx then Result(t, true)
        else if t.ndndId == [] then Express(t, FetchInterest(), IdFetcher(reg, reg, prefix, hasOnInterest), env)
        else RegisterNdnx(cfg, t, reg, reg, prefix, hasOnInterest, env)
      else RegisterNfd(cfg, t, reg, prefix, hasOnInterest, hasCertificate, env);
    var v := r.state.(accepted := r.state.accepted + {reg});
    SameLive(r.state, v);
    FewerKeepEntries(cfg, r.state, v);
  }

  lemma CallOnDataKeepsEntries(cfg: Config, s: State, handler: Handler, data: Data, env: Env)
    requires EntryInv(cfg, s)
    ensures EntryInv(cfg, CallOnData(cfg, s, handler, data, env).state)
  {
    hide RegisterNdnx, EntryInv, KeyDigest, Live, IsNdnxResponse, FetchInterest;
    if !handler.Application? {
      RecordKeepsEntries(cfg, s, handler.reg, false);
      RecordKeepsEntries(cfg, s, handler.reg, true);
    }
    if handler.IdFetcher? {
      var t := s.(ndndId := KeyDigest(data.content));
      SameLive(s, t);
      FewerKeepEntries(cfg, s, t);
      RegisterNdnxKeepsEntries(cfg, t, handler.reg, handler.registeredPrefixId, handler.prefix, handler.hasOnInterest,
                               env);
    }
  }

  lemma CallOnTimeoutKeepsEntries(cfg: Config, s: State, handler: Handler, env: Env)
    requires EntryInv(cfg, s)
    ensures EntryInv(cfg, CallOnTimeout(cfg, s, handler, env))
  {
    hide RegisterNdnx, EntryInv, Express, FetchInterest;
    if !handler.Application? {
      RecordKeepsEntries(cfg, s, handler.reg, false);
    }
    if handler.RegisterResponse? {
      ExpressKeepsEntries(cfg, s, FetchInterest(), IdFetcher(handler.reg, 0, handler.prefix, handler.hasOnInterest),
                          env);
      RegisterNdnxKeepsEntries(cfg, s, handler.reg, 0, handler.prefix, handler.hasOnInterest, env);
    }
  }

  lemma RecordKeepsEntries(cfg: Config, s: State, reg: nat, success: bool)
    requires EntryInv(cfg, s)
    ensures EntryInv(cfg, Record(s, reg, success))
  {
    SameLive(s, Record(s, reg, success));
    FewerKeepEntries(cfg, s, Record(s, reg, success));
  }

  lemma DropRestLive(s: State)
    ensures Live(DropRest(s)) <= Live(s)
  {
    DropRestEffect(s);
  }

  lemma ApplyKeepsEntries(cfg: Config, s: State, event: Event)
    requires IdInv(s) && EntryInv(cfg, s)
    ensures EntryInv(cfg, Apply(cfg, s, event))
  {
    hide IdInv, EntryInv, Express, Register, CallOnData, CallOnTimeout, DropRest, Kept, Taken, IsTimedOut,
      RemoveRegistered, UnsetFilter, SetFilter;
    var u := Apply(cfg, s, event);
    match event
    case ExpressInterest(interest, tag, env) =>
      ExpressKeepsEntries(cfg, s, interest, Application(tag), env);
    case RemovePendingInterest(id) =>
      WithoutIdElements(s.pit, id);
      assert Live(u) <= Live(s);
      FewerKeepEntries(cfg, s, u);
    case RegisterPrefix(prefix, hasOnInterest, hasKeyChain, hasCertificate, env) =>
      RegisterKeepsEntries(cfg, s, prefix, hasOnInterest, hasKeyChain, hasCertificate, env);
    case Timeout(index, now, env) =>
      if index < |s.pit| && IsTimedOut(s.pit[index], now) {
        var e := s.pit[index];
        var t := s.(pit := s.pit[..index] + s.pit[index + 1..], fates := s.fates[e.id := TimedOut]);
        LiveWithoutRow(s, t, index);
        FewerKeepEntries(cfg, s, t);
        CallOnTimeoutKeepsEntries(cfg, t, e.handler, env);
      }
    case DataArrives(data) =>
      if s.inFlight == [] {
        TakenElements(s.pit, data.name);
        KeptElements(s.pit, data.name);
        assert Live(u) <= Live(s);
        FewerKeepEntries(cfg, s, u);
      }
    case Deliver(env) =>
      if s.inFlight != [] {
        var e := s.inFlight[0];
        var t := s.(inFlight := s.inFlight[1..], fates := s.fates[e.id := Delivered]);
        LiveWithoutHead(s, t);
        FewerKeepEntries(cfg, s, t);
        CallOnDataKeepsEntries(cfg, t, e.handler, s.arrived, env);
        var v := CallOnData(cfg, t, e.handler, s.arrived, env).state;
        DropRestLive(v);
        FewerKeepEntries(cfg, v, DropRest(v));
      }
    case OnDataThrows =>
      DropRestLive(s);
      FewerKeepEntries(cfg, s, u);
    case _ =>
      SameTables(s, event, cfg);
      SameLive(s, u);
      FewerKeepEntries(cfg, s, u);
  }

  lemma SameTables(s: State, event: Event, cfg: Config)
    requires event.SetInterestFilter? || event.UnsetInterestFilter? || event.RemoveRegisteredPrefix?
    ensures var u := Apply(cfg, s, event);
      u.pit == s.pit && u.inFlight == s.inFlight && u.arrived == s.arrived && u.fates == s.fates
  {
    ApiCallIs(cfg, s, event);
    hide Apply;
  }

  /** After any run every live entry is well born. */
  lemma {:induction false} RunKeepsEntries(cfg: Config, events: seq<Event>)
    ensures EntryInv(cfg, Run(cfg, events))
  {
    hide Apply, EntryInv;
    if events == [] {
      NothingLives(cfg);
    } else {
      var n := |events| - 1;
      RunKeepsEntries(cfg, events[..n]);
      RunKeepsIds(cfg, events[..n]);
      ApplyKeepsEntries(cfg, Run(cfg, events[..n]), events[n]);
    }
  }

  lemma NothingLives(cfg: Config)
    ensures EntryInv(cfg, INITIAL)
  {
  }

  // ----- when an entry times out -----

  /** A live entry stays live or gets a fate, and it times out only in a pass that finds it due. */
  ghost predicate KeptOrServed(s: State, event: Event, e: Pending)
  {
    e in Live(s)
    || (e.id in s.fates && (s.fates[e.id] == TimedOut ==> event.Timeout? && IsTimedOut(e, event.now)))
  }

  lemma OnlyAppendsKeepsLive(s: State, t: State)
    requires OnlyAppends(s, t)
    ensures Live(s) <= Live(t)
  {
    if t.pit != s.pit {
      assert t.pit == s.pit + [t.pit[|s.pit|]];
    }
  }

  lemma DropRestServes(s: State, event: Event, e: Pending)
    requires IdInv(s) && (e in Live(s) || (e.id in s.fates && s.fates[e.id] != TimedOut))
    ensures KeptOrServed(DropRest(s), event, e)
  {
    DropRestEffect(s);
    DropRestDrops(s);
    hide DropRest, IdInv;
    if e in s.inFlight {
      var k :| 0 <= k < |s.inFlight| && s.inFlight[k] == e;
    }
  }

  lemma ApplyServesWhenDue(cfg: Config, s: State, event: Event, e: Pending)
    requires IdInv(s) && e in Live(s)
    ensures KeptOrServed(Apply(cfg, s, event), event, e)
  {
    hide IdInv, Live, Express, Register, CallOnData, CallOnTimeout, DropRest, Kept, Taken, IsTimedOut;
    var u := Apply(cfg, s, event);
    match event
    case ExpressInterest(interest, tag, env) =>
      ExpressOnlyAppends(s, interest, Application(tag), env);
      OnlyAppendsKeepsLive(s, u);
    case RemovePendingInterest(id) =>
      RemovalServes(s, id, e);
    case RegisterPrefix(prefix, hasOnInterest, hasKeyChain, hasCertificate, env) =>
      RegisterOnlyAppends(cfg, s, prefix, hasOnInterest, hasKeyChain, hasCertificate, env);
      OnlyAppendsKeepsLive(s, u);
    case Timeout(index, now, env) =>
      if index < |s.pit| && IsTimedOut(s.pit[index], now) {
        var f := s.pit[index];
        var t := s.(pit := s.pit[..index] + s.pit[index + 1..], fates := s.fates[f.id := TimedOut]);
        LiveWithoutRow(s, t, index);
        HelpersOnlyAppend(cfg, t, f.handler, NO_DATA, env);
        OnlyAppendsKeepsLive(t, u);
      }
    case DataArrives(data) =>
      if s.inFlight == [] {
        ArrivalKeepsLive(s, data);
      }
    case Deliver(env) =>
      if s.inFlight != [] {
        var f := s.inFlight[0];
        var t := s.(inFlight := s.inFlight[1..], fates := s.fates[f.id := Delivered]);
        LiveWithoutHead(s, t);
        HeadOfFlight(s, Delivered);
        HelpersOnlyAppend(cfg, t, f.handler, s.arrived, env);
        var v := CallOnData(cfg, t, f.handler, s.arrived, env).state;
        OnlyAppendsKeepsLive(t, v);
        AppendKeepsIds(t, v);
        DropRestServes(v, event, e);
      }
    case OnDataThrows =>
      DropRestServes(s, event, e);
    case _ =>
      SameTables(s, event, cfg);
      SameLive(s, u);
  }

  lemma RemovalServes(s: State, id: nat, e: Pending)
    requires e in Live(s)
    ensures var u := RemovePending(s, id); e in Live(u) || (e.id in u.fates && u.fates[e.id] == Removed)
  {
    WithoutIdElements(s.pit, id);
    if e in s.pit && e.id == id {
      var k :| 0 <= k < |s.pit| && s.pit[k] == e;
    }
  }

  lemma ArrivalKeepsLive(s: State, data: Data)
    requires s.inFlight == []
    ensures Live(s.(pit := Kept(s.pit, data.name), inFlight := Taken(s.pit, data.name), arrived := data)) == Live(s)
  {
    TakenElements(s.pit, data.name);
    KeptElements(s.pit, data.name);
  }

  /** No entry times out before its deadline: not unless some later pass finds it due. */
  lemma {:induction false} NoEarlyTimeout(cfg: Config, events: seq<Event>, more: seq<Event>, e: Pending)
    requires e in Live(Run(cfg, events))
    requires forall k :: 0 <= k < |more| && more[k].Timeout? ==> !IsTimedOut(e, more[k].now)
    ensures var t := Run(cfg, events + more);
      e in Live(t) || (e.id in t.fates && t.fates[e.id] != TimedOut)
    decreases |more|
  {
    hide Apply, IdInv, Run, Live, IsTimedOut;
    if more == [] {
      assert events + more == events;
    } else {
      var n := |more| - 1;
      var before := Run(cfg, events + more[..n]);
      NoEarlyTimeout(cfg, events, more[..n], e);
      RunKeepsIds(cfg, events + more[..n]);
      assert events + more == events + more[..n] + [more[n]];
      RunOfPrefix(cfg, events + more[..n], more[n]);
      ApplyKeepsIds(cfg, before, more[n]);
      if e in Live(before) {
        ApplyServesWhenDue(cfg, before, more[n], e);
      }
    }
  }

  /** An entry whose interest has a negative lifetime never times out. */
  lemma NegativeLifetimeNeverTimesOut(cfg: Config, events: seq<Event>, more: seq<Event>, e: Pending)
    requires e in Live(Run(cfg, events)) && e.interest.lifetime < 0.0
    ensures var t := Run(cfg, events + more);
      e in Live(t) || (e.id in t.fates && t.fates[e.id] != TimedOut)
  {
    RunKeepsEntries(cfg, events);
    hide Run, Live;
    assert WellBorn(cfg, e);
    NoEarlyTimeout(cfg, events, more, e);
  }
}
