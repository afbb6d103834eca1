/**
  What every run keeps of the prefix registrations: the fallback chain from NFD over the NDNx ID fetch to
  NDNx, and the filter and prefix tables.
 */
module NodeRegistrations {
  import opened NdnNames
  import opened Interests
  import opened NodeModel
  import opened NodeRuns

  /** The pending interests whose callbacks may still be called. */
  ghost function Live(s: State): set<Pending>
  {
    (set e | e in s.pit) + (set e | e in s.inFlight)
  }

  ghost function RegsOf(live: set<Pending>): set<nat>
  {
    set e | e in live && !e.handler.Application? :: e.handler.reg
  }

  ghost function LoggedRegs(outcomes: seq<RegistrationOutcome>): set<nat> { set o | o in outcomes :: o.reg }

  /** The number of interests a registration can have expressed by the time it waits with this handler. */
  function Rank(handler: Handler): nat
  {
    match handler
    case Application(_) => 0
    case IdFetcher(_, _, _, _) => 2
    case RegisterResponse(_, _, _, isNfdCommand) => if isNfdCommand then 1 else 3
  }

  function Count(expressed: map<nat, nat>, reg: nat): nat { if reg in expressed then expressed[reg] else 0 }

  predicate SameReg(e: Pending, f: Pending)
  {
    !e.handler.Application? && !f.handler.Application? && e.handler.reg == f.handler.reg
  }

  ghost predicate OneEntryEach(live: set<Pending>)
  {
    forall e, f :: e in live && f in live && SameReg(e, f) ==> e == f
  }

  ghost predicate LoggedOnce(outcomes: seq<RegistrationOutcome>)
  {
    forall i, j :: 0 <= i < j < |outcomes| ==> outcomes[i].reg != outcomes[j].reg
  }

  ghost predicate WithinRank(live: set<Pending>, expressed: map<nat, nat>)
  {
    forall e :: e in live && !e.handler.Application? ==> Count(expressed, e.handler.reg) <= Rank(e.handler)
  }

  /** Each registration waits with at most one entry or has at most one outcome, never both. */
  ghost predicate RegInv(s: State)
  {
    var live := Live(s);
    OneEntryEach(live)
    && LoggedOnce(s.outcomes)
    && RegsOf(live) !! LoggedRegs(s.outcomes)
    && RegsOf(live) + LoggedRegs(s.outcomes) + s.expressed.Keys + s.accepted <= UpTo(s.lastPrefixId)
    && WithinRank(live, s.expressed)
    && (forall r :: r in s.expressed ==> s.expressed[r] <= 3)
  }

  /** Nobody waits for r, nothing was recorded for it, and it may still express another interest. */
  ghost predicate MayContinue(s: State, r: nat, expressedBefore: nat)
  {
    r in UpTo(s.lastPrefixId) && r !in RegsOf(Live(s)) && r !in LoggedRegs(s.outcomes)
    && Count(s.expressed, r) <= expressedBefore
  }

  ghost predicate HandlerMayRun(s: State, handler: Handler)
  {
    handler.Application? || MayContinue(s, handler.reg, Rank(handler))
  }

  lemma RegsOfAdd(live: set<Pending>, e: Pending)
    ensures RegsOf(live + {e}) == if e.handler.Application? then RegsOf(live) else RegsOf(live) + {e.handler.reg}
  {
  }

  lemma LiveAppend(s: State, t: State, e: Pending)
    requires t.pit == s.pit + [e] && t.inFlight == s.inFlight
    ensures Live(t) == Live(s) + {e}
  {
  }

  lemma AddWaiting(live: set<Pending>, e: Pending, expressed: map<nat, nat>)
    requires OneEntryEach(live) && WithinRank(live, expressed)
    requires !e.handler.Application? ==>
      e.handler.reg !in RegsOf(live) && Count(expressed, e.handler.reg) < Rank(e.handler)
    ensures OneEntryEach(live + {e}) && WithinRank(live + {e}, CountExpressed(expressed, e.handler))
  {
    assert forall f :: f in live && SameReg(e, f) ==> f.handler.reg in RegsOf(live);
    assert forall f :: f in live && !f.handler.Application? ==> f.handler.reg in RegsOf(live);
  }

  lemma ExpressKeepsRegs(s: State, interest: Interest, handler: Handler, env: Env)
    requires RegInv(s)
    requires !handler.Application? ==> MayContinue(s, handler.reg, Rank(handler) - 1)
    ensures RegInv(Express(s, interest, handler, env).state)
  {
    var t := Express(s, interest, handler, env).state;
    if env.connects {
      var e := t.pit[|s.pit|];
      LiveAppend(s, t, e);
      RegsOfAdd(Live(s), e);
      AddWaiting(Live(s), e, s.expressed);
      hide Live, RegsOf, OneEntryEach, WithinRank, LoggedOnce, LoggedRegs;
    }
  }

  lemma RecordKeepsRegs(s: State, reg: nat, success: bool)
    requires RegInv(s) && MayContinue(s, reg, 3)
    ensures RegInv(Record(s, reg, success))
  {
    var t := Record(s, reg, success);
    assert Live(t) == Live(s);
    hide Live;
    assert LoggedRegs(t.outcomes) == LoggedRegs(s.outcomes) + {reg};
    assert forall k :: 0 <= k < |s.outcomes| ==> s.outcomes[k].reg in LoggedRegs(s.outcomes);
  }

  /** t differs from s in the tables, the clock of IDs and the rest, but not in what registrations wait for. */
  ghost predicate SameWaiting(s: State, t: State)
  {
    Live(t) <= Live(s) && t.outcomes == s.outcomes && t.expressed == s.expressed && t.accepted == s.accepted
    && t.lastPrefixId >= s.lastPrefixId
  }

  lemma FewerWaitingKeepsRegs(s: State, t: State)
    requires RegInv(s) && SameWaiting(s, t)
    ensures RegInv(t)
    ensures forall r, n :: MayContinue(s, r, n) ==> MayContinue(t, r, n)
  {
    hide Live;
    assert RegsOf(Live(t)) <= RegsOf(Live(s));
  }

  /** Whoever has just left the live entries may run its callback. */
  lemma LeavingMayRun(s: State, t: State, e: Pending)
    requires RegInv(s) && SameWaiting(s, t) && e in Live(s) && e !in Live(t)
    ensures HandlerMayRun(t, e.handler)
  {
    hide Live;
    if !e.handler.Application? {
      assert e.handler.reg in RegsOf(Live(s));
      if e.handler.reg in RegsOf(Live(t)) {
        var f :| f in Live(t) && SameReg(e, f);
        assert false;
      }
    }
  }

  lemma RegisterNdnxKeepsRegs(cfg: Config, s: State, reg: nat, registeredPrefixId: nat, prefix: NameValue,
                              hasOnInterest: bool, env: Env)
    requires RegInv(s) && MayContinue(s, reg, 2)
    ensures RegInv(RegisterNdnx(cfg, s, reg, registeredPrefixId, prefix, hasOnInterest, env).state)
  {
    hide RegInv, Express, MayContinue, NdnxInterest;
    var t := AddRows(s, registeredPrefixId, prefix, hasOnInterest);
    FewerWaitingKeepsRegs(s, t);
    ExpressKeepsRegs(t, NdnxInterest(s.ndndId, env.appended), RegisterResponse(reg, prefix, hasOnInterest, false), env);
  }

  lemma RegisterNfdKeepsRegs(cfg: Config, s: State, reg: nat, prefix: NameValue, hasOnInterest: bool,
                             hasCertificate: bool, env: Env)
    requires RegInv(s) && MayContinue(s, reg, 0)
    ensures RegInv(RegisterNfd(cfg, s, reg, prefix, hasOnInterest, hasCertificate, env).state)
  {
    hide RegInv, Express, MayContinue, NfdInterest;
    var t := AddRows(s, reg, prefix, hasOnInterest);
    FewerWaitingKeepsRegs(s, t);
    ExpressKeepsRegs(t, NfdInterest(cfg.isLocal, env.appended), RegisterResponse(reg, prefix, hasOnInterest, true),
                     env);
  }

  lemma MayContinueMore(s: State, r: nat, n: nat, m: nat)
    requires MayContinue(s, r, n) && n <= m
    ensures MayContinue(s, r, m)
  {
  }

  lemma NewRegMayStart(s: State)
    requires RegInv(s)
    ensures var t := s.(lastPrefixId := s.lastPrefixId + 1);
      RegInv(t) && MayContinue(t, t.lastPrefixId, 0)
  {
    var t := s.(lastPrefixId := s.lastPrefixId + 1);
    FewerWaitingKeepsRegs(s, t);
    assert Live(t) == Live(s);
    hide Live;
    assert t.lastPrefixId !in UpTo(s.lastPrefixId);
  }

  lemma AcceptKeepsRegs(s: State, reg: nat)
    requires RegInv(s) && 1 <= reg <= s.lastPrefixId
    ensures RegInv(s.(accepted := s.accepted + {reg}))
  {
    assert Live(s.(accepted := s.accepted + {reg})) == Live(s);
    hide Live;
  }

  lemma RegisterKeepsRegs(cfg: Config, s: State, prefix: NameValue, hasOnInterest: bool, hasKeyChain: bool,
                          hasCertificate: bool, env: Env)
    requires RegInv(s)
    ensures RegInv(Register(cfg, s, prefix, hasOnInterest, hasKeyChain, hasCertificate, env).state)
  {
    hide RegInv, MayContinue, Express, FetchInterest, NfdInterest, NdnxInterest;
    NewRegMayStart(s);
    var reg := s.lastPrefixId + 1;
    var t := s.(lastPrefixId := reg);
    MayContinueMore(t, reg, 0, 1);
    MayContinueMore(t, reg, 0, 2);
    ExpressKeepsRegs(t, FetchInterest(), IdFetcher(reg, reg, prefix, hasOnInterest), env);
    RegisterNdnxKeepsRegs(cfg, t, reg, reg, prefix, hasOnInterest, env);
    RegisterNfdKeepsRegs(cfg, t, reg, prefix, hasOnInterest, hasCertificate, env);
    ExpressKeepsLastPrefix(t, FetchInterest(), IdFetcher(reg, reg, prefix, hasOnInterest), env);
    RegisterKeepsLastPrefix(cfg, t, reg, reg, prefix, hasOnInterest, hasCertificate, env);
    hide RegisterNdnx, RegisterNfd;
    var r :=
      if t.ndndId != [] || !hasKeyChain then
        if !cfg.enableNdnx then Result(t, true)
        else if t.ndndId == [] then Express(t, FetchInterest(), IdFetcher(reg, reg, prefix, hasOnInterest), env)
        else RegisterNdnx(cfg, t, reg, reg, prefix, hasOnInterest, env)
      else RegisterNfd(cfg, t, reg, prefix, hasOnInterest, hasCertificate, env);
    AcceptKeepsRegs(r.state, reg);
  }

  lemma ExpressKeepsLastPrefix(s: State, interest: Interest, handler: Handler, env: Env)
    ensures Express(s, interest, handler, env).state.lastPrefixId == s.lastPrefixId
  {
  }

  lemma RegisterKeepsLastPrefix(cfg: Config, s: State, reg: nat, registeredPrefixId: nat, prefix: NameValue,
                                hasOnInterest: bool, hasCertificate: bool, env: Env)
    ensures var t := RegisterNdnx(cfg, s, reg, registeredPrefixId, prefix, hasOnInterest, env).state;
      t.lastPrefixId >= s.lastPrefixId
    ensures var t := RegisterNfd(cfg, s, reg, prefix, hasOnInterest, hasCertificate, env).state;
      t.lastPrefixId >= s.lastPrefixId
  {
    hide NdnxInterest, NfdInterest;
  }

  lemma CallOnDataKeepsRegs(cfg: Config, s: State, handler: Handler, data: Data, env: Env)
    requires RegInv(s) && HandlerMayRun(s, handler)
    ensures RegInv(CallOnData(cfg, s, handler, data, env).state)
  {
    hide RegInv, RegisterNdnx, Record, KeyDigest, MayContinue;
    if !handler.Application? {
      MayContinueMore(s, handler.reg, Rank(handler), 3);
      RecordKeepsRegs(s, handler.reg, false);
      RecordKeepsRegs(s, handler.reg, true);
    }
    if handler.IdFetcher? {
      var t := s.(ndndId := KeyDigest(data.content));
      FewerWaitingKeepsRegs(s, t);
      RegisterNdnxKeepsRegs(cfg, t, handler.reg, handler.registeredPrefixId, handler.prefix, handler.hasOnInterest,
                            env);
    }
  }

  lemma CallOnTimeoutKeepsRegs(cfg: Config, s: State, handler: Handler, env: Env)
    requires RegInv(s) && HandlerMayRun(s, handler)
    ensures RegInv(CallOnTimeout(cfg, s, handler, env))
  {
    hide RegInv, RegisterNdnx, Record, Express, FetchInterest, MayContinue;
    if !handler.Application? {
      MayContinueMore(s, handler.reg, Rank(handler), 3);
      RecordKeepsRegs(s, handler.reg, false);
    }
    if handler.RegisterResponse? && handler.isNfdCommand {
      MayContinueMore(s, handler.reg, 1, 2);
      ExpressKeepsRegs(s, FetchInterest(), IdFetcher(handler.reg, 0, handler.prefix, handler.hasOnInterest), env);
      RegisterNdnxKeepsRegs(cfg, s, handler.reg, 0, handler.prefix, handler.hasOnInterest, env);
    }
  }

  // ----- what leaves the live entries -----

  lemma LiveWithoutRow(s: State, t: State, k: nat)
    requires IdInv(s) && k < |s.pit|
    requires t.pit == s.pit[..k] + s.pit[k + 1..] && t.inFlight == s.inFlight
    ensures s.pit[k] in Live(s) && Live(t) == Live(s) - {s.pit[k]}
  {
    var e := s.pit[k];
    ElementsWithout(s.pit, k);
    IdsWithout(s.pit, k);
    assert e.id in Ids(s.pit) && e.id !in Ids(t.pit);
    assert forall f :: f in s.inFlight ==> f.id in Ids(s.inFlight);
    assert e !in t.pit && e !in s.inFlight;
    forall f | f in t.pit
      ensures f in s.pit
    {
      var j :| 0 <= j < |t.pit| && t.pit[j] == f;
    }
  }

  lemma LiveWithoutHead(s: State, t: State)
    requires IdInv(s) && s.inFlight != [] && t.pit == s.pit && t.inFlight == s.inFlight[1..]
    ensures s.inFlight[0] in Live(s) && Live(t) == Live(s) - {s.inFlight[0]}
  {
    var q := s.inFlight;
    assert q == [q[0]] + q[1..];
    assert q[0].id in Ids(q);
    assert forall f :: f in s.pit ==> f.id in Ids(s.pit);
  }

  lemma {:induction false} DropRestKeepsRegs(s: State)
    requires RegInv(s)
    ensures RegInv(DropRest(s))
    decreases |s.inFlight|
  {
    hide RegInv;
    if s.inFlight != [] {
      var t := s.(inFlight := s.inFlight[1..], fates := s.fates[s.inFlight[0].id := Lost]);
      assert Live(t) <= Live(s);
      FewerWaitingKeepsRegs(s, t);
      DropRestKeepsRegs(t);
    }
  }

  lemma {:induction false} WithoutIdElements(q: seq<Pending>, id: nat)
    ensures forall e :: e in WithoutId(q, id) <==> e in q && e.id != id
  {
    if q != [] {
      WithoutIdElements(q[1..], id);
      assert q == [q[0]] + q[1..];
    }
  }

  lemma ApplyKeepsRegs(cfg: Config, s: State, event: Event)
    requires IdInv(s) && RegInv(s)
    ensures RegInv(Apply(cfg, s, event))
  {
    hide IdInv, RegInv, Express, Register, CallOnData, CallOnTimeout, DropRest, Kept, Taken, IsTimedOut, HandlerMayRun;
    var u := Apply(cfg, s, event);
    match event
    case ExpressInterest(interest, tag, env) =>
      ExpressKeepsRegs(s, interest, Application(tag), env);
    case RemovePendingInterest(id) =>
      WithoutIdElements(s.pit, id);
      assert Live(u) <= Live(s);
      FewerWaitingKeepsRegs(s, u);
    case SetInterestFilter(prefix) =>
      FewerWaitingKeepsRegs(s, u);
    case UnsetInterestFilter(id) =>
      FewerWaitingKeepsRegs(s, u);
    case RegisterPrefix(prefix, hasOnInterest, hasKeyChain, hasCertificate, env) =>
      RegisterKeepsRegs(cfg, s, prefix, hasOnInterest, hasKeyChain, hasCertificate, env);
    case RemoveRegisteredPrefix(id) =>
      FewerWaitingKeepsRegs(s, u);
    case Timeout(index, now, env) =>
      if index < |s.pit| && IsTimedOut(s.pit[index], now) {
        var e := s.pit[index];
        var t := s.(pit := s.pit[..index] + s.pit[index + 1..], fates := s.fates[e.id := TimedOut]);
        LiveWithoutRow(s, t, index);
        FewerWaitingKeepsRegs(s, t);
        LeavingMayRun(s, t, e);
        CallOnTimeoutKeepsRegs(cfg, t, e.handler, env);
      }
    case DataArrives(data) =>
      if s.inFlight == [] {
        TakenElements(s.pit, data.name);
        KeptElements(s.pit, data.name);
        assert Live(u) <= Live(s);
        FewerWaitingKeepsRegs(s, u);
      }
    case Deliver(env) =>
      if s.inFlight != [] {
        var e := s.inFlight[0];
        var t := s.(inFlight := s.inFlight[1..], fates := s.fates[e.id := Delivered]);
        LiveWithoutHead(s, t);
        FewerWaitingKeepsRegs(s, t);
        LeavingMayRun(s, t, e);
        CallOnDataKeepsRegs(cfg, t, e.handler, s.arrived, env);
        DropRestKeepsRegs(CallOnData(cfg, t, e.handler, s.arrived, env).state);
      }
    case OnDataThrows =>
      DropRestKeepsRegs(s);
  }

  lemma {:induction false} RunKeepsRegs(cfg: Config, events: seq<Event>)
    ensures RegInv(Run(cfg, events))
  {
    hide Apply, RegInv;
    if events == [] {
      InitialRegs();
    } else {
      var n := |events| - 1;
      RunKeepsRegs(cfg, events[..n]);
      RunKeepsIds(cfg, events[..n]);
      ApplyKeepsRegs(cfg, Run(cfg, events[..n]), events[n]);
    }
  }

  lemma InitialRegs()
    ensures RegInv(INITIAL)
  {
  }

  // ----- no registration is forgotten -----

  ghost function Covered(s: State): set<nat> { RegsOf(Live(s)) + LoggedRegs(s.outcomes) }

  /** NDNx is enabled, nothing throws, and the application removes none of the node's own interests by ID. */
  ghost predicate Nice(cfg: Config, s: State, event: Event)
  {
    match event
    case RemovePendingInterest(id) => forall e :: e in s.pit && e.id == id ==> e.handler.Application?
    case Timeout(_, _, env) => cfg.enableNdnx && Works(env)
    case Deliver(env) => cfg.enableNdnx && Works(env)
    case OnDataThrows => false
    case _ => true
  }

  lemma ExpressCovers(s: State, interest: Interest, handler: Handler, env: Env)
    ensures var t := Express(s, interest, handler, env).state;
      Covered(s) <= Covered(t) && (env.connects && !handler.Application? ==> handler.reg in Covered(t))
  {
    var t := Express(s, interest, handler, env).state;
    if env.connects {
      var e := t.pit[|s.pit|];
      LiveAppend(s, t, e);
      RegsOfAdd(Live(s), e);
    }
  }

  lemma RecordCovers(s: State, reg: nat, success: bool)
    ensures Covered(Record(s, reg, success)) == Covered(s) + {reg}
  {
    assert Live(Record(s, reg, success)) == Live(s);
    assert LoggedRegs(Record(s, reg, success).outcomes) == LoggedRegs(s.outcomes) + {reg};
  }

  lemma RegisterNdnxCovers(cfg: Config, s: State, reg: nat, registeredPrefixId: nat, prefix: NameValue,
                           hasOnInterest: bool, env: Env)
    ensures var t := RegisterNdnx(cfg, s, reg, registeredPrefixId, prefix, hasOnInterest, env).state;
      Covered(s) <= Covered(t) && t.accepted == s.accepted
      && (cfg.enableNdnx && env.signs && env.connects ==> reg in Covered(t))
  {
    hide NdnxInterest;
    var u := AddRows(s, registeredPrefixId, prefix, hasOnInterest);
    assert Live(u) == Live(s);
    ExpressCovers(u, NdnxInterest(s.ndndId, env.appended), RegisterResponse(reg, prefix, hasOnInterest, false), env);
  }

  lemma RegisterNfdCovers(cfg: Config, s: State, reg: nat, prefix: NameValue, hasOnInterest: bool,
                          hasCertificate: bool, env: Env)
    ensures var t := RegisterNfd(cfg, s, reg, prefix, hasOnInterest, hasCertificate, env).state;
      Covered(s) <= Covered(t) && t.accepted == s.accepted
      && (hasCertificate && env.signs && env.connects ==> reg in Covered(t))
  {
    hide NfdInterest;
    var u := AddRows(s, reg, prefix, hasOnInterest);
    assert Live(u) == Live(s);
    ExpressCovers(u, NfdInterest(cfg.isLocal, env.appended), RegisterResponse(reg, prefix, hasOnInterest, true), env);
  }

  lemma RegisterCovers(cfg: Config, s: State, prefix: NameValue, hasOnInterest: bool, hasKeyChain: bool,
                       hasCertificate: bool, env: Env)
    requires s.accepted <= Covered(s)
    ensures var t := Register(cfg, s, prefix, hasOnInterest, hasKeyChain, hasCertificate, env).state;
      t.accepted <= Covered(t)
  {
    hide FetchInterest, NfdInterest, NdnxInterest, Live;
    var reg := s.lastPrefixId + 1;
    var t := s.(lastPrefixId := reg);
    assert Live(t) == Live(s) by { SameLive(s, t); }
    ExpressCovers(t, FetchInterest(), IdFetcher(reg, reg, prefix, hasOnInterest), env);
    RegisterNdnxCovers(cfg, t, reg, reg, prefix, hasOnInterest, env);
    RegisterNfdCovers(cfg, t, reg, prefix, hasOnInterest, hasCertificate, env);
    var u := Register(cfg, s, prefix, hasOnInterest, hasKeyChain, hasCertificate, env).state;
    SameLive(u, u.(accepted := t.accepted));
  }

  lemma SameLive(s: State, t: State)
    requires t.pit == s.pit && t.inFlight == s.inFlight
    ensures Live(t) == Live(s)
  {
  }

  lemma CallOnDataCovers(cfg: Config, s: State, handler: Handler, data: Data, env: Env)
    requires cfg.enableNdnx && Works(env)
    ensures var r := CallOnData(cfg, s, handler, data, env);
      !r.threw && Covered(s) <= Covered(r.state) && r.state.accepted == s.accepted
      && (handler.Application? || handler.reg in Covered(r.state))
  {
    hide KeyDigest, NdnxInterest, Covered;
    if !handler.Application? {
      RecordCovers(s, handler.reg, false);
      RecordCovers(s, handler.reg, true);
    }
    if handler.IdFetcher? {
      var t := s.(ndndId := KeyDigest(data.content));
      CoveredSame(s, t);
      RegisterNdnxCovers(cfg, t, handler.reg, handler.registeredPrefixId, handler.prefix, handler.hasOnInterest, env);
    }
  }

  lemma CoveredSame(s: State, t: State)
    requires t.pit == s.pit && t.inFlight == s.inFlight && t.outcomes == s.outcomes
    ensures Covered(t) == Covered(s)
  {
    SameLive(s, t);
  }

  lemma CallOnTimeoutCovers(cfg: Config, s: State, handler: Handler, env: Env)
    requires cfg.enableNdnx && Works(env)
    ensures var t := CallOnTimeout(cfg, s, handler, env);
      Covered(s) <= Covered(t) && t.accepted == s.accepted && (handler.Application? || handler.reg in Covered(t))
  {
    hide FetchInterest, NdnxInterest, Covered;
    if !handler.Application? {
      RecordCovers(s, handler.reg, false);
    }
    if handler.RegisterResponse? && handler.isNfdCommand {
      ExpressCovers(s, FetchInterest(), IdFetcher(handler.reg, 0, handler.prefix, handler.hasOnInterest), env);
      RegisterNdnxCovers(cfg, s, handler.reg, 0, handler.prefix, handler.hasOnInterest, env);
    }
  }

  /** Removing one entry uncovers at most its own registration. */
  lemma LeavingUncoversOne(s: State, t: State, e: Pending)
    requires Live(t) == Live(s) - {e} && t.outcomes == s.outcomes
    ensures e.handler.Application? ==> Covered(s) <= Covered(t)
    ensures !e.handler.Application? ==> Covered(s) <= Covered(t) + {e.handler.reg}
  {
    hide Live;
    assert forall f :: f in Live(s) && f != e ==> f in Live(t);
  }

  lemma ApplyKeepsCover(cfg: Config, s: State, event: Event)
    requires IdInv(s) && s.accepted <= Covered(s) && Nice(cfg, s, event)
    ensures var t := Apply(cfg, s, event); t.accepted <= Covered(t)
  {
    hide IdInv, Register, CallOnData, CallOnTimeout, DropRest, Kept, Taken, IsTimedOut, Covered, Express;
    var u := Apply(cfg, s, event);
    match event
    case ExpressInterest(interest, tag, env) =>
      ExpressCovers(s, interest, Application(tag), env);
      ExpressAccepts(s, interest, Application(tag), env);
    case RemovePendingInterest(id) =>
      WithoutIdElements(s.pit, id);
      assert forall e :: e in Live(s) && e !in Live(u) ==> e.handler.Application?;
      LeavingApplications(s, u);
    case SetInterestFilter(prefix) =>
      CoveredSame(s, u);
    case UnsetInterestFilter(id) =>
      CoveredSame(s, u);
    case RegisterPrefix(prefix, hasOnInterest, hasKeyChain, hasCertificate, env) =>
      RegisterCovers(cfg, s, prefix, hasOnInterest, hasKeyChain, hasCertificate, env);
    case RemoveRegisteredPrefix(id) =>
      CoveredSame(s, u);
    case Timeout(index, now, env) =>
      if index < |s.pit| && IsTimedOut(s.pit[index], now) {
        var e := s.pit[index];
        var t := s.(pit := s.pit[..index] + s.pit[index + 1..], fates := s.fates[e.id := TimedOut]);
        LiveWithoutRow(s, t, index);
        LeavingUncoversOne(s, t, e);
        CallOnTimeoutCovers(cfg, t, e.handler, env);
      }
    case DataArrives(data) =>
      if s.inFlight == [] {
        TakenElements(s.pit, data.name);
        KeptElements(s.pit, data.name);
        assert Live(u) == Live(s);
        LeavingApplications(s, u);
      }
    case Deliver(env) =>
      if s.inFlight != [] {
        var e := s.inFlight[0];
        var t := s.(inFlight := s.inFlight[1..], fates := s.fates[e.id := Delivered]);
        LiveWithoutHead(s, t);
        LeavingUncoversOne(s, t, e);
        CallOnDataCovers(cfg, t, e.handler, s.arrived, env);
      }
    case OnDataThrows =>
      assert false;
  }

  lemma ExpressAccepts(s: State, interest: Interest, handler: Handler, env: Env)
    ensures Express(s, interest, handler, env).state.accepted == s.accepted
  {
  }

  lemma LeavingApplications(s: State, t: State)
    requires t.outcomes == s.outcomes
    requires forall e :: e in Live(s) && e !in Live(t) ==> e.handler.Application?
    ensures Covered(s) <= Covered(t)
  {
    hide Live;
  }

  ghost predicate NiceRun(cfg: Config, events: seq<Event>)
  {
    forall k {:trigger events[k]} :: 0 <= k < |events| ==> Nice(cfg, Run(cfg, events[..k]), events[k])
  }

  lemma {:induction false} NiceRunKeepsCover(cfg: Config, events: seq<Event>)
    requires NiceRun(cfg, events)
    ensures Run(cfg, events).accepted <= Covered(Run(cfg, events))
  {
    hide Apply, Nice, Covered;
    if events != [] {
      var n := |events| - 1;
      var before := events[..n];
      assert forall k :: 0 <= k < n ==> before[..k] == events[..k] && before[k] == events[k];
      NiceRunKeepsCover(cfg, before);
      RunKeepsIds(cfg, before);
      assert Nice(cfg, Run(cfg, before), events[n]);
      ApplyKeepsCover(cfg, Run(cfg, before), events[n]);
    }
  }

  // ----- the registration protocol over whole runs -----

  ghost predicate Waits(s: State, reg: nat, e: Pending)
  {
    e in Live(s) && !e.handler.Application? && e.handler.reg == reg
  }

  ghost predicate HasOutcome(s: State, reg: nat, k: nat) { k < |s.outcomes| && s.outcomes[k].reg == reg }

  /**
    In every run whatsoever, a registration waits with at most one entry or has at most one outcome, never
    both, and has expressed at most three interests.
   */
  lemma AtMostOneOutcome(cfg: Config, events: seq<Event>, reg: nat)
    ensures var s := Run(cfg, events);
      (forall e, f :: Waits(s, reg, e) && Waits(s, reg, f) ==> e == f)
      && (forall i: nat, j: nat :: HasOutcome(s, reg, i) && HasOutcome(s, reg, j) ==> i == j)
      && (forall e, k: nat :: !(Waits(s, reg, e) && HasOutcome(s, reg, k)))
      && Count(s.expressed, reg) <= 3
  {
    RunKeepsRegs(cfg, events);
    var s := Run(cfg, events);
    hide Live, Run;
    forall e, f | Waits(s, reg, e) && Waits(s, reg, f)
      ensures e == f
    {
      assert SameReg(e, f);
    }
    assert forall e :: Waits(s, reg, e) ==> reg in RegsOf(Live(s));
    assert forall k: nat :: HasOutcome(s, reg, k) ==> reg in LoggedRegs(s.outcomes);
  }

  /**
    With NDNx enabled, nothing throwing and no internal interest removed by ID, every registration that
    registerPrefix accepted waits with exactly one entry or has exactly one outcome.
   */
  lemma ExactlyOneOutcome(cfg: Config, events: seq<Event>, reg: nat)
    requires NiceRun(cfg, events) && reg in Run(cfg, events).accepted
    ensures var s := Run(cfg, events);
      ((exists e :: Waits(s, reg, e)) <==> !exists k: nat :: HasOutcome(s, reg, k))
      && (forall e, f :: Waits(s, reg, e) && Waits(s, reg, f) ==> e == f)
      && (forall i: nat, j: nat :: HasOutcome(s, reg, i) && HasOutcome(s, reg, j) ==> i == j)
  {
    AtMostOneOutcome(cfg, events, reg);
    NiceRunKeepsCover(cfg, events);
    var s := Run(cfg, events);
    hide Live, Run;
    if reg in RegsOf(Live(s)) {
      var e :| e in Live(s) && !e.handler.Application? && e.handler.reg == reg;
      assert Waits(s, reg, e);
    } else {
      var o :| o in s.outcomes && o.reg == reg;
      var k :| 0 <= k < |s.outcomes| && s.outcomes[k] == o;
      assert HasOutcome(s, reg, k);
    }
  }

  /**
    Without NDNx enabled the promise fails: when the hub's key arrives for a registration that waits for it,
    the exception leaves the registration without an entry and without an outcome, and the Data's other
    callbacks are never called.
   */
  lemma ForgottenWithoutNdnx(cfg: Config, s: State, env: Env)
    requires IdInv(s) && RegInv(s) && s.inFlight != [] && s.inFlight[0].handler.IdFetcher?
    requires |s.arrived.content| >= 1 && s.arrived.content[0] == 0x30
    ensures var t := DeliverFirst(cfg, s, env);
      var reg := s.inFlight[0].handler.reg;
      !cfg.enableNdnx ==>
        (reg !in Covered(t) && t.inFlight == []
         && forall k :: 1 <= k < |s.inFlight| ==> s.inFlight[k].id in t.fates && t.fates[s.inFlight[k].id] == Lost)
  {
    hide IdInv, RegInv, Live, KeyDigest, DropRest, Covered, Register;
    var e := s.inFlight[0];
    var t := s.(inFlight := s.inFlight[1..], fates := s.fates[e.id := Delivered]);
    HeadOfFlight(s, Delivered);
    LiveWithoutHead(s, t);
    FewerWaitingKeepsRegs(s, t);
    LeavingMayRun(s, t, e);
    var u := t.(ndndId := KeyDigest(s.arrived.content));
    if !cfg.enableNdnx {
      CoveredSame(t, u);
      NotCovered(t, e.handler.reg);
      SameIds(t, u);
      DropRestDrops(u);
      assert forall k :: 1 <= k < |s.inFlight| ==> s.inFlight[k] == u.inFlight[k - 1];
    }
  }

  lemma NotCovered(s: State, reg: nat)
    requires MayContinue(s, reg, 2)
    ensures reg !in Covered(s)
  {
  }

  lemma SameIds(s: State, t: State)
    requires IdInv(s) && t == s.(ndndId := t.ndndId)
    ensures IdInv(t)
  {
  }

  lemma {:induction false} DropRestDrops(s: State)
    requires IdInv(s)
    ensures var t := DropRest(s);
      t.inFlight == [] && Covered(t) <= Covered(s) && FatesExtend(s, t)
      && forall k :: 0 <= k < |s.inFlight| ==> s.inFlight[k].id in t.fates && t.fates[s.inFlight[k].id] == Lost
    decreases |s.inFlight|
  {
    if s.inFlight != [] {
      var t := s.(inFlight := s.inFlight[1..], fates := s.fates[s.inFlight[0].id := Lost]);
      HeadOfFlight(s, Lost);
      LiveWithoutHead(s, t);
      hide IdInv, Live;
      DropRestDrops(t);
      assert forall k :: 1 <= k < |s.inFlight| ==> s.inFlight[k] == t.inFlight[k - 1];
    }
  }
}
