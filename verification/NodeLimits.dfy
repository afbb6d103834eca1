/** Where the promises about registrations end, and exactly when: witness runs and the conditions over all runs. */
module NodeLimits {
  import opened Components
  import opened NdnNames
  import opened Interests
  import opened NodeModel
  import opened NodeRuns
  import opened NodeRegistrations
  import opened NodeTables
  import opened NodeEntries

  /** A Data packet that a hub sends in answer to the fetch interest: a DER encoded key. */
  predicate IsKey(data: Data) { |data.content| >= 1 && data.content[0] == 0x30 }

  function HubKey(): Data { Data(FetchInterest().name, [0x30], Undecodable) }

  // ----- runs, one event at a time -----

  lemma RunStep(cfg: Config, events: seq<Event>, s: State, event: Event, t: State)
    requires Run(cfg, events) == s && Apply(cfg, s, event) == t
    ensures Run(cfg, events + [event]) == t
  {
    hide Apply, Run;
    RunOfPrefix(cfg, events, event);
  }

  lemma RunOfMore(cfg: Config, events: seq<Event>, more: seq<Event>)
    requires more != []
    ensures var n := |more| - 1;
      Run(cfg, events + more) == Apply(cfg, Run(cfg, events + more[..n]), more[n])
  {
    hide Apply, Run;
    var n := |more| - 1;
    assert events + more == events + more[..n] + [more[n]];
    RunOfPrefix(cfg, events + more[..n], more[n]);
  }

  // ----- a registration that is forgotten -----

  /** When the hub's key arrives for a waiting registration, it is kept in view exactly if NDNx is enabled. */
  lemma KeyArrivalCoversIff(cfg: Config, s: State, env: Env)
    requires IdInv(s) && RegInv(s) && s.inFlight != [] && s.inFlight[0].handler.IdFetcher?
    requires IsKey(s.arrived) && Works(env)
    ensures s.inFlight[0].handler.reg in Covered(DeliverFirst(cfg, s, env)) <==> cfg.enableNdnx
  {
    ForgottenWithoutNdnx(cfg, s, env);
    if cfg.enableNdnx {
      var e := s.inFlight[0];
      CallOnDataCovers(cfg, s.(inFlight := s.inFlight[1..], fates := s.fates[e.id := Delivered]), e.handler, s.arrived,
                       env);
    }
    hide IdInv, RegInv, Covered, CallOnData;
  }

  /** The callbacks behind that registration's are still to be called exactly if NDNx is enabled; else they are lost. */
  lemma BehindKeyIff(cfg: Config, s: State, env: Env, k: nat)
    requires IdInv(s) && RegInv(s) && s.inFlight != [] && s.inFlight[0].handler.IdFetcher?
    requires IsKey(s.arrived) && Works(env) && 1 <= k < |s.inFlight|
    ensures var e, t := s.inFlight[k], DeliverFirst(cfg, s, env);
      (e in t.inFlight <==> cfg.enableNdnx) && (e.id in t.fates && t.fates[e.id] == Lost <==> !cfg.enableNdnx)
  {
    ForgottenWithoutNdnx(cfg, s, env);
    if cfg.enableNdnx {
      var e := s.inFlight[0];
      var t := s.(inFlight := s.inFlight[1..], fates := s.fates[e.id := Delivered]);
      CallOnDataCovers(cfg, t, e.handler, s.arrived, env);
      CallOnDataKeepsFlight(cfg, t, e.handler, s.arrived, env);
      assert s.inFlight[k] == s.inFlight[1..][k - 1];
      assert s.inFlight[k].id in Ids(s.inFlight);
    }
    hide RegInv, Covered, CallOnData;
  }

  /** Nice, but for the setting of NDNx. */
  ghost predicate Undisturbed(s: State, event: Event)
  {
    match event
    case RemovePendingInterest(id) => forall e :: e in s.pit && e.id == id ==> e.handler.Application?
    case Timeout(_, _, env) => Works(env)
    case Deliver(env) => Works(env)
    case OnDataThrows => false
    case _ => true
  }

  ghost predicate UndisturbedRun(cfg: Config, events: seq<Event>)
  {
    forall k {:trigger events[k]} :: 0 <= k < |events| ==> Undisturbed(Run(cfg, events[..k]), events[k])
  }

  /** At this time connecting, signing and sending succeed. */
  function At(now: real): Env { Env(now, true, true, true, []) }

  /** The application asks for the hub's key itself, and is patient. */
  function KeyInterest(): Interest { FetchInterest().(lifetime := 8000.0) }

  /**
    A registration by NFD command whose command times out, and for which the hub's key then arrives; the
    application waits for the same Data.
   */
  function ForgottenEvents(prefix: NameValue): seq<Event>
  {
    [ExpressInterest(KeyInterest(), 0, At(0.0)), RegisterPrefix(prefix, false, true, true, At(0.0)),
     Timeout(1, 4000.0, At(4000.0)), DataArrives(HubKey()), Deliver(At(4000.0))]
  }

  /** The states of that run. */
  function Asked(): State
  {
    INITIAL.(lastPendingId := 1, pit := [NewPending(1, KeyInterest(), Application(0), 0.0)])
  }

  function Commanded(cfg: Config, prefix: NameValue): State
  {
    var s := Asked();
    s.(lastPrefixId := 1, accepted := {1}, expressed := map[1 := 1], lastPendingId := 2,
       prefixes := [RegisteredPrefix(1, prefix, 0)],
       pit := s.pit + [NewPending(2, NfdInterest(cfg.isLocal, []), RegisterResponse(1, prefix, false, true), 0.0)])
  }

  function Fetching(cfg: Config, prefix: NameValue): State
  {
    Commanded(cfg, prefix).(expressed := map[1 := 2], lastPendingId := 3, fates := map[2 := TimedOut],
      pit := Asked().pit + [NewPending(3, FetchInterest(), IdFetcher(1, 0, prefix, false), 4000.0)])
  }

  function Answered(cfg: Config, prefix: NameValue): State
  {
    var s := Fetching(cfg, prefix);
    s.(pit := [], inFlight := [s.pit[1], s.pit[0]], arrived := HubKey())
  }

  lemma AskedAfter(cfg: Config)
    ensures Apply(cfg, INITIAL, ExpressInterest(KeyInterest(), 0, At(0.0))) == Asked()
  {
    hide KeyInterest, TimeoutPrefix, Apply, Register, RemovePending, SetFilter, UnsetFilter, RemoveRegistered,
      HubKey, FetchInterest;
    ApiCallIs(cfg, INITIAL, ExpressInterest(KeyInterest(), 0, At(0.0)));
  }

  lemma CommandedAfter(cfg: Config, prefix: NameValue)
    ensures Apply(cfg, Asked(), ForgottenEvents(prefix)[1]) == Commanded(cfg, prefix)
  {
    hide KeyInterest, FetchInterest, NfdInterest, TimeoutPrefix;
  }

  lemma FetchingAfter(cfg: Config, prefix: NameValue)
    ensures Apply(cfg, Commanded(cfg, prefix), ForgottenEvents(prefix)[2]) == Fetching(cfg, prefix)
  {
    hide KeyInterest, FetchInterest, NfdInterest, TimeoutPrefix, Apply;
    NfdLifetime(cfg.isLocal);
    TimeoutEffect(cfg, Commanded(cfg, prefix), 1, 4000.0, At(4000.0));
  }

  lemma NfdLifetime(isLocal: bool)
    ensures 0.0 <= NfdInterest(isLocal, []).lifetime <= 4000.0
  {
  }

  lemma FetchAcceptsKey()
    ensures Accepts(FetchInterest(), FetchInterest().name) && Accepts(KeyInterest(), FetchInterest().name)
  {
  }

  lemma TakenAlone(e: Pending, name: NameValue)
    requires Accepts(e.interest, name)
    ensures Taken([e], name) == [e] && Kept([e], name) == []
  {
    hide Accepts;
    assert [e][1..] == [];
  }

  lemma TakenBoth(e: Pending, f: Pending, name: NameValue)
    requires Accepts(e.interest, name) && Accepts(f.interest, name)
    ensures Taken([e, f], name) == [f, e] && Kept([e, f], name) == []
  {
    TakenAlone(f, name);
    hide Accepts;
    assert [e, f][1..] == [f];
  }

  lemma FetchingEntries(cfg: Config, prefix: NameValue)
    ensures var s := Fetching(cfg, prefix);
      && |s.pit| == 2 && s.pit[0].interest == KeyInterest() && s.pit[0].id == 1
      && s.pit[1].interest == FetchInterest() && s.pit[1].handler == IdFetcher(1, 0, prefix, false)
      && s.inFlight == [] && 1 in s.accepted
  {
    hide FetchInterest, KeyInterest, NfdInterest;
  }

  lemma AnsweredAfter(cfg: Config, prefix: NameValue)
    ensures Apply(cfg, Fetching(cfg, prefix), DataArrives(HubKey())) == Answered(cfg, prefix)
  {
    hide FetchInterest, KeyInterest, Accepts, Taken, Kept, Fetching, Apply;
    var s := Fetching(cfg, prefix);
    FetchAcceptsKey();
    FetchingEntries(cfg, prefix);
    assert s.pit == [s.pit[0], s.pit[1]];
    TakenBoth(s.pit[0], s.pit[1], HubKey().name);
    DataArrivesEffect(cfg, s, HubKey());
  }

  /** The run up to the key's arrival. */
  lemma AnsweredRun(cfg: Config, prefix: NameValue)
    ensures Run(cfg, ForgottenEvents(prefix)[..4]) == Answered(cfg, prefix)
  {
    hide Run, Apply, Answered, Fetching, Commanded, Asked, HubKey, KeyInterest;
    var e := ForgottenEvents(prefix);
    var e0, e1, e2, e3 := e[0], e[1], e[2], e[3];
    RunOfNothing(cfg);
    AskedAfter(cfg);
    CommandedAfter(cfg, prefix);
    FetchingAfter(cfg, prefix);
    AnsweredAfter(cfg, prefix);
    assert e[..4] == [] + [e0] + [e1] + [e2] + [e3];
    hide ForgottenEvents;
    RunStep(cfg, [], INITIAL, e0, Asked());
    RunStep(cfg, [] + [e0], Asked(), e1, Commanded(cfg, prefix));
    RunStep(cfg, [] + [e0] + [e1], Commanded(cfg, prefix), e2, Fetching(cfg, prefix));
    RunStep(cfg, [] + [e0] + [e1] + [e2], Fetching(cfg, prefix), e3, Answered(cfg, prefix));
  }

  lemma RunOfNothing(cfg: Config)
    ensures Run(cfg, []) == INITIAL
  {
  }

  lemma ForgottenUndisturbed(cfg: Config, prefix: NameValue)
    ensures UndisturbedRun(cfg, ForgottenEvents(prefix))
  {
    hide Run, HubKey, KeyInterest;
  }

  lemma AnsweredEntries(cfg: Config, prefix: NameValue)
    ensures var s := Answered(cfg, prefix);
      && |s.inFlight| == 2 && s.inFlight[0].handler == IdFetcher(1, 0, prefix, false) && s.inFlight[1].id == 1
      && IsKey(s.arrived) && 1 in s.accepted
  {
    hide FetchInterest, KeyInterest, Fetching;
    FetchingEntries(cfg, prefix);
  }

  /**
    That run registers and disturbs nothing. If NDNx is not enabled, it ends without a trace of the registration
    and with the application's callback lost.
   */
  lemma ForgottenRun(cfg: Config, prefix: NameValue)
    ensures var events := ForgottenEvents(prefix);
      var s := Run(cfg, events);
      && UndisturbedRun(cfg, events) && 1 in s.accepted
      && (1 in Covered(s) <==> cfg.enableNdnx)
      && (1 in s.fates && s.fates[1] == Lost <==> !cfg.enableNdnx)
  {
    hide Run, Covered, IdInv, RegInv, DeliverFirst, Answered, UndisturbedRun, Apply, ForgottenEvents, At;
    var e, env := ForgottenEvents(prefix), At(4000.0);
    var s := Answered(cfg, prefix);
    ForgottenEndsSo(prefix);
    AnsweredRun(cfg, prefix);
    RunKeepsIds(cfg, e[..4]);
    RunKeepsRegs(cfg, e[..4]);
    ForgottenUndisturbed(cfg, prefix);
    AnsweredThenDelivered(cfg, prefix, env);
    DeliverEffect(cfg, s, env);
    RunOfPrefix(cfg, e[..4], Deliver(env));
  }

  lemma ForgottenEndsSo(prefix: NameValue)
    ensures var e, env := ForgottenEvents(prefix), At(4000.0);
      |e| == 5 && e[4] == Deliver(env) && e[..4] + [Deliver(env)] == e && Works(env)
  {
    hide HubKey, KeyInterest;
  }

  lemma AnsweredThenDelivered(cfg: Config, prefix: NameValue, env: Env)
    requires Works(env) && IdInv(Answered(cfg, prefix)) && RegInv(Answered(cfg, prefix))
    ensures var s := Answered(cfg, prefix);
      s.inFlight != []
      && var t := DeliverFirst(cfg, s, env);
         && 1 in t.accepted && (1 in Covered(t) <==> cfg.enableNdnx)
         && (1 in t.fates && t.fates[1] == Lost <==> !cfg.enableNdnx)
  {
    hide Covered, IdInv, RegInv, DeliverFirst, Answered;
    AnsweredEntries(cfg, prefix);
    var s := Answered(cfg, prefix);
    KeyArrivalCoversIff(cfg, s, env);
    BehindKeyIff(cfg, s, env, 1);
    DeliverKeepsAccepted(cfg, s, env);
  }

  lemma DeliverKeepsAccepted(cfg: Config, s: State, env: Env)
    requires s.inFlight != []
    ensures DeliverFirst(cfg, s, env).accepted == s.accepted
  {
    hide KeyDigest, NdnxInterest, TimeoutPrefix, DropRest;
    var t := s.(inFlight := s.inFlight[1..], fates := s.fates[s.inFlight[0].id := Delivered]);
    DropRestEffect(CallOnData(cfg, t, s.inFlight[0].handler, s.arrived, env).state);
  }

  /**
    Every undisturbed run keeps each accepted registration in view, waiting or with an outcome, exactly if NDNx
    is enabled.
   */
  lemma CoversAllIffNdnx(cfg: Config)
    ensures (forall events :: UndisturbedRun(cfg, events) ==> Run(cfg, events).accepted <= Covered(Run(cfg, events)))
      <==> cfg.enableNdnx
  {
    hide Run, Covered, ForgottenEvents;
    if cfg.enableNdnx {
      forall events | UndisturbedRun(cfg, events)
        ensures Run(cfg, events).accepted <= Covered(Run(cfg, events))
      {
        forall k | 0 <= k < |events|
          ensures Nice(cfg, Run(cfg, events[..k]), events[k])
        {
          assert Undisturbed(Run(cfg, events[..k]), events[k]);
        }
        NiceRunKeepsCover(cfg, events);
      }
    } else {
      ForgottenRun(cfg, []);
    }
  }

  /** Every undisturbed run loses no callback exactly if NDNx is enabled. */
  lemma NoneLostIffNdnx(cfg: Config)
    ensures (forall events :: UndisturbedRun(cfg, events) ==> Lost !in Run(cfg, events).fates.Values)
      <==> cfg.enableNdnx
  {
    hide Run, ForgottenEvents;
    if cfg.enableNdnx {
      forall events | UndisturbedRun(cfg, events)
        ensures Lost !in Run(cfg, events).fates.Values
      {
        forall k | 0 <= k < |events|
          ensures Orderly(cfg, events[k])
        {
          assert Undisturbed(Run(cfg, events[..k]), events[k]);
        }
        NoneLost(cfg, events);
      }
    } else {
      ForgottenRun(cfg, []);
      assert Lost in Run(cfg, ForgottenEvents([])).fates.Values;
    }
  }

  // ----- registering after the key arrived -----

  /** The event calls a fetcher's callback with the hub's key. */
  ghost predicate DeliversKey(s: State, event: Event)
  {
    event.Deliver? && s.inFlight != [] && s.inFlight[0].handler.IdFetcher? && IsKey(s.arrived)
  }

  ghost predicate KeyArrived(cfg: Config, events: seq<Event>)
  {
    exists k :: 0 <= k < |events| && DeliversKey(Run(cfg, events[..k]), events[k])
  }

  /** The hub's key is stored when it is delivered to a fetcher, whatever happens then, and it stays. */
  lemma ApplyStoresKeyIff(cfg: Config, s: State, event: Event)
    ensures Apply(cfg, s, event).ndndId != [] <==> s.ndndId != [] || DeliversKey(s, event)
  {
    hide FetchInterest, NfdInterest, NdnxInterest, TimeoutPrefix, KeyDigest, Kept, Taken, DropRest, WithoutId,
      WithoutFilter, WithoutPrefix, WithoutRelated, Accepts, IsTimedOut, CountExpressed;
    match event
    case Deliver(env) =>
      if s.inFlight != [] {
        DeliverStoresKeyIff(cfg, s, env);
        hide DeliverFirst;
      }
    case OnDataThrows =>
      DropRestEffect(s);
    case _ =>
  }

  lemma DeliverStoresKeyIff(cfg: Config, s: State, env: Env)
    requires s.inFlight != []
    ensures DeliverFirst(cfg, s, env).ndndId != [] <==> s.ndndId != [] || DeliversKey(s, Deliver(env))
  {
    hide NdnxInterest, TimeoutPrefix, KeyDigest, DropRest;
    var t := s.(inFlight := s.inFlight[1..], fates := s.fates[s.inFlight[0].id := Delivered]);
    DropRestEffect(CallOnData(cfg, t, s.inFlight[0].handler, s.arrived, env).state);
    assert KeyDigest(s.arrived.content) != [];
  }

  lemma KeyArrivedMore(cfg: Config, events: seq<Event>, event: Event)
    ensures KeyArrived(cfg, events + [event]) <==> KeyArrived(cfg, events) || DeliversKey(Run(cfg, events), event)
  {
    hide Run, DeliversKey;
    var longer := events + [event];
    assert longer[..|events|] == events && longer[|events|] == event;
    assert forall k :: 0 <= k < |events| ==> longer[..k] == events[..k] && longer[k] == events[k];
  }

  lemma {:induction false} KeyStoredIff(cfg: Config, events: seq<Event>)
    ensures Run(cfg, events).ndndId != [] <==> KeyArrived(cfg, events)
  {
    hide Apply, DeliversKey;
    if events != [] {
      var n := |events| - 1;
      KeyStoredIff(cfg, events[..n]);
      ApplyStoresKeyIff(cfg, Run(cfg, events[..n]), events[n]);
      assert events[..n] + [events[n]] == events;
      hide KeyArrived;
      KeyArrivedMore(cfg, events[..n], events[n]);
    }
  }

  /** None of the node's own interests goes unsent. */
  lemma OwnInterestsAreSent(ndndId: Component, isLocal: bool, appended: NameValue)
    ensures !(TimeoutPrefix() <= FetchInterest().name) && !(TimeoutPrefix() <= NdnxInterest(ndndId, appended).name)
    ensures !(TimeoutPrefix() <= NfdInterest(isLocal, appended).name)
  {
    TextLengths();
    hide Ascii;
    assert FetchInterest().name[0][0] == 0xc1;
  }

  lemma TextLengths()
    ensures |Ascii("local")| == 5 && Ascii("local")[0] == 0x6c
    ensures |Ascii("localhost")| == 9 && |Ascii("localhop")| == 8
  {
  }

  /**
    After any run registerPrefix throws exactly if connecting or sending fails, or the command it comes to is
    refused: the NFD command for want of a certificate or signature, but without a key chain, or once the hub's
    key has arrived, NDNx for want of its being enabled or of a signature for its command.
   */
  lemma RegisterThrowsIff(cfg: Config, events: seq<Event>, prefix: NameValue, hasOnInterest: bool,
                          hasKeyChain: bool, hasCertificate: bool, env: Env)
    ensures Register(cfg, Run(cfg, events), prefix, hasOnInterest, hasKeyChain, hasCertificate, env).threw <==>
      || !env.connects || !env.sends
      || if hasKeyChain && !KeyArrived(cfg, events) then !hasCertificate || !env.signs
         else !cfg.enableNdnx || (KeyArrived(cfg, events) && !env.signs)
  {
    KeyStoredIff(cfg, events);
    var s := Run(cfg, events);
    OwnInterestsAreSent(s.ndndId, cfg.isLocal, env.appended);
    hide Run, KeyArrived, FetchInterest, NdnxInterest, NfdInterest, TimeoutPrefix, AddRows;
  }

  /** Where nothing outside fails, an application with a key chain can register until the hub's key arrives. */
  lemma KeyChainRegisters(cfg: Config, events: seq<Event>, prefix: NameValue, hasOnInterest: bool, env: Env)
    requires Works(env)
    ensures Register(cfg, Run(cfg, events), prefix, hasOnInterest, true, true, env).threw
      <==> !cfg.enableNdnx && KeyArrived(cfg, events)
  {
    hide Run, Register, KeyArrived;
    RegisterThrowsIff(cfg, events, prefix, hasOnInterest, true, true, env);
  }

  /** After the run that forgets a registration the application cannot register again. */
  lemma RegisterAfterForgotten(cfg: Config, forgotten: NameValue, prefix: NameValue, hasOnInterest: bool)
    ensures var s := Run(cfg, ForgottenEvents(forgotten));
      Register(cfg, s, prefix, hasOnInterest, true, true, At(4000.0)).threw <==> !cfg.enableNdnx
  {
    hide Run, Register, Answered, ForgottenEvents, IsKey, At;
    var e := ForgottenEvents(forgotten);
    ForgottenEndsSo(forgotten);
    AnsweredRun(cfg, forgotten);
    AnsweredEntries(cfg, forgotten);
    assert DeliversKey(Run(cfg, e[..4]), e[4]);
    KeyChainRegisters(cfg, e, prefix, hasOnInterest, At(4000.0));
  }

  /**
    Without NDNx, once the hub's key has arrived for a registration, every later registerPrefix throws, with a
    key chain too: the key is stored before the setting is looked at.
   */
  lemma NoRegistrationAfterKey(cfg: Config, events: seq<Event>, env: Env, more: seq<Event>, prefix: NameValue,
                               hasOnInterest: bool, hasKeyChain: bool, hasCertificate: bool, env': Env)
    requires var s := Run(cfg, events);
      s.inFlight != [] && s.inFlight[0].handler.IdFetcher? && IsKey(s.arrived)
    ensures var t := Run(cfg, events + [Deliver(env)] + more);
      !cfg.enableNdnx ==> Register(cfg, t, prefix, hasOnInterest, hasKeyChain, hasCertificate, env').threw
  {
    hide Run, Register;
    var all := events + [Deliver(env)] + more;
    assert all[..|events|] == events;
    assert DeliversKey(Run(cfg, all[..|events|]), all[|events|]);
    RegisterThrowsIff(cfg, all, prefix, hasOnInterest, hasKeyChain, hasCertificate, env');
  }
}
