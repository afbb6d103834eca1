/** Which outcome a registration gets, told by the events of the run and the Data that arrived. */
module NodeOutcomes {
  import opened Components
  import opened NdnNames
  import opened Interests
  import opened NodeModel
  import opened NodeRuns

  // ----- what an event says to a registration -----

  /** The Data answers an NFD command with status 200, or an NDNx command under a name of its kind. */
  predicate Accepted(isNfdCommand: bool, data: Data)
  {
    if isNfdCommand then data.response == StatusCode(200)
    else |data.name| >= 4 && data.name[0] == Ascii("ndnx") && data.name[2] == Ascii("selfreg")
  }

  /** Content that starts like a DER encoded key. */
  predicate IsDer(data: Data) { data.content != [] && data.content[0] == 0x30 }

  /** The command of the registration is answered, and accepted. */
  predicate Succeeds(s: State, event: Event, reg: nat)
  {
    event.Deliver? && s.inFlight != []
    && var h := s.inFlight[0].handler;
       h.RegisterResponse? && h.reg == reg && Accepted(h.isNfdCommand, s.arrived)
  }

  /** Its command is answered and not accepted, or its fetch brings no key. */
  predicate Refused(s: State, event: Event, reg: nat)
  {
    event.Deliver? && s.inFlight != []
    && var h := s.inFlight[0].handler;
       || (h.RegisterResponse? && h.reg == reg && !Accepted(h.isNfdCommand, s.arrived))
       || (h.IdFetcher? && h.reg == reg && !IsDer(s.arrived))
  }

  /** Its fetch or its NDNx command times out. A timeout of the NFD command is not the end. */
  predicate GivenUp(s: State, event: Event, reg: nat)
  {
    event.Timeout? && event.index < |s.pit| && IsTimedOut(s.pit[event.index], event.now)
    && var h := s.pit[event.index].handler;
       (h.IdFetcher? && h.reg == reg) || (h.RegisterResponse? && !h.isNfdCommand && h.reg == reg)
  }

  predicate Fails(s: State, event: Event, reg: nat) { Refused(s, event, reg) || GivenUp(s, event, reg) }

  // ----- one event -----

  /** t records what s does, and the outcome if there is one. */
  ghost predicate Records(s: State, t: State, reg: nat, success: bool, now: bool)
  {
    RegistrationOutcome(reg, success) in t.outcomes <==> RegistrationOutcome(reg, success) in s.outcomes || now
  }

  lemma ResponseNames(name: NameValue)
    ensures IsNdnxResponse(name) <==> |name| >= 4 && name[0] == Ascii("ndnx") && name[2] == Ascii("selfreg")
  {
    assert NDNX == Ascii("ndnx");
    assert SELFREG == Ascii("selfreg");
  }

  lemma ExpressRecordsNothing(s: State, interest: Interest, handler: Handler, env: Env)
    ensures Express(s, interest, handler, env).state.outcomes == s.outcomes
  {
    hide TimeoutPrefix;
  }

  lemma RegisterRecordsNothing(cfg: Config, s: State, r: nat, id: nat, prefix: NameValue, hasOnInterest: bool,
                               env: Env)
    ensures RegisterNdnx(cfg, s, r, id, prefix, hasOnInterest, env).state.outcomes == s.outcomes
  {
    hide TimeoutPrefix, NdnxInterest;
  }

  lemma DataRecords(cfg: Config, s: State, handler: Handler, data: Data, env: Env, reg: nat, success: bool)
    ensures var said :=
        if success then handler.RegisterResponse? && handler.reg == reg && Accepted(handler.isNfdCommand, data)
        else
          || (handler.RegisterResponse? && handler.reg == reg && !Accepted(handler.isNfdCommand, data))
          || (handler.IdFetcher? && handler.reg == reg && !IsDer(data));
      Records(s, CallOnData(cfg, s, handler, data, env).state, reg, success, said)
  {
    ResponseNames(data.name);
    hide RegisterNdnx, KeyDigest, Ascii, IsNdnxResponse;
    if handler.IdFetcher? && IsDer(data) {
      RegisterRecordsNothing(cfg, s.(ndndId := KeyDigest(data.content)), handler.reg, handler.registeredPrefixId,
                             handler.prefix, handler.hasOnInterest, env);
    }
  }

  lemma TimeoutRecords(cfg: Config, s: State, handler: Handler, env: Env, reg: nat, success: bool)
    ensures var said := !success && ((handler.IdFetcher? && handler.reg == reg)
                                     || (handler.RegisterResponse? && !handler.isNfdCommand && handler.reg == reg));
      Records(s, CallOnTimeout(cfg, s, handler, env), reg, success, said)
  {
    hide RegisterNdnx, Express, FetchInterest;
    if handler.RegisterResponse? {
      ExpressRecordsNothing(s, FetchInterest(), IdFetcher(handler.reg, 0, handler.prefix, handler.hasOnInterest), env);
      RegisterRecordsNothing(cfg, s, handler.reg, 0, handler.prefix, handler.hasOnInterest, env);
    }
  }

  lemma ApiCallRecordsNothing(cfg: Config, s: State, event: Event)
    requires IsApiCall(event)
    ensures Apply(cfg, s, event).outcomes == s.outcomes
  {
    ApiCallIs(cfg, s, event);
    hide Apply, FetchInterest, NfdInterest, NdnxInterest, TimeoutPrefix, WithoutId, WithoutFilter, WithoutPrefix,
      WithoutRelated;
  }

  lemma ApplyRecords(cfg: Config, s: State, event: Event, reg: nat, success: bool)
    ensures Records(s, Apply(cfg, s, event), reg, success,
                    if success then Succeeds(s, event, reg) else Fails(s, event, reg))
  {
    hide Accepted, IsDer, CallOnData, CallOnTimeout, DropRest, Kept, Taken, IsTimedOut, Express, Register,
      RemovePending, SetFilter, UnsetFilter, RemoveRegistered;
    if IsApiCall(event) {
      ApiCallRecordsNothing(cfg, s, event);
    } else {
      match event
      case Timeout(index, now, env) =>
        if index < |s.pit| && IsTimedOut(s.pit[index], now) {
          var e := s.pit[index];
          var t := s.(pit := s.pit[..index] + s.pit[index + 1..], fates := s.fates[e.id := TimedOut]);
          TimeoutRecords(cfg, t, e.handler, env, reg, success);
        }
      case Deliver(env) =>
        if s.inFlight != [] {
          var e := s.inFlight[0];
          var t := s.(inFlight := s.inFlight[1..], fates := s.fates[e.id := Delivered]);
          DataRecords(cfg, t, e.handler, s.arrived, env, reg, success);
          DropRestEffect(CallOnData(cfg, t, e.handler, s.arrived, env).state);
        }
      case OnDataThrows =>
        DropRestEffect(s);
      case _ =>
    }
  }

  // ----- runs -----

  /** Some event of the run says this to the registration. */
  ghost predicate Told(cfg: Config, events: seq<Event>, reg: nat, success: bool)
  {
    exists k :: 0 <= k < |events|
      && var s := Run(cfg, events[..k]);
         if success then Succeeds(s, events[k], reg) else Fails(s, events[k], reg)
  }

  lemma ToldMore(cfg: Config, events: seq<Event>, event: Event, reg: nat, success: bool)
    ensures var now := if success then Succeeds(Run(cfg, events), event, reg) else Fails(Run(cfg, events), event, reg);
      Told(cfg, events + [event], reg, success) <==> Told(cfg, events, reg, success) || now
  {
    hide Run, Succeeds, Fails;
    var longer := events + [event];
    assert longer[..|events|] == events && longer[|events|] == event;
    assert forall k :: 0 <= k < |events| ==> longer[..k] == events[..k] && longer[k] == events[k];
  }

  /**
    After any run a registration has the outcome success exactly if its command was answered and accepted, and
    the outcome failure exactly if it was refused or its fetch or NDNx command timed out.
   */
  lemma {:induction false} OutcomeIff(cfg: Config, events: seq<Event>, reg: nat, success: bool)
    ensures RegistrationOutcome(reg, success) in Run(cfg, events).outcomes <==> Told(cfg, events, reg, success)
  {
    hide Apply, Succeeds, Fails;
    if events != [] {
      var n := |events| - 1;
      OutcomeIff(cfg, events[..n], reg, success);
      ApplyRecords(cfg, Run(cfg, events[..n]), events[n], reg, success);
      assert events[..n] + [events[n]] == events;
      ToldMore(cfg, events[..n], events[n], reg, success);
      hide Told;
    }
  }
}
