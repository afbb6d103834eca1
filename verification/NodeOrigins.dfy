/** Where the entries and rows of the tables come from: the event that made each of them, and what it asked for. */
module NodeOrigins {
  import opened Components
  import opened NdnNames
  import opened Interests
  import opened NodeModel
  import opened NodeRuns
  import opened NodeRegistrations
  import opened NodeTables
  import opened NodeEntries
  import opened Fips180
  import Sha256Examples

  // ----- what an entry asks for -----

  /** No deadline without a lifetime; otherwise the lifetime from the reading of the clock on. */
  predicate DueAfter(e: Pending, now: real)
  {
    if e.interest.lifetime < 0.0 then e.deadline < 0.0 else e.deadline == now + e.interest.lifetime
  }

  /** The node's own interests: the hub's key, an NFD command, or an NDNx command under the hub's key digest. */
  predicate Asks(cfg: Config, key: Component, interest: Interest, handler: Handler)
  {
    var name, lifetime := interest.name, interest.lifetime;
    match handler
    case Application(_) => true
    case IdFetcher(_, _, _, _) =>
      name == [[0xc1] + Ascii(".M.S.localhost"), [0xc1] + Ascii(".M.SRV"), Ascii("ndnd"), Ascii("KEY")]
      && lifetime == 4000.0
    case RegisterResponse(_, _, _, isNfdCommand) =>
      if isNfdCommand then
        var hub := if cfg.isLocal then Ascii("localhost") else Ascii("localhop");
        [hub, Ascii("nfd"), Ascii("rib"), Ascii("register")] <= name
        && lifetime == if cfg.isLocal then 2000.0 else 4000.0
      else [Ascii("ndnx"), key, Ascii("selfreg")] <= name && lifetime == 4000.0
  }

  predicate SameRegistration(h: Handler, reg: nat, prefix: NameValue, hasOnInterest: bool)
  {
    !h.Application? && h.reg == reg && h.prefix == prefix && h.hasOnInterest == hasOnInterest
  }

  predicate Continues(h: Handler, g: Handler)
  {
    !h.Application? && SameRegistration(g, h.reg, h.prefix, h.hasOnInterest)
  }

  /** The event expressed the entry, in this state. */
  predicate ExpressedBy(cfg: Config, s: State, event: Event, e: Pending)
  {
    match event
    case ExpressInterest(interest, tag, env) =>
      ExpressedAt(cfg, s, s.ndndId, env, e) && e.interest == interest && e.handler == Application(tag)
    case RegisterPrefix(prefix, hasOnInterest, hasKeyChain, _, env) =>
      && ExpressedAt(cfg, s, s.ndndId, env, e)
      && SameRegistration(e.handler, s.lastPrefixId + 1, prefix, hasOnInterest)
      && (e.handler.IdFetcher? <==> s.ndndId == [] && !hasKeyChain)
      && (e.handler.RegisterResponse? && e.handler.isNfdCommand <==> s.ndndId == [] && hasKeyChain)
    case Timeout(index, _, env) =>
      && ExpressedAt(cfg, s, s.ndndId, env, e)
      && index < |s.pit| && Continues(s.pit[index].handler, e.handler)
      && s.pit[index].handler.RegisterResponse? && s.pit[index].handler.isNfdCommand
      && (if s.ndndId == [] then e.handler.IdFetcher? else e.handler.RegisterResponse? && !e.handler.isNfdCommand)
    case Deliver(env) =>
      && ExpressedAt(cfg, s, KeyDigest(s.arrived.content), env, e)
      && s.inFlight != [] && Continues(s.inFlight[0].handler, e.handler)
      && s.inFlight[0].handler.IdFetcher? && e.handler.RegisterResponse? && !e.handler.isNfdCommand
    case _ => false
  }

  predicate ExpressedAt(cfg: Config, s: State, key: Component, env: Env, e: Pending)
  {
    env.connects && e.id == s.lastPendingId + 1 && DueAfter(e, env.now)
    && Asks(cfg, key, e.interest, e.handler)
  }

  /** Interests under /local/timeout are not sent. */
  lemma ExpressThrowsIff(s: State, interest: Interest, handler: Handler, env: Env)
    ensures Express(s, interest, handler, env).threw <==>
      !env.connects || (!env.sends && !([Ascii("local"), Ascii("timeout")] <= interest.name))
  {
    hide Ascii;
  }

  // ----- the hub's ID -----

  /** The bytes of a digest as numbers. */
  function Numbers(s: seq<Octet>): Component { seq(|s|, i requires 0 <= i < |s| => s[i] as int) }

  lemma DigestNumbers(content: Component, octets: seq<Octet>)
    requires |octets| == |content| && forall i :: 0 <= i < |content| ==> octets[i] == content[i] as Octet
    ensures KeyDigest(content) == Numbers(Sha256(octets))
  {
    hide Sha256;
    assert octets == seq(|content|, i requires 0 <= i < |content| => content[i] as bv8);
  }

  /** The ID of a hub is the SHA-256 digest of its key, as it is for the content "abc". */
  lemma KeyDigestOfAbc()
    ensures KeyDigest(Ascii("abc")) ==
    [0xba, 0x78, 0x16, 0xbf, 0x8f, 0x01, 0xcf, 0xea, 0x41, 0x41, 0x40, 0xde, 0x5d, 0xae, 0x22, 0x23]
    + [0xb0, 0x03, 0x61, 0xa3, 0x96, 0x17, 0x7a, 0x9c, 0xb4, 0x10, 0xff, 0x61, 0xf2, 0x00, 0x15, 0xad]
  {
    AbcText();
    AbcParts();
    AbcFirst();
    AbcLast();
    hide KeyDigest, Sha256, Ascii, Numbers;
    DigestNumbers([0x61, 0x62, 0x63], Sha256Examples.ABC);
    NumbersConcat(ABC_FIRST, ABC_LAST);
  }

  lemma AbcText()
    ensures Ascii("abc") == [0x61, 0x62, 0x63]
    ensures forall i :: 0 <= i < 3 ==> Sha256Examples.ABC[i] == [0x61, 0x62, 0x63][i] as Octet
  {
    hide Ascii;
  }

  lemma AbcParts()
    ensures Sha256(Sha256Examples.ABC) == ABC_FIRST + ABC_LAST
  {
    Sha256Examples.Sha256OfAbc();
    hide Sha256;
  }

  const ABC_FIRST: seq<Octet> :=
    [0xba, 0x78, 0x16, 0xbf, 0x8f, 0x01, 0xcf, 0xea, 0x41, 0x41, 0x40, 0xde, 0x5d, 0xae, 0x22, 0x23]
  const ABC_LAST: seq<Octet> :=
    [0xb0, 0x03, 0x61, 0xa3, 0x96, 0x17, 0x7a, 0x9c, 0xb4, 0x10, 0xff, 0x61, 0xf2, 0x00, 0x15, 0xad]

  lemma NumbersConcat(s: seq<Octet>, t: seq<Octet>)
    ensures Numbers(s + t) == Numbers(s) + Numbers(t)
  {
  }

  lemma AbcFirst()
    ensures Numbers(ABC_FIRST) ==
    [0xba, 0x78, 0x16, 0xbf, 0x8f, 0x01, 0xcf, 0xea, 0x41, 0x41, 0x40, 0xde, 0x5d, 0xae, 0x22, 0x23]
  {
  }

  lemma AbcLast()
    ensures Numbers(ABC_LAST) ==
    [0xb0, 0x03, 0x61, 0xa3, 0x96, 0x17, 0x7a, 0x9c, 0xb4, 0x10, 0xff, 0x61, 0xf2, 0x00, 0x15, 0xad]
  {
  }

  // ----- what the helpers add -----

  /** The only live entry of t that s has not. */
  ghost predicate AddsAtMost(s: State, t: State, id: nat, interest: Interest, handler: Handler, env: Env)
  {
    forall e :: e in Live(t) && e !in Live(s) ==>
      env.connects && e.id == id && e.interest == interest && e.handler == handler && DueAfter(e, env.now)
  }

  lemma ExpressAdds(s: State, interest: Interest, handler: Handler, env: Env)
    ensures AddsAtMost(s, Express(s, interest, handler, env).state, s.lastPendingId + 1, interest, handler, env)
  {
    var t := Express(s, interest, handler, env).state;
    if env.connects {
      LiveAppend(s, t, t.pit[|s.pit|]);
      hide Live;
    }
  }

  lemma RegisterNdnxAdds(cfg: Config, s: State, reg: nat, id: nat, prefix: NameValue, hasOnInterest: bool, env: Env)
    ensures AddsAtMost(s, RegisterNdnx(cfg, s, reg, id, prefix, hasOnInterest, env).state, s.lastPendingId + 1,
                       NdnxInterest(s.ndndId, env.appended), RegisterResponse(reg, prefix, hasOnInterest, false), env)
  {
    hide Express, NdnxInterest;
    var t := AddRows(s, id, prefix, hasOnInterest);
    SameLive(s, t);
    ExpressAdds(t, NdnxInterest(s.ndndId, env.appended), RegisterResponse(reg, prefix, hasOnInterest, false), env);
    hide Live;
  }

  lemma RegisterNfdAdds(cfg: Config, s: State, reg: nat, prefix: NameValue, hasOnInterest: bool, hasCertificate: bool,
                        env: Env)
    ensures AddsAtMost(s, RegisterNfd(cfg, s, reg, prefix, hasOnInterest, hasCertificate, env).state,
                       s.lastPendingId + 1, NfdInterest(cfg.isLocal, env.appended),
                       RegisterResponse(reg, prefix, hasOnInterest, true), env)
  {
    hide Express, NfdInterest;
    var t := AddRows(s, reg, prefix, hasOnInterest);
    SameLive(s, t);
    ExpressAdds(t, NfdInterest(cfg.isLocal, env.appended), RegisterResponse(reg, prefix, hasOnInterest, true), env);
    hide Live;
  }

  /** The node's own interests, from their texts. */
  lemma OwnInterests(cfg: Config, key: Component, appended: NameValue)
    ensures FetchInterest().name
      == [[0xc1] + Ascii(".M.S.localhost"), [0xc1] + Ascii(".M.SRV"), Ascii("ndnd"), Ascii("KEY")]
    ensures FetchInterest().lifetime == 4000.0
    ensures var i := NfdInterest(cfg.isLocal, appended);
      && [if cfg.isLocal then Ascii("localhost") else Ascii("localhop"), Ascii("nfd"), Ascii("rib"),
          Ascii("register")] <= i.name
      && i.lifetime == if cfg.isLocal then 2000.0 else 4000.0
    ensures var i := NdnxInterest(key, appended);
      [Ascii("ndnx"), key, Ascii("selfreg")] <= i.name && i.lifetime == 4000.0
  {
    assert NDNX == Ascii("ndnx");
    assert SELFREG == Ascii("selfreg");
    hide Ascii;
  }

  lemma AddedIs(cfg: Config, s: State, t: State, key: Component, interest: Interest, handler: Handler, env: Env,
                e: Pending)
    requires AddsAtMost(s, t, s.lastPendingId + 1, interest, handler, env) && e in Live(t) && e !in Live(s)
    requires Asks(cfg, key, interest, handler)
    ensures ExpressedAt(cfg, s, key, env, e) && e.interest == interest && e.handler == handler
  {
    hide Live, Asks, DueAfter;
  }

  /** What registerPrefix expresses. */
  lemma RegisterLive(cfg: Config, s: State, prefix: NameValue, hasOnInterest: bool, hasKeyChain: bool,
                     hasCertificate: bool, env: Env)
    ensures var reg := s.lastPrefixId + 1;
      var t := s.(lastPrefixId := reg);
      var u := Register(cfg, s, prefix, hasOnInterest, hasKeyChain, hasCertificate, env).state;
      Live(u) ==
        if s.ndndId == [] && hasKeyChain then
          Live(RegisterNfd(cfg, t, reg, prefix, hasOnInterest, hasCertificate, env).state)
        else if !cfg.enableNdnx then Live(s)
        else if s.ndndId == [] then
          Live(Express(t, FetchInterest(), IdFetcher(reg, reg, prefix, hasOnInterest), env).state)
        else Live(RegisterNdnx(cfg, t, reg, reg, prefix, hasOnInterest, env).state)
  {
    hide Express, RegisterNdnx, RegisterNfd, FetchInterest;
  }

  lemma OwnAsks(cfg: Config, key: Component, appended: NameValue, reg: nat, id: nat, prefix: NameValue,
                hasOnInterest: bool)
    ensures Asks(cfg, key, FetchInterest(), IdFetcher(reg, id, prefix, hasOnInterest))
    ensures Asks(cfg, key, NdnxInterest(key, appended), RegisterResponse(reg, prefix, hasOnInterest, false))
    ensures Asks(cfg, key, NfdInterest(cfg.isLocal, appended), RegisterResponse(reg, prefix, hasOnInterest, true))
  {
    OwnInterests(cfg, key, appended);
    hide FetchInterest, NfdInterest, NdnxInterest, Ascii;
  }

  lemma RegisterOrigin(cfg: Config, s: State, event: Event, e: Pending)
    requires event.RegisterPrefix? && e in Live(Apply(cfg, s, event)) && e !in Live(s)
    ensures ExpressedBy(cfg, s, event, e)
  {
    var reg, prefix, hasOnInterest, env := s.lastPrefixId + 1, event.prefix, event.hasOnInterest, event.env;
    ApiCallIs(cfg, s, event);
    RegisterLive(cfg, s, prefix, hasOnInterest, event.hasKeyChain, event.hasCertificate, env);
    OwnAsks(cfg, s.ndndId, env.appended, reg, reg, prefix, hasOnInterest);
    var t := s.(lastPrefixId := reg);
    SameLive(s, t);
    hide Apply, Express, Register, RegisterNdnx, RegisterNfd, FetchInterest, NfdInterest, NdnxInterest, Live, Asks,
      AddsAtMost, ExpressedAt, RemovePending, SetFilter, UnsetFilter, RemoveRegistered;
    SameExpressedAt(cfg, s, t, s.ndndId, env, e);
    if s.ndndId == [] && event.hasKeyChain {
      RegisterNfdAdds(cfg, t, reg, prefix, hasOnInterest, event.hasCertificate, env);
      var v := RegisterNfd(cfg, t, reg, prefix, hasOnInterest, event.hasCertificate, env).state;
      AddedIs(cfg, t, v, s.ndndId, NfdInterest(cfg.isLocal, env.appended),
              RegisterResponse(reg, prefix, hasOnInterest, true), env, e);
    } else if s.ndndId == [] {
      var fetcher := IdFetcher(reg, reg, prefix, hasOnInterest);
      ExpressAdds(t, FetchInterest(), fetcher, env);
      AddedIs(cfg, t, Express(t, FetchInterest(), fetcher, env).state, s.ndndId, FetchInterest(), fetcher, env, e);
    } else {
      RegisterNdnxAdds(cfg, t, reg, reg, prefix, hasOnInterest, env);
      var v := RegisterNdnx(cfg, t, reg, reg, prefix, hasOnInterest, env).state;
      AddedIs(cfg, t, v, s.ndndId, NdnxInterest(s.ndndId, env.appended),
              RegisterResponse(reg, prefix, hasOnInterest, false), env, e);
    }
  }

  lemma SameExpressedAt(cfg: Config, s: State, t: State, key: Component, env: Env, e: Pending)
    requires s.lastPendingId == t.lastPendingId
    ensures ExpressedAt(cfg, s, key, env, e) <==> ExpressedAt(cfg, t, key, env, e)
  {
    hide Asks, DueAfter;
  }

  lemma TimeoutOrigin(cfg: Config, s: State, event: Event, e: Pending)
    requires IdInv(s) && event.Timeout? && e in Live(Apply(cfg, s, event)) && e !in Live(s)
    ensures ExpressedBy(cfg, s, event, e)
  {
    hide IdInv, Express, RegisterNdnx, FetchInterest, NfdInterest, NdnxInterest, Ascii, Record, IsTimedOut, Asks,
      AddsAtMost, ExpressedAt;
    var k, env := event.index, event.env;
    if k < |s.pit| && IsTimedOut(s.pit[k], event.now) {
      var f := s.pit[k];
      var h := f.handler;
      var t := s.(pit := s.pit[..k] + s.pit[k + 1..], fates := s.fates[f.id := TimedOut]);
      LiveWithoutRow(s, t, k);
      TimeoutEffect(cfg, s, k, event.now, env);
      hide Apply, Live;
      SameExpressedAt(cfg, s, t, s.ndndId, env, e);
      if !h.Application? {
        RecordSameLive(t, h.reg, false);
      }
      if h.RegisterResponse? && h.isNfdCommand {
        OwnAsks(cfg, s.ndndId, env.appended, h.reg, 0, h.prefix, h.hasOnInterest);
        if s.ndndId == [] {
          var fetcher := IdFetcher(h.reg, 0, h.prefix, h.hasOnInterest);
          ExpressAdds(t, FetchInterest(), fetcher, env);
          AddedIs(cfg, t, Express(t, FetchInterest(), fetcher, env).state, s.ndndId, FetchInterest(), fetcher, env, e);
        } else {
          RegisterNdnxAdds(cfg, t, h.reg, 0, h.prefix, h.hasOnInterest, env);
          AddedIs(cfg, t, RegisterNdnx(cfg, t, h.reg, 0, h.prefix, h.hasOnInterest, env).state, s.ndndId,
                  NdnxInterest(s.ndndId, env.appended), RegisterResponse(h.reg, h.prefix, h.hasOnInterest, false), env,
                  e);
        }
      }
    }
  }

  lemma RecordSameLive(s: State, reg: nat, success: bool)
    ensures Live(Record(s, reg, success)) == Live(s)
  {
  }

  lemma DeliverOrigin(cfg: Config, s: State, event: Event, e: Pending)
    requires IdInv(s) && event.Deliver? && e in Live(Apply(cfg, s, event)) && e !in Live(s)
    ensures ExpressedBy(cfg, s, event, e)
  {
    var key := KeyDigest(s.arrived.content);
    hide IdInv, Express, RegisterNdnx, FetchInterest, NfdInterest, NdnxInterest, Ascii, Record, KeyDigest, DropRest,
      AddsAtMost, Asks, ExpressedAt;
    if s.inFlight != [] {
      var f := s.inFlight[0];
      var h := f.handler;
      var t := s.(inFlight := s.inFlight[1..], fates := s.fates[f.id := Delivered]);
      LiveWithoutHead(s, t);
      DeliverEffect(cfg, s, event.env);
      DropRestLive(CallOnData(cfg, t, h, s.arrived, event.env).state);
      hide Apply, Live;
      if !h.Application? {
        RecordSameLive(t, h.reg, false);
        RecordSameLive(t, h.reg, true);
      }
      if h.IdFetcher? {
        var u := t.(ndndId := key);
        SameLive(t, u);
        var command := RegisterResponse(h.reg, h.prefix, h.hasOnInterest, false);
        OwnAsks(cfg, key, event.env.appended, h.reg, 0, h.prefix, h.hasOnInterest);
        RegisterNdnxAdds(cfg, u, h.reg, h.registeredPrefixId, h.prefix, h.hasOnInterest, event.env);
        var v := RegisterNdnx(cfg, u, h.reg, h.registeredPrefixId, h.prefix, h.hasOnInterest, event.env).state;
        if e in Live(v) {
          AddedIs(cfg, u, v, key, NdnxInterest(key, event.env.appended), command, event.env, e);
          SameExpressedAt(cfg, s, u, key, event.env, e);
        }
      }
    }
  }

  /** An entry that was not live before was expressed by the event. */
  lemma ApplyOrigin(cfg: Config, s: State, event: Event, e: Pending)
    requires IdInv(s) && e in Live(Apply(cfg, s, event)) && e !in Live(s)
    ensures ExpressedBy(cfg, s, event, e)
  {
    var u := Apply(cfg, s, event);
    match event
    case RegisterPrefix(_, _, _, _, _) =>
      RegisterOrigin(cfg, s, event, e);
    case Timeout(_, _, _) =>
      TimeoutOrigin(cfg, s, event, e);
    case Deliver(_) =>
      DeliverOrigin(cfg, s, event, e);
    case ExpressInterest(interest, tag, env) =>
      ExpressAdds(s, interest, Application(tag), env);
      hide IdInv, Live, Express;
    case RemovePendingInterest(id) =>
      hide IdInv;
      WithoutIdElements(s.pit, id);
    case DataArrives(data) =>
      hide IdInv;
      if s.inFlight == [] {
        ArrivalKeepsLive(s, data);
      }
    case OnDataThrows =>
      DropRestLive(s);
      hide IdInv, Live;
    case _ =>
      SameTables(s, event, cfg);
      SameLive(s, u);
      hide IdInv, Live;
  }

  // ----- over runs -----

  ghost predicate ExpressedIn(cfg: Config, events: seq<Event>, k: nat, e: Pending)
  {
    k < |events| && ExpressedBy(cfg, Run(cfg, events[..k]), events[k], e)
  }

  /** Every entry that waits after a run was expressed by an event of the run, and waited then. */
  lemma {:induction false} EveryEntryHasOrigin(cfg: Config, events: seq<Event>, e: Pending) returns (k: nat)
    requires e in Live(Run(cfg, events))
    ensures ExpressedIn(cfg, events, k, e) && e in Live(Run(cfg, events[..k + 1]))
  {
    hide Apply, ExpressedBy, IdInv;
    if events == [] {
      assert false;
    } else {
      hide Live;
      var n := |events| - 1;
      if e in Live(Run(cfg, events[..n])) {
        k := EveryEntryHasOrigin(cfg, events[..n], e);
        assert events[..n][..k] == events[..k] && events[..n][..k + 1] == events[..k + 1];
      } else {
        k := n;
        assert events[..n + 1] == events;
        RunKeepsIds(cfg, events[..n]);
        ApplyOrigin(cfg, Run(cfg, events[..n]), events[n], e);
      }
    }
  }
}
