/** Which registration each row of the prefix table belongs to, and the filter that it owns. */
module NodeRows {
  import opened NdnNames
  import opened Interests
  import opened NodeModel
  import opened NodeRuns
  import opened NodeRegistrations
  import opened NodeTables
  import opened NodeEntries
  import opened NodeOrigins

  /** The k-th event of the run is the call of registerPrefix that was given this ID. */
  ghost predicate RegisteredIn(cfg: Config, events: seq<Event>, k: nat, reg: nat, prefix: NameValue,
                               hasOnInterest: bool)
  {
    k < |events| && events[k].RegisterPrefix? && events[k].prefix == prefix && events[k].hasOnInterest == hasOnInterest
    && Run(cfg, events[..k]).lastPrefixId + 1 == reg
  }

  /** Every entry that waits for a registration belongs to one call of registerPrefix, through all its stages. */
  lemma {:induction false} EntryRegistered(cfg: Config, events: seq<Event>, e: Pending) returns (k: nat)
    requires e in Live(Run(cfg, events)) && !e.handler.Application?
    ensures RegisteredIn(cfg, events, k, e.handler.reg, e.handler.prefix, e.handler.hasOnInterest)
  {
    hide Run, ExpressedAt, KeyDigest;
    k := EveryEntryHasOrigin(cfg, events, e);
    var s := Run(cfg, events[..k]);
    if !events[k].RegisterPrefix? {
      var parent := if events[k].Timeout? then s.pit[events[k].index] else s.inFlight[0];
      var j := EntryRegistered(cfg, events[..k], parent);
      assert events[..k][..j] == events[..j];
      k := j;
    }
  }

  // ----- rows -----

  /** The row of a registration, and the filter of its own that it gets if it has a callback. */
  ghost predicate AddsRow(s: State, t: State, reg: nat, prefix: NameValue, hasOnInterest: bool)
  {
    && (forall f :: f in s.filters ==> f in t.filters)
    && forall p :: p in t.prefixes && p !in s.prefixes ==>
         && p.id == reg && p.prefix == prefix && (p.filterId != 0 <==> hasOnInterest)
         && (hasOnInterest ==> p.filterId == s.lastPrefixId + 1 && FilterEntry(p.filterId, prefix) in t.filters)
  }

  lemma AddRowsAdds(s: State, reg: nat, prefix: NameValue, hasOnInterest: bool)
    ensures AddsRow(s, AddRows(s, reg, prefix, hasOnInterest), reg, prefix, hasOnInterest)
    ensures reg == 0 ==> AddRows(s, reg, prefix, hasOnInterest) == s
    ensures reg != 0 ==> exists p :: p in AddRows(s, reg, prefix, hasOnInterest).prefixes && p.id == reg
  {
    var t := AddRows(s, reg, prefix, hasOnInterest);
    if reg != 0 {
      var p := t.prefixes[|s.prefixes|];
      assert p in t.prefixes && p.id == reg;
      if hasOnInterest { assert t.filters[|s.filters|] in t.filters; }
    }
  }

  lemma ExpressKeepsRows(s: State, interest: Interest, handler: Handler, env: Env)
    ensures var t := Express(s, interest, handler, env).state; t.prefixes == s.prefixes && t.filters == s.filters
  {
    hide TimeoutPrefix;
  }

  lemma RegisterNdnxRow(cfg: Config, s: State, reg: nat, id: nat, prefix: NameValue, hasOnInterest: bool, env: Env)
    ensures var t := RegisterNdnx(cfg, s, reg, id, prefix, hasOnInterest, env).state;
      AddsRow(s, t, id, prefix, hasOnInterest) && (id == 0 ==> t.prefixes == s.prefixes)
  {
    AddRowsAdds(s, id, prefix, hasOnInterest);
    hide AddRows, Express, NdnxInterest;
    ExpressKeepsRows(AddRows(s, id, prefix, hasOnInterest), NdnxInterest(s.ndndId, env.appended),
                     RegisterResponse(reg, prefix, hasOnInterest, false), env);
  }

  lemma RegisterNfdRow(cfg: Config, s: State, reg: nat, prefix: NameValue, hasOnInterest: bool, hasCertificate: bool,
                       env: Env)
    ensures AddsRow(s, RegisterNfd(cfg, s, reg, prefix, hasOnInterest, hasCertificate, env).state, reg, prefix,
                    hasOnInterest)
  {
    AddRowsAdds(s, reg, prefix, hasOnInterest);
    hide AddRows, Express, NfdInterest;
    ExpressKeepsRows(AddRows(s, reg, prefix, hasOnInterest), NfdInterest(cfg.isLocal, env.appended),
                     RegisterResponse(reg, prefix, hasOnInterest, true), env);
  }

  lemma RegisterRow(cfg: Config, s: State, prefix: NameValue, hasOnInterest: bool, hasKeyChain: bool,
                    hasCertificate: bool, env: Env)
    ensures var reg := s.lastPrefixId + 1;
      AddsRow(s.(lastPrefixId := reg), Register(cfg, s, prefix, hasOnInterest, hasKeyChain, hasCertificate, env).state,
              reg, prefix, hasOnInterest)
  {
    hide AddRows, Express, RegisterNdnx, RegisterNfd, FetchInterest, AddsRow;
    var reg := s.lastPrefixId + 1;
    var t := s.(lastPrefixId := reg);
    var u := Register(cfg, s, prefix, hasOnInterest, hasKeyChain, hasCertificate, env).state;
    if s.ndndId == [] && hasKeyChain {
      RegisterNfdRow(cfg, t, reg, prefix, hasOnInterest, hasCertificate, env);
      SameRows(t, RegisterNfd(cfg, t, reg, prefix, hasOnInterest, hasCertificate, env).state, u, reg, prefix,
               hasOnInterest);
    } else if cfg.enableNdnx && s.ndndId != [] {
      RegisterNdnxRow(cfg, t, reg, reg, prefix, hasOnInterest, env);
      SameRows(t, RegisterNdnx(cfg, t, reg, reg, prefix, hasOnInterest, env).state, u, reg, prefix, hasOnInterest);
    } else {
      ExpressKeepsRows(t, FetchInterest(), IdFetcher(reg, reg, prefix, hasOnInterest), env);
      NoRowsAdded(t, u, reg, prefix, hasOnInterest);
    }
  }

  lemma SameRows(s: State, t: State, u: State, reg: nat, prefix: NameValue, hasOnInterest: bool)
    requires AddsRow(s, t, reg, prefix, hasOnInterest) && t.prefixes == u.prefixes && t.filters == u.filters
    ensures AddsRow(s, u, reg, prefix, hasOnInterest)
  {
  }

  lemma NoRowsAdded(s: State, t: State, reg: nat, prefix: NameValue, hasOnInterest: bool)
    requires t.prefixes == s.prefixes && t.filters == s.filters
    ensures AddsRow(s, t, reg, prefix, hasOnInterest)
  {
  }

  // ----- one event -----

  ghost predicate OwnsFilter(s: State, p: RegisteredPrefix)
  {
    p.filterId != 0 ==> FilterEntry(p.filterId, p.prefix) in s.filters
  }

  /** The event made the row: the call of registerPrefix itself, or the hub's key for an entry that waited for it. */
  predicate AddedBy(s: State, event: Event, p: RegisteredPrefix)
  {
    || (event.RegisterPrefix? && p.id == s.lastPrefixId + 1 && p.prefix == event.prefix
        && (p.filterId != 0 <==> event.hasOnInterest))
    || (event.Deliver? && s.inFlight != []
        && var h := s.inFlight[0].handler;
           h.IdFetcher? && h.registeredPrefixId == p.id != 0 && h.prefix == p.prefix
           && (p.filterId != 0 <==> h.hasOnInterest))
  }

  /** Every row is an old one, which keeps its filter, or made by the event, with its filter. */
  ghost predicate RowsFrom(s: State, t: State, event: Event)
  {
    forall p :: p in t.prefixes ==>
      && (p in s.prefixes || AddedBy(s, event, p))
      && (p in s.prefixes && event != UnsetInterestFilter(p.filterId) && OwnsFilter(s, p) ==> OwnsFilter(t, p))
      && (p !in s.prefixes ==> OwnsFilter(t, p))
  }

  lemma NoNewRows(s: State, t: State, event: Event)
    requires t.prefixes == s.prefixes && forall f :: f in s.filters ==> f in t.filters
    ensures RowsFrom(s, t, event)
  {
    hide AddedBy;
  }

  lemma NewRow(s: State, t: State, event: Event, reg: nat, prefix: NameValue, hasOnInterest: bool)
    requires AddsRow(s, t, reg, prefix, hasOnInterest)
    requires forall p: RegisteredPrefix :: p.id == reg && p.prefix == prefix && (p.filterId != 0 <==> hasOnInterest) ==>
      AddedBy(s, event, p)
    ensures RowsFrom(s, t, event)
  {
    hide AddedBy;
  }

  lemma RemovalRows(s: State, id: nat)
    requires TableInv(s)
    ensures RowsFrom(s, RemoveRegistered(s, id), RemoveRegisteredPrefix(id))
  {
    hide AddedBy;
    if k :| 0 <= k < |s.prefixes| && s.prefixes[k].id == id {
      RemovesExactlyItsOwn(s, k);
      ElementsWithout(s.prefixes, k);
      var t := RemoveRegistered(s, id);
      hide TableInv, RemoveRegistered;
      forall p | p in t.prefixes
        ensures p in s.prefixes && (OwnsFilter(s, p) ==> OwnsFilter(t, p))
      {
        var j :| 0 <= j < |t.prefixes| && t.prefixes[j] == p;
        var i := if j < k then j else j + 1;
        assert s.prefixes[i] == p && i != k;
      }
    } else {
      assert id !in PrefixIds(s.prefixes);
      WithoutPrefixAbsent(s.prefixes, s.filters, id);
      NoNewRows(s, RemoveRegistered(s, id), RemoveRegisteredPrefix(id));
    }
  }

  lemma UnsetRows(s: State, id: nat)
    requires TableInv(s)
    ensures RowsFrom(s, UnsetFilter(s, id), UnsetInterestFilter(id))
  {
    WithoutFilterElements(s.filters, id);
    hide AddedBy;
  }

  lemma DeliverRows(cfg: Config, s: State, env: Env)
    requires s.inFlight != []
    ensures RowsFrom(s, DeliverFirst(cfg, s, env), Deliver(env))
  {
    var e := s.inFlight[0];
    var h := e.handler;
    var t := s.(inFlight := s.inFlight[1..], fates := s.fates[e.id := Delivered]);
    var u := CallOnData(cfg, t, h, s.arrived, env).state;
    var v := DeliverFirst(cfg, s, env);
    DropRestEffect(u);
    assert v.prefixes == u.prefixes && v.filters == u.filters;
    hide DropRest, DeliverFirst, RegisterNdnx, KeyDigest, RowsFrom;
    if h.IdFetcher? && !(|s.arrived.content| < 1 || s.arrived.content[0] != 0x30) {
      var w := t.(ndndId := KeyDigest(s.arrived.content));
      RegisterNdnxRow(cfg, w, h.reg, h.registeredPrefixId, h.prefix, h.hasOnInterest, env);
      hide AddsRow;
      if h.registeredPrefixId == 0 {
        RowsGrow(w, u, 0, h.prefix, h.hasOnInterest);
        NoNewRows(s, v, Deliver(env));
      } else {
        SameRowsAdded(w, u, s, v, h.registeredPrefixId, h.prefix, h.hasOnInterest);
        NewRow(s, v, Deliver(env), h.registeredPrefixId, h.prefix, h.hasOnInterest);
      }
    } else {
      NoNewRows(s, v, Deliver(env));
    }
  }

  lemma RowsGrow(s: State, t: State, reg: nat, prefix: NameValue, hasOnInterest: bool)
    requires AddsRow(s, t, reg, prefix, hasOnInterest)
    ensures forall f :: f in s.filters ==> f in t.filters
  {
  }

  lemma SameRowsAdded(s: State, t: State, u: State, v: State, reg: nat, prefix: NameValue, hasOnInterest: bool)
    requires AddsRow(s, t, reg, prefix, hasOnInterest)
    requires u.prefixes == s.prefixes && u.filters == s.filters && u.lastPrefixId == s.lastPrefixId
    requires v.prefixes == t.prefixes && v.filters == t.filters
    ensures AddsRow(u, v, reg, prefix, hasOnInterest)
  {
  }

  lemma TimeoutRows(cfg: Config, s: State, handler: Handler, env: Env)
    ensures var t := CallOnTimeout(cfg, s, handler, env);
      t.prefixes == s.prefixes && forall f :: f in s.filters ==> f in t.filters
  {
    hide Express, RegisterNdnx, FetchInterest;
    if handler.RegisterResponse? {
      ExpressKeepsRows(s, FetchInterest(), IdFetcher(handler.reg, 0, handler.prefix, handler.hasOnInterest), env);
      RegisterNdnxRow(cfg, s, handler.reg, 0, handler.prefix, handler.hasOnInterest, env);
    }
  }

  lemma ApplyRows(cfg: Config, s: State, event: Event)
    requires TableInv(s)
    ensures RowsFrom(s, Apply(cfg, s, event), event)
  {
    hide TableInv, RowsFrom, Express, Register, CallOnTimeout, DeliverFirst, DropRest, Kept, Taken, IsTimedOut,
      RemoveRegistered, UnsetFilter, AddsRow, WithoutId;
    var u := Apply(cfg, s, event);
    match event
    case ExpressInterest(interest, tag, env) =>
      ExpressKeepsRows(s, interest, Application(tag), env);
      NoNewRows(s, u, event);
    case UnsetInterestFilter(id) =>
      UnsetRows(s, id);
    case RegisterPrefix(prefix, hasOnInterest, hasKeyChain, hasCertificate, env) =>
      RegisterRows(cfg, s, event);
    case RemoveRegisteredPrefix(id) =>
      RemovalRows(s, id);
    case Timeout(index, now, env) =>
      if index < |s.pit| && IsTimedOut(s.pit[index], now) {
        var e := s.pit[index];
        TimeoutRows(cfg, s.(pit := s.pit[..index] + s.pit[index + 1..], fates := s.fates[e.id := TimedOut]),
                    e.handler, env);
      }
      NoNewRows(s, u, event);
    case Deliver(env) =>
      if s.inFlight != [] {
        DeliverRows(cfg, s, env);
      } else {
        NoNewRows(s, u, event);
      }
    case OnDataThrows =>
      DropRestEffect(s);
      NoNewRows(s, u, event);
    case _ =>
      NoNewRows(s, u, event);
  }

  lemma RegisterRows(cfg: Config, s: State, event: Event)
    requires event.RegisterPrefix?
    ensures RowsFrom(s, Register(cfg, s, event.prefix, event.hasOnInterest, event.hasKeyChain, event.hasCertificate,
                                 event.env).state, event)
  {
    hide Register;
    RegisterRow(cfg, s, event.prefix, event.hasOnInterest, event.hasKeyChain, event.hasCertificate, event.env);
  }

  // ----- over runs -----

  /** Every row belongs to one call of registerPrefix: its ID, its prefix, and a filter if it had a callback. */
  lemma {:induction false} RowRegistered(cfg: Config, events: seq<Event>, p: RegisteredPrefix) returns (k: nat)
    requires p in Run(cfg, events).prefixes
    ensures RegisteredIn(cfg, events, k, p.id, p.prefix, p.filterId != 0)
  {
    hide Apply, AddsRow, TableInv;
    if events == [] {
      assert false;
    } else {
      var n := |events| - 1;
      var s := Run(cfg, events[..n]);
      if p in s.prefixes {
        k := RowRegistered(cfg, events[..n], p);
        assert events[..n][..k] == events[..k];
      } else {
        RunKeepsTables(cfg, events[..n]);
        ApplyRows(cfg, s, events[n]);
        assert AddedBy(s, events[n], p);
        hide RowsFrom;
        if events[n].RegisterPrefix? {
          k := n;
        } else {
          var e := s.inFlight[0];
          assert e in Live(s);
          k := EntryRegistered(cfg, events[..n], e);
          assert events[..n][..k] == events[..k];
          AdderId(s, e);
        }
      }
    }
  }

  lemma AdderId(s: State, e: Pending)
    requires TableInv(s) && e in Live(s) && AddsRows(e)
    ensures e.handler.registeredPrefixId == e.handler.reg
  {
  }

  /** A row's own filter is there, with its prefix, unless that filter was unset. */
  lemma {:induction false} OwnFilterStays(cfg: Config, events: seq<Event>, p: RegisteredPrefix)
    requires p in Run(cfg, events).prefixes && p.filterId != 0
    requires UnsetInterestFilter(p.filterId) !in events
    ensures FilterEntry(p.filterId, p.prefix) in Run(cfg, events).filters
  {
    hide Apply, AddedBy, TableInv;
    if events == [] {
      assert false;
    } else {
      var n := |events| - 1;
      var s := Run(cfg, events[..n]);
      assert events[n] in events;
      RunKeepsTables(cfg, events[..n]);
      ApplyRows(cfg, s, events[n]);
      if p in s.prefixes {
        OwnFilterStays(cfg, events[..n], p);
      }
    }
  }
}
