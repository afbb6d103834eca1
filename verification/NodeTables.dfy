/**
  What every run keeps of the registered prefix table and the interest filter table.
 */
module NodeTables {
  import opened NdnNames
  import opened Interests
  import opened NodeModel
  import opened NodeRuns
  import opened NodeRegistrations

  ghost function PrefixIds(q: seq<RegisteredPrefix>): set<nat> { set p | p in q :: p.id }
  ghost function RelatedIds(q: seq<RegisteredPrefix>): set<nat> { set p | p in q && p.filterId > 0 :: p.filterId }
  ghost function FilterIds(q: seq<FilterEntry>): set<nat> { set f | f in q :: f.id }

  ghost predicate DistinctPrefixes(q: seq<RegisteredPrefix>)
  {
    forall i, j :: 0 <= i < j < |q| ==> q[i].id != q[j].id && (q[i].filterId > 0 ==> q[i].filterId != q[j].filterId)
  }

  ghost predicate AscendingFilters(q: seq<FilterEntry>) { forall i, j :: 0 <= i < j < |q| ==> q[i].id < q[j].id }

  /** An owned filter has the prefix of the registration that owns it. */
  ghost predicate OwnersMatch(q: seq<RegisteredPrefix>, filters: seq<FilterEntry>)
  {
    forall p, f :: p in q && f in filters && p.filterId == f.id ==> p.prefix == f.prefix
  }

  ghost function UsedIds(s: State): set<nat>
  {
    PrefixIds(s.prefixes) + FilterIds(s.filters) + RelatedIds(s.prefixes)
  }

  /** e will add the rows of its registration when the hub's key arrives. */
  predicate AddsRows(e: Pending) { e.handler.IdFetcher? && e.handler.registeredPrefixId != 0 }

  ghost predicate TableInv(s: State)
  {
    DistinctPrefixes(s.prefixes) && AscendingFilters(s.filters) && OwnersMatch(s.prefixes, s.filters)
    && PrefixIds(s.prefixes) !! FilterIds(s.filters)
    && PrefixIds(s.prefixes) !! RelatedIds(s.prefixes)
    && UsedIds(s) <= UpTo(s.lastPrefixId)
    && forall e :: e in Live(s) && AddsRows(e) ==>
         e.handler.registeredPrefixId == e.handler.reg && e.handler.reg in UpTo(s.lastPrefixId)
         && e.handler.reg !in UsedIds(s)
  }

  /** Rows for this ID may be added: no table uses it and no pending interest will add it. */
  ghost predicate RowIsFree(s: State, id: nat)
  {
    id == 0 || (id in UpTo(s.lastPrefixId) && id !in UsedIds(s)
                && forall e :: e in Live(s) && AddsRows(e) ==> e.handler.registeredPrefixId != id)
  }

  lemma FewerWaitingKeepsTables(s: State, t: State)
    requires TableInv(s) && Live(t) <= Live(s) && t.prefixes == s.prefixes && t.filters == s.filters
    requires t.lastPrefixId >= s.lastPrefixId
    ensures TableInv(t) && forall id :: RowIsFree(s, id) ==> RowIsFree(t, id)
  {
    hide Live;
    assert UsedIds(t) == UsedIds(s);
  }

  lemma PushFilter(q: seq<RegisteredPrefix>, filters: seq<FilterEntry>, f: FilterEntry)
    requires AscendingFilters(filters) && OwnersMatch(q, filters)
    requires f.id !in RelatedIds(q) && f.id > 0 && forall g :: g in FilterIds(filters) ==> g < f.id
    ensures AscendingFilters(filters + [f]) && OwnersMatch(q, filters + [f])
    ensures FilterIds(filters + [f]) == FilterIds(filters) + {f.id}
  {
    assert forall k :: 0 <= k < |filters| ==> filters[k].id in FilterIds(filters);
    forall p | p in q
      ensures p.filterId != f.id
    {
      RelatedMember(q, p);
    }
  }

  lemma SetFilterKeepsTables(s: State, prefix: NameValue, id: nat)
    requires TableInv(s) && RowIsFree(s, id)
    ensures var t := SetFilter(s, prefix);
      TableInv(t) && RowIsFree(t, id) && t.lastPrefixId in FilterIds(t.filters)
      && t.lastPrefixId !in PrefixIds(t.prefixes) + RelatedIds(t.prefixes)
  {
    var t := SetFilter(s, prefix);
    var f := t.filters[|s.filters|];
    SameLive(s, t);
    assert f.id !in UpTo(s.lastPrefixId);
    PushFilter(s.prefixes, s.filters, f);
    hide Live, PrefixIds, RelatedIds, FilterIds, OwnersMatch, AscendingFilters, DistinctPrefixes;
  }

  lemma RelatedMember(q: seq<RegisteredPrefix>, p: RegisteredPrefix)
    requires p in q
    ensures p.id in PrefixIds(q) && (p.filterId > 0 ==> p.filterId in RelatedIds(q))
  {
  }

  lemma PushIds(q: seq<RegisteredPrefix>, p: RegisteredPrefix)
    ensures PrefixIds(q + [p]) == PrefixIds(q) + {p.id}
    ensures RelatedIds(q + [p]) == RelatedIds(q) + if p.filterId > 0 then {p.filterId} else {}
  {
  }

  lemma PushDistinct(q: seq<RegisteredPrefix>, p: RegisteredPrefix)
    requires DistinctPrefixes(q) && p.id !in PrefixIds(q)
    requires p.filterId > 0 ==> p.filterId !in RelatedIds(q)
    ensures DistinctPrefixes(q + [p])
  {
    forall k | 0 <= k < |q|
      ensures q[k].id in PrefixIds(q) && (q[k].filterId > 0 ==> q[k].filterId in RelatedIds(q))
    {
      RelatedMember(q, q[k]);
    }
  }

  lemma PushOwner(q: seq<RegisteredPrefix>, filters: seq<FilterEntry>, p: RegisteredPrefix)
    requires OwnersMatch(q, filters) && AscendingFilters(filters) && 0 !in FilterIds(filters)
    requires p.filterId > 0 ==> exists f :: f in filters && f.id == p.filterId && f.prefix == p.prefix
    ensures OwnersMatch(q + [p], filters)
  {
    forall g | g in filters && g.id == p.filterId
      ensures g.prefix == p.prefix
    {
      assert g.id in FilterIds(filters);
      var f :| f in filters && f.id == p.filterId && f.prefix == p.prefix;
      SameFilter(filters, f, g);
    }
  }

  lemma PushRow(s: State, t: State, p: RegisteredPrefix)
    requires TableInv(s) && RowIsFree(s, p.id) && p.id != 0
    requires t == s.(prefixes := s.prefixes + [p])
    requires p.filterId > 0 ==> p.filterId !in PrefixIds(s.prefixes) + RelatedIds(s.prefixes) && p.filterId != p.id
    requires p.filterId > 0 ==> exists f :: f in s.filters && f.id == p.filterId && f.prefix == p.prefix
    ensures TableInv(t)
  {
    SameLive(s, t);
    PushIds(s.prefixes, p);
    PushDistinct(s.prefixes, p);
    assert 0 !in UpTo(s.lastPrefixId);
    PushOwner(s.prefixes, s.filters, p);
    assert p.filterId > 0 ==> p.filterId in FilterIds(s.filters);
    hide Live, PrefixIds, RelatedIds, FilterIds, OwnersMatch, DistinctPrefixes, AscendingFilters;
  }

  lemma SameFilter(q: seq<FilterEntry>, f: FilterEntry, g: FilterEntry)
    requires AscendingFilters(q) && f in q && g in q && f.id == g.id
    ensures f == g
  {
    var i :| 0 <= i < |q| && q[i] == f;
    var j :| 0 <= j < |q| && q[j] == g;
    assert i == j;
  }

  lemma AddRowsKeepsTables(s: State, id: nat, prefix: NameValue, hasOnInterest: bool)
    requires TableInv(s) && RowIsFree(s, id)
    ensures TableInv(AddRows(s, id, prefix, hasOnInterest))
  {
    hide TableInv, RowIsFree, Live, PrefixIds, RelatedIds;
    if id != 0 {
      var t := AddRows(s, id, prefix, hasOnInterest);
      if hasOnInterest {
        var u := SetFilter(s, prefix);
        SetFilterKeepsTables(s, prefix, id);
        assert u.filters[|s.filters|] in u.filters;
        UsedIsNotFree(u, id);
        PushRow(u, t, RegisteredPrefix(id, prefix, u.lastPrefixId));
      } else {
        PushRow(s, t, RegisteredPrefix(id, prefix, 0));
      }
    }
  }

  lemma UsedIsNotFree(s: State, id: nat)
    requires RowIsFree(s, id) && id != 0
    ensures id !in FilterIds(s.filters)
  {
  }

  // ----- removal -----

  lemma FilterHead(q: seq<FilterEntry>, r: seq<FilterEntry>)
    requires AscendingFilters(q) && q != []
    requires AscendingFilters(r) && forall f :: f in r ==> f in q[1..]
    ensures AscendingFilters([q[0]] + r)
  {
    forall k | 0 <= k < |r|
      ensures r[k].id > q[0].id
    {
      assert r[k] in q[1..];
      var j :| 0 <= j < |q[1..]| && q[1..][j] == r[k];
    }
  }

  lemma {:induction false} WithoutFilterElements(q: seq<FilterEntry>, id: nat)
    requires AscendingFilters(q)
    ensures forall f :: f in WithoutFilter(q, id) <==> f in q && f.id != id
    ensures AscendingFilters(WithoutFilter(q, id))
  {
    if q != [] {
      WithoutFilterElements(q[1..], id);
      assert q == [q[0]] + q[1..];
      FilterHead(q, WithoutFilter(q[1..], id));
      hide AscendingFilters;
    }
  }

  lemma {:induction false} WithoutPrefixAbsent(q: seq<RegisteredPrefix>, filters: seq<FilterEntry>, id: nat)
    requires id !in PrefixIds(q)
    ensures WithoutPrefix(q, id) == q && WithoutRelated(filters, q, id) == filters
  {
    if q != [] {
      assert q[0].id in PrefixIds(q);
      assert PrefixIds(q[1..]) <= PrefixIds(q);
      WithoutPrefixAbsent(q[1..], filters, id);
    }
  }

  lemma PrefixTail(q: seq<RegisteredPrefix>, k: nat)
    requires DistinctPrefixes(q) && k < |q|
    ensures DistinctPrefixes(q[1..])
    ensures k == 0 ==> q[0].id !in PrefixIds(q[1..])
    ensures k > 0 ==> q[0].id != q[k].id && q[1..][k - 1] == q[k]
  {
  }

  /** Removal by ID deletes the one registration that has it, and the filter it owns. */
  lemma {:induction false} RemovalIsDelete(q: seq<RegisteredPrefix>, filters: seq<FilterEntry>, k: nat)
    requires DistinctPrefixes(q) && k < |q|
    ensures WithoutPrefix(q, q[k].id) == q[..k] + q[k + 1..]
    ensures WithoutRelated(filters, q, q[k].id) ==
      if q[k].filterId > 0 then WithoutFilter(filters, q[k].filterId) else filters
  {
    hide DistinctPrefixes;
    PrefixTail(q, k);
    if k == 0 {
      WithoutPrefixAbsent(q[1..], filters, q[0].id);
    } else {
      RemovalIsDelete(q[1..], filters, k - 1);
      assert q[..k] + q[k + 1..] == [q[0]] + (q[1..][..k - 1] + q[1..][k..]);
    }
  }

  lemma FewerRowsKeepsTables(s: State, t: State)
    requires TableInv(s) && DistinctPrefixes(t.prefixes) && AscendingFilters(t.filters)
    requires (forall p :: p in t.prefixes ==> p in s.prefixes) && (forall f :: f in t.filters ==> f in s.filters)
    requires Live(t) == Live(s) && t.lastPrefixId == s.lastPrefixId
    ensures TableInv(t)
  {
    hide Live;
    assert PrefixIds(t.prefixes) <= PrefixIds(s.prefixes);
    assert RelatedIds(t.prefixes) <= RelatedIds(s.prefixes);
    assert FilterIds(t.filters) <= FilterIds(s.filters);
  }

  /**
    removeRegisteredPrefix removes exactly its own row and exactly its own filter: the other rows stay in
    order, and a filter goes exactly if the removed row owned it.
   */
  lemma RemovesExactlyItsOwn(s: State, k: nat)
    requires TableInv(s) && k < |s.prefixes|
    ensures var t := RemoveRegistered(s, s.prefixes[k].id);
      t.prefixes == s.prefixes[..k] + s.prefixes[k + 1..]
      && (forall f :: f in t.filters <==> f in s.filters && f.id != s.prefixes[k].filterId)
      && AscendingFilters(t.filters)
      && forall j, f :: 0 <= j < |s.prefixes| && j != k && f in s.filters && f.id == s.prefixes[j].filterId ==>
           f in t.filters
  {
    var p := s.prefixes[k];
    RemovalIsDelete(s.prefixes, s.filters, k);
    WithoutFilterElements(s.filters, p.filterId);
    assert forall f :: f in s.filters ==> f.id in FilterIds(s.filters);
    forall j | 0 <= j < |s.prefixes| && j != k && s.prefixes[j].filterId > 0
      ensures s.prefixes[j].filterId != p.filterId
    {
      if j < k {
        assert s.prefixes[j].filterId != s.prefixes[k].filterId;
      }
    }
  }

  lemma RemoveRegisteredKeepsTables(s: State, id: nat)
    requires TableInv(s)
    ensures TableInv(RemoveRegistered(s, id))
  {
    var t := RemoveRegistered(s, id);
    SameLive(s, t);
    if k :| 0 <= k < |s.prefixes| && s.prefixes[k].id == id {
      RemovesExactlyItsOwn(s, k);
      ElementsOfDelete(s.prefixes, k);
      hide TableInv;
      FewerRowsKeepsTables(s, t);
    } else {
      WithoutPrefixAbsent(s.prefixes, s.filters, id);
    }
  }

  lemma ElementsOfDelete(q: seq<RegisteredPrefix>, k: nat)
    requires DistinctPrefixes(q) && k < |q|
    ensures DistinctPrefixes(q[..k] + q[k + 1..])
    ensures forall p :: p in q[..k] + q[k + 1..] ==> p in q
  {
  }

  lemma UnsetFilterKeepsTables(s: State, id: nat)
    requires TableInv(s)
    ensures TableInv(UnsetFilter(s, id))
  {
    var t := UnsetFilter(s, id);
    SameLive(s, t);
    WithoutFilterElements(s.filters, id);
    hide Live;
    FewerRowsKeepsTables(s, t);
  }

  // ----- every event -----

  lemma ExpressKeepsTables(s: State, interest: Interest, handler: Handler, env: Env)
    requires TableInv(s)
    requires handler.IdFetcher? && handler.registeredPrefixId != 0 ==>
      handler.registeredPrefixId == handler.reg && RowIsFree(s, handler.reg)
    ensures TableInv(Express(s, interest, handler, env).state)
  {
    var t := Express(s, interest, handler, env).state;
    if env.connects {
      LiveAppend(s, t, t.pit[|s.pit|]);
      assert UsedIds(t) == UsedIds(s);
      hide Live, UsedIds;
    }
  }

  lemma RegisterNdnxKeepsTables(cfg: Config, s: State, reg: nat, id: nat, prefix: NameValue, hasOnInterest: bool,
                                env: Env)
    requires TableInv(s) && RowIsFree(s, id)
    ensures TableInv(RegisterNdnx(cfg, s, reg, id, prefix, hasOnInterest, env).state)
  {
    AddRowsKeepsTables(s, id, prefix, hasOnInterest);
    hide TableInv, AddRows, Express, NdnxInterest;
    ExpressKeepsTables(AddRows(s, id, prefix, hasOnInterest), NdnxInterest(s.ndndId, env.appended),
                       RegisterResponse(reg, prefix, hasOnInterest, false), env);
  }

  lemma RegisterNfdKeepsTables(cfg: Config, s: State, reg: nat, prefix: NameValue, hasOnInterest: bool,
                               hasCertificate: bool, env: Env)
    requires TableInv(s) && RowIsFree(s, reg)
    ensures TableInv(RegisterNfd(cfg, s, reg, prefix, hasOnInterest, hasCertificate, env).state)
  {
    AddRowsKeepsTables(s, reg, prefix, hasOnInterest);
    hide TableInv, AddRows, Express, NfdInterest;
    ExpressKeepsTables(AddRows(s, reg, prefix, hasOnInterest), NfdInterest(cfg.isLocal, env.appended),
                       RegisterResponse(reg, prefix, hasOnInterest, true), env);
  }

  lemma NewIdIsFree(s: State)
    requires TableInv(s)
    ensures var t := s.(lastPrefixId := s.lastPrefixId + 1);
      TableInv(t) && RowIsFree(t, t.lastPrefixId)
  {
    var t := s.(lastPrefixId := s.lastPrefixId + 1);
    SameLive(s, t);
    FewerWaitingKeepsTables(s, t);
    assert t.lastPrefixId !in UpTo(s.lastPrefixId);
    assert UsedIds(t) == UsedIds(s);
    hide Live, UsedIds;
  }

  lemma RegisterKeepsTables(cfg: Config, s: State, prefix: NameValue, hasOnInterest: bool, hasKeyChain: bool,
                            hasCertificate: bool, env: Env)
    requires TableInv(s)
    ensures TableInv(Register(cfg, s, prefix, hasOnInterest, hasKeyChain, hasCertificate, env).state)
  {
    hide TableInv, RowIsFree, RegisterNdnx, RegisterNfd, Express, FetchInterest, Live;
    NewIdIsFree(s);
    var reg := s.lastPrefixId + 1;
    var t := s.(lastPrefixId := reg);
    ExpressKeepsTables(t, FetchInterest(), IdFetcher(reg, reg, prefix, hasOnInterest), env);
    RegisterNdnxKeepsTables(cfg, t, reg, reg, prefix, hasOnInterest, env);
    RegisterNfdKeepsTables(cfg, t, reg, prefix, hasOnInterest, hasCertificate, env);
    var r :=
      if t.ndndId != [] || !hasKeyChain then
        if !cfg.enableNdnx then Result(t, true)
        else if t.ndndId == [] then Express(t, FetchInterest(), IdFetcher(reg, reg, prefix, hasOnInterest), env)
        else RegisterNdnx(cfg, t, reg, reg, prefix, hasOnInterest, env)
      else RegisterNfd(cfg, t, reg, prefix, hasOnInterest, hasCertificate, env);
    var u := r.state.(accepted := r.state.accepted + {reg});
    SameLive(r.state, u);
    FewerWaitingKeepsTables(r.state, u);
  }

  /** The rows that a fetcher still has to add, if any, are free once it has left the live entries. */
  ghost predicate HandlerRowIsFree(s: State, handler: Handler)
  {
    handler.IdFetcher? && handler.registeredPrefixId != 0 ==> RowIsFree(s, handler.registeredPrefixId)
  }

  lemma LeavingFreesRow(s: State, t: State, e: Pending)
    requires RegInv(s) && TableInv(s) && e in Live(s) && Live(t) == Live(s) - {e}
    requires t.prefixes == s.prefixes && t.filters == s.filters && t.lastPrefixId == s.lastPrefixId
    ensures TableInv(t) && HandlerRowIsFree(t, e.handler)
  {
    hide Live;
    FewerWaitingKeepsTables(s, t);
    if AddsRows(e) {
      assert UsedIds(t) == UsedIds(s);
      forall f | f in Live(t) && AddsRows(f)
        ensures f.handler.registeredPrefixId != e.handler.registeredPrefixId
      {
        assert SameReg(e, f) ==> e == f;
      }
    }
  }

  lemma CallOnDataKeepsTables(cfg: Config, s: State, handler: Handler, data: Data, env: Env)
    requires TableInv(s) && HandlerRowIsFree(s, handler)
    ensures TableInv(CallOnData(cfg, s, handler, data, env).state)
  {
    hide TableInv, RowIsFree, RegisterNdnx, Live, KeyDigest;
    if !handler.Application? {
      RecordKeepsTables(s, handler.reg, false);
      RecordKeepsTables(s, handler.reg, true);
    }
    if handler.IdFetcher? {
      var t := s.(ndndId := KeyDigest(data.content));
      SameLive(s, t);
      FewerWaitingKeepsTables(s, t);
      ZeroIsFree(t);
      RegisterNdnxKeepsTables(cfg, t, handler.reg, handler.registeredPrefixId, handler.prefix, handler.hasOnInterest,
                              env);
    }
  }

  lemma ZeroIsFree(s: State)
    ensures RowIsFree(s, 0)
  {
  }

  lemma RecordKeepsTables(s: State, reg: nat, success: bool)
    requires TableInv(s)
    ensures TableInv(Record(s, reg, success))
  {
    hide TableInv, Live;
    SameLive(s, Record(s, reg, success));
    FewerWaitingKeepsTables(s, Record(s, reg, success));
  }

  lemma CallOnTimeoutKeepsTables(cfg: Config, s: State, handler: Handler, env: Env)
    requires TableInv(s)
    ensures TableInv(CallOnTimeout(cfg, s, handler, env))
  {
    hide TableInv, RowIsFree, RegisterNdnx, Express, FetchInterest, Live;
    if !handler.Application? {
      RecordKeepsTables(s, handler.reg, false);
    }
    if handler.RegisterResponse? {
      ZeroIsFree(s);
      ExpressKeepsTables(s, FetchInterest(), IdFetcher(handler.reg, 0, handler.prefix, handler.hasOnInterest), env);
      RegisterNdnxKeepsTables(cfg, s, handler.reg, 0, handler.prefix, handler.hasOnInterest, env);
    }
  }

  lemma {:induction false} DropRestKeepsTables(s: State)
    requires TableInv(s)
    ensures TableInv(DropRest(s))
    decreases |s.inFlight|
  {
    if s.inFlight != [] {
      var t := s.(inFlight := s.inFlight[1..], fates := s.fates[s.inFlight[0].id := Lost]);
      assert Live(t) <= Live(s);
      hide TableInv, Live;
      FewerWaitingKeepsTables(s, t);
      DropRestKeepsTables(t);
    }
  }

  lemma ApplyKeepsTables(cfg: Config, s: State, event: Event)
    requires IdInv(s) && RegInv(s) && TableInv(s)
    ensures TableInv(Apply(cfg, s, event))
  {
    hide IdInv, RegInv, TableInv, Express, Register, CallOnData, CallOnTimeout, DropRest, Kept, Taken, IsTimedOut,
      RemoveRegistered, UnsetFilter, SetFilter;
    var u := Apply(cfg, s, event);
    match event
    case ExpressInterest(interest, tag, env) =>
      ExpressKeepsTables(s, interest, Application(tag), env);
    case RemovePendingInterest(id) =>
      WithoutIdElements(s.pit, id);
      assert Live(u) <= Live(s);
      FewerWaitingKeepsTables(s, u);
    case SetInterestFilter(prefix) =>
      ZeroIsFree(s);
      SetFilterKeepsTables(s, prefix, 0);
    case UnsetInterestFilter(id) =>
      UnsetFilterKeepsTables(s, id);
    case RegisterPrefix(prefix, hasOnInterest, hasKeyChain, hasCertificate, env) =>
      RegisterKeepsTables(cfg, s, prefix, hasOnInterest, hasKeyChain, hasCertificate, env);
    case RemoveRegisteredPrefix(id) =>
      RemoveRegisteredKeepsTables(s, id);
    case Timeout(index, now, env) =>
      if index < |s.pit| && IsTimedOut(s.pit[index], now) {
        var e := s.pit[index];
        var t := s.(pit := s.pit[..index] + s.pit[index + 1..], fates := s.fates[e.id := TimedOut]);
        LiveWithoutRow(s, t, index);
        FewerWaitingKeepsTables(s, t);
        CallOnTimeoutKeepsTables(cfg, t, e.handler, env);
      }
    case DataArrives(data) =>
      if s.inFlight == [] {
        TakenElements(s.pit, data.name);
        KeptElements(s.pit, data.name);
        assert Live(u) <= Live(s);
        FewerWaitingKeepsTables(s, u);
      }
    case Deliver(env) =>
      if s.inFlight != [] {
        var e := s.inFlight[0];
        var t := s.(inFlight := s.inFlight[1..], fates := s.fates[e.id := Delivered]);
        LiveWithoutHead(s, t);
        LeavingFreesRow(s, t, e);
        CallOnDataKeepsTables(cfg, t, e.handler, s.arrived, env);
        DropRestKeepsTables(CallOnData(cfg, t, e.handler, s.arrived, env).state);
      }
    case OnDataThrows =>
      DropRestKeepsTables(s);
  }

  /** After any run the IDs of the two tables are distinct and distinct registrations own distinct filters. */
  lemma {:induction false} RunKeepsTables(cfg: Config, events: seq<Event>)
    ensures TableInv(Run(cfg, events))
  {
    hide Apply, TableInv;
    if events == [] {
      InitialTables();
    } else {
      var n := |events| - 1;
      RunKeepsTables(cfg, events[..n]);
      RunKeepsIds(cfg, events[..n]);
      RunKeepsRegs(cfg, events[..n]);
      ApplyKeepsTables(cfg, Run(cfg, events[..n]), events[n]);
    }
  }

  lemma InitialTables()
    ensures TableInv(INITIAL)
  {
  }

  /**
    removeRegisteredPrefix does nothing while the registration still waits for the hub's key, and when the
    key arrives afterwards the rows are added all the same.
   */
  lemma RemovalBeforeKeyIsLost(cfg: Config, events: seq<Event>, env: Env)
    requires cfg.enableNdnx && env.signs
    ensures var s := Run(cfg, events);
      (forall e :: e in Live(s) && AddsRows(e) ==> RemoveRegistered(s, e.handler.reg) == s)
      && (s.inFlight != [] && AddsRows(s.inFlight[0]) && |s.arrived.content| >= 1 && s.arrived.content[0] == 0x30 ==>
            s.inFlight[0].handler.reg in PrefixIds(DeliverFirst(cfg, s, env).prefixes))
  {
    RunKeepsTables(cfg, events);
    var s := Run(cfg, events);
    hide Run;
    forall e | e in Live(s) && AddsRows(e)
      ensures RemoveRegistered(s, e.handler.reg) == s
    {
      WithoutPrefixAbsent(s.prefixes, s.filters, e.handler.reg);
    }
    if s.inFlight != [] && AddsRows(s.inFlight[0]) && |s.arrived.content| >= 1 && s.arrived.content[0] == 0x30 {
      var e := s.inFlight[0];
      assert e in Live(s);
      var t := s.(inFlight := s.inFlight[1..], fates := s.fates[e.id := Delivered]);
      var r := CallOnData(cfg, t, e.handler, s.arrived, env);
      hide KeyDigest, NdnxInterest;
      assert |r.state.prefixes| == |s.prefixes| + 1 && r.state.prefixes[|s.prefixes|].id == e.handler.reg;
      RelatedMember(r.state.prefixes, r.state.prefixes[|s.prefixes|]);
      DropRestSamePrefixes(r.state);
    }
  }

  lemma {:induction false} DropRestSamePrefixes(s: State)
    ensures DropRest(s).prefixes == s.prefixes
    decreases |s.inFlight|
  {
    if s.inFlight != [] {
      DropRestSamePrefixes(s.(inFlight := s.inFlight[1..], fates := s.fates[s.inFlight[0].id := Lost]));
    }
  }
}
