/**
  What every run of the node keeps.
 */
module NodeRuns {
  import opened NdnNames
  import opened Interests
  import opened NodeModel

  // ----- what each event does, without the definitions behind it -----

  predicate IsApiCall(event: Event)
  {
    !event.Timeout? && !event.DataArrives? && !event.Deliver? && !event.OnDataThrows?
  }

  lemma ApiCallIs(cfg: Config, s: State, event: Event)
    requires IsApiCall(event)
    ensures Apply(cfg, s, event) == match event
      case ExpressInterest(interest, tag, env) => Express(s, interest, Application(tag), env).state
      case RemovePendingInterest(id) => RemovePending(s, id)
      case SetInterestFilter(prefix) => SetFilter(s, prefix)
      case UnsetInterestFilter(id) => UnsetFilter(s, id)
      case RegisterPrefix(prefix, hasOnInterest, hasKeyChain, hasCertificate, env) =>
        Register(cfg, s, prefix, hasOnInterest, hasKeyChain, hasCertificate, env).state
      case RemoveRegisteredPrefix(id) => RemoveRegistered(s, id)
      case _ => s
  {
    hide Express, Register, RemovePending, SetFilter, UnsetFilter, RemoveRegistered, TimeoutAt, DeliverFirst,
      DropRest, Kept, Taken;
  }

  lemma TimeoutEffect(cfg: Config, s: State, i: nat, now: real, env: Env)
    requires i < |s.pit| && IsTimedOut(s.pit[i], now)
    ensures Apply(cfg, s, Timeout(i, now, env))
      == CallOnTimeout(cfg, s.(pit := s.pit[..i] + s.pit[i + 1..], fates := s.fates[s.pit[i].id := TimedOut]),
                       s.pit[i].handler, env)
  {
    hide Express, Register, RemovePending, SetFilter, UnsetFilter, RemoveRegistered, DeliverFirst,
      DropRest, Kept, Taken, CallOnTimeout;
  }

  lemma DataArrivesEffect(cfg: Config, s: State, data: Data)
    requires s.inFlight == []
    ensures Apply(cfg, s, DataArrives(data))
      == s.(pit := Kept(s.pit, data.name), inFlight := Taken(s.pit, data.name), arrived := data)
  {
    hide Express, Register, RemovePending, SetFilter, UnsetFilter, RemoveRegistered, TimeoutAt, DeliverFirst,
      DropRest, Kept, Taken;
  }

  lemma DeliverEffect(cfg: Config, s: State, env: Env)
    requires s.inFlight != []
    ensures Apply(cfg, s, Deliver(env)) == DeliverFirst(cfg, s, env)
    ensures var t := s.(inFlight := s.inFlight[1..], fates := s.fates[s.inFlight[0].id := Delivered]);
      var r := CallOnData(cfg, t, s.inFlight[0].handler, s.arrived, env);
      Apply(cfg, s, Deliver(env)) == if r.threw then DropRest(r.state) else r.state
  {
    hide Express, Register, RemovePending, SetFilter, UnsetFilter, RemoveRegistered, TimeoutAt, DropRest, Kept,
      Taken, CallOnData;
  }

  lemma ThrowEffect(cfg: Config, s: State)
    ensures Apply(cfg, s, OnDataThrows) == DropRest(s)
  {
    hide Express, Register, RemovePending, SetFilter, UnsetFilter, RemoveRegistered, TimeoutAt, DeliverFirst,
      DropRest, Kept, Taken;
  }

  // ----- the pending interest table -----

  ghost predicate Ascending(q: seq<Pending>) { forall i, j :: 0 <= i < j < |q| ==> q[i].id < q[j].id }
  ghost predicate Descending(q: seq<Pending>) { forall i, j :: 0 <= i < j < |q| ==> q[i].id > q[j].id }

  ghost function Ids(q: seq<Pending>): set<nat> { set e | e in q :: e.id }

  ghost function UpTo(n: nat): (r: set<nat>)
    ensures forall i :: i in r <==> 1 <= i <= n
  {
    if n == 0 then {} else UpTo(n - 1) + {n}
  }

  /** Every ID given out is in exactly one place: the table, the extracted entries, or the fates. */
  ghost predicate IdInv(s: State)
  {
    Ascending(s.pit) && Descending(s.inFlight)
    && Ids(s.pit) !! Ids(s.inFlight)
    && Ids(s.pit) !! s.fates.Keys
    && Ids(s.inFlight) !! s.fates.Keys
    && Ids(s.pit) + Ids(s.inFlight) + s.fates.Keys == UpTo(s.lastPendingId)
  }

  /** Fates are only ever added. */
  ghost predicate FatesExtend(s: State, t: State)
  {
    forall id :: id in s.fates ==> id in t.fates && t.fates[id] == s.fates[id]
  }

  /** What the helpers of an event may do to the pending interests: append at most one, of a new ID. */
  ghost predicate OnlyAppends(s: State, t: State)
  {
    t.inFlight == s.inFlight && t.fates == s.fates
    && ((t.pit == s.pit && t.lastPendingId == s.lastPendingId)
        || (t.lastPendingId == s.lastPendingId + 1 && |t.pit| == |s.pit| + 1 && s.pit == t.pit[..|s.pit|]
            && t.pit[|s.pit|].id == t.lastPendingId))
  }

  lemma HelpersOnlyAppend(cfg: Config, s: State, handler: Handler, data: Data, env: Env)
    ensures OnlyAppends(s, CallOnData(cfg, s, handler, data, env).state)
    ensures OnlyAppends(s, CallOnTimeout(cfg, s, handler, env))
  {
    hide KeyDigest, FetchInterest, NfdInterest, NdnxInterest, TimeoutPrefix;
  }

  lemma CallOnDataKeepsFlight(cfg: Config, s: State, handler: Handler, data: Data, env: Env)
    ensures var t := CallOnData(cfg, s, handler, data, env).state;
      t.arrived == s.arrived && t.inFlight == s.inFlight && t.fates == s.fates
  {
    hide KeyDigest, NdnxInterest, TimeoutPrefix;
  }

  lemma RegisterOnlyAppends(cfg: Config, s: State, prefix: NameValue, hasOnInterest: bool, hasKeyChain: bool,
                            hasCertificate: bool, env: Env)
    ensures OnlyAppends(s, Register(cfg, s, prefix, hasOnInterest, hasKeyChain, hasCertificate, env).state)
  {
    hide KeyDigest, FetchInterest, NfdInterest, NdnxInterest, TimeoutPrefix;
  }

  lemma AppendKeepsIds(s: State, t: State)
    requires IdInv(s) && OnlyAppends(s, t)
    ensures IdInv(t)
  {
    if t.lastPendingId != s.lastPendingId {
      var e := t.pit[|s.pit|];
      assert t.pit == s.pit + [e];
      assert Ids(t.pit) == Ids(s.pit) + {e.id};
      assert UpTo(t.lastPendingId) == UpTo(s.lastPendingId) + {e.id};
      assert e.id !in UpTo(s.lastPendingId);
      forall k | 0 <= k < |s.pit|
        ensures s.pit[k].id < e.id
      {
        assert s.pit[k].id in Ids(s.pit);
      }
    }
  }

  lemma ElementsWithout<T>(q: seq<T>, k: nat)
    requires k < |q|
    ensures forall e :: e in q ==> e in q[..k] + q[k + 1..] || e == q[k]
    ensures forall j {:trigger (q[..k] + q[k + 1..])[j]} :: 0 <= j < |q| - 1 ==>
      (q[..k] + q[k + 1..])[j] == q[if j < k then j else j + 1]
  {
    forall e | e in q && e != q[k]
      ensures e in q[..k] + q[k + 1..]
    {
      var j :| 0 <= j < |q| && q[j] == e;
      assert (q[..k] + q[k + 1..])[if j < k then j else j - 1] == e;
    }
  }

  lemma IdsWithout(q: seq<Pending>, k: nat)
    requires k < |q| && (Ascending(q) || Descending(q))
    ensures Ids(q[..k] + q[k + 1..]) == Ids(q) - {q[k].id}
    ensures Ascending(q) ==> Ascending(q[..k] + q[k + 1..])
    ensures Descending(q) ==> Descending(q[..k] + q[k + 1..])
  {
    var r := q[..k] + q[k + 1..];
    ElementsWithout(q, k);
    forall e | e in r
      ensures e in q && e.id != q[k].id
    {
      var j :| 0 <= j < |r| && r[j] == e;
    }
  }

  lemma {:induction false} WithoutIdAbsent(q: seq<Pending>, id: nat)
    requires id !in Ids(q)
    ensures WithoutId(q, id) == q
  {
    if q != [] {
      assert q[0].id in Ids(q);
      assert Ids(q[1..]) <= Ids(q);
      WithoutIdAbsent(q[1..], id);
    }
  }

  /** With increasing IDs, removal by ID deletes the one entry that has it and keeps the rest in order. */
  lemma {:induction false} WithoutIdIsDelete(q: seq<Pending>, k: nat)
    requires Ascending(q) && k < |q|
    ensures WithoutId(q, q[k].id) == q[..k] + q[k + 1..]
  {
    if k == 0 {
      assert q[0].id !in Ids(q[1..]);
      WithoutIdAbsent(q[1..], q[0].id);
    } else {
      assert q[0].id < q[k].id;
      WithoutIdIsDelete(q[1..], k - 1);
      assert q[..k] + q[k + 1..] == [q[0]] + (q[1..][..k - 1] + q[1..][k..]);
    }
  }

  // ----- extraction for a Data name -----

  lemma {:induction false} TakenElements(q: seq<Pending>, name: NameValue)
    ensures forall e :: e in Taken(q, name) <==> e in q && Accepts(e.interest, name)
  {
    hide Accepts;
    if q != [] {
      TakenElements(q[1..], name);
      assert q == [q[0]] + q[1..];
    }
  }

  lemma {:induction false} KeptElements(q: seq<Pending>, name: NameValue)
    ensures forall e :: e in Kept(q, name) <==> e in q && !Accepts(e.interest, name)
  {
    hide Accepts;
    if q != [] {
      KeptElements(q[1..], name);
      assert q == [q[0]] + q[1..];
    }
  }

  lemma AscendingParts(q: seq<Pending>)
    requires Ascending(q) && q != []
    ensures Ascending(q[1..]) && forall e :: e in q[1..] ==> e.id > q[0].id
  {
  }

  lemma PrependSmallest(x: Pending, q: seq<Pending>)
    requires forall e :: e in q ==> e.id > x.id
    ensures Ascending(q) ==> Ascending([x] + q)
    ensures Descending(q) ==> Descending(q + [x])
  {
    assert forall k :: 0 <= k < |q| ==> q[k] in q;
  }

  lemma ExtractedFromRest(q: seq<Pending>, name: NameValue)
    requires Ascending(q) && q != []
    ensures Ascending(q[1..])
    ensures forall e :: e in Kept(q[1..], name) ==> e.id > q[0].id
    ensures forall e :: e in Taken(q[1..], name) ==> e.id > q[0].id
  {
    TakenElements(q[1..], name);
    KeptElements(q[1..], name);
    hide Accepts, Kept, Taken;
    AscendingParts(q);
  }

  lemma {:induction false} ExtractionOrder(q: seq<Pending>, name: NameValue)
    requires Ascending(q)
    ensures Ascending(Kept(q, name)) && Descending(Taken(q, name))
  {
    if q == [] {
    } else {
      hide Accepts, Ascending, Descending;
      var kept, taken := Kept(q[1..], name), Taken(q[1..], name);
      ExtractedFromRest(q, name);
      ExtractionOrder(q[1..], name);
      PrependSmallest(q[0], kept);
      PrependSmallest(q[0], taken);
    }
  }

  lemma {:induction false} NothingLost(q: seq<Pending>, name: NameValue)
    ensures multiset(Kept(q, name)) + multiset(Taken(q, name)) == multiset(q)
  {
    hide Accepts;
    if q != [] {
      NothingLost(q[1..], name);
      assert q == [q[0]] + q[1..];
    }
  }

  /**
    Extraction splits the table: the entries that accept the name, newest first, and exactly the
    others in their order.
   */
  lemma ExtractionSplits(q: seq<Pending>, name: NameValue)
    requires Ascending(q)
    ensures forall e :: e in Taken(q, name) <==> e in q && Accepts(e.interest, name)
    ensures forall e :: e in Kept(q, name) <==> e in q && !Accepts(e.interest, name)
    ensures Ascending(Kept(q, name)) && Descending(Taken(q, name))
    ensures multiset(Kept(q, name)) + multiset(Taken(q, name)) == multiset(q)
  {
    TakenElements(q, name);
    KeptElements(q, name);
    ExtractionOrder(q, name);
    NothingLost(q, name);
  }

  lemma ExtractionKeepsIds(s: State, name: NameValue)
    requires IdInv(s) && s.inFlight == []
    ensures IdInv(s.(pit := Kept(s.pit, name), inFlight := Taken(s.pit, name)))
  {
    ExtractionSplits(s.pit, name);
    hide Accepts, Kept, Taken;
    var kept, taken := Kept(s.pit, name), Taken(s.pit, name);
    assert Ids(s.inFlight) == {};
    assert Ids(kept) + Ids(taken) == Ids(s.pit);
    forall e, f | e in kept && f in taken && e.id == f.id
      ensures false
    {
      SameIdSameEntry(s.pit, e, f);
    }
  }

  lemma SameIdSameEntry(q: seq<Pending>, e: Pending, f: Pending)
    requires (Ascending(q) || Descending(q)) && e in q && f in q && e.id == f.id
    ensures e == f
  {
    var i :| 0 <= i < |q| && q[i] == e;
    var j :| 0 <= j < |q| && q[j] == f;
    assert i == j;
  }

  // ----- every event -----

  lemma HeadOfFlight(s: State, fate: Fate)
    requires IdInv(s) && s.inFlight != []
    ensures var t := s.(inFlight := s.inFlight[1..], fates := s.fates[s.inFlight[0].id := fate]);
      IdInv(t) && FatesExtend(s, t)
  {
    var q := s.inFlight;
    assert q[..0] + q[1..] == q[1..];
    assert Ids(q[1..]) == Ids(q) - {q[0].id} && Descending(q[1..]) by {
      IdsWithout(q, 0);
    }
    assert q[0].id in Ids(q);
    hide Ascending, Descending, Ids;
  }

  lemma {:induction false} DropRestKeepsIds(s: State)
    requires IdInv(s)
    ensures IdInv(DropRest(s)) && FatesExtend(s, DropRest(s))
    decreases |s.inFlight|
  {
    if s.inFlight != [] {
      HeadOfFlight(s, Lost);
      DropRestKeepsIds(s.(inFlight := s.inFlight[1..], fates := s.fates[s.inFlight[0].id := Lost]));
    }
  }

  lemma {:induction false} DropRestEffect(s: State)
    ensures DropRest(s) == s.(inFlight := [], fates := DropRest(s).fates)
    ensures forall id :: id in s.fates ==> id in DropRest(s).fates
    ensures forall k :: 0 <= k < |s.inFlight| ==> s.inFlight[k].id in DropRest(s).fates
    decreases |s.inFlight|
  {
    if s.inFlight != [] {
      var t := s.(inFlight := s.inFlight[1..], fates := s.fates[s.inFlight[0].id := Lost]);
      DropRestEffect(t);
      assert forall k :: 1 <= k < |s.inFlight| ==> s.inFlight[k] == t.inFlight[k - 1];
    }
  }

  lemma RowAtIndex(s: State, k: nat, fate: Fate)
    requires IdInv(s) && k < |s.pit|
    ensures var t := s.(pit := s.pit[..k] + s.pit[k + 1..], fates := s.fates[s.pit[k].id := fate]);
      IdInv(t) && FatesExtend(s, t)
  {
    IdsWithout(s.pit, k);
    assert s.pit[k].id in Ids(s.pit);
  }

  lemma RemoveKeepsIds(s: State, id: nat)
    requires IdInv(s)
    ensures IdInv(RemovePending(s, id)) && FatesExtend(s, RemovePending(s, id))
  {
    if k :| 0 <= k < |s.pit| && s.pit[k].id == id {
      WithoutIdIsDelete(s.pit, k);
      RowAtIndex(s, k, Removed);
    } else {
      WithoutIdAbsent(s.pit, id);
    }
  }

  lemma ApplyKeepsIds(cfg: Config, s: State, event: Event)
    requires IdInv(s)
    ensures IdInv(Apply(cfg, s, event)) && FatesExtend(s, Apply(cfg, s, event))
  {
    hide IdInv, Express, Register, CallOnData, CallOnTimeout, RemovePending, DropRest, Kept, Taken, IsTimedOut;
    match event
    case ExpressInterest(interest, tag, env) =>
      ExpressOnlyAppends(s, interest, Application(tag), env);
      AppendKeepsIds(s, Apply(cfg, s, event));
    case RemovePendingInterest(id) =>
      RemoveKeepsIds(s, id);
    case SetInterestFilter(prefix) =>
      AppendKeepsIds(s, Apply(cfg, s, event));
    case UnsetInterestFilter(id) =>
      AppendKeepsIds(s, Apply(cfg, s, event));
    case RegisterPrefix(prefix, hasOnInterest, hasKeyChain, hasCertificate, env) =>
      RegisterOnlyAppends(cfg, s, prefix, hasOnInterest, hasKeyChain, hasCertificate, env);
      AppendKeepsIds(s, Apply(cfg, s, event));
    case RemoveRegisteredPrefix(id) =>
      AppendKeepsIds(s, Apply(cfg, s, event));
    case Timeout(index, now, env) =>
      if index < |s.pit| && IsTimedOut(s.pit[index], now) {
        RowAtIndex(s, index, TimedOut);
        var e := s.pit[index];
        var t := s.(pit := s.pit[..index] + s.pit[index + 1..], fates := s.fates[e.id := TimedOut]);
        HelpersOnlyAppend(cfg, t, e.handler, NO_DATA, env);
        AppendKeepsIds(t, Apply(cfg, s, event));
      }
    case DataArrives(data) =>
      if s.inFlight == [] {
        ExtractionKeepsIds(s, data.name);
        AppendKeepsIds(s.(pit := Kept(s.pit, data.name), inFlight := Taken(s.pit, data.name)), Apply(cfg, s, event));
      }
    case Deliver(env) =>
      if s.inFlight != [] {
        var e := s.inFlight[0];
        HeadOfFlight(s, Delivered);
        var t := s.(inFlight := s.inFlight[1..], fates := s.fates[e.id := Delivered]);
        HelpersOnlyAppend(cfg, t, e.handler, s.arrived, env);
        var u := CallOnData(cfg, t, e.handler, s.arrived, env).state;
        AppendKeepsIds(t, u);
        DropRestKeepsIds(u);
      }
    case OnDataThrows =>
      DropRestKeepsIds(s);
  }

  lemma ExpressOnlyAppends(s: State, interest: Interest, handler: Handler, env: Env)
    ensures OnlyAppends(s, Express(s, interest, handler, env).state)
  {
  }

  lemma {:induction false} RunKeepsIds(cfg: Config, events: seq<Event>)
    ensures IdInv(Run(cfg, events))
  {
    hide Apply;
    if events == [] {
      assert Ids([]) == {};
    } else {
      RunKeepsIds(cfg, events[..|events| - 1]);
      ApplyKeepsIds(cfg, Run(cfg, events[..|events| - 1]), events[|events| - 1]);
    }
  }

  ghost predicate InTable(s: State, id: nat) { exists k :: 0 <= k < |s.pit| && s.pit[k].id == id }
  ghost predicate InFlight(s: State, id: nat) { exists k :: 0 <= k < |s.inFlight| && s.inFlight[k].id == id }

  /** After any run, each pending interest ever expressed is pending, being delivered, or has one fate. */
  lemma ExactlyOnePlace(cfg: Config, events: seq<Event>, id: nat)
    ensures var s := Run(cfg, events);
      (1 <= id <= s.lastPendingId <==> InTable(s, id) || InFlight(s, id) || id in s.fates)
      && !(InTable(s, id) && InFlight(s, id)) && !(InTable(s, id) && id in s.fates)
      && !(InFlight(s, id) && id in s.fates)
  {
    RunKeepsIds(cfg, events);
    var s := Run(cfg, events);
    assert InTable(s, id) <==> id in Ids(s.pit);
    assert InFlight(s, id) <==> id in Ids(s.inFlight);
    assert id in UpTo(s.lastPendingId) <==> 1 <= id <= s.lastPendingId;
  }

  lemma RunOfPrefix(cfg: Config, events: seq<Event>, event: Event)
    ensures Run(cfg, events + [event]) == Apply(cfg, Run(cfg, events), event)
  {
    hide Apply;
    assert (events + [event])[..|events|] == events;
  }

  /** Whatever happens later, a fate stays as it is: no pending interest gets two outcomes. */
  lemma {:induction false} FateIsFinal(cfg: Config, events: seq<Event>, more: seq<Event>)
    ensures FatesExtend(Run(cfg, events), Run(cfg, events + more))
    decreases |more|
  {
    hide Apply, IdInv, Run;
    if more == [] {
      assert events + more == events;
    } else {
      var n := |more| - 1;
      FateIsFinal(cfg, events, more[..n]);
      RunKeepsIds(cfg, events + more[..n]);
      assert events + more == events + more[..n] + [more[n]];
      RunOfPrefix(cfg, events + more[..n], more[n]);
      ApplyKeepsIds(cfg, Run(cfg, events + more[..n]), more[n]);
    }
  }

  // ----- runs in which nothing throws -----

  predicate Works(env: Env) { env.connects && env.signs && env.sends }

  /** Callbacks return normally. */
  predicate Orderly(cfg: Config, event: Event)
  {
    match event
    case Deliver(env) => cfg.enableNdnx && Works(env)
    case OnDataThrows => false
    case _ => true
  }

  lemma OrderlyLosesNone(cfg: Config, s: State, event: Event)
    requires Orderly(cfg, event) && Lost !in s.fates.Values
    ensures Lost !in Apply(cfg, s, event).fates.Values
  {
    hide Kept, Taken, WithoutId, KeyDigest, FetchInterest, NfdInterest, NdnxInterest, TimeoutPrefix;
    match event
    case ExpressInterest(interest, tag, env) =>
    case RegisterPrefix(prefix, hasOnInterest, hasKeyChain, hasCertificate, env) =>
      RegisterOnlyAppends(cfg, s, prefix, hasOnInterest, hasKeyChain, hasCertificate, env);
    case Timeout(index, now, env) =>
      if index < |s.pit| {
        var e := s.pit[index];
        HelpersOnlyAppend(cfg, s.(pit := s.pit[..index] + s.pit[index + 1..], fates := s.fates[e.id := TimedOut]),
                          e.handler, NO_DATA, env);
        hide CallOnTimeout;
      }
    case _ =>
  }

  /** If callbacks return normally, every fate is delivered, timed out or removed. */
  lemma {:induction false} NoneLost(cfg: Config, events: seq<Event>)
    requires forall k :: 0 <= k < |events| ==> Orderly(cfg, events[k])
    ensures Lost !in Run(cfg, events).fates.Values
  {
    hide Apply, Orderly;
    if events != [] {
      var n := |events| - 1;
      NoneLost(cfg, events[..n]);
      OrderlyLosesNone(cfg, Run(cfg, events[..n]), events[n]);
    }
  }
}
