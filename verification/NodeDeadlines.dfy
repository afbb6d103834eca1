/** When an interest that the application expressed times out: not before its lifetime is over, and then it does. */
module NodeDeadlines {
  import opened NdnNames
  import opened Interests
  import opened NodeModel
  import opened NodeRuns
  import opened NodeRegistrations
  import opened NodeTables
  import opened NodeEntries
  import opened NodeOrigins

  /** The k-th event of the run expressed the pending interest of this ID for the application. */
  ghost predicate Expresses(cfg: Config, events: seq<Event>, k: nat, id: nat)
  {
    k < |events| && events[k].ExpressInterest? && events[k].env.connects
    && Run(cfg, events[..k]).lastPendingId + 1 == id
  }

  /** The reading of the clock at the call, and the lifetime from then on. */
  function WhenDue(event: Event): real
    requires event.ExpressInterest?
  {
    event.env.now + event.interest.lifetime
  }

  // ----- IDs only grow -----

  lemma ApplyLastId(cfg: Config, s: State, event: Event)
    ensures Apply(cfg, s, event).lastPendingId >= s.lastPendingId
    ensures event.ExpressInterest? && event.env.connects ==>
      Apply(cfg, s, event).lastPendingId == s.lastPendingId + 1
  {
    hide FetchInterest, NfdInterest, NdnxInterest, TimeoutPrefix, KeyDigest, Kept, Taken, DropRest, WithoutId,
      WithoutFilter, WithoutPrefix, WithoutRelated, IsTimedOut;
    match event
    case Deliver(env) =>
      if s.inFlight != [] {
        var t := s.(inFlight := s.inFlight[1..], fates := s.fates[s.inFlight[0].id := Delivered]);
        HelpersOnlyAppend(cfg, t, s.inFlight[0].handler, s.arrived, env);
        DropRestEffect(CallOnData(cfg, t, s.inFlight[0].handler, s.arrived, env).state);
      }
    case OnDataThrows =>
      DropRestEffect(s);
    case _ =>
  }

  lemma {:induction false} LastIdGrows(cfg: Config, events: seq<Event>, i: nat, j: nat)
    requires i <= j <= |events|
    ensures Run(cfg, events[..i]).lastPendingId <= Run(cfg, events[..j]).lastPendingId
    decreases j
  {
    hide Apply;
    if i < j {
      LastIdGrows(cfg, events, i, j - 1);
      assert events[..j][..j - 1] == events[..j - 1];
      ApplyLastId(cfg, Run(cfg, events[..j - 1]), events[j - 1]);
    }
  }

  lemma IdAfter(cfg: Config, events: seq<Event>, k: nat, id: nat)
    requires Expresses(cfg, events, k, id)
    ensures Run(cfg, events[..k + 1]).lastPendingId == id
  {
    hide Apply;
    assert events[..k + 1][..k] == events[..k];
    ApplyLastId(cfg, Run(cfg, events[..k]), events[k]);
  }

  lemma LiveIdGiven(s: State, e: Pending)
    requires IdInv(s) && e in Live(s)
    ensures 1 <= e.id <= s.lastPendingId
  {
    assert e.id in Ids(s.pit) + Ids(s.inFlight);
  }

  /** The entry of that ID is the one that the call made. */
  lemma ExpressedEntry(cfg: Config, events: seq<Event>, k: nat, e: Pending)
    requires Expresses(cfg, events, k, e.id) && e in Live(Run(cfg, events))
    ensures e.interest == events[k].interest && e.handler == Application(events[k].tag)
    ensures DueAfter(e, events[k].env.now)
  {
    hide Run, Live, IdInv, DueAfter, Asks;
    var j := EveryEntryHasOrigin(cfg, events, e);
    RunKeepsIds(cfg, events[..j + 1]);
    LiveIdGiven(Run(cfg, events[..j + 1]), e);
    IdAfter(cfg, events, k, e.id);
    if j < k {
      LastIdGrows(cfg, events, j + 1, k);
    } else if k < j {
      LastIdGrows(cfg, events, k + 1, j);
    }
  }

  /** It is due exactly from the end of its lifetime on, if it has one. */
  lemma DueIff(cfg: Config, events: seq<Event>, k: nat, e: Pending, now: real)
    requires Expresses(cfg, events, k, e.id) && e in Live(Run(cfg, events))
    ensures IsTimedOut(e, now) <==> events[k].interest.lifetime >= 0.0 && 0.0 <= WhenDue(events[k]) <= now
  {
    ExpressedEntry(cfg, events, k, e);
    hide Run, Live;
  }

  // ----- no timeout before -----

  /** The pass of the event comes before the interest is due. */
  predicate PassBefore(event: Event, expressed: Event)
    requires expressed.ExpressInterest?
  {
    event.Timeout? ==> event.now < WhenDue(expressed)
  }

  /** Where every pass comes before the end of its lifetime, an interest does not time out, whatever else happens. */
  lemma NoTimeoutWithinLifetime(cfg: Config, events: seq<Event>, expressed: Event, more: seq<Event>)
    requires expressed.ExpressInterest? && expressed.env.connects
    requires forall k :: 0 <= k < |more| ==> PassBefore(more[k], expressed)
    ensures var id, t := Run(cfg, events).lastPendingId + 1, Run(cfg, events + [expressed] + more);
      id in t.fates ==> t.fates[id] != TimedOut
  {
    var id := Run(cfg, events).lastPendingId + 1;
    var start := events + [expressed];
    var e := NewEntry(cfg, events, expressed);
    hide Run, Apply, Live, IsTimedOut;
    assert start[..|events|] == events && start[|events|] == expressed;
    assert Expresses(cfg, start, |events|, id);
    forall k | 0 <= k < |more| && more[k].Timeout?
      ensures !IsTimedOut(e, more[k].now)
    {
      assert PassBefore(more[k], expressed);
      DueIff(cfg, start, |events|, e, more[k].now);
    }
    NoEarlyTimeout(cfg, start, more, e);
    RunKeepsIds(cfg, start + more);
    LiveHasNoFate(Run(cfg, start + more), e);
  }

  lemma LiveHasNoFate(s: State, e: Pending)
    requires IdInv(s)
    ensures e in Live(s) ==> e.id !in s.fates
  {
    if e in Live(s) { assert e.id in Ids(s.pit) + Ids(s.inFlight); }
  }

  /** The entry that the call made. */
  lemma NewEntry(cfg: Config, events: seq<Event>, expressed: Event) returns (e: Pending)
    requires expressed.ExpressInterest? && expressed.env.connects
    ensures e in Live(Run(cfg, events + [expressed])) && e.id == Run(cfg, events).lastPendingId + 1
  {
    RunOfPrefix(cfg, events, expressed);
    hide Run;
    var t := Apply(cfg, Run(cfg, events), expressed);
    e := t.pit[|t.pit| - 1];
  }
}
