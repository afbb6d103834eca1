/**
  The Node class: its tables as fields, changed in place by the loops of the class.

  Each method is tied to the functions of NodeModel, and `trace` records the events, so whatever NodeRuns,
  NodeRegistrations and NodeTables prove of every run holds of every valid Node.
 */
module NodeObject {
  import opened Components
  import opened NdnNames
  import opened Interests
  import opened NodeModel
  import opened NodeRuns
  import opened NodeRegistrations
  import opened NodeTables
  import opened NodeEntries
  import opened NodeDeadlines

  /** What an application callback does: API calls, and perhaps an exception at the end. */
  datatype Callback = Callback(env: Env, calls: seq<Event>, throws: bool)

  /** The API calls that never erase a pending interest. */
  predicate IsAppendingCall(event: Event) { IsApiCall(event) && !event.RemovePendingInterest? }

  /** The entries of q whose flag is false, in order. */
  function Survivors(q: seq<Pending>, gone: seq<bool>): seq<Pending>
    requires |q| == |gone|
  {
    if q == [] then []
    else if gone[0] then Survivors(q[1..], gone[1..])
    else [q[0]] + Survivors(q[1..], gone[1..])
  }

  /** The IDs of the filters that an incoming interest's name matches, in table order. */
  function Dispatched(filters: seq<FilterEntry>, name: NameValue): seq<nat>
  {
    if filters == [] then []
    else if filters[0].prefix <= name then [filters[0].id] + Dispatched(filters[1..], name)
    else Dispatched(filters[1..], name)
  }

  predicate Matching(filters: seq<FilterEntry>, k: nat, name: NameValue) { k < |filters| && filters[k].prefix <= name }

  lemma {:induction false} DispatchedElements(filters: seq<FilterEntry>, name: NameValue)
    ensures forall id :: id in Dispatched(filters, name) ==>
      exists k: nat :: Matching(filters, k, name) && filters[k].id == id
    ensures forall k: nat :: Matching(filters, k, name) ==> filters[k].id in Dispatched(filters, name)
  {
    if filters != [] {
      var rest := filters[1..];
      DispatchedElements(rest, name);
      forall id | id in Dispatched(filters, name)
        ensures exists k: nat :: Matching(filters, k, name) && filters[k].id == id
      {
        if id in Dispatched(rest, name) {
          var k: nat :| Matching(rest, k, name) && rest[k].id == id;
          assert Matching(filters, k + 1, name);
        } else {
          assert Matching(filters, 0, name);
        }
      }
      forall k: nat | Matching(filters, k, name)
        ensures filters[k].id in Dispatched(filters, name)
      {
        if k > 0 { assert Matching(rest, k - 1, name); }
      }
    }
  }

  predicate Ascends(ids: seq<nat>) { forall i, j :: 0 <= i < j < |ids| ==> ids[i] < ids[j] }

  lemma {:induction false} DispatchedAscending(filters: seq<FilterEntry>, name: NameValue)
    requires AscendingFilters(filters)
    ensures Ascends(Dispatched(filters, name))
  {
    if filters != [] {
      var rest := filters[1..];
      var d := Dispatched(rest, name);
      DispatchedElements(rest, name);
      DispatchedAscending(rest, name);
      forall i | 0 <= i < |d|
        ensures filters[0].id < d[i]
      {
        assert d[i] in d;
        var k: nat :| Matching(rest, k, name) && rest[k].id == d[i];
        assert filters[k + 1] == rest[k];
      }
      assert Dispatched(filters, name) == if filters[0].prefix <= name then [filters[0].id] + d else d;
    }
  }

  /** Exactly the matching filters are dispatched to, each once and oldest first. */
  lemma DispatchedExactly(filters: seq<FilterEntry>, name: NameValue)
    requires AscendingFilters(filters)
    ensures var d := Dispatched(filters, name);
      && (forall k :: 0 <= k < |filters| ==> (filters[k].id in d <==> filters[k].prefix <= name))
      && (forall id :: id in d ==> exists k: nat :: Matching(filters, k, name) && filters[k].id == id)
      && Ascends(d)
  {
    hide Dispatched;
    DispatchedElements(filters, name);
    DispatchedAscending(filters, name);
    forall k | 0 <= k < |filters|
      ensures filters[k].id in Dispatched(filters, name) <==> filters[k].prefix <= name
    {
      assert filters[k].prefix <= name ==> Matching(filters, k, name);
      if filters[k].id in Dispatched(filters, name) {
        var j: nat :| Matching(filters, j, name) && filters[j].id == filters[k].id;
        assert j == k;
      }
    }
  }

  /** One backwards step of an erasing loop, on the table as it was and as it is. */
  lemma ErasePending(table: seq<Pending>, i: nat, id: nat)
    requires i < |table|
    ensures var q := table[..i + 1] + WithoutId(table[i + 1..], id);
      && q[i] == table[i]
      && (if table[i].id == id then q[..i] + q[i + 1..] else q) == table[..i] + WithoutId(table[i..], id)
  {
    assert table[i..] == [table[i]] + table[i + 1..];
    assert table[..i + 1] == table[..i] + [table[i]];
  }

  lemma RemovePendingIs(s: State, id: nat, found: bool)
    requires found <==> exists k :: 0 <= k < |s.pit| && s.pit[k].id == id
    ensures RemovePending(s, id)
      == s.(pit := WithoutId(s.pit, id), fates := if found then s.fates[id := Removed] else s.fates)
  {
  }

  lemma RunOfNothing(cfg: Config)
    ensures Run(cfg, []) == INITIAL
  {
  }

  lemma NothingErased(table: seq<Pending>, id: nat)
    ensures table[..|table|] + WithoutId(table[|table|..], id) == table
  {
  }

  lemma EraseRow(table: seq<RegisteredPrefix>, filters: seq<FilterEntry>, i: nat, id: nat)
    requires i < |table|
    ensures var q := table[..i + 1] + WithoutPrefix(table[i + 1..], id);
      q[i] == table[i]
      && (if table[i].id == id then q[..i] + q[i + 1..] else q) == table[..i] + WithoutPrefix(table[i..], id)
    ensures var rest := WithoutRelated(filters, table[i + 1..], id);
      WithoutRelated(filters, table[i..], id)
        == if table[i].id == id && table[i].filterId > 0 then WithoutFilter(rest, table[i].filterId) else rest
  {
    assert table[i..] == [table[i]] + table[i + 1..];
    assert table[..i + 1] == table[..i] + [table[i]];
  }

  lemma NoRowErased(table: seq<RegisteredPrefix>, filters: seq<FilterEntry>, id: nat)
    ensures table[..|table|] + WithoutPrefix(table[|table|..], id) == table
    ensures WithoutRelated(filters, table[|table|..], id) == filters
  {
  }

  lemma EraseFilterEntry(table: seq<FilterEntry>, i: nat, id: nat)
    requires i < |table|
    ensures var q := table[..i + 1] + WithoutFilter(table[i + 1..], id);
      q[i] == table[i]
      && (if table[i].id == id then q[..i] + q[i + 1..] else q) == table[..i] + WithoutFilter(table[i..], id)
  {
    assert table[i..] == [table[i]] + table[i + 1..];
    assert table[..i + 1] == table[..i] + [table[i]];
  }

  lemma ExtractEntry(table: seq<Pending>, i: nat, name: NameValue)
    requires i < |table|
    ensures var q := table[..i + 1] + Kept(table[i + 1..], name);
      q[i] == table[i]
      && (if Accepts(table[i].interest, name) then q[..i] + q[i + 1..] else q) == table[..i] + Kept(table[i..], name)
    ensures Taken(table[i..], name)
      == if Accepts(table[i].interest, name) then Taken(table[i + 1..], name) + [table[i]]
         else Taken(table[i + 1..], name)
  {
    hide Accepts;
    assert table[i..] == [table[i]] + table[i + 1..];
    assert table[..i + 1] == table[..i] + [table[i]];
  }

  class Node {
    const cfg: Config
    var pendingInterestTable: seq<Pending>
    var registeredPrefixTable: seq<RegisteredPrefix>
    var interestFilterTable: seq<FilterEntry>
    var ndndId: Component
    var lastPendingInterestId: nat
    var lastRegisteredPrefixId: nat

    ghost var inFlight: seq<Pending>
    ghost var arrived: Data
    ghost var fates: map<nat, Fate>
    ghost var outcomes: seq<RegistrationOutcome>
    ghost var expressed: map<nat, nat>
    ghost var accepted: set<nat>
    ghost var trace: seq<Event>

    ghost function Abs(): State
      reads this
    {
      State(pendingInterestTable, registeredPrefixTable, interestFilterTable, ndndId, lastPendingInterestId,
            lastRegisteredPrefixId, inFlight, arrived, fates, outcomes, expressed, accepted)
    }

    /** The fields are what the recorded events lead to. */
    ghost predicate Valid()
      reads this
    {
      Abs() == Run(cfg, trace)
    }

    constructor (cfg: Config)
      ensures this.cfg == cfg && Valid() && trace == []
    {
      hide Run;
      RunOfNothing(cfg);
      this.cfg := cfg;
      pendingInterestTable, registeredPrefixTable, interestFilterTable := [], [], [];
      ndndId, lastPendingInterestId, lastRegisteredPrefixId := [], 0, 0;
      inFlight, arrived, fates, outcomes, expressed, accepted := [], NO_DATA, map[], [], map[], {};
      trace := [];
    }

    /** A valid node keeps everything that is proved of all runs. */
    lemma Invariants()
      requires Valid()
      ensures Abs() == Run(cfg, trace)
      ensures IdInv(Abs()) && RegInv(Abs()) && TableInv(Abs()) && EntryInv(cfg, Abs())
    {
      hide IdInv, RegInv, TableInv, EntryInv, Run;
      RunKeepsIds(cfg, trace);
      RunKeepsRegs(cfg, trace);
      RunKeepsTables(cfg, trace);
      RunKeepsEntries(cfg, trace);
    }

    /** Adds an event whose effect has just been brought about. */
    ghost method Trace(event: Event, before: State)
      requires before == Run(cfg, trace) && Abs() == Apply(cfg, before, event)
      modifies this`trace
      ensures Valid() && trace == old(trace) + [event]
    {
      RunOfPrefix(cfg, trace, event);
      trace := trace + [event];
    }

    // ----- pending interests -----

    method Express(interest: Interest, handler: Handler, env: Env) returns (id: nat, threw: bool)
      modifies this
      ensures Result(Abs(), threw) == NodeModel.Express(old(Abs()), interest, handler, env)
      ensures !threw ==> id == lastPendingInterestId
      ensures trace == old(trace)
    {
      id, threw := 0, true;
      if !env.connects {
        return;
      }
      lastPendingInterestId := lastPendingInterestId + 1;
      id := lastPendingInterestId;
      pendingInterestTable := pendingInterestTable + [NewPending(id, interest, handler, env.now)];
      expressed := CountExpressed(expressed, handler);
      if !(TimeoutPrefix() <= interest.name) {
        if !env.sends {
          return;
        }
      }
      threw := false;
    }

    method ExpressInterest(interest: Interest, tag: nat, env: Env) returns (id: nat, threw: bool)
      requires Valid()
      modifies this
      ensures Result(Abs(), threw) == NodeModel.Express(old(Abs()), interest, Application(tag), env)
      ensures Valid() && trace == old(trace) + [Event.ExpressInterest(interest, tag, env)]
      ensures !threw ==> id == lastPendingInterestId
    {
      hide Run, Apply, NodeModel.Express, Register, RemovePending, SetFilter, UnsetFilter, RemoveRegistered;
      ghost var before := Abs();
      ApiCallIs(cfg, before, Event.ExpressInterest(interest, tag, env));
      id, threw := Express(interest, Application(tag), env);
      Trace(Event.ExpressInterest(interest, tag, env), before);
    }

    method RemovePendingInterest(id: nat)
      requires Valid()
      modifies this
      ensures Abs() == RemovePending(old(Abs()), id)
      ensures Valid() && trace == old(trace) + [Event.RemovePendingInterest(id)]
    {
      hide Run, Apply, NodeModel.Express, Register, RemovePending, SetFilter, UnsetFilter, RemoveRegistered;
      ghost var before := Abs();
      ApiCallIs(cfg, before, Event.RemovePendingInterest(id));
      ErasePendingInterest(id);
      Trace(Event.RemovePendingInterest(id), before);
    }

    method ErasePendingInterest(id: nat)
      modifies this
      ensures Abs() == RemovePending(old(Abs()), id) && trace == old(trace)
    {
      hide WithoutId, RemovePending;
      ghost var before := Abs();
      var count := ErasePendingRows(id);
      RemovePendingIs(before, id, count > 0);
      if count > 0 {
        fates := fates[id := Removed];
      }
    }

    method ErasePendingRows(id: nat) returns (count: nat)
      modifies this`pendingInterestTable
      ensures pendingInterestTable == WithoutId(old(pendingInterestTable), id)
      ensures count > 0 <==> exists k :: 0 <= k < |old(pendingInterestTable)| && old(pendingInterestTable)[k].id == id
    {
      hide WithoutId;
      ghost var table := pendingInterestTable;
      NothingErased(table, id);
      count := 0;
      // Erasing at i leaves the part in front of i, which is still to be visited, in place.
      var i := |pendingInterestTable| - 1;
      while i >= 0
        invariant -1 <= i < |table|
        invariant pendingInterestTable == table[..i + 1] + WithoutId(table[i + 1..], id)
        invariant count > 0 <==> exists k :: i < k < |table| && table[k].id == id
      {
        ErasePending(table, i, id);
        if pendingInterestTable[i].id == id {
          count := count + 1;
          pendingInterestTable := pendingInterestTable[..i] + pendingInterestTable[i + 1..];
        }
        i := i - 1;
      }
      assert table[0..] == table;
    }

    // ----- filters and prefixes -----

    method AddFilter(prefix: NameValue) returns (id: nat)
      modifies this
      ensures Abs() == SetFilter(old(Abs()), prefix) && id == lastRegisteredPrefixId && trace == old(trace)
    {
      lastRegisteredPrefixId := lastRegisteredPrefixId + 1;
      id := lastRegisteredPrefixId;
      interestFilterTable := interestFilterTable + [FilterEntry(id, prefix)];
    }

    method SetInterestFilter(prefix: NameValue) returns (id: nat)
      requires Valid()
      modifies this
      ensures Abs() == SetFilter(old(Abs()), prefix)
      ensures Valid() && trace == old(trace) + [Event.SetInterestFilter(prefix)]
      ensures id == lastRegisteredPrefixId
    {
      hide Run, Apply, NodeModel.Express, Register, RemovePending, SetFilter, UnsetFilter, RemoveRegistered;
      ghost var before := Abs();
      ApiCallIs(cfg, before, Event.SetInterestFilter(prefix));
      id := AddFilter(prefix);
      Trace(Event.SetInterestFilter(prefix), before);
    }

    method EraseFilter(id: nat)
      modifies this
      ensures Abs() == UnsetFilter(old(Abs()), id) && trace == old(trace)
    {
      ghost var before := Abs();
      ghost var table := interestFilterTable;
      assert table[..|table|] == table;
      var i := |interestFilterTable| - 1;
      while i >= 0
        invariant -1 <= i < |table|
        invariant interestFilterTable == table[..i + 1] + WithoutFilter(table[i + 1..], id)
        invariant Abs() == before.(filters := interestFilterTable) && trace == old(trace)
      {
        EraseFilterEntry(table, i, id);
        if interestFilterTable[i].id == id {
          interestFilterTable := interestFilterTable[..i] + interestFilterTable[i + 1..];
        }
        i := i - 1;
      }
      assert table[0..] == table;
    }

    method UnsetInterestFilter(id: nat)
      requires Valid()
      modifies this
      ensures Abs() == UnsetFilter(old(Abs()), id)
      ensures Valid() && trace == old(trace) + [Event.UnsetInterestFilter(id)]
    {
      hide Run, Apply, NodeModel.Express, Register, RemovePending, SetFilter, UnsetFilter, RemoveRegistered;
      ghost var before := Abs();
      ApiCallIs(cfg, before, Event.UnsetInterestFilter(id));
      EraseFilter(id);
      Trace(Event.UnsetInterestFilter(id), before);
    }

    method RemoveRegisteredPrefix(id: nat)
      requires Valid()
      modifies this
      ensures Abs() == RemoveRegistered(old(Abs()), id)
      ensures Valid() && trace == old(trace) + [Event.RemoveRegisteredPrefix(id)]
    {
      hide Run, Apply, NodeModel.Express, Register, RemovePending, SetFilter, UnsetFilter, RemoveRegistered;
      ghost var before := Abs();
      ApiCallIs(cfg, before, Event.RemoveRegisteredPrefix(id));
      EraseRegisteredPrefix(id);
      Trace(Event.RemoveRegisteredPrefix(id), before);
    }

    method EraseRegisteredPrefix(id: nat)
      modifies this
      ensures Abs() == RemoveRegistered(old(Abs()), id) && trace == old(trace)
    {
      hide WithoutFilter, WithoutPrefix, WithoutRelated;
      ghost var before := Abs();
      ghost var table := registeredPrefixTable;
      NoRowErased(table, interestFilterTable, id);
      var i := |registeredPrefixTable| - 1;
      while i >= 0
        invariant -1 <= i < |table|
        invariant registeredPrefixTable == table[..i + 1] + WithoutPrefix(table[i + 1..], id)
        invariant interestFilterTable == WithoutRelated(before.filters, table[i + 1..], id)
        invariant Abs() == before.(prefixes := registeredPrefixTable, filters := interestFilterTable)
        invariant trace == old(trace)
      {
        EraseRow(table, before.filters, i, id);
        var entry := registeredPrefixTable[i];
        if entry.id == id {
          if entry.filterId > 0 {
            EraseFilter(entry.filterId);
          }
          registeredPrefixTable := registeredPrefixTable[..i] + registeredPrefixTable[i + 1..];
        }
        i := i - 1;
      }
      assert table[0..] == table;
    }

    /** The rows that registerPrefixHelper and nfdRegisterPrefix add when the registered prefix ID is not 0. */
    method AddTableRows(registeredPrefixId: nat, prefix: NameValue, hasOnInterest: bool)
      modifies this
      ensures Abs() == AddRows(old(Abs()), registeredPrefixId, prefix, hasOnInterest) && trace == old(trace)
    {
      if registeredPrefixId != 0 {
        var interestFilterId := 0;
        if hasOnInterest {
          interestFilterId := AddFilter(prefix);
        }
        registeredPrefixTable := registeredPrefixTable
          + [RegisteredPrefix(registeredPrefixId, prefix, interestFilterId)];
      }
    }

    method RegisterPrefixHelper(reg: nat, registeredPrefixId: nat, prefix: NameValue, hasOnInterest: bool, env: Env)
      returns (threw: bool)
      modifies this
      ensures Result(Abs(), threw)
        == RegisterNdnx(cfg, old(Abs()), reg, registeredPrefixId, prefix, hasOnInterest, env)
      ensures trace == old(trace)
    {
      hide NdnxInterest, AddRows, NodeModel.Express;
      threw := true;
      if !cfg.enableNdnx || !env.signs {
        return;
      }
      var interest := NdnxInterest(ndndId, env.appended);
      AddTableRows(registeredPrefixId, prefix, hasOnInterest);
      var id;
      id, threw := Express(interest, RegisterResponse(reg, prefix, hasOnInterest, false), env);
    }

    method NfdRegisterPrefix(registeredPrefixId: nat, prefix: NameValue, hasOnInterest: bool, hasCertificate: bool,
                             env: Env)
      returns (threw: bool)
      modifies this
      ensures Result(Abs(), threw)
        == RegisterNfd(cfg, old(Abs()), registeredPrefixId, prefix, hasOnInterest, hasCertificate, env)
      ensures trace == old(trace)
    {
      hide NfdInterest, AddRows, NodeModel.Express;
      threw := true;
      if !hasCertificate || !env.signs {
        return;
      }
      var interest := NfdInterest(cfg.isLocal, env.appended);
      AddTableRows(registeredPrefixId, prefix, hasOnInterest);
      var id;
      id, threw := Express(interest, RegisterResponse(registeredPrefixId, prefix, hasOnInterest, true), env);
    }

    method RegisterPrefix(prefix: NameValue, hasOnInterest: bool, hasKeyChain: bool, hasCertificate: bool, env: Env)
      returns (registeredPrefixId: nat, threw: bool)
      requires Valid()
      modifies this
      ensures Result(Abs(), threw)
        == Register(cfg, old(Abs()), prefix, hasOnInterest, hasKeyChain, hasCertificate, env)
      ensures Valid()
      ensures trace == old(trace) + [Event.RegisterPrefix(prefix, hasOnInterest, hasKeyChain, hasCertificate, env)]
      ensures registeredPrefixId == old(lastRegisteredPrefixId) + 1
    {
      hide Run, Apply, NodeModel.Express, Register, RemovePending, SetFilter, UnsetFilter, RemoveRegistered;
      ghost var before := Abs();
      ApiCallIs(cfg, before, Event.RegisterPrefix(prefix, hasOnInterest, hasKeyChain, hasCertificate, env));
      registeredPrefixId, threw := StartRegistration(prefix, hasOnInterest, hasKeyChain, hasCertificate, env);
      Trace(Event.RegisterPrefix(prefix, hasOnInterest, hasKeyChain, hasCertificate, env), before);
    }

    method StartRegistration(prefix: NameValue, hasOnInterest: bool, hasKeyChain: bool, hasCertificate: bool, env: Env)
      returns (registeredPrefixId: nat, threw: bool)
      modifies this
      ensures Result(Abs(), threw)
        == Register(cfg, old(Abs()), prefix, hasOnInterest, hasKeyChain, hasCertificate, env)
      ensures trace == old(trace) && registeredPrefixId == old(lastRegisteredPrefixId) + 1
    {
      hide FetchInterest, RegisterNdnx, RegisterNfd, NodeModel.Express;
      // The ID is used up whether or not the rest throws.
      lastRegisteredPrefixId := lastRegisteredPrefixId + 1;
      registeredPrefixId := lastRegisteredPrefixId;
      threw := true;
      if ndndId != [] || !hasKeyChain {
        if cfg.enableNdnx {
          if ndndId == [] {
            var id;
            var fetcher := IdFetcher(registeredPrefixId, registeredPrefixId, prefix, hasOnInterest);
            id, threw := Express(FetchInterest(), fetcher, env);
          } else {
            threw := RegisterPrefixHelper(registeredPrefixId, registeredPrefixId, prefix, hasOnInterest, env);
          }
        }
      } else {
        threw := NfdRegisterPrefix(registeredPrefixId, prefix, hasOnInterest, hasCertificate, env);
      }
      if !threw {
        accepted := accepted + {registeredPrefixId};
      }
    }

    // ----- the callbacks of the registration protocol -----

    ghost method RecordOutcome(reg: nat, success: bool)
      modifies this`outcomes
      ensures Abs() == Record(old(Abs()), reg, success)
    {
      outcomes := outcomes + [RegistrationOutcome(reg, success)];
    }

    method HandleData(handler: Handler, data: Data, env: Env) returns (threw: bool)
      modifies this
      ensures Result(Abs(), threw) == CallOnData(cfg, old(Abs()), handler, data, env)
      ensures trace == old(trace)
    {
      hide KeyDigest, RegisterNdnx, Record;
      threw := false;
      match handler
      case Application(_) =>
      case IdFetcher(reg, registeredPrefixId, prefix, hasOnInterest) =>
        if |data.content| < 1 || data.content[0] != 0x30 {
          RecordOutcome(reg, false);
          return;
        }
        // The key stays stored even where the next step throws.
        ndndId := KeyDigest(data.content);
        threw := RegisterPrefixHelper(reg, registeredPrefixId, prefix, hasOnInterest, env);
      case RegisterResponse(reg, _, _, isNfdCommand) =>
        if isNfdCommand {
          if data.response.Undecodable? {
            RecordOutcome(reg, false);
            return;
          }
          if data.response.code != 200 {
            RecordOutcome(reg, false);
            return;
          }
          RecordOutcome(reg, true);
        } else {
          if |data.name| < 4 || data.name[0] != NDNX || data.name[2] != SELFREG {
            RecordOutcome(reg, false);
            return;
          }
          RecordOutcome(reg, true);
        }
    }

    method HandleTimeout(handler: Handler, env: Env)
      modifies this
      ensures Abs() == CallOnTimeout(cfg, old(Abs()), handler, env)
      ensures trace == old(trace)
    {
      hide FetchInterest, RegisterNdnx, Record, NodeModel.Express;
      match handler
      case Application(_) =>
      case IdFetcher(reg, _, _, _) =>
        RecordOutcome(reg, false);
      case RegisterResponse(reg, prefix, hasOnInterest, isNfdCommand) =>
        if isNfdCommand {
          var threw;
          if |ndndId| == 0 {
            // An ID of 0 adds no second row for the registration.
            var id;
            id, threw := Express(FetchInterest(), IdFetcher(reg, 0, prefix, hasOnInterest), env);
          } else {
            threw := RegisterPrefixHelper(reg, 0, prefix, hasOnInterest, env);
          }
        } else {
          RecordOutcome(reg, false);
        }
    }

    // ----- events -----

    method ExtractEntriesForExpressedInterest(name: NameValue) returns (entries: seq<Pending>)
      requires |name| + 1 < TWO64
      modifies this`pendingInterestTable
      ensures pendingInterestTable == Kept(old(pendingInterestTable), name)
      ensures entries == Taken(old(pendingInterestTable), name)
    {
      hide Accepts;
      ghost var table := pendingInterestTable;
      NothingExtracted(table, name);
      entries := [];
      // Erasing at i leaves the part in front of i, which is still to be visited, in place.
      var i := |pendingInterestTable| - 1;
      while i >= 0
        invariant -1 <= i < |table|
        invariant pendingInterestTable == table[..i + 1] + Kept(table[i + 1..], name)
        invariant entries == Taken(table[i + 1..], name)
      {
        ExtractEntry(table, i, name);
        var matches := MatchesName(pendingInterestTable[i].interest, name);
        if matches {
          entries := entries + [pendingInterestTable[i]];
          pendingInterestTable := pendingInterestTable[..i] + pendingInterestTable[i + 1..];
        }
        i := i - 1;
      }
      assert table[0..] == table;
    }

    /** One API call of an application callback. */
    method Call(event: Event)
      requires Valid() && IsApiCall(event)
      modifies this
      ensures Valid() && trace == old(trace) + [event]
      ensures inFlight == old(inFlight) && arrived == old(arrived)
      ensures IsAppendingCall(event) ==> OnlyAppends(old(Abs()), Abs())
    {
      hide Run, Apply, NodeModel.Express, Register, SetFilter, UnsetFilter, RemoveRegistered, RemovePending,
        OnlyAppends;
      ghost var before := trace;
      ApiCallEffect(cfg, Abs(), event);
      RunOfPrefix(cfg, trace, event);
      match event
      case ExpressInterest(interest, tag, env) =>
        var id, threw := ExpressInterest(interest, tag, env);
      case RemovePendingInterest(id) =>
        RemovePendingInterest(id);
      case SetInterestFilter(prefix) =>
        var id := SetInterestFilter(prefix);
      case UnsetInterestFilter(id) =>
        UnsetInterestFilter(id);
      case RegisterPrefix(prefix, hasOnInterest, hasKeyChain, hasCertificate, env) =>
        var id, threw := RegisterPrefix(prefix, hasOnInterest, hasKeyChain, hasCertificate, env);
      case RemoveRegisteredPrefix(id) =>
        RemoveRegisteredPrefix(id);
    }

    method Calls(events: seq<Event>)
      requires Valid() && forall k :: 0 <= k < |events| ==> IsApiCall(events[k])
      modifies this
      ensures Valid() && trace == old(trace) + events
      ensures inFlight == old(inFlight) && arrived == old(arrived)
      ensures (forall k :: 0 <= k < |events| ==> IsAppendingCall(events[k])) ==> Appended(old(Abs()), Abs())
      ensures FatesExtend(old(Abs()), Abs())
    {
      MakeCalls(events);
      hide Run, Appended, FatesExtend, IsAppendingCall;
      FatesSoFar(cfg, old(trace), trace);
    }

    method MakeCalls(events: seq<Event>)
      requires Valid() && forall k :: 0 <= k < |events| ==> IsApiCall(events[k])
      modifies this
      ensures Valid() && trace == old(trace) + events
      ensures inFlight == old(inFlight) && arrived == old(arrived)
      ensures (forall k :: 0 <= k < |events| ==> IsAppendingCall(events[k])) ==> Appended(old(Abs()), Abs())
    {
      hide Valid, OnlyAppends;
      for i := 0 to |events|
        invariant Valid() && trace == old(trace) + events[..i]
        invariant inFlight == old(inFlight) && arrived == old(arrived)
        invariant (forall k :: 0 <= k < |events| ==> IsAppendingCall(events[k])) ==> Appended(old(Abs()), Abs())
      {
        ghost var before := Abs();
        Call(events[i]);
        if IsAppendingCall(events[i]) {
          AppendOne(before, Abs());
        }
        assert events[..i + 1] == events[..i] + [events[i]];
      }
      assert events[..|events|] == events;
    }

    /** Leaves the loop over the extracted entries because of an exception. */
    ghost method DropInFlight()
      modifies this`inFlight, this`fates
      ensures Abs() == DropRest(old(Abs())) && inFlight == []
    {
      DropRestEffect(Abs());
      fates, inFlight := DropRest(Abs()).fates, [];
    }

    /**
      onReceivedElement for a Data packet; script(i) is what happens when the callback of the i-th extracted
      entry runs. The callbacks of n entries run, newest entry first; the rest are lost to an exception.
     */
    method OnReceivedData(data: Data, script: nat -> Callback) returns (threw: bool, ghost n: nat)
      requires Valid() && inFlight == [] && |data.name| + 1 < TWO64
      requires forall i, k :: 0 <= k < |script(i).calls| ==> IsApiCall(script(i).calls[k])
      modifies this
      ensures Valid() && inFlight == []
      ensures var entries := Taken(old(pendingInterestTable), data.name);
        && n <= |entries| && (if threw then n > 0 else n == |entries|) && Descending(entries)
        && (forall k :: 0 <= k < n ==> entries[k].id in fates && fates[entries[k].id] == Delivered)
        && (forall k :: n <= k < |entries| ==> entries[k].id in fates && fates[entries[k].id] == Lost)
      ensures forall k :: 0 <= k < (if threw then n - 1 else n) ==> !script(k).throws
      ensures var ran := old(trace) + [DataArrives(data)] + Deliveries(script, if threw then n - 1 else n);
        if !threw then trace == ran
        else
          // The last callback is one of the node's own and throws, or the application's, which throws at its end.
          var last := script(n - 1);
          || trace == ran + [Deliver(last.env)]
          || (last.throws && trace == ran + ([Deliver(last.env)] + last.calls + [OnDataThrows]))
    {
      hide Run, Apply, Valid, Accepts, IdInv, Kept, Taken, IsAppendingCall, Deliveries, Descending, FatesExtend,
        InDelivery;
      TakenDescends(data.name);
      var pitEntries := StartDelivery(data);
      ghost var start := trace;
      DeliveryStarts(pitEntries, start, fates, script);
      n := 0;
      for i := 0 to |pitEntries|
        invariant Valid() && arrived == data && n == i
        invariant InDelivery(pitEntries, i, inFlight, start, trace, fates, script)
      {
        DeliveryHere(pitEntries, i, inFlight, start, trace, fates, script);
        ghost var before, ran := Abs(), trace;
        threw := DeliverEntry(pitEntries[i], data, script(i));
        DeliveryTurn(pitEntries, i, before, Abs(), start, ran, script);
        n := i + 1;
        if threw {
          return;
        }
      }
      DeliveryHere(pitEntries, n, inFlight, start, trace, fates, script);
      threw := false;
    }

    /** One turn of the loop over the extracted entries: the entry's callback, with its calls and its exception. */
    method DeliverEntry(e: Pending, data: Data, callback: Callback) returns (threw: bool)
      requires Valid() && inFlight != [] && e == inFlight[0] && data == arrived
      requires forall k :: 0 <= k < |callback.calls| ==> IsApiCall(callback.calls[k])
      modifies this
      ensures Valid() && FatesExtend(old(Abs()), Abs()) && e.id in fates && fates[e.id] == Delivered
      ensures !threw ==> !callback.throws && inFlight == old(inFlight)[1..] && arrived == old(arrived)
      ensures !threw ==> trace == old(trace) + ([Deliver(callback.env)] + callback.calls)
      ensures threw ==> inFlight == [] && forall f :: f in old(inFlight)[1..] ==> f.id in fates && fates[f.id] == Lost
      ensures threw ==>
        || trace == old(trace) + [Deliver(callback.env)]
        || (callback.throws && trace == old(trace) + ([Deliver(callback.env)] + callback.calls + [OnDataThrows]))
    {
      hide Run, Apply, Valid, IsAppendingCall, Appended;
      threw := DeliverNext(e, data, callback.env);
      if threw {
        return;
      }
      Calls(callback.calls);
      if callback.throws {
        ThrowOnData();
        threw := true;
      }
    }

    lemma TakenDescends(name: NameValue)
      requires Valid()
      ensures Descending(Taken(pendingInterestTable, name))
    {
      RunKeepsIds(cfg, trace);
      ExtractionOrder(pendingInterestTable, name);
    }

    method StartDelivery(data: Data) returns (pitEntries: seq<Pending>)
      requires Valid() && inFlight == [] && |data.name| + 1 < TWO64
      modifies this
      ensures Valid() && trace == old(trace) + [DataArrives(data)]
      ensures pitEntries == inFlight == Taken(old(pendingInterestTable), data.name) && arrived == data
      ensures pendingInterestTable == Kept(old(pendingInterestTable), data.name)
    {
      hide Run, Apply, Accepts, Kept, Taken;
      ghost var before := Abs();
      pitEntries := ExtractEntriesForExpressedInterest(data.name);
      inFlight, arrived := pitEntries, data;
      DataArrivesEffect(cfg, before, data);
      Trace(DataArrives(data), before);
    }

    /** An application callback throws out of the loop over the extracted entries. */
    ghost method ThrowOnData()
      requires Valid()
      modifies this`inFlight, this`fates, this`trace
      ensures Valid() && trace == old(trace) + [OnDataThrows] && inFlight == []
      ensures FatesExtend(old(Abs()), Abs())
      ensures forall e :: e in old(inFlight) ==> e.id in fates && fates[e.id] == Lost
    {
      hide Run, Apply, DropRest;
      ghost var before := Abs();
      RunKeepsIds(cfg, trace);
      DropRestDrops(before);
      DropInFlight();
      ThrowEffect(cfg, before);
      Trace(OnDataThrows, before);
    }

    /** One turn of the loop over the extracted entries. */
    method DeliverNext(e: Pending, data: Data, env: Env) returns (threw: bool)
      requires Valid() && inFlight != [] && e == inFlight[0] && data == arrived
      modifies this
      ensures Valid() && trace == old(trace) + [Deliver(env)]
      ensures !threw ==> inFlight == old(inFlight)[1..] && arrived == old(arrived)
      ensures threw ==> inFlight == []
      ensures FatesExtend(old(Abs()), Abs()) && e.id in fates && fates[e.id] == Delivered
      ensures threw ==> forall f :: f in old(inFlight)[1..] ==> f.id in fates && fates[f.id] == Lost
    {
      hide Run, Apply, DropRest, CallOnData, IdInv, FatesExtend;
      ghost var s := Abs();
      RunKeepsIds(cfg, trace);
      DeliverFates(cfg, s, env);
      DeliverEffect(cfg, s, env);
      inFlight, fates := inFlight[1..], fates[e.id := Delivered];
      ghost var t := Abs();
      CallOnDataKeepsFlight(cfg, t, e.handler, arrived, env);
      threw := HandleData(e.handler, data, env);
      if threw {
        DropInFlight();
      }
      Trace(Deliver(env), s);
    }

    /** onReceivedElement for an Interest packet: the filters whose callbacks are called, in order. */
    method OnReceivedInterest(name: NameValue) returns (called: seq<nat>)
      ensures called == Dispatched(interestFilterTable, name)
    {
      called := [];
      var i := 0;
      while i < |interestFilterTable|
        invariant i <= |interestFilterTable|
        invariant called + Dispatched(interestFilterTable[i..], name) == Dispatched(interestFilterTable, name)
      {
        assert interestFilterTable[i..][1..] == interestFilterTable[i + 1..];
        if interestFilterTable[i].prefix <= name {
          called := called + [interestFilterTable[i].id];
        }
        i := i + 1;
      }
    }

    /**
      The timeout pass of processEvents; clock(n) is the n-th reading of the clock and script(n) what the n-th
      timeout callback does. `gone` says which of the old entries were removed and `added` which entries the
      callbacks expressed.
     */
    method ProcessEvents(clock: nat -> real, script: nat -> Callback)
      returns (ghost gone: seq<bool>, ghost added: seq<Pending>)
      requires Valid()
      requires forall i, k :: 0 <= k < |script(i).calls| ==> IsAppendingCall(script(i).calls[k])
      modifies this
      ensures Valid() && |gone| == |old(pendingInterestTable)|
      // Exactly these events, so each removed entry was due at the reading at which it was removed.
      ensures trace == old(trace) + Pass(gone, 0, clock, script)
      // Each entry is tested once, at the reading after the callbacks of the removed entries behind it.
      ensures forall j :: 0 <= j < |gone| ==>
        (gone[j] <==> IsTimedOut(old(pendingInterestTable)[j], clock(CountTrue(gone[j + 1..]))))
      ensures Monotone(clock) ==>
        forall j :: 0 <= j < |gone| && IsTimedOut(old(pendingInterestTable)[j], clock(0)) ==> gone[j]
      ensures forall j :: 0 <= j < |gone| && old(pendingInterestTable)[j].interest.lifetime < 0.0 ==> !gone[j]
      // An interest of the application goes only once its lifetime from the call on is over, and then it does.
      ensures GoneByLifetime(cfg, old(trace), old(pendingInterestTable), gone, clock)
      ensures forall j :: 0 <= j < |gone| && gone[j] ==>
        var id := old(pendingInterestTable)[j].id; id in fates && fates[id] == TimedOut
      // The survivors stay in order, followed by an entry for each ID given out since.
      ensures pendingInterestTable == Survivors(old(pendingInterestTable), gone) + added
      ensures NumberedFrom(added, old(lastPendingInterestId), lastPendingInterestId)
    {
      hide Run, Apply, Valid, Survivors, Pass, IsTimedOut, CountTrue, IsAppendingCall, NumberedFrom, InPass, IdInv,
        RegInv, TableInv, EntryInv, GoneByLifetime;
      Invariants();
      ghost var before, past := Abs(), trace;
      ghost var table, first, ran: seq<Event> := pendingInterestTable, lastPendingInterestId, [];
      gone, added := [], [];
      PassStart(table, first, fates, clock, script);
      var now := clock(0);
      var k := 0;
      var i := |pendingInterestTable| - 1;
      while i >= 0
        invariant -1 <= i && Valid() && trace == old(trace) + ran && k == CountTrue(gone) && now == clock(k)
        invariant InPass(table, i, gone, added, pendingInterestTable, ran, first, lastPendingInterestId, fates, clock,
                         script)
      {
        PassHere(table, i, gone, added, pendingInterestTable, ran, first, lastPendingInterestId, fates, clock, script);
        if IsTimedOut(pendingInterestTable[i], now) {
          ghost var pit, last, was := pendingInterestTable, lastPendingInterestId, fates;
          var grown := CallTimeout(i, now, script(k));
          PassRemoved(table, i, gone, added, pit, ran, first, last, was, clock, script, grown, lastPendingInterestId);
          ghost var run := [Timeout(i, now, script(k).env)] + script(k).calls;
          assert old(trace) + ran + run == old(trace) + (ran + run);
          gone, added, ran := [true] + gone, added + grown, ran + run;
          k := k + 1;
          // The callback may have taken time.
          now := clock(k);
        } else {
          PassKept(table, i, gone, added, pendingInterestTable, ran, first, lastPendingInterestId, fates, clock,
                   script);
          gone := [false] + gone;
        }
        i := i - 1;
      }
      PassEnds(table, gone, added, pendingInterestTable, ran, first, lastPendingInterestId, fates, clock, script);
      NoLifetimeNotDue(cfg, before, gone, clock);
      GoneByCalls(cfg, past, before, gone, clock);
    }

    /** Erases a timed out entry, then calls its callback. */
    method CallTimeout(i: nat, now: real, callback: Callback) returns (ghost grown: seq<Pending>)
      requires Valid() && i < |pendingInterestTable| && IsTimedOut(pendingInterestTable[i], now)
      requires forall k :: 0 <= k < |callback.calls| ==> IsAppendingCall(callback.calls[k])
      modifies this
      ensures Valid() && trace == old(trace) + [Timeout(i, now, callback.env)] + callback.calls
      ensures pendingInterestTable
        == old(pendingInterestTable)[..i] + old(pendingInterestTable)[i + 1..] + grown
      ensures NumberedFrom(grown, old(lastPendingInterestId), lastPendingInterestId)
      ensures fates == old(fates)[old(pendingInterestTable)[i].id := TimedOut]
    {
      hide Run, Apply, Valid, CallOnTimeout, OnlyAppends;
      ghost var t := TimeOutRow(i, now, callback.env);
      ghost var u := Abs();
      Calls(callback.calls);
      AppendedTwice(t, u, Abs());
      grown := pendingInterestTable[|t.pit|..];
    }

    /** The row is erased and its handler called; t is the state in between. */
    method TimeOutRow(i: nat, now: real, env: Env) returns (ghost t: State)
      requires Valid() && i < |pendingInterestTable| && IsTimedOut(pendingInterestTable[i], now)
      modifies this
      ensures Valid() && trace == old(trace) + [Timeout(i, now, env)]
      ensures t.pit == old(pendingInterestTable)[..i] + old(pendingInterestTable)[i + 1..]
      ensures t.fates == old(fates)[old(pendingInterestTable)[i].id := TimedOut]
      ensures t.lastPendingId == old(lastPendingInterestId) && Appended(t, Abs())
    {
      hide Run, Apply, CallOnTimeout, OnlyAppends;
      ghost var s := Abs();
      TimeoutEffect(cfg, s, i, now, env);
      // From here to the handler's effect the state is t.
      var pendingInterest := pendingInterestTable[i];
      pendingInterestTable := pendingInterestTable[..i] + pendingInterestTable[i + 1..];
      fates := fates[pendingInterest.id := TimedOut];
      t := Abs();
      HelpersOnlyAppend(cfg, t, pendingInterest.handler, NO_DATA, env);
      HandleTimeout(pendingInterest.handler, env);
      AppendOne(t, Abs());
      Trace(Timeout(i, now, env), s);
    }
  }

  // ----- the delivery of a Data packet -----

  /** The events of the callbacks of the first n extracted entries. */
  function Deliveries(script: nat -> Callback, n: nat): seq<Event>
  {
    if n == 0 then [] else Deliveries(script, n - 1) + ([Deliver(script(n - 1).env)] + script(n - 1).calls)
  }

  /** In the loop over the extracted entries: the callbacks of the first n have run and returned. */
  ghost predicate InDelivery(entries: seq<Pending>, n: nat, inFlight: seq<Pending>, start: seq<Event>,
                             trace: seq<Event>, fates: map<nat, Fate>, script: nat -> Callback)
  {
    && n <= |entries| && inFlight == entries[n..] && trace == start + Deliveries(script, n)
    && (forall k :: 0 <= k < n ==> entries[k].id in fates && fates[entries[k].id] == Delivered)
    && forall k :: 0 <= k < n ==> !script(k).throws
  }

  lemma DeliveryStarts(entries: seq<Pending>, start: seq<Event>, fates: map<nat, Fate>, script: nat -> Callback)
    ensures InDelivery(entries, 0, entries, start, start, fates, script)
  {
    assert start + Deliveries(script, 0) == start;
  }

  lemma DeliveryHere(entries: seq<Pending>, n: nat, inFlight: seq<Pending>, start: seq<Event>, trace: seq<Event>,
                     fates: map<nat, Fate>, script: nat -> Callback)
    requires InDelivery(entries, n, inFlight, start, trace, fates, script)
    ensures inFlight == entries[n..] && trace == start + Deliveries(script, n)
    ensures n < |entries| ==> inFlight != [] && inFlight[0] == entries[n]
    ensures forall k :: 0 <= k < n ==> entries[k].id in fates && fates[entries[k].id] == Delivered
    ensures forall k :: 0 <= k < n ==> !script(k).throws
  {
    hide Deliveries;
  }

  /** One more turn: the entry is delivered, and the loop goes on unless its callback throws. */
  lemma DeliveryTurn(entries: seq<Pending>, n: nat, s: State, t: State, start: seq<Event>, trace: seq<Event>,
                     script: nat -> Callback)
    requires InDelivery(entries, n, s.inFlight, start, trace, s.fates, script) && n < |entries|
    requires FatesExtend(s, t) && entries[n].id in t.fates && t.fates[entries[n].id] == Delivered
    ensures forall k :: 0 <= k < n + 1 ==> entries[k].id in t.fates && t.fates[entries[k].id] == Delivered
    ensures forall f :: f in entries[n + 1..] ==> f in s.inFlight[1..]
    ensures !script(n).throws && t.inFlight == s.inFlight[1..] ==>
      InDelivery(entries, n + 1, t.inFlight, start, trace + ([Deliver(script(n).env)] + script(n).calls), t.fates,
                 script)
  {
    var run := [Deliver(script(n).env)] + script(n).calls;
    assert start + Deliveries(script, n) + run == start + Deliveries(script, n + 1);
    assert entries[n..][1..] == entries[n + 1..];
  }

  /** A delivery gives its entry a fate; if it throws, every entry behind gets one too. */
  lemma DeliverFates(cfg: Config, s: State, env: Env)
    requires IdInv(s) && s.inFlight != []
    ensures var e := s.inFlight[0];
      var t := s.(inFlight := s.inFlight[1..], fates := s.fates[e.id := Delivered]);
      var r := CallOnData(cfg, t, e.handler, s.arrived, env);
      var u := if r.threw then DropRest(r.state) else r.state;
      && FatesExtend(s, u) && e.id in u.fates && u.fates[e.id] == Delivered
      && (r.threw ==> forall f :: f in s.inFlight[1..] ==> f.id in u.fates && u.fates[f.id] == Lost)
  {
    hide IdInv, DropRest, CallOnData;
    var e := s.inFlight[0];
    var t := s.(inFlight := s.inFlight[1..], fates := s.fates[e.id := Delivered]);
    var r := CallOnData(cfg, t, e.handler, s.arrived, env);
    HeadOfFlight(s, Delivered);
    HelpersOnlyAppend(cfg, t, e.handler, s.arrived, env);
    AppendKeepsIds(t, r.state);
    DropRestDrops(r.state);
  }

  // ----- the timeout pass -----

  ghost predicate Monotone(clock: nat -> real) { forall i: nat, j: nat :: i <= j ==> clock(i) <= clock(j) }

  function CountTrue(gone: seq<bool>): nat
  {
    if gone == [] then 0 else CountTrue(gone[1..]) + if gone[0] then 1 else 0
  }

  /** The removals among q when its entries are tested from the last to the first. */
  function Due(q: seq<Pending>, clock: nat -> real): (gone: seq<bool>)
    ensures |gone| == |q|
  {
    if q == [] then []
    else
      var rest := Due(q[1..], clock);
      [IsTimedOut(q[0], clock(CountTrue(rest)))] + rest
  }

  /** The events of a pass over the entries from the given index on. */
  function Pass(gone: seq<bool>, index: nat, clock: nat -> real, script: nat -> Callback): seq<Event>
  {
    if gone == [] then []
    else
      var n := CountTrue(gone[1..]);
      Pass(gone[1..], index + 1, clock, script)
      + if gone[0] then [Timeout(index, clock(n), script(n).env)] + script(n).calls else []
  }

  ghost predicate ServedAll(q: seq<Pending>, gone: seq<bool>, fates: map<nat, Fate>)
  {
    |gone| == |q| && forall j :: 0 <= j < |q| && gone[j] ==> q[j].id in fates && fates[q[j].id] == TimedOut
  }

  /** The entries have the IDs from first + 1 to last, in order. */
  ghost predicate NumberedFrom(q: seq<Pending>, first: nat, last: nat)
  {
    last == first + |q| && forall k :: 0 <= k < |q| ==> q[k].id == first + 1 + k
  }

  lemma NumberedOn(q: seq<Pending>, first: nat, middle: nat, r: seq<Pending>, last: nat)
    requires NumberedFrom(q, first, middle) && NumberedFrom(r, middle, last)
    ensures NumberedFrom(q + r, first, last)
  {
  }

  lemma DueStep(table: seq<Pending>, i: nat, clock: nat -> real)
    requires i < |table|
    ensures var rest := Due(table[i + 1..], clock);
      Due(table[i..], clock) == [IsTimedOut(table[i], clock(CountTrue(rest)))] + rest
  {
    hide IsTimedOut, CountTrue;
    assert table[i..][0] == table[i] && table[i..][1..] == table[i + 1..];
  }

  lemma PassStep(flag: bool, gone: seq<bool>, index: nat, clock: nat -> real, script: nat -> Callback)
    ensures var n := CountTrue(gone);
      && CountTrue([flag] + gone) == n + (if flag then 1 else 0)
      && Pass([flag] + gone, index, clock, script) == Pass(gone, index + 1, clock, script)
           + if flag then [Timeout(index, clock(n), script(n).env)] + script(n).calls else []
  {
    assert ([flag] + gone)[1..] == gone;
  }

  /** A pass that has tested the entries of the table behind index i and has run these events. */
  ghost predicate InPass(table: seq<Pending>, i: int, gone: seq<bool>, added: seq<Pending>, pit: seq<Pending>,
                         ran: seq<Event>, first: nat, last: nat, fates: map<nat, Fate>, clock: nat -> real,
                         script: nat -> Callback)
  {
    && -1 <= i < |table| && gone == Due(table[i + 1..], clock)
    && ran == Pass(gone, i + 1, clock, script)
    && pit == table[..i + 1] + Survivors(table[i + 1..], gone) + added
    && NumberedFrom(added, first, last)
    && ServedAll(table[i + 1..], gone, fates)
  }

  lemma PassStart(table: seq<Pending>, first: nat, fates: map<nat, Fate>, clock: nat -> real, script: nat -> Callback)
    ensures InPass(table, |table| - 1, [], [], table, [], first, first, fates, clock, script) && CountTrue([]) == 0
  {
    assert table[..|table|] == table && table[|table|..] == [];
  }

  lemma PassHere(table: seq<Pending>, i: int, gone: seq<bool>, added: seq<Pending>, pit: seq<Pending>, ran: seq<Event>,
                 first: nat, last: nat, fates: map<nat, Fate>, clock: nat -> real, script: nat -> Callback)
    requires InPass(table, i, gone, added, pit, ran, first, last, fates, clock, script) && i >= 0
    ensures i < |table| && i < |pit| && pit[i] == table[i]
  {
    hide Due, Pass, Survivors, NumberedFrom, ServedAll;
  }

  lemma PassKept(table: seq<Pending>, i: int, gone: seq<bool>, added: seq<Pending>, pit: seq<Pending>, ran: seq<Event>,
                 first: nat, last: nat, fates: map<nat, Fate>, clock: nat -> real, script: nat -> Callback)
    requires InPass(table, i, gone, added, pit, ran, first, last, fates, clock, script) && i >= 0
    requires !IsTimedOut(table[i], clock(CountTrue(gone)))
    ensures InPass(table, i - 1, [false] + gone, added, pit, ran, first, last, fates, clock, script)
    ensures CountTrue([false] + gone) == CountTrue(gone)
  {
    DueStep(table, i, clock);
    PassStep(false, gone, i, clock, script);
    KeptOne(table, i, gone);
    ServedOne(table, i, false, gone, fates);
    hide Due, Pass, Survivors, NumberedFrom, ServedAll, CountTrue, IsTimedOut;
  }

  lemma PassRemoved(table: seq<Pending>, i: int, gone: seq<bool>, added: seq<Pending>, pit: seq<Pending>,
                    ran: seq<Event>, first: nat, last: nat, fates: map<nat, Fate>, clock: nat -> real,
                    script: nat -> Callback, grown: seq<Pending>, newLast: nat)
    requires InPass(table, i, gone, added, pit, ran, first, last, fates, clock, script) && 0 <= i < |pit|
    requires IsTimedOut(table[i], clock(CountTrue(gone))) && NumberedFrom(grown, last, newLast)
    ensures var n := CountTrue(gone);
      && InPass(table, i - 1, [true] + gone, added + grown, pit[..i] + pit[i + 1..] + grown,
                ran + ([Timeout(i, clock(n), script(n).env)] + script(n).calls), first, newLast,
                fates[table[i].id := TimedOut], clock, script)
      && CountTrue([true] + gone) == n + 1
  {
    DueStep(table, i, clock);
    PassStep(true, gone, i, clock, script);
    GoneOne(table, i, gone);
    ServedOne(table, i, true, gone, fates);
    NumberedOn(added, first, last, grown, newLast);
    RemovedOne(table, i, Survivors(table[i + 1..], gone), added, pit, grown);
    hide Due, Pass, Survivors, NumberedFrom, ServedAll, CountTrue, IsTimedOut;
  }

  lemma ServedOne(table: seq<Pending>, i: nat, flag: bool, gone: seq<bool>, fates: map<nat, Fate>)
    requires i < |table| && ServedAll(table[i + 1..], gone, fates)
    ensures ServedAll(table[i..], [flag] + gone, if flag then fates[table[i].id := TimedOut] else fates)
  {
    assert forall j :: 1 <= j < |table| - i ==> table[i..][j] == table[i + 1..][j - 1];
  }

  /** What the tests add up to, entry by entry. */
  lemma {:induction false} DueAt(q: seq<Pending>, clock: nat -> real, j: nat)
    requires j < |q|
    ensures var gone := Due(q, clock); gone[j] <==> IsTimedOut(q[j], clock(CountTrue(gone[j + 1..])))
  {
    hide IsTimedOut;
    var gone := Due(q, clock);
    assert gone[1..] == Due(q[1..], clock);
    if j == 0 {
      assert gone[0 + 1..] == gone[1..];
    } else {
      DueAt(q[1..], clock, j - 1);
      assert gone[1..][j..] == gone[j + 1..];
    }
  }

  lemma PassEnds(table: seq<Pending>, gone: seq<bool>, added: seq<Pending>, pit: seq<Pending>, ran: seq<Event>,
                 first: nat, last: nat, fates: map<nat, Fate>, clock: nat -> real, script: nat -> Callback)
    requires InPass(table, -1, gone, added, pit, ran, first, last, fates, clock, script)
    ensures |gone| == |table| && ran == Pass(gone, 0, clock, script)
    ensures pit == Survivors(table, gone) + added && NumberedFrom(added, first, last)
    ensures forall j :: 0 <= j < |gone| ==> (gone[j] <==> IsTimedOut(table[j], clock(CountTrue(gone[j + 1..]))))
    ensures Monotone(clock) ==> forall j :: 0 <= j < |gone| && IsTimedOut(table[j], clock(0)) ==> gone[j]
    ensures forall j :: 0 <= j < |gone| && gone[j] ==> table[j].id in fates && fates[table[j].id] == TimedOut
  {
    hide Due, CountTrue, Pass, Survivors, NumberedFrom;
    assert table[-1 + 1..] == table && table[..-1 + 1] == [];
    forall j | 0 <= j < |gone|
      ensures gone[j] <==> IsTimedOut(table[j], clock(CountTrue(gone[j + 1..])))
      ensures Monotone(clock) && IsTimedOut(table[j], clock(0)) ==> gone[j]
    {
      DueAt(table, clock, j);
    }
  }

  /**
    What the pass does to an interest that the application expressed: it goes only once its lifetime, from the call
    on, is over, and if that is so when the pass starts, it goes.
   */
  ghost predicate GoneByLifetime(cfg: Config, past: seq<Event>, table: seq<Pending>, gone: seq<bool>,
                                 clock: nat -> real)
  {
    |gone| == |table|
    && forall j, k: nat :: 0 <= j < |gone| && Expresses(cfg, past, k, table[j].id) ==>
         var call := past[k];
         && (gone[j] ==> call.interest.lifetime >= 0.0 && WhenDue(call) <= clock(CountTrue(gone[j + 1..])))
         && (Monotone(clock) && call.interest.lifetime >= 0.0 && 0.0 <= WhenDue(call) <= clock(0) ==> gone[j])
  }

  lemma GoneByCalls(cfg: Config, past: seq<Event>, s: State, gone: seq<bool>, clock: nat -> real)
    requires s == Run(cfg, past) && |gone| == |s.pit|
    requires forall j :: 0 <= j < |gone| ==> (gone[j] <==> IsTimedOut(s.pit[j], clock(CountTrue(gone[j + 1..]))))
    requires Monotone(clock) ==> forall j :: 0 <= j < |gone| && IsTimedOut(s.pit[j], clock(0)) ==> gone[j]
    ensures GoneByLifetime(cfg, past, s.pit, gone, clock)
  {
    forall j, k: nat | 0 <= j < |gone| && Expresses(cfg, past, k, s.pit[j].id)
      ensures past[k].ExpressInterest?
      ensures gone[j] ==> past[k].interest.lifetime >= 0.0 && WhenDue(past[k]) <= clock(CountTrue(gone[j + 1..]))
      ensures Monotone(clock) && past[k].interest.lifetime >= 0.0 && 0.0 <= WhenDue(past[k]) <= clock(0) ==> gone[j]
    {
      assert s.pit[j] in Live(s);
      hide Run, Live, IsTimedOut, CountTrue, Monotone;
      DueIff(cfg, past, k, s.pit[j], clock(CountTrue(gone[j + 1..])));
      DueIff(cfg, past, k, s.pit[j], clock(0));
    }
  }

  lemma NoLifetimeNotDue(cfg: Config, s: State, gone: seq<bool>, clock: nat -> real)
    requires EntryInv(cfg, s) && |gone| == |s.pit|
    requires forall j :: 0 <= j < |gone| ==> (gone[j] <==> IsTimedOut(s.pit[j], clock(CountTrue(gone[j + 1..]))))
    ensures forall j :: 0 <= j < |gone| && s.pit[j].interest.lifetime < 0.0 ==> !gone[j]
  {
    hide CountTrue;
    forall j | 0 <= j < |gone| && s.pit[j].interest.lifetime < 0.0
      ensures !gone[j]
    {
      assert s.pit[j] in Live(s);
      assert WellBorn(cfg, s.pit[j]);
    }
  }

  lemma AppendedTwice(s: State, t: State, u: State)
    requires Appended(s, t) && Appended(t, u)
    ensures Appended(s, u)
  {
    var n, m := |s.pit|, |t.pit|;
    assert u.pit[..n] == t.pit[..n];
    NumberedOn(t.pit[n..], s.lastPendingId, t.lastPendingId, u.pit[m..], u.lastPendingId);
    assert u.pit[n..] == t.pit[n..] + u.pit[m..];
  }

  lemma SurvivorsStep(q: seq<Pending>, flag: bool, gone: seq<bool>)
    requires |q| == |gone| + 1
    ensures Survivors(q, [flag] + gone) == if flag then Survivors(q[1..], gone) else [q[0]] + Survivors(q[1..], gone)
  {
    assert ([flag] + gone)[1..] == gone;
  }

  lemma GoneOne(table: seq<Pending>, i: nat, gone: seq<bool>)
    requires i < |table| && |gone| == |table| - i - 1
    ensures Survivors(table[i..], [true] + gone) == Survivors(table[i + 1..], gone)
  {
    hide Survivors;
    SurvivorsStep(table[i..], true, gone);
    assert table[i..][1..] == table[i + 1..];
  }

  lemma KeptOne(table: seq<Pending>, i: nat, gone: seq<bool>)
    requires i < |table| && |gone| == |table| - i - 1
    ensures table[..i] + Survivors(table[i..], [false] + gone) == table[..i + 1] + Survivors(table[i + 1..], gone)
  {
    hide Survivors;
    SurvivorsStep(table[i..], false, gone);
    assert table[i..][1..] == table[i + 1..];
    assert table[..i + 1] == table[..i] + [table[i]];
    MoveOne(table[..i], table[i], Survivors(table[i + 1..], gone));
  }

  lemma MoveOne(q: seq<Pending>, x: Pending, rest: seq<Pending>)
    ensures q + ([x] + rest) == q + [x] + rest
  {
  }

  lemma RemovedOne(table: seq<Pending>, i: nat, rest: seq<Pending>, added: seq<Pending>, q: seq<Pending>,
                   grown: seq<Pending>)
    requires i < |table| && q == table[..i + 1] + rest + added
    ensures q[..i] + q[i + 1..] + grown == table[..i] + rest + (added + grown)
  {
    var a := table[..i];
    assert table[..i + 1] == a + [table[i]];
    assert q[..i] == a && q[i + 1..] == rest + added;
  }

  lemma FatesSoFar(cfg: Config, t0: seq<Event>, t1: seq<Event>)
    requires t0 <= t1
    ensures FatesExtend(Run(cfg, t0), Run(cfg, t1))
  {
    hide Run, FatesExtend;
    assert t1 == t0 + t1[|t0|..];
    FateIsFinal(cfg, t0, t1[|t0|..]);
  }

  lemma ExpressKeepsArrived(s: State, interest: Interest, handler: Handler, env: Env)
    ensures NodeModel.Express(s, interest, handler, env).state.arrived == s.arrived
  {
  }

  lemma RegisterKeepsArrived(cfg: Config, s: State, prefix: NameValue, hasOnInterest: bool, hasKeyChain: bool,
                             hasCertificate: bool, env: Env)
    ensures Register(cfg, s, prefix, hasOnInterest, hasKeyChain, hasCertificate, env).state.arrived == s.arrived
  {
    hide FetchInterest, NfdInterest, NdnxInterest, TimeoutPrefix;
  }

  lemma ApiCallEffect(cfg: Config, s: State, event: Event)
    requires IsApiCall(event)
    ensures var t := Apply(cfg, s, event);
      t.inFlight == s.inFlight && t.arrived == s.arrived && (IsAppendingCall(event) ==> OnlyAppends(s, t))
  {
    ApiCallIs(cfg, s, event);
    hide Apply, NodeModel.Express, Register, WithoutId, WithoutFilter, WithoutPrefix, WithoutRelated;
    match event
    case ExpressInterest(interest, tag, env) =>
      ExpressOnlyAppends(s, interest, Application(tag), env);
      ExpressKeepsArrived(s, interest, Application(tag), env);
    case RegisterPrefix(prefix, hasOnInterest, hasKeyChain, hasCertificate, env) =>
      RegisterOnlyAppends(cfg, s, prefix, hasOnInterest, hasKeyChain, hasCertificate, env);
      RegisterKeepsArrived(cfg, s, prefix, hasOnInterest, hasKeyChain, hasCertificate, env);
    case _ =>
  }

  lemma NothingExtracted(table: seq<Pending>, name: NameValue)
    ensures table[..|table|] + Kept(table[|table|..], name) == table && Taken(table[|table|..], name) == []
  {
  }

  /** The pending interests of s are the first ones of t, the new IDs follow them, and no fate has changed. */
  ghost predicate Appended(s: State, t: State)
  {
    |s.pit| <= |t.pit| && t.pit[..|s.pit|] == s.pit && t.fates == s.fates
    && NumberedFrom(t.pit[|s.pit|..], s.lastPendingId, t.lastPendingId)
  }

  lemma AppendOne(s: State, t: State)
    requires OnlyAppends(s, t)
    ensures Appended(s, t)
    ensures forall r :: Appended(r, s) ==> Appended(r, t)
  {
    assert Appended(s, t);
    forall r | Appended(r, s)
      ensures Appended(r, t)
    {
      AppendedTwice(r, s, t);
    }
  }
}
