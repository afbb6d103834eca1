/**
  The node's tables as one state, and every API call and event as a function on it.

  The state also records what became of each pending interest and of each prefix registration.
  What the code takes from outside (the clock, whether connecting, signing and sending succeed, what
  signing appends to a name) is part of the call or event, so a run is a sequence of events and all
  runs are all sequences.
 */
module NodeModel {
  import opened Components
  import opened NdnNames
  import opened Interests
  import Fips180

  // ----- entries -----

  /** The function objects a pending interest calls: the application's, or those of the registration protocol. */
  datatype Handler =
    | Application(tag: nat)
    | IdFetcher(reg: nat, registeredPrefixId: nat, prefix: NameValue, hasOnInterest: bool)
    | RegisterResponse(reg: nat, prefix: NameValue, hasOnInterest: bool, isNfdCommand: bool)

  /** One row of pendingInterestTable_; a negative deadline means no timeout. */
  datatype Pending = Pending(id: nat, interest: Interest, handler: Handler, deadline: real)

  datatype RegisteredPrefix = RegisteredPrefix(id: nat, prefix: NameValue, filterId: nat)
  datatype FilterEntry = FilterEntry(id: nat, prefix: NameValue)

  predicate IsTimedOut(e: Pending, now: real) { e.deadline >= 0.0 && now >= e.deadline }

  function NewPending(id: nat, interest: Interest, handler: Handler, now: real): Pending
  {
    Pending(id, interest, handler, if interest.lifetime >= 0.0 then now + interest.lifetime else -1.0)
  }

  // ----- history -----

  datatype Fate = Delivered | TimedOut | Removed | Lost
  datatype RegistrationOutcome = RegistrationOutcome(reg: nat, success: bool)

  datatype ControlResponse = Undecodable | StatusCode(code: nat)

  /** A decoded Data packet; `response` is what its content says when read as an NFD control response. */
  datatype Data = Data(name: NameValue, content: Component, response: ControlResponse)

  datatype Config = Config(enableNdnx: bool, isLocal: bool)

  /** What one call meets outside the node. */
  datatype Env = Env(now: real, connects: bool, signs: bool, sends: bool, appended: NameValue)

  datatype State = State(
    pit: seq<Pending>, prefixes: seq<RegisteredPrefix>, filters: seq<FilterEntry>, ndndId: Component,
    lastPendingId: nat, lastPrefixId: nat,
    /** Entries that a Data packet extracted and whose callbacks are still to be called. */
    inFlight: seq<Pending>, arrived: Data,
    fates: map<nat, Fate>, outcomes: seq<RegistrationOutcome>, expressed: map<nat, nat>, accepted: set<nat>)

  const NO_DATA := Data([], [], Undecodable)
  const INITIAL := State([], [], [], [], 0, 0, [], NO_DATA, map[], [], map[], {})

  /** The outcome of a call that may throw: the state it leaves behind either way. */
  datatype Result = Result(state: State, threw: bool)

  // ----- names of the node's own interests -----

  const NDNX: Component := [0x6e, 0x64, 0x6e, 0x78]
  const SELFREG: Component := [0x73, 0x65, 0x6c, 0x66, 0x72, 0x65, 0x67]

  function TimeoutPrefix(): NameValue { [Ascii("local"), Ascii("timeout")] }

  function FetchInterest(): Interest
  {
    Interest([[0xc1] + Ascii(".M.S.localhost"), [0xc1] + Ascii(".M.SRV"), Ascii("ndnd"), Ascii("KEY")],
             -1, -1, [], 4000.0)
  }

  function NfdInterest(isLocal: bool, appended: NameValue): Interest
  {
    Interest([if isLocal then Ascii("localhost") else Ascii("localhop"), Ascii("nfd"), Ascii("rib"), Ascii("register")]
             + appended, -1, -1, [], if isLocal then 2000.0 else 4000.0)
  }

  function NdnxInterest(ndndId: Component, appended: NameValue): Interest
  {
    Interest([NDNX, ndndId, SELFREG] + appended, -1, -1, [], 4000.0)
  }

  /** The SHA-256 digest of the hub's public key. */
  function KeyDigest(content: Component): (d: Component)
    ensures |d| == 32
  {
    var octets := seq(|content|, i requires 0 <= i < |content| => content[i] as bv8);
    var digest := Fips180.Sha256(octets);
    seq(32, i requires 0 <= i < 32 => digest[i] as int)
  }

  // ----- expressInterest and removePendingInterest -----

  /** How many interests were expressed for each registration. */
  function CountExpressed(expressed: map<nat, nat>, handler: Handler): map<nat, nat>
  {
    if handler.Application? then expressed
    else expressed[handler.reg := 1 + if handler.reg in expressed then expressed[handler.reg] else 0]
  }

  function Express(s: State, interest: Interest, handler: Handler, env: Env): Result
  {
    if !env.connects then Result(s, true)
    else
      var id := s.lastPendingId + 1;
      Result(s.(lastPendingId := id, pit := s.pit + [NewPending(id, interest, handler, env.now)],
                expressed := CountExpressed(s.expressed, handler)),
             // The timeout prefix is never sent.
             !(TimeoutPrefix() <= interest.name) && !env.sends)
  }

  function WithoutId(q: seq<Pending>, id: nat): seq<Pending>
  {
    if q == [] then []
    else if q[0].id == id then WithoutId(q[1..], id)
    else [q[0]] + WithoutId(q[1..], id)
  }

  ghost function RemovePending(s: State, id: nat): State
  {
    s.(pit := WithoutId(s.pit, id),
       fates := if exists k :: 0 <= k < |s.pit| && s.pit[k].id == id then s.fates[id := Removed] else s.fates)
  }

  // ----- the filter and prefix tables -----

  function SetFilter(s: State, prefix: NameValue): State
  {
    s.(lastPrefixId := s.lastPrefixId + 1, filters := s.filters + [FilterEntry(s.lastPrefixId + 1, prefix)])
  }

  function WithoutFilter(q: seq<FilterEntry>, id: nat): seq<FilterEntry>
  {
    if q == [] then []
    else if q[0].id == id then WithoutFilter(q[1..], id)
    else [q[0]] + WithoutFilter(q[1..], id)
  }

  function UnsetFilter(s: State, id: nat): State { s.(filters := WithoutFilter(s.filters, id)) }

  function WithoutPrefix(q: seq<RegisteredPrefix>, id: nat): seq<RegisteredPrefix>
  {
    if q == [] then []
    else if q[0].id == id then WithoutPrefix(q[1..], id)
    else [q[0]] + WithoutPrefix(q[1..], id)
  }

  /** The filters left when each entry of q with the given ID takes its related filter along, last entry first. */
  function WithoutRelated(filters: seq<FilterEntry>, q: seq<RegisteredPrefix>, id: nat): seq<FilterEntry>
  {
    if q == [] then filters
    else
      var rest := WithoutRelated(filters, q[1..], id);
      if q[0].id == id && q[0].filterId > 0 then WithoutFilter(rest, q[0].filterId) else rest
  }

  function RemoveRegistered(s: State, id: nat): State
  {
    s.(filters := WithoutRelated(s.filters, s.prefixes, id), prefixes := WithoutPrefix(s.prefixes, id))
  }

  /** The table rows of a registration; an ID of 0 says that they were added before. */
  function AddRows(s: State, registeredPrefixId: nat, prefix: NameValue, hasOnInterest: bool): State
  {
    if registeredPrefixId == 0 then s
    else
      var t := if hasOnInterest then SetFilter(s, prefix) else s;
      var filterId := if hasOnInterest then t.lastPrefixId else 0;
      t.(prefixes := t.prefixes + [RegisteredPrefix(registeredPrefixId, prefix, filterId)])
  }

  // ----- prefix registration -----

  function RegisterNdnx(cfg: Config, s: State, reg: nat, registeredPrefixId: nat, prefix: NameValue,
                        hasOnInterest: bool, env: Env): Result
  {
    if !cfg.enableNdnx || !env.signs then Result(s, true)
    else
      Express(AddRows(s, registeredPrefixId, prefix, hasOnInterest), NdnxInterest(s.ndndId, env.appended),
              RegisterResponse(reg, prefix, hasOnInterest, false), env)
  }

  function RegisterNfd(cfg: Config, s: State, reg: nat, prefix: NameValue, hasOnInterest: bool,
                       hasCertificate: bool, env: Env): Result
  {
    if !hasCertificate || !env.signs then Result(s, true)
    else
      Express(AddRows(s, reg, prefix, hasOnInterest), NfdInterest(cfg.isLocal, env.appended),
              RegisterResponse(reg, prefix, hasOnInterest, true), env)
  }

  function Register(cfg: Config, s: State, prefix: NameValue, hasOnInterest: bool, hasKeyChain: bool,
                    hasCertificate: bool, env: Env): Result
  {
    var reg := s.lastPrefixId + 1;
    var t := s.(lastPrefixId := reg);
    var r :=
      if t.ndndId != [] || !hasKeyChain then
        if !cfg.enableNdnx then Result(t, true)
        else if t.ndndId == [] then Express(t, FetchInterest(), IdFetcher(reg, reg, prefix, hasOnInterest), env)
        else RegisterNdnx(cfg, t, reg, reg, prefix, hasOnInterest, env)
      else RegisterNfd(cfg, t, reg, prefix, hasOnInterest, hasCertificate, env);
    if r.threw then r else r.(state := r.state.(accepted := r.state.accepted + {reg}))
  }

  function Record(s: State, reg: nat, success: bool): State
  {
    s.(outcomes := s.outcomes + [RegistrationOutcome(reg, success)])
  }

  /** The quick check of an NDNx response's name. */
  predicate IsNdnxResponse(name: NameValue) { |name| >= 4 && name[0] == NDNX && name[2] == SELFREG }

  /** onData of a pending interest; the application's own callback does nothing here. */
  function CallOnData(cfg: Config, s: State, handler: Handler, data: Data, env: Env): Result
  {
    match handler
    case Application(_) => Result(s, false)
    case IdFetcher(reg, registeredPrefixId, prefix, hasOnInterest) =>
      if |data.content| < 1 || data.content[0] != 0x30 then Result(Record(s, reg, false), false)
      else RegisterNdnx(cfg, s.(ndndId := KeyDigest(data.content)), reg, registeredPrefixId, prefix, hasOnInterest, env)
    case RegisterResponse(reg, _, _, isNfdCommand) =>
      var success := if isNfdCommand then data.response == StatusCode(200) else IsNdnxResponse(data.name);
      Result(Record(s, reg, success), false)
  }

  /** onTimeout of a pending interest; what it throws is ignored. */
  function CallOnTimeout(cfg: Config, s: State, handler: Handler, env: Env): State
  {
    match handler
    case Application(_) => s
    case IdFetcher(reg, _, _, _) => Record(s, reg, false)
    case RegisterResponse(reg, prefix, hasOnInterest, isNfdCommand) =>
      if !isNfdCommand then Record(s, reg, false)
      else if s.ndndId == [] then Express(s, FetchInterest(), IdFetcher(reg, 0, prefix, hasOnInterest), env).state
      else RegisterNdnx(cfg, s, reg, 0, prefix, hasOnInterest, env).state
  }

  // ----- events -----

  /** The entries that accept the name, last one first, and the others in order. */
  ghost function Taken(q: seq<Pending>, name: NameValue): seq<Pending>
  {
    if q == [] then []
    else if Accepts(q[0].interest, name) then Taken(q[1..], name) + [q[0]]
    else Taken(q[1..], name)
  }

  ghost function Kept(q: seq<Pending>, name: NameValue): seq<Pending>
  {
    if q == [] then []
    else if Accepts(q[0].interest, name) then Kept(q[1..], name)
    else [q[0]] + Kept(q[1..], name)
  }

  /** An exception leaves the loop over the extracted entries: the rest are neither pending nor called. */
  function DropRest(s: State): State
    decreases |s.inFlight|
  {
    if s.inFlight == [] then s
    else DropRest(s.(inFlight := s.inFlight[1..], fates := s.fates[s.inFlight[0].id := Lost]))
  }

  datatype Event =
    // API calls, made by the application at any time, from callbacks too.
    | ExpressInterest(interest: Interest, tag: nat, env: Env)
    | RemovePendingInterest(id: nat)
    | SetInterestFilter(prefix: NameValue)
    | UnsetInterestFilter(id: nat)
    | RegisterPrefix(prefix: NameValue, hasOnInterest: bool, hasKeyChain: bool, hasCertificate: bool, env: Env)
    | RemoveRegisteredPrefix(id: nat)
    // Inside processEvents.
    | Timeout(index: nat, now: real, env: Env)
    | DataArrives(data: Data)
    | Deliver(env: Env)
    | OnDataThrows

  ghost function Apply(cfg: Config, s: State, event: Event): State
  {
    match event
    case ExpressInterest(interest, tag, env) => Express(s, interest, Application(tag), env).state
    case RemovePendingInterest(id) => RemovePending(s, id)
    case SetInterestFilter(prefix) => SetFilter(s, prefix)
    case UnsetInterestFilter(id) => UnsetFilter(s, id)
    case RegisterPrefix(prefix, hasOnInterest, hasKeyChain, hasCertificate, env) =>
      Register(cfg, s, prefix, hasOnInterest, hasKeyChain, hasCertificate, env).state
    case RemoveRegisteredPrefix(id) => RemoveRegistered(s, id)
    case Timeout(index, now, env) => if index < |s.pit| then TimeoutAt(cfg, s, index, now, env) else s
    case DataArrives(data) =>
      if s.inFlight != [] then s
      else s.(pit := Kept(s.pit, data.name), inFlight := Taken(s.pit, data.name), arrived := data)
    case Deliver(env) => if s.inFlight != [] then DeliverFirst(cfg, s, env) else s
    case OnDataThrows => DropRest(s)
  }

  function TimeoutAt(cfg: Config, s: State, index: nat, now: real, env: Env): State
    requires index < |s.pit|
  {
    var e := s.pit[index];
    if !IsTimedOut(e, now) then s
    else CallOnTimeout(cfg, s.(pit := s.pit[..index] + s.pit[index + 1..], fates := s.fates[e.id := TimedOut]),
                       e.handler, env)
  }

  function DeliverFirst(cfg: Config, s: State, env: Env): State
    requires s.inFlight != []
  {
    var e := s.inFlight[0];
    var r := CallOnData(cfg, s.(inFlight := s.inFlight[1..], fates := s.fates[e.id := Delivered]),
                        e.handler, s.arrived, env);
    if r.threw then DropRest(r.state) else r.state
  }

  ghost function Run(cfg: Config, events: seq<Event>): State
  {
    if events == [] then INITIAL else Apply(cfg, Run(cfg, events[..|events| - 1]), events[|events| - 1])
  }
}
