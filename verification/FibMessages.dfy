/**
  The messages of fib-entry.proto as values: what parsing a record does to a message, what parsing a stream
  gives, what serialization writes and what merging means.
 */
module FibMessages {
  import opened Components
  import opened Wire

  datatype NameValue = NameValue(components: seq<bytes>, unknown: seq<Field>)
  datatype HopValue = HopValue(faceId: Option<nat>, cost: Option<nat>, unknown: seq<Field>)
  datatype FibValue = FibValue(name: Option<NameValue>, hops: seq<HopValue>, unknown: seq<Field>)
  datatype EntryValue = EntryValue(fib: Option<FibValue>, unknown: seq<Field>)

  const NO_NAME := NameValue([], [])
  const NO_HOP := HopValue(None, None, [])
  const NO_FIB := FibValue(None, [], [])
  const NO_ENTRY := EntryValue(None, [])

  datatype Msg = NameMsg(name: NameValue) | HopMsg(hop: HopValue) | FibMsg(fib: FibValue) | EntryMsg(entry: EntryValue)

  predicate SameKind(a: Msg, b: Msg)
  {
    (a.NameMsg? <==> b.NameMsg?) && (a.HopMsg? <==> b.HopMsg?) && (a.FibMsg? <==> b.FibMsg?)
  }

  function Empty(m: Msg): (r: Msg)
    ensures SameKind(m, r)
  {
    match m
    case NameMsg(_) => NameMsg(NO_NAME)
    case HopMsg(_) => HopMsg(NO_HOP)
    case FibMsg(_) => FibMsg(NO_FIB)
    case EntryMsg(_) => EntryMsg(NO_ENTRY)
  }

  function Unknown(m: Msg): seq<Field>
  {
    match m
    case NameMsg(v) => v.unknown
    case HopMsg(v) => v.unknown
    case FibMsg(v) => v.unknown
    case EntryMsg(v) => v.unknown
  }

  function WithUnknown(m: Msg, u: seq<Field>): (r: Msg)
    ensures SameKind(m, r) && Unknown(r) == u
  {
    match m
    case NameMsg(v) => NameMsg(v.(unknown := u))
    case HopMsg(v) => HopMsg(v.(unknown := u))
    case FibMsg(v) => FibMsg(v.(unknown := u))
    case EntryMsg(v) => EntryMsg(v.(unknown := u))
  }

  function OrElse<T>(o: Option<T>, default: T): T
  {
    match o
    case Some(v) => v
    case None => default
  }

  // ----- parsing -----

  /** The message type knows the field: its number and its wire type. */
  predicate Known(m: Msg, f: Field)
  {
    match m
    case NameMsg(_) => f.LengthDelimited? && f.number == 8
    case HopMsg(_) => f.VarintField? && (f.number == 105 || f.number == 106)
    case FibMsg(_) => f.LengthDelimited? && (f.number == 7 || f.number == 129)
    case EntryMsg(_) => f.LengthDelimited? && f.number == 128
  }

  function Size(f: Field): nat { if f.LengthDelimited? then |f.content| else 0 }

  datatype ParseResult = Failed | Ended(msg: Msg, clean: bool)

  /** The message ended where its bytes did. */
  predicate Whole(r: ParseResult) { r.Ended? && r.clean }

  /** What one record does to a message: None where its content is malformed. */
  function Step(m: Msg, f: Field): (r: Option<Msg>)
    ensures r.Some? ==> SameKind(m, r.value)
    decreases Size(f), 1
  {
    if !Known(m, f) then Some(WithUnknown(m, Unknown(m) + [f]))
    else
      match m
      case NameMsg(v) => Some(NameMsg(v.(components := v.components + [f.content])))
      case HopMsg(v) =>
        if f.number == 105 then Some(HopMsg(v.(faceId := Some(f.value % TWO32))))
        else Some(HopMsg(v.(cost := Some(f.value % TWO32))))
      case FibMsg(v) =>
        if f.number == 7 then
          var r := Parse(NameMsg(OrElse(v.name, NO_NAME)), f.content);
          if Whole(r) then Some(FibMsg(v.(name := Some(r.msg.name)))) else None
        else
          var r := Parse(HopMsg(NO_HOP), f.content);
          if Whole(r) then Some(FibMsg(v.(hops := v.hops + [r.msg.hop]))) else None
      case EntryMsg(v) =>
        var r := Parse(FibMsg(OrElse(v.fib, NO_FIB)), f.content);
        if Whole(r) then Some(EntryMsg(v.(fib := Some(r.msg.fib)))) else None
  }

  /** Parsing stops at the end, at a tag of 0 and at an end-group tag; only the first is clean. */
  function Parse(m: Msg, s: bytes): (r: ParseResult)
    ensures r.Ended? ==> SameKind(m, r.msg)
    decreases |s|, 0
  {
    var (tag, n) := ReadTag(s);
    if tag == 0 || tag % 8 == END_GROUP then Ended(m, s == [])
    else
      var r := FieldAt(tag, s[n..]);
      if r.BadField? then Failed
      else
        var next := Step(m, r.field);
        if next.None? then Failed else Parse(next.value, s[n + r.size..])
  }

  lemma ParseEnd(m: Msg, s: bytes)
    requires ReadTag(s).0 == 0 || ReadTag(s).0 % 8 == END_GROUP
    ensures Parse(m, s) == Ended(m, s == [])
  {
    hide ReadTag;
  }

  lemma ParseNothing(m: Msg)
    ensures Parse(m, []) == Ended(m, true)
  {
  }

  lemma ParseStep(m: Msg, s: bytes, tag: nat, n: nat)
    requires ReadTag(s) == (tag, n) && n <= |s| && tag != 0 && tag % 8 != END_GROUP
    ensures Parse(m, s) ==
      var r := FieldAt(tag, s[n..]);
      if r.BadField? then Failed
      else
        var next := Step(m, r.field);
        if next.None? then Failed else Parse(next.value, s[n + r.size..])
  {
    hide ReadTag, FieldAt, Step;
  }

  // ----- merging -----

  function LaterOf<T>(a: Option<T>, b: Option<T>): Option<T> { if b.Some? then b else a }

  function MergeName(a: NameValue, b: NameValue): NameValue
  {
    NameValue(a.components + b.components, a.unknown + b.unknown)
  }

  function MergeHop(a: HopValue, b: HopValue): HopValue
  {
    HopValue(LaterOf(a.faceId, b.faceId), LaterOf(a.cost, b.cost), a.unknown + b.unknown)
  }

  function MergeFib(a: FibValue, b: FibValue): FibValue
  {
    FibValue(if b.name.None? then a.name else Some(MergeName(OrElse(a.name, NO_NAME), b.name.value)),
             a.hops + b.hops, a.unknown + b.unknown)
  }

  function MergeEntry(a: EntryValue, b: EntryValue): EntryValue
  {
    EntryValue(if b.fib.None? then a.fib else Some(MergeFib(OrElse(a.fib, NO_FIB), b.fib.value)),
               a.unknown + b.unknown)
  }

  function Merge(a: Msg, b: Msg): (r: Msg)
    requires SameKind(a, b)
    ensures SameKind(a, r)
  {
    match a
    case NameMsg(v) => NameMsg(MergeName(v, b.name))
    case HopMsg(v) => HopMsg(MergeHop(v, b.hop))
    case FibMsg(v) => FibMsg(MergeFib(v, b.fib))
    case EntryMsg(v) => EntryMsg(MergeEntry(v, b.entry))
  }

  lemma MergeNameUnits(a: NameValue)
    ensures MergeName(a, NO_NAME) == a == MergeName(NO_NAME, a)
  {
  }

  lemma MergeFibUnits(a: FibValue)
    ensures MergeFib(a, NO_FIB) == a == MergeFib(NO_FIB, a)
  {
    if a.name.Some? { MergeNameUnits(a.name.value); }
  }

  /** Merging has the empty message as its unit, on both sides. */
  lemma MergeUnits(a: Msg)
    ensures Merge(a, Empty(a)) == a == Merge(Empty(a), a)
  {
    hide MergeFib;
    if a.EntryMsg? && a.entry.fib.Some? { MergeFibUnits(a.entry.fib.value); }
    if a.FibMsg? { MergeFibUnits(a.fib); }
  }

  lemma MergeNameAssociative(a: NameValue, b: NameValue, c: NameValue)
    ensures MergeName(MergeName(a, b), c) == MergeName(a, MergeName(b, c))
  {
    assert (a.components + b.components) + c.components == a.components + (b.components + c.components);
    assert (a.unknown + b.unknown) + c.unknown == a.unknown + (b.unknown + c.unknown);
  }

  lemma MergeFibAssociative(a: FibValue, b: FibValue, c: FibValue)
    ensures MergeFib(MergeFib(a, b), c) == MergeFib(a, MergeFib(b, c))
  {
    var x, y, z := OrElse(a.name, NO_NAME), OrElse(b.name, NO_NAME), OrElse(c.name, NO_NAME);
    MergeNameUnits(x);
    MergeNameUnits(z);
    MergeNameAssociative(x, y, z);
    hide MergeName;
    assert (a.hops + b.hops) + c.hops == a.hops + (b.hops + c.hops);
    assert (a.unknown + b.unknown) + c.unknown == a.unknown + (b.unknown + c.unknown);
  }

  lemma MergeAssociative(a: Msg, b: Msg, c: Msg)
    requires SameKind(a, b) && SameKind(b, c)
    ensures Merge(Merge(a, b), c) == Merge(a, Merge(b, c))
  {
    assert (Unknown(a) + Unknown(b)) + Unknown(c) == Unknown(a) + (Unknown(b) + Unknown(c));
    match a
    case NameMsg(v) =>
      var x, y, z := v.components, b.name.components, c.name.components;
      assert (x + y) + z == x + (y + z);
    case HopMsg(_) =>
    case FibMsg(v) =>
      MergeFibAssociative(v, b.fib, c.fib);
    case EntryMsg(v) =>
      var x, y, z := OrElse(v.fib, NO_FIB), OrElse(b.entry.fib, NO_FIB), OrElse(c.entry.fib, NO_FIB);
      MergeFibAssociative(x, y, z);
      MergeFibUnits(x);
      MergeFibUnits(z);
      hide MergeFib;
  }

  // ----- parsing merges -----

  function MergeStepped(a: Msg, r: Option<Msg>): Option<Msg>
    requires r.Some? ==> SameKind(a, r.value)
  {
    if r.None? then None else Some(Merge(a, r.value))
  }

  function MergeParsed(a: Msg, r: ParseResult): ParseResult
    requires r.Ended? ==> SameKind(a, r.msg)
  {
    if r.Failed? then Failed else Ended(Merge(a, r.msg), r.clean)
  }

  lemma {:induction false} StepMerges(a: Msg, b: Msg, f: Field)
    requires SameKind(a, b)
    ensures Step(Merge(a, b), f) == MergeStepped(a, Step(b, f))
    decreases Size(f), 1
  {
    hide Parse;
    if !Known(b, f) {
      assert (Unknown(a) + Unknown(b)) + [f] == Unknown(a) + (Unknown(b) + [f]);
    } else {
      match a
      case NameMsg(v) =>
        assert (v.components + b.name.components) + [f.content] == v.components + (b.name.components + [f.content]);
      case HopMsg(_) =>
      case FibMsg(v) =>
        if f.number == 7 {
          var x, y := OrElse(v.name, NO_NAME), OrElse(b.fib.name, NO_NAME);
          ParseMerges(NameMsg(x), NameMsg(y), f.content);
          MergeNameUnits(x);
        } else {
          assert forall h :: (v.hops + b.fib.hops) + [h] == v.hops + (b.fib.hops + [h]);
        }
      case EntryMsg(v) =>
        var x, y := OrElse(v.fib, NO_FIB), OrElse(b.entry.fib, NO_FIB);
        ParseMerges(FibMsg(x), FibMsg(y), f.content);
        MergeFibUnits(x);
        hide MergeFib;
    }
  }

  /** Parsing into a merged message merges what parsing into its second part gives. */
  lemma {:induction false} ParseMerges(a: Msg, b: Msg, s: bytes)
    requires SameKind(a, b)
    ensures Parse(Merge(a, b), s) == MergeParsed(a, Parse(b, s))
    decreases |s|, 0
  {
    hide ReadTag, FieldAt, Step, Merge, Parse;
    var (tag, n) := ReadTag(s);
    if tag == 0 || tag % 8 == END_GROUP {
      ParseEnd(b, s);
      ParseEnd(Merge(a, b), s);
    } else {
      ParseStep(b, s, tag, n);
      ParseStep(Merge(a, b), s, tag, n);
      var r := FieldAt(tag, s[n..]);
      if r.ReadField? {
        StepMerges(a, b, r.field);
        var next := Step(b, r.field);
        if next.Some? {
          ParseMerges(a, next.value, s[n + r.size..]);
        }
      }
    }
  }

  // ----- concatenation -----

  /** After a stream that ends cleanly, parsing goes on with whatever follows. */
  lemma {:induction false} ParseGoesOn(m: Msg, s: bytes, t: bytes)
    requires Whole(Parse(m, s))
    ensures Parse(m, s + t) == Parse(Parse(m, s).msg, t)
    decreases |s|
  {
    hide ReadTag, FieldAt, Step, Parse;
    var (tag, n) := ReadTag(s);
    if tag == 0 || tag % 8 == END_GROUP {
      ParseEnd(m, s);
      assert s + t == t;
    } else {
      ParseStep(m, s, tag, n);
      var r := FieldAt(tag, s[n..]);
      TagPrefix(s, t);
      FieldPrefix(tag, s[n..], t);
      Dropped(s, t, n);
      Dropped(s, t, n + r.size);
      ParseStep(m, s + t, tag, n);
      ParseGoesOn(Step(m, r.field).value, s[n + r.size..], t);
    }
  }

  /**
    Parsing the concatenation of two streams gives the same message as parsing each and merging the second
    into the first.
   */
  lemma LastOneWins(m: Msg, s: bytes, t: bytes)
    requires Whole(Parse(Empty(m), s)) && Whole(Parse(Empty(m), t))
    ensures Parse(Empty(m), s + t) == Ended(Merge(Parse(Empty(m), s).msg, Parse(Empty(m), t).msg), true)
  {
    hide Parse, Merge;
    var a := Parse(Empty(m), s).msg;
    ParseGoesOn(Empty(m), s, t);
    MergeUnits(a);
    EmptyOfKind(m, a);
    ParseMerges(a, Empty(m), t);
  }

  lemma EmptyOfKind(m: Msg, a: Msg)
    requires SameKind(m, a) || SameKind(Empty(m), a)
    ensures Empty(a) == Empty(m) == Empty(Empty(m)) && SameKind(m, a)
  {
  }
}
