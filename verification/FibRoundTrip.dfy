/** What serialization writes, and when parsing reads the message back. */
module FibRoundTrip {
  import opened Components
  import opened Wire
  import opened FibMessages

  // ----- serialization -----

  function Repeated(number: nat, contents: seq<bytes>): (fs: seq<Field>)
    ensures |fs| == |contents|
    ensures forall i :: 0 <= i < |fs| ==> fs[i] == LengthDelimited(number, contents[i])
  {
    if contents == [] then [] else [LengthDelimited(number, contents[0])] + Repeated(number, contents[1..])
  }

  function Optional(number: nat, value: Option<nat>): seq<Field>
  {
    if value.None? then [] else [VarintField(number, value.value)]
  }

  /** The serialized forms of the hops. */
  function HopStreams(hops: seq<HopValue>): (r: seq<bytes>)
    ensures |r| == |hops|
    decreases 0, 2, |hops|
  {
    if hops == [] then [] else [Ser(HopMsg(hops[0]))] + HopStreams(hops[1..])
  }

  /** The records of the fields that the message type knows, in the order they are written. */
  function KnownFields(m: Msg): seq<Field>
    decreases Depth(m), 0
  {
    match m
    case NameMsg(v) => Repeated(8, v.components)
    case HopMsg(v) => Optional(105, v.faceId) + Optional(106, v.cost)
    case FibMsg(v) =>
      (if v.name.None? then [] else [LengthDelimited(7, Ser(NameMsg(v.name.value)))])
      + Repeated(129, HopStreams(v.hops))
    case EntryMsg(v) => if v.fib.None? then [] else [LengthDelimited(128, Ser(FibMsg(v.fib.value)))]
  }

  function Depth(m: Msg): nat { if m.EntryMsg? then 2 else if m.FibMsg? then 1 else 0 }

  /** The bytes a message is serialized to: its known fields, then the unknown ones. */
  function Ser(m: Msg): bytes
    decreases Depth(m), 1
  {
    Records(KnownFields(m) + Unknown(m))
  }

  // ----- parsing records -----

  /** The records' fields, each taken in by the message. */
  function StepAll(m: Msg, fs: seq<Field>): (r: Option<Msg>)
    ensures r.Some? ==> SameKind(m, r.value)
    decreases |fs|
  {
    if fs == [] then Some(m)
    else
      var r := Step(m, fs[0]);
      if r.None? then None else StepAll(r.value, fs[1..])
  }

  lemma ParseOfStart(m: Msg, s: bytes, f: Field, tail: bytes)
    requires Starts(s, f, tail)
    ensures Parse(m, s) == if Step(m, f).None? then Failed else Parse(Step(m, f).value, tail)
  {
    hide ReadTag, FieldAt, Tag, Varint, Payload, Record, Step, Parse;
    var tag := Tag(f.number, WireType(f));
    ParseStep(m, s, tag, |Varint(tag)|);
  }

  /** Parsing serialized fields takes in those fields, one by one. */
  lemma {:induction false} ParseRecords(m: Msg, fs: seq<Field>, rest: bytes)
    requires forall f :: f in fs ==> Fits(f)
    ensures Parse(m, Records(fs) + rest) == if StepAll(m, fs).None? then Failed else Parse(StepAll(m, fs).value, rest)
    decreases |fs|
  {
    hide Parse, Fits, Step;
    if fs == [] {
      assert Records(fs) + rest == rest;
    } else {
      hide Records, Starts;
      RecordStarts(fs, rest);
      ParseOfStart(m, Records(fs) + rest, fs[0], Records(fs[1..]) + rest);
      var r := Step(m, fs[0]);
      if r.Some? {
        ParseRecords(r.value, fs[1..], rest);
      }
    }
  }

  lemma {:induction false} StepAllConcat(m: Msg, fs: seq<Field>, gs: seq<Field>)
    ensures StepAll(m, fs + gs) == if StepAll(m, fs).None? then None else StepAll(StepAll(m, fs).value, gs)
    decreases |fs|
  {
    hide Step;
    if fs == [] {
      assert fs + gs == gs;
    } else {
      assert (fs + gs)[1..] == fs[1..] + gs;
      var r := Step(m, fs[0]);
      if r.Some? {
        StepAllConcat(r.value, fs[1..], gs);
      }
    }
  }

  // ----- unknown fields -----

  predicate NoneKnown(m: Msg, fs: seq<Field>) { forall f :: f in fs ==> !Known(m, f) }

  function NotKnown(m: Msg, fs: seq<Field>): (r: seq<Field>)
    ensures |r| <= |fs|
  {
    if fs == [] then []
    else if Known(m, fs[0]) then NotKnown(m, fs[1..])
    else [fs[0]] + NotKnown(m, fs[1..])
  }

  lemma StepUnknown(m: Msg, f: Field)
    requires Step(m, f).Some?
    ensures Unknown(Step(m, f).value) == Unknown(m) + NotKnown(m, [f])
  {
    hide Parse;
  }

  lemma StepNotKnown(m: Msg, f: Field)
    requires !Known(m, f)
    ensures Step(m, f) == Some(WithUnknown(m, Unknown(m) + [f]))
  {
    hide Parse;
  }

  /** Exactly the fields the type does not know end up among the unknown fields. */
  lemma {:induction false} UnknownCollects(m: Msg, fs: seq<Field>)
    requires StepAll(m, fs).Some?
    ensures Unknown(StepAll(m, fs).value) == Unknown(m) + NotKnown(m, fs)
    decreases |fs|
  {
    hide Step, NotKnown, Unknown;
    if fs == [] {
      NotKnownNil(m);
      assert Unknown(m) + [] == Unknown(m);
    } else {
      var next := Step(m, fs[0]).value;
      StepUnknown(m, fs[0]);
      UnknownCollects(next, fs[1..]);
      NotKnownOfKind(m, next, fs[1..]);
      NotKnownCons(m, fs);
      assert Unknown(m) + NotKnown(m, [fs[0]]) + NotKnown(m, fs[1..]) == Unknown(m) + NotKnown(m, fs);
    }
  }

  lemma NotKnownNil(m: Msg)
    ensures NotKnown(m, []) == []
  {
  }

  lemma NotKnownOne(m: Msg, f: Field)
    ensures NotKnown(m, [f]) == if Known(m, f) then [] else [f]
  {
    hide Known;
    NotKnownNil(m);
    assert [f][1..] == [];
  }

  lemma NotKnownCons(m: Msg, fs: seq<Field>)
    requires fs != []
    ensures NotKnown(m, fs) == NotKnown(m, [fs[0]]) + NotKnown(m, fs[1..])
  {
    NotKnownOne(m, fs[0]);
    hide Known;
  }

  lemma {:induction false} NotKnownOfKind(m: Msg, n: Msg, fs: seq<Field>)
    requires SameKind(m, n)
    ensures NotKnown(m, fs) == NotKnown(n, fs)
  {
    if fs != [] { NotKnownOfKind(m, n, fs[1..]); }
  }

  lemma {:induction false} NotKnownAll(m: Msg, fs: seq<Field>)
    requires NotKnown(m, fs) == fs
    ensures NoneKnown(m, fs)
  {
    hide Known;
    if fs != [] {
      assert fs[1..] == NotKnown(m, fs)[1..];
      NotKnownAll(m, fs[1..]);
    }
  }

  lemma {:induction false} KeepsUnknown(m: Msg, fs: seq<Field>)
    requires NoneKnown(m, fs)
    ensures StepAll(m, fs) == Some(WithUnknown(m, Unknown(m) + fs))
    decreases |fs|
  {
    hide Step;
    if fs == [] {
      assert Unknown(m) + fs == Unknown(m);
    } else {
      var next := WithUnknown(m, Unknown(m) + [fs[0]]);
      assert fs[0] in fs;
      assert Step(m, fs[0]) == Some(next) by { StepNotKnown(m, fs[0]); }
      assert forall f :: Known(next, f) <==> Known(m, f);
      KeepsUnknown(next, fs[1..]);
      assert (Unknown(m) + [fs[0]]) + fs[1..] == Unknown(m) + fs;
    }
  }

  // ----- what fits -----

  /** The numbers of the message and its unknown fields are ones the C++ types hold. */
  predicate FieldsFit(m: Msg)
    decreases Depth(m)
  {
    && (forall f :: f in Unknown(m) ==> Fits(f))
    && match m
       case NameMsg(_) => true
       case HopMsg(v) =>
         && (v.faceId.Some? ==> v.faceId.value < TWO32)
         && (v.cost.Some? ==> v.cost.value < TWO32)
       case FibMsg(v) =>
         && (v.name.Some? ==> FieldsFit(NameMsg(v.name.value)))
         && forall h :: h in v.hops ==> FieldsFit(HopMsg(h))
       case EntryMsg(v) => v.fib.Some? ==> FieldsFit(FibMsg(v.fib.value))
  }

  /** The library limits a serialized message to a size that fits an int. */
  predicate FitsMsg(m: Msg) { FieldsFit(m) && |Ser(m)| < TWO31 }

  lemma {:induction false} RecordsHold(fs: seq<Field>, f: Field)
    requires f in fs
    ensures |Record(f)| <= |Records(fs)|
    ensures f.LengthDelimited? ==> |f.content| < |Records(fs)|
  {
    if f == fs[0] {
      hide Varint;
    } else {
      RecordsHold(fs[1..], f);
      hide Record;
    }
  }

  lemma ContentIsSmaller(m: Msg, f: Field)
    requires f in KnownFields(m) && f.LengthDelimited?
    ensures |f.content| < |Ser(m)|
  {
    hide Records, KnownFields;
    assert f in KnownFields(m) + Unknown(m);
    RecordsHold(KnownFields(m) + Unknown(m), f);
  }

  lemma KnownFit(m: Msg, f: Field)
    requires FitsMsg(m) && f in KnownFields(m)
    ensures Fits(f)
  {
    if f.LengthDelimited? { ContentIsSmaller(m, f); }
    hide Ser;
  }

  lemma HopStreamsAt(hops: seq<HopValue>, i: nat)
    requires i < |hops|
    ensures HopStreams(hops)[i] == Ser(HopMsg(hops[i]))
  {
    hide Ser;
    if i > 0 { HopStreamsAt(hops[1..], i - 1); }
  }

  /** The parts of a message that fits fit. */
  lemma NameFits(v: FibValue)
    requires FitsMsg(FibMsg(v)) && v.name.Some?
    ensures FitsMsg(NameMsg(v.name.value))
  {
    var f := LengthDelimited(7, Ser(NameMsg(v.name.value)));
    assert KnownFields(FibMsg(v))[0] == f by { hide Ser; }
    hide Ser, KnownFields;
    ContentIsSmaller(FibMsg(v), f);
  }

  lemma HopFits(v: FibValue, i: nat)
    requires FitsMsg(FibMsg(v)) && i < |v.hops|
    ensures FitsMsg(HopMsg(v.hops[i]))
  {
    hide Ser;
    HopStreamsAt(v.hops, i);
    var f := LengthDelimited(129, Ser(HopMsg(v.hops[i])));
    assert Repeated(129, HopStreams(v.hops))[i] == f;
    assert f in KnownFields(FibMsg(v));
    hide KnownFields;
    ContentIsSmaller(FibMsg(v), f);
  }

  lemma FibFits(v: EntryValue)
    requires FitsMsg(EntryMsg(v)) && v.fib.Some?
    ensures FitsMsg(FibMsg(v.fib.value))
  {
    var f := LengthDelimited(128, Ser(FibMsg(v.fib.value)));
    hide Ser;
    assert KnownFields(EntryMsg(v)) == [f];
    ContentIsSmaller(EntryMsg(v), f);
  }

  // ----- the round trip -----

  predicate RoundTrips(m: Msg) { Parse(Empty(m), Ser(m)) == Ended(m, true) }

  lemma RoundTripsIsStepAll(m: Msg)
    requires FitsMsg(m)
    ensures RoundTrips(m) <==> StepAll(Empty(m), KnownFields(m) + Unknown(m)) == Some(m)
  {
    hide KnownFields, Fits, FieldsFit, Parse, StepAll;
    var fs := KnownFields(m) + Unknown(m);
    forall f | f in fs ensures Fits(f) { FieldFits(m, f); }
    ParseRecords(Empty(m), fs, []);
    assert Records(fs) + [] == Ser(m);
    var r := StepAll(Empty(m), fs);
    if r.Some? { ParseNothing(r.value); }
  }

  lemma FieldFits(m: Msg, f: Field)
    requires FitsMsg(m) && f in KnownFields(m) + Unknown(m)
    ensures Fits(f)
  {
    hide KnownFields, Ser, Fits;
    if f in KnownFields(m) { KnownFit(m, f); }
  }

  lemma KnownAreKnown(m: Msg)
    ensures forall f :: f in KnownFields(m) ==> Known(m, f)
  {
    hide Ser, HopStreams;
  }

  lemma {:induction false} NotKnownOfKnown(m: Msg, fs: seq<Field>)
    requires forall f :: f in fs ==> Known(m, f)
    ensures NotKnown(m, fs) == []
  {
    hide Known;
    if fs != [] { NotKnownOfKnown(m, fs[1..]); }
  }

  lemma WithUnknownUnique(a: Msg, m: Msg, u: seq<Field>)
    requires WithUnknown(a, u) == m && Unknown(a) == []
    ensures a == WithUnknown(m, [])
  {
  }

  /** The known and the unknown fields make the round trip separately. */
  lemma RoundTripSplits(m: Msg)
    requires FitsMsg(m)
    ensures RoundTrips(m) <==>
      StepAll(Empty(m), KnownFields(m)) == Some(WithUnknown(m, [])) && NoneKnown(m, Unknown(m))
  {
    var fs, u := KnownFields(m), Unknown(m);
    var k := StepAll(Empty(m), fs);
    RoundTripsIsStepAll(m);
    KnownAreKnown(m);
    assert Unknown(Empty(m)) == [];
    hide RoundTrips, KnownFields, StepAll, Known, FitsMsg, NotKnown;
    StepAllConcat(Empty(m), fs, u);
    if k.Some? {
      UnknownCollects(Empty(m), fs);
      NotKnownOfKnown(m, fs);
      NotKnownOfKind(m, Empty(m), fs);
      assert Unknown(k.value) == [];
      NoneKnownOfKind(m, k.value, u);
      if NoneKnown(m, u) {
        KeepsUnknown(k.value, u);
        assert [] + u == u;
        if WithUnknown(k.value, u) == m { WithUnknownUnique(k.value, m, u); }
      } else if StepAll(k.value, u) == Some(m) {
        UnknownCollects(k.value, u);
        assert [] + NotKnown(k.value, u) == NotKnown(k.value, u);
        NotKnownAll(k.value, u);
      }
    }
  }

  lemma NoneKnownOfKind(m: Msg, n: Msg, fs: seq<Field>)
    requires SameKind(m, n)
    ensures NoneKnown(m, fs) <==> NoneKnown(n, fs)
  {
  }

  lemma StepComponent(v: NameValue, c: bytes)
    ensures Step(NameMsg(v), LengthDelimited(8, c)) == Some(NameMsg(v.(components := v.components + [c])))
  {
  }

  lemma {:induction false} ComponentsCollect(v: NameValue, cs: seq<bytes>)
    ensures StepAll(NameMsg(v), Repeated(8, cs)) == Some(NameMsg(v.(components := v.components + cs)))
    decreases |cs|
  {
    hide Step;
    if cs == [] {
      assert v.components + cs == v.components;
    } else {
      var next := v.(components := v.components + [cs[0]]);
      StepComponent(v, cs[0]);
      ComponentsCollect(next, cs[1..]);
      assert (v.components + [cs[0]]) + cs[1..] == v.components + cs;
    }
  }

  lemma HopNumbersCollect(v: HopValue)
    requires (v.faceId.Some? ==> v.faceId.value < TWO32) && (v.cost.Some? ==> v.cost.value < TWO32)
    ensures StepAll(HopMsg(NO_HOP), KnownFields(HopMsg(v))) == Some(HopMsg(v.(unknown := [])))
  {
    hide StepAll, Step;
    StepAllConcat(HopMsg(NO_HOP), Optional(105, v.faceId), Optional(106, v.cost));
    StepAllOptional(HopMsg(NO_HOP), 105, v.faceId);
    if v.faceId.Some? { StepNumber(NO_HOP, 105, v.faceId); }
    var next := NO_HOP.(faceId := v.faceId);
    StepAllOptional(HopMsg(next), 106, v.cost);
    if v.cost.Some? { StepNumber(next, 106, v.cost); }
    hide Optional;
  }

  lemma StepNumber(v: HopValue, number: nat, value: Option<nat>)
    requires (number == 105 || number == 106) && value.Some? && value.value < TWO32
    ensures Step(HopMsg(v), VarintField(number, value.value))
      == Some(HopMsg(if number == 105 then v.(faceId := value) else v.(cost := value)))
  {
  }

  lemma StepAllOptional(m: Msg, number: nat, value: Option<nat>)
    ensures StepAll(m, Optional(number, value)) ==
      if value.None? then Some(m) else Step(m, VarintField(number, value.value))
  {
    if value.Some? { StepAllOne(m, VarintField(number, value.value)); }
  }

  lemma StepAllOne(m: Msg, f: Field)
    ensures StepAll(m, [f]) == Step(m, f)
  {
    hide Step;
    assert [f][1..] == [];
    var r := Step(m, f);
    assert r.Some? ==> StepAll(r.value, []) == r;
  }

  /** What the serialized hops are read as. */
  function Reread(hops: seq<HopValue>): Option<seq<HopValue>>
  {
    if hops == [] then Some([])
    else
      var r, rest := Parse(HopMsg(NO_HOP), Ser(HopMsg(hops[0]))), Reread(hops[1..]);
      if Whole(r) && rest.Some? then Some([r.msg.hop] + rest.value) else None
  }

  lemma {:induction false} HopsCollect(v: FibValue, hops: seq<HopValue>)
    ensures var ws := Reread(hops);
      StepAll(FibMsg(v), Repeated(129, HopStreams(hops))) ==
        if ws.None? then None else Some(FibMsg(v.(hops := v.hops + ws.value)))
    decreases |hops|
  {
    hide Parse, Ser;
    if hops == [] {
      assert v.hops + [] == v.hops;
    } else {
      var c := Ser(HopMsg(hops[0]));
      var r := Parse(HopMsg(NO_HOP), c);
      assert HopStreams(hops) == [c] + HopStreams(hops[1..]);
      assert Repeated(129, HopStreams(hops)) == [LengthDelimited(129, c)] + Repeated(129, HopStreams(hops[1..]));
      if Whole(r) {
        var next := v.(hops := v.hops + [r.msg.hop]);
        assert Step(FibMsg(v), LengthDelimited(129, c)) == Some(FibMsg(next));
        hide Step;
        HopsCollect(next, hops[1..]);
        var ws := Reread(hops[1..]);
        if ws.Some? { assert (v.hops + [r.msg.hop]) + ws.value == v.hops + ([r.msg.hop] + ws.value); }
      }
    }
  }

  lemma {:induction false} RereadSame(hops: seq<HopValue>)
    ensures Reread(hops) == Some(hops) <==> forall i :: 0 <= i < |hops| ==> RoundTrips(HopMsg(hops[i]))
  {
    hide Parse, Ser;
    if hops != [] {
      RereadSame(hops[1..]);
      var r, rest := Parse(HopMsg(NO_HOP), Ser(HopMsg(hops[0]))), Reread(hops[1..]);
      assert RoundTrips(HopMsg(hops[0])) <==> Whole(r) && r.msg.hop == hops[0];
      hide RoundTrips;
      assert hops == [hops[0]] + hops[1..];
      assert (forall i :: 0 <= i < |hops| ==> RoundTrips(HopMsg(hops[i])))
        <==> RoundTrips(HopMsg(hops[0])) && forall i :: 0 <= i < |hops[1..]| ==> RoundTrips(HopMsg(hops[1..][i]));
    }
  }

  predicate PartsRoundTrip(v: FibValue)
  {
    && (v.name.Some? ==> RoundTrips(NameMsg(v.name.value)))
    && forall i :: 0 <= i < |v.hops| ==> RoundTrips(HopMsg(v.hops[i]))
  }

  function NameFields(name: Option<NameValue>): seq<Field>
  {
    if name.None? then [] else [LengthDelimited(7, Ser(NameMsg(name.value)))]
  }

  lemma NamePartCollects(name: Option<NameValue>)
    ensures StepAll(FibMsg(NO_FIB), NameFields(name)) ==
      if name.None? then Some(FibMsg(NO_FIB))
      else
        var r := Parse(NameMsg(NO_NAME), Ser(NameMsg(name.value)));
        if Whole(r) then Some(FibMsg(NO_FIB.(name := Some(r.msg.name)))) else None
  {
    hide Parse, Ser;
    if name.Some? {
      StepAllOne(FibMsg(NO_FIB), NameFields(name)[0]);
      hide StepAll;
    }
  }

  lemma FibPartsCollect(v: FibValue)
    ensures StepAll(FibMsg(NO_FIB), KnownFields(FibMsg(v))) == Some(FibMsg(v.(unknown := []))) <==> PartsRoundTrip(v)
  {
    StepAllConcat(FibMsg(NO_FIB), NameFields(v.name), Repeated(129, HopStreams(v.hops)));
    NamePartCollects(v.name);
    RereadSame(v.hops);
    hide Parse, Ser, StepAll, Step, Reread, Repeated, HopStreams;
    var k := StepAll(FibMsg(NO_FIB), NameFields(v.name));
    if k.Some? {
      HopsCollect(k.value.fib, v.hops);
      var ws := Reread(v.hops);
      if ws.Some? { assert [] + ws.value == ws.value; }
    }
  }

  lemma EntryPartCollects(v: EntryValue)
    ensures StepAll(EntryMsg(NO_ENTRY), KnownFields(EntryMsg(v))) == Some(EntryMsg(v.(unknown := [])))
      <==> (v.fib.Some? ==> RoundTrips(FibMsg(v.fib.value)))
  {
    hide Parse, Ser;
    if v.fib.Some? { StepAllOne(EntryMsg(NO_ENTRY), LengthDelimited(128, Ser(FibMsg(v.fib.value)))); }
  }

  /** No message in the tree holds a field that its type knows among its unknown fields. */
  predicate Clean(m: Msg)
    decreases Depth(m)
  {
    && NoneKnown(m, Unknown(m))
    && match m
       case NameMsg(_) => true
       case HopMsg(_) => true
       case FibMsg(v) => (v.name.Some? ==> Clean(NameMsg(v.name.value))) && forall h :: h in v.hops ==> Clean(HopMsg(h))
       case EntryMsg(v) => v.fib.Some? ==> Clean(FibMsg(v.fib.value))
  }

  /** Serializing a message and parsing the bytes gives the message back exactly when it is clean. */
  lemma {:induction false} RoundTripIffClean(m: Msg)
    requires FitsMsg(m)
    ensures RoundTrips(m) <==> Clean(m)
    decreases Depth(m)
  {
    RoundTripSplits(m);
    hide RoundTrips, NoneKnown, KnownFields, StepAll;
    match m
    case NameMsg(v) =>
      NameRoundTrips(v);
    case HopMsg(v) =>
      HopNumbersCollect(v);
    case FibMsg(v) =>
      FibPartsCollect(v);
      if v.name.Some? {
        NameFits(v);
        RoundTripIffClean(NameMsg(v.name.value));
      }
      forall i | 0 <= i < |v.hops| ensures RoundTrips(HopMsg(v.hops[i])) <==> Clean(HopMsg(v.hops[i])) {
        HopFits(v, i);
        RoundTripIffClean(HopMsg(v.hops[i]));
      }
    case EntryMsg(v) =>
      EntryPartCollects(v);
      if v.fib.Some? {
        FibFits(v);
        RoundTripIffClean(FibMsg(v.fib.value));
      }
  }

  lemma NameRoundTrips(v: NameValue)
    ensures StepAll(NameMsg(NO_NAME), KnownFields(NameMsg(v))) == Some(NameMsg(v.(unknown := [])))
  {
    ComponentsCollect(NO_NAME, v.components);
    assert [] + v.components == v.components;
  }

  /** Parsing into a message what another one was serialized to merges the two. */
  lemma ParseOfSerializedMerges(a: Msg, b: Msg)
    requires SameKind(a, b) && FitsMsg(b) && Clean(b)
    ensures Parse(a, Ser(b)) == Ended(Merge(a, b), true)
  {
    RoundTripIffClean(b);
    ParseMerges(a, Empty(b), Ser(b));
    MergeUnits(a);
    EmptyOfKind(b, a);
    hide Parse, Ser, Merge;
  }

  /** Parsing what a was serialized to, followed by what b was serialized to, gives b merged into a. */
  lemma SerializedConcatenation(a: Msg, b: Msg)
    requires SameKind(a, b) && FitsMsg(a) && Clean(a) && FitsMsg(b) && Clean(b)
    ensures Parse(Empty(a), Ser(a) + Ser(b)) == Ended(Merge(a, b), true)
  {
    RoundTripIffClean(a);
    ParseGoesOn(Empty(a), Ser(a), Ser(b));
    ParseOfSerializedMerges(a, b);
    hide Parse, Ser, Merge;
  }

  lemma OnlyUnknown(content: bytes)
    requires |content| < TWO31
    ensures var f := LengthDelimited(8, content);
      Ser(NameMsg(NameValue([], [f]))) == Records([f]) + [] && Fits(f)
  {
    var f := LengthDelimited(8, content);
    assert KnownFields(NameMsg(NameValue([], [f]))) + [f] == [f];
    hide Records;
  }

  /** A name that keeps a component record among its unknown fields is read back as another name. */
  lemma UncleanNameComesBackDifferent(content: bytes)
    requires |content| < TWO31
    ensures var m := NameMsg(NameValue([], [LengthDelimited(8, content)]));
      Parse(NameMsg(NO_NAME), Ser(m)) == Ended(NameMsg(NameValue([content], [])), true)
  {
    var f := LengthDelimited(8, content);
    OnlyUnknown(content);
    hide Parse, Ser, Records, Step, StepAll, Fits;
    ParseRecords(NameMsg(NO_NAME), [f], []);
    StepAllOne(NameMsg(NO_NAME), f);
    StepComponent(NO_NAME, content);
    ParseNothing(NameMsg(NameValue([content], [])));
    assert [] + [content] == [content];
  }
}
