/** Every message that was parsed is clean, fits, and is serialized to no more bytes than it was parsed from. */
module FibCanonical {
  import opened Components
  import opened Wire
  import opened FibMessages
  import opened FibRoundTrip

  // ----- a varint is never written longer than it was read -----

  lemma {:induction false} VarintMonotone(a: nat, b: nat)
    requires a <= b
    ensures |Varint(a)| <= |Varint(b)|
  {
    if a >= 128 { VarintMonotone(a / 128, b / 128); }
  }

  lemma {:induction false} VarintDouble(b: nat)
    ensures |Varint(2 * b + 1)| <= |Varint(b)| + 1
  {
    if b >= 128 {
      VarintDouble(b / 128);
      assert (2 * b + 1) / 128 <= 2 * (b / 128) + 1;
      VarintMonotone((2 * b + 1) / 128, 2 * (b / 128) + 1);
    }
  }

  lemma VarintSum(x: nat, a: nat, b: nat)
    requires x <= a + b
    ensures |Varint(x)| <= |Varint(a)| + |Varint(b)|
  {
    hide Varint;
    var c := if a <= b then b else a;
    VarintMonotone(x, 2 * c + 1);
    VarintDouble(c);
  }

  lemma {:induction false} VarintShortest(s: bytes, limit: nat, v: nat)
    requires ReadVarint(s, limit).Read? && v <= ReadVarint(s, limit).value
    ensures |Varint(v)| <= ReadVarint(s, limit).size
  {
    if v >= 128 { VarintShortest(s[1..], limit - 1, v / 128); }
  }

  lemma TagShortest(s: bytes)
    requires ReadTag(s).0 != 0
    ensures |Varint(ReadTag(s).0)| <= ReadTag(s).1
  {
    hide ReadVarint, Varint;
    var r := ReadVarint(s, 10);
    assert r.value % TWO32 <= r.value;
    VarintShortest(s, 10, r.value % TWO32);
  }

  // ----- fields read fit, and take no more room written -----

  lemma {:induction false} FieldAtFits(tag: nat, s: bytes)
    requires 0 < tag < TWO32 && FieldAt(tag, s).ReadField?
    ensures var r := FieldAt(tag, s);
      Tag(r.field.number, WireType(r.field)) == tag && Fits(r.field) && |Payload(r.field)| <= r.size
    decreases |s|, 1
  {
    hide ReadVarint, Varint, FieldsUntilEnd, Records;
    if tag % 8 == 0 {
      var v := ReadVarint(s, 10).value;
      assert v % TWO64 <= v;
      VarintShortest(s, 10, v % TWO64);
    } else if tag % 8 == 2 {
      var v := ReadVarint(s, 10).value;
      assert v % TWO32 <= v;
      VarintShortest(s, 10, v % TWO32);
    } else if tag % 8 == 3 {
      FieldsFitUntilEnd(s);
    }
  }

  lemma {:induction false} FieldsFitUntilEnd(s: bytes)
    requires FieldsUntilEnd(s).ReadFields?
    ensures var r := FieldsUntilEnd(s);
      && (forall f :: f in r.fields ==> Fits(f))
      && (r.endTag != 0 ==> |Records(r.fields)| + |Varint(r.endTag)| <= r.size)
    decreases |s|, 0
  {
    hide ReadTag, FieldAt, Varint, Payload, Fits, Tag;
    var (tag, n) := ReadTag(s);
    if tag == 0 || tag % 8 == END_GROUP {
      if tag != 0 { TagShortest(s); }
    } else {
      var r := FieldAt(tag, s[n..]);
      FieldAtFits(tag, s[n..]);
      TagShortest(s);
      FieldsFitUntilEnd(s[n + r.size..]);
    }
  }

  // ----- how long messages are -----

  lemma SerLength(m: Msg)
    ensures |Ser(m)| == |Records(KnownFields(m))| + |Records(Unknown(m))|
  {
    RecordsConcat(KnownFields(m), Unknown(m));
  }

  lemma RecordsOfOne(f: Field)
    ensures Records([f]) == Record(f)
  {
    hide Record;
    assert [f][1..] == [];
    assert Record(f) + [] == Record(f);
  }

  lemma RecordsAppend(fs: seq<Field>, f: Field)
    ensures |Records(fs + [f])| == |Records(fs)| + |Record(f)|
  {
    RecordsConcat(fs, [f]);
    RecordsOfOne(f);
    hide Records, Record;
  }

  function DelimitedSize(number: nat, size: nat): nat { |Varint(Tag(number, 2))| + |Varint(size)| + size }

  lemma DelimitedLength(number: nat, content: bytes)
    ensures |Record(LengthDelimited(number, content))| == DelimitedSize(number, |content|)
  {
    hide Varint;
  }

  /** One record with both contents takes no more room than two. */
  lemma DelimitedSum(number: nat, x: nat, a: nat, b: nat)
    requires x <= a + b
    ensures DelimitedSize(number, x) <= DelimitedSize(number, a) + DelimitedSize(number, b)
  {
    VarintSum(x, a, b);
    hide Varint;
  }

  lemma DelimitedMonotone(number: nat, x: nat, a: nat)
    requires x <= a
    ensures DelimitedSize(number, x) <= DelimitedSize(number, a)
  {
    VarintMonotone(x, a);
    hide Varint;
  }

  lemma NumberSize(number: nat, value: nat)
    ensures |Records(Optional(number, Some(value % TWO32)))| <= |Record(VarintField(number, value))|
  {
    RecordsOfOne(VarintField(number, value % TWO32));
    VarintMonotone(value % TWO32, value);
    hide Varint, Records;
  }

  // ----- one step -----

  /** No known field hides among the unknown ones, and every number fits its C++ type. */
  predicate Good(m: Msg) { Clean(m) && FieldsFit(m) }

  lemma UnknownStep(m: Msg, f: Field)
    requires Good(m) && Fits(f) && !Known(m, f)
    ensures var r := Step(m, f).value; Good(r) && |Ser(r)| <= |Ser(m)| + |Record(f)|
  {
    StepNotKnown(m, f);
    var r := WithUnknown(m, Unknown(m) + [f]);
    assert KnownFields(r) == KnownFields(m) by { hide Ser; }
    SerLength(m);
    SerLength(r);
    RecordsAppend(Unknown(m), f);
    GoodWithUnknown(m, f);
    hide Ser, Records, Record, KnownFields, Step;
  }

  lemma GoodWithUnknown(m: Msg, f: Field)
    requires Good(m) && Fits(f) && !Known(m, f)
    ensures Good(WithUnknown(m, Unknown(m) + [f]))
  {
    hide Fits;
    var r := WithUnknown(m, Unknown(m) + [f]);
    assert forall g :: Known(r, g) <==> Known(m, g);
    hide Known;
    assert NoneKnown(r, Unknown(r));
  }

  lemma ComponentStep(v: NameValue, c: bytes)
    requires Good(NameMsg(v))
    ensures var r := NameMsg(v.(components := v.components + [c]));
      Good(r) && |Ser(r)| <= |Ser(NameMsg(v))| + |Record(LengthDelimited(8, c))|
  {
    hide Ser, Records, Record;
    var m, r := NameMsg(v), NameMsg(v.(components := v.components + [c]));
    assert KnownFields(r) == KnownFields(m) + [LengthDelimited(8, c)];
    SerLength(m);
    SerLength(r);
    RecordsAppend(KnownFields(m), LengthDelimited(8, c));
    assert NoneKnown(r, Unknown(r)) by { assert forall g :: Known(r, g) <==> Known(m, g); }
  }

  lemma NumberStep(v: HopValue, number: nat, value: nat)
    requires Good(HopMsg(v)) && (number == 105 || number == 106)
    ensures var r := if number == 105 then v.(faceId := Some(value % TWO32)) else v.(cost := Some(value % TWO32));
      Good(HopMsg(r)) && |Ser(HopMsg(r))| <= |Ser(HopMsg(v))| + |Record(VarintField(number, value))|
  {
    hide Ser, Records, Record;
    var m := HopMsg(v);
    var r := HopMsg(if number == 105 then v.(faceId := Some(value % TWO32)) else v.(cost := Some(value % TWO32)));
    NumberSize(number, value);
    HopLength(m.hop);
    HopLength(r.hop);
    assert NoneKnown(r, Unknown(r)) by { assert forall g :: Known(r, g) <==> Known(m, g); }
  }

  lemma HopLength(v: HopValue)
    ensures |Ser(HopMsg(v))|
      == |Records(Optional(105, v.faceId))| + |Records(Optional(106, v.cost))| + |Records(v.unknown)|
  {
    SerLength(HopMsg(v));
    RecordsConcat(Optional(105, v.faceId), Optional(106, v.cost));
  }

  function NameSize(v: FibValue): nat
  {
    if v.name.None? then 0 else DelimitedSize(7, |Ser(NameMsg(v.name.value))|)
  }

  lemma FibLength(v: FibValue)
    ensures |Ser(FibMsg(v))| == NameSize(v) + |Records(Repeated(129, HopStreams(v.hops)))| + |Records(v.unknown)|
  {
    SerLength(FibMsg(v));
    var first := if v.name.None? then [] else [LengthDelimited(7, Ser(NameMsg(v.name.value)))];
    RecordsConcat(first, Repeated(129, HopStreams(v.hops)));
    if v.name.Some? {
      RecordsOfOne(first[0]);
      DelimitedLength(7, Ser(NameMsg(v.name.value)));
    }
    hide Ser, Record, HopStreams, DelimitedSize;
  }

  lemma NameStep(v: FibValue, c: bytes, n: NameValue)
    requires Good(FibMsg(v)) && Good(NameMsg(n)) && |Ser(NameMsg(n))| <= |Ser(NameMsg(OrElse(v.name, NO_NAME)))| + |c|
    ensures var r := FibMsg(v.(name := Some(n)));
      Good(r) && |Ser(r)| <= |Ser(FibMsg(v))| + |Record(LengthDelimited(7, c))|
  {
    var r := v.(name := Some(n));
    NothingSerialized();
    hide Ser, Records, Record, HopStreams;
    FibLength(v);
    FibLength(r);
    DelimitedLength(7, c);
    if v.name.Some? {
      DelimitedSum(7, |Ser(NameMsg(n))|, |Ser(NameMsg(v.name.value))|, |c|);
    } else {
      DelimitedMonotone(7, |Ser(NameMsg(n))|, |c|);
    }
    assert NoneKnown(FibMsg(r), r.unknown) by { assert forall g :: Known(FibMsg(r), g) <==> Known(FibMsg(v), g); }
  }

  lemma NothingSerialized()
    ensures Ser(NameMsg(NO_NAME)) == [] && Ser(HopMsg(NO_HOP)) == []
    ensures Ser(FibMsg(NO_FIB)) == [] && Ser(EntryMsg(NO_ENTRY)) == []
  {
  }

  lemma {:induction false} HopStreamsAppend(hops: seq<HopValue>, h: HopValue)
    ensures HopStreams(hops + [h]) == HopStreams(hops) + [Ser(HopMsg(h))]
  {
    hide Ser;
    if hops == [] {
      assert [] + [h] == [h] && [h][1..] == [];
    } else {
      assert (hops + [h])[1..] == hops[1..] + [h];
      HopStreamsAppend(hops[1..], h);
    }
  }

  lemma HopRecordsAppend(hops: seq<HopValue>, h: HopValue)
    ensures |Records(Repeated(129, HopStreams(hops + [h])))|
         == |Records(Repeated(129, HopStreams(hops)))| + DelimitedSize(129, |Ser(HopMsg(h))|)
  {
    HopStreamsAppend(hops, h);
    hide Ser, Records, Record, HopStreams;
    var f := LengthDelimited(129, Ser(HopMsg(h)));
    assert Repeated(129, HopStreams(hops + [h])) == Repeated(129, HopStreams(hops)) + [f];
    RecordsAppend(Repeated(129, HopStreams(hops)), f);
    DelimitedLength(129, Ser(HopMsg(h)));
  }

  lemma HopStep(v: FibValue, c: bytes, h: HopValue)
    requires Good(FibMsg(v)) && Good(HopMsg(h)) && |Ser(HopMsg(h))| <= |c|
    ensures var r := FibMsg(v.(hops := v.hops + [h]));
      Good(r) && |Ser(r)| <= |Ser(FibMsg(v))| + |Record(LengthDelimited(129, c))|
  {
    hide Ser, Records, Record, HopStreams, Repeated, DelimitedSize;
    var r := v.(hops := v.hops + [h]);
    HopRecordsAppend(v.hops, h);
    FibLength(v);
    FibLength(r);
    DelimitedLength(129, c);
    DelimitedMonotone(129, |Ser(HopMsg(h))|, |c|);
    assert NoneKnown(FibMsg(r), r.unknown) by { assert forall g :: Known(FibMsg(r), g) <==> Known(FibMsg(v), g); }
  }

  lemma EntryLength(v: EntryValue)
    ensures |Ser(EntryMsg(v))| == |Records(v.unknown)|
      + if v.fib.None? then 0 else DelimitedSize(128, |Ser(FibMsg(v.fib.value))|)
  {
    SerLength(EntryMsg(v));
    if v.fib.Some? {
      RecordsOfOne(LengthDelimited(128, Ser(FibMsg(v.fib.value))));
      DelimitedLength(128, Ser(FibMsg(v.fib.value)));
    }
    hide Ser, Record, DelimitedSize;
  }

  lemma FibStep(v: EntryValue, c: bytes, e: FibValue)
    requires Good(EntryMsg(v)) && Good(FibMsg(e)) && |Ser(FibMsg(e))| <= |Ser(FibMsg(OrElse(v.fib, NO_FIB)))| + |c|
    ensures var r := EntryMsg(v.(fib := Some(e)));
      Good(r) && |Ser(r)| <= |Ser(EntryMsg(v))| + |Record(LengthDelimited(128, c))|
  {
    var r := v.(fib := Some(e));
    NothingSerialized();
    hide Ser, Records, Record;
    EntryLength(v);
    EntryLength(r);
    DelimitedLength(128, c);
    if v.fib.Some? {
      DelimitedSum(128, |Ser(FibMsg(e))|, |Ser(FibMsg(v.fib.value))|, |c|);
    } else {
      DelimitedMonotone(128, |Ser(FibMsg(e))|, |c|);
    }
    assert NoneKnown(EntryMsg(r), r.unknown) by { assert forall g :: Known(EntryMsg(r), g) <==> Known(EntryMsg(v), g); }
  }

  // ----- parsing -----

  lemma {:induction false} StepKeepsGood(m: Msg, f: Field)
    requires Good(m) && Fits(f) && Step(m, f).Some?
    ensures var r := Step(m, f).value; Good(r) && |Ser(r)| <= |Ser(m)| + |Record(f)|
    decreases Size(f), 1
  {
    NothingSerialized();
    hide Parse, Good, Ser, Record, Fits;
    if !Known(m, f) {
      UnknownStep(m, f);
    } else {
      match m
      case NameMsg(v) =>
        ComponentStep(v, f.content);
      case HopMsg(v) =>
        NumberStep(v, f.number, f.value);
      case FibMsg(v) =>
        if f.number == 7 {
          var n := NameMsg(OrElse(v.name, NO_NAME));
          GoodParts(m);
          ParseKeepsGood(n, f.content);
          NameStep(v, f.content, Parse(n, f.content).msg.name);
        } else {
          GoodParts(m);
          ParseKeepsGood(HopMsg(NO_HOP), f.content);
          HopStep(v, f.content, Parse(HopMsg(NO_HOP), f.content).msg.hop);
        }
      case EntryMsg(v) =>
        var e := FibMsg(OrElse(v.fib, NO_FIB));
        GoodParts(m);
        ParseKeepsGood(e, f.content);
        FibStep(v, f.content, Parse(e, f.content).msg.fib);
    }
  }

  lemma GoodParts(m: Msg)
    requires Good(m)
    ensures m.FibMsg? ==> Good(NameMsg(OrElse(m.fib.name, NO_NAME))) && Good(HopMsg(NO_HOP))
    ensures m.EntryMsg? ==> Good(FibMsg(OrElse(m.entry.fib, NO_FIB)))
  {
  }

  /** Whatever is parsed into a good message leaves it good, and adds no more than it was long. */
  lemma {:induction false} ParseKeepsGood(m: Msg, s: bytes)
    requires Good(m) && Parse(m, s).Ended?
    ensures var r := Parse(m, s).msg; Good(r) && |Ser(r)| <= |Ser(m)| + |s|
    decreases |s|, 0
  {
    hide Parse, ReadTag, FieldAt, Good, Ser, Step, Fits, Varint, Payload;
    var (tag, n) := ReadTag(s);
    if tag == 0 || tag % 8 == END_GROUP {
      ParseEnd(m, s);
    } else {
      ParseStep(m, s, tag, n);
      var r := FieldAt(tag, s[n..]);
      TagShortest(s);
      FieldAtFits(tag, s[n..]);
      StepKeepsGood(m, r.field);
      ParseKeepsGood(Step(m, r.field).value, s[n + r.size..]);
    }
  }

  /** What is parsed from any bytes is serialized to no more bytes, and read back from them unchanged. */
  lemma ParsedRoundTrips(m: Msg, s: bytes)
    requires |s| < TWO31 && Parse(Empty(m), s).Ended?
    ensures var r := Parse(Empty(m), s).msg;
      Clean(r) && |Ser(r)| <= |s| && Parse(Empty(m), Ser(r)) == Ended(r, true)
  {
    var r := Parse(Empty(m), s).msg;
    NothingSerialized();
    assert Good(Empty(m));
    EmptyOfKind(m, r);
    hide Parse, Ser;
    ParseKeepsGood(Empty(m), s);
    RoundTripIffClean(r);
  }
}
