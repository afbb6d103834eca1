/**
  The generated classes of fib-entry.proto: objects whose fields, has-bits and cached sizes are changed in
  place. Every method is tied to the value that its object stands for.
 */
module FibEntryCodec {
  import opened Components
  import opened Wire
  import opened FibMessages
  import opened FibRoundTrip
  import opened FibCanonical
  import opened FibSteps
  import opened CodedStreams

  class Name {
    var components: seq<bytes>
    var unknown: seq<Field>
    var cachedSize: nat

    constructor ()
      ensures Value() == NO_NAME
    {
      components, unknown, cachedSize := [], [], 0;
    }

    function Value(): NameValue
      reads this
    {
      NameValue(components, unknown)
    }

    function Message(): Msg
      reads this
    {
      NameMsg(Value())
    }

    /** The cached size is that of the message as it is now. */
    predicate Sized()
      reads this
    {
      cachedSize == |Ser(Message())|
    }

    method Clear()
      modifies this
      ensures Value() == NO_NAME
    {
      components := [];
      unknown := [];
    }

    method MergeFrom(from: Name)
      requires from != this
      modifies this
      ensures Message() == Merge(old(Message()), from.Message())
    {
      components := components + from.components;
      unknown := unknown + from.unknown;
    }

    /** Takes in what the stream holds up to its limit; false where that is malformed. */
    method MergePartialFromCodedStream(input: CodedInputStream) returns (ok: bool)
      requires input.Valid()
      modifies this, input`pos, input`legitimateEnd
      ensures input.Valid()
      ensures Parsed(Parse(old(Message()), old(input.Rest())), ok, Message(), input.legitimateEnd, input.Rest())
    {
      hide Parse, AfterTag, Took, FieldAt, Length;
      ghost var goal := Parse(Message(), input.Rest());
      while true
        invariant input.Valid()
        invariant Parse(Message(), input.Rest()) == goal
        decreases |input.Rest()|
      {
        ghost var s := input.Rest();
        var tag, known := input.ReadTagWithCutoff(127);
        if known && tag / 8 == 8 && tag == 66 {
          ParseTag(Message(), s, tag, input.Rest());
          // parse_component:
          var again := true;
          while again
            invariant input.Valid() && |input.Rest()| < |s|
            invariant (if again then AfterTag(Message(), 66, input.Rest()) else Parse(Message(), input.Rest())) == goal
            decreases |input.Rest()|, again
          {
            AfterComponentTag(Value(), input.Rest());
            var content;
            ok, content := input.ReadBytes();
            if !ok {
              return;
            }
            components := components + [content];
            ghost var t := input.Rest();
            again := input.ExpectTag(66);
            if again { ParseTag(Message(), t, 66, input.Rest()); }
          }
          var atEnd := input.ExpectAtEnd();
          if atEnd {
            ParseNothing(Message());
            return true;
          }
        } else {
          // handle_unusual:
          if tag == 0 || tag % 8 == END_GROUP {
            ParseStops(Message(), s, tag, input.Rest());
            return true;
          }
          ParseTag(Message(), s, tag, input.Rest());
          AfterUnusual(Message(), tag, input.Rest());
          var field;
          ok, field := input.SkipField(tag);
          if !ok {
            return;
          }
          unknown := unknown + [field];
        }
      }
    }

    /** The size of the serialized message, which is also kept for the serializer. */
    method ByteSize() returns (total: nat)
      modifies this`cachedSize
      ensures total == |Ser(Message())| && Sized()
    {
      hide Records, Ser, Record, Repeated, DelimitedSize;
      NoRecords(8, components, unknown);
      total := 1 * |components|;
      for i := 0 to |components|
        invariant total == |Records(Repeated(8, components[..i]))| + (|components| - i)
      {
        total := total + BytesSize(components[i]);
        RepeatedAppend(8, components, i);
        SmallTags();
      }
      assert components[..|components|] == components;
      if unknown != [] {
        total := total + |Records(unknown)|;
      }
      SerLength(Message());
      cachedSize := total;
    }

    /** Writes the serialized message to the array and gives the position after it. */
    method SerializeWithCachedSizesToArray(target: array<byte>, at: nat) returns (end: nat)
      requires Sized() && at + cachedSize <= target.Length
      modifies target
      ensures end == at + cachedSize && Wrote(old(target[..]), target[..], at, Ser(Message()))
    {
      hide Records, Ser, Record, Repeated, DelimitedSize, Wrote, Varint, KnownFields;
      ghost var before := target[..];
      end := at;
      NothingWritten(before, at);
      NoRecords(8, components, unknown);
      NameParts(Value());
      for i := 0 to |components|
        invariant end == at + |Records(Repeated(8, components[..i]))|
        invariant Wrote(before, target[..], at, Records(Repeated(8, components[..i])))
      {
        RepeatedAppend(8, components, i);
        RepeatedLength(8, components, i + 1);
        ghost var now, mid := target[..], end;
        end := WriteBytesToArray(8, components[i], target, end);
        WroteBoth(before, now, target[..], at, mid, Records(Repeated(8, components[..i])),
          Record(LengthDelimited(8, components[i])));
      }
      assert components[..|components|] == components;
      if unknown != [] {
        ghost var now, mid := target[..], end;
        end := SerializeUnknownFieldsToArray(unknown, target, end);
        WroteBoth(before, now, target[..], at, mid, Records(Repeated(8, components)), Records(unknown));
      }
      assert Records(Repeated(8, components)) + [] == Records(Repeated(8, components));
    }
  }

  type UInt32 = n: nat | n < TWO32

  class NextHopRecord {
    var hasBits: bv32
    var faceId: UInt32
    var cost: UInt32
    var unknown: seq<Field>
    var cachedSize: nat

    constructor ()
      ensures Value() == NO_HOP
    {
      hasBits, faceId, cost, unknown, cachedSize := 0, 0, 0, [], 0;
    }

    predicate HasFaceId()
      reads this
    {
      hasBits & 1 != 0
    }

    predicate HasCost()
      reads this
    {
      hasBits & 2 != 0
    }

    function Value(): HopValue
      reads this
    {
      HopValue(if HasFaceId() then Some(faceId) else None, if HasCost() then Some(cost) else None, unknown)
    }

    function Message(): Msg
      reads this
    {
      HopMsg(Value())
    }

    predicate Sized()
      reads this
    {
      cachedSize == |Ser(Message())|
    }

    method SetFaceId(value: UInt32)
      modifies this`hasBits, this`faceId
      ensures Value() == old(Value()).(faceId := Some(value))
    {
      SetBits(hasBits);
      hasBits := hasBits | 1;
      faceId := value;
    }

    method SetCost(value: UInt32)
      modifies this`hasBits, this`cost
      ensures Value() == old(Value()).(cost := Some(value))
    {
      SetBits(hasBits);
      hasBits := hasBits | 2;
      cost := value;
    }

    method Clear()
      modifies this
      ensures Value() == NO_HOP
    {
      faceId, cost := 0, 0;
      hasBits := 0;
      unknown := [];
    }

    method MergeFrom(from: NextHopRecord)
      requires from != this
      modifies this
      ensures Message() == Merge(old(Message()), from.Message())
    {
      LowBits(from.hasBits);
      if from.hasBits & 0xff != 0 {
        if from.HasFaceId() {
          SetFaceId(from.faceId);
        }
        if from.HasCost() {
          SetCost(from.cost);
        }
      }
      unknown := unknown + from.unknown;
    }

    method MergePartialFromCodedStream(input: CodedInputStream) returns (ok: bool)
      requires input.Valid()
      modifies this, input`pos, input`legitimateEnd
      ensures input.Valid()
      ensures Parsed(Parse(old(Message()), old(input.Rest())), ok, Message(), input.legitimateEnd, input.Rest())
    {
      hide Parse, AfterTag, Took, FieldAt, ReadVarint;
      ghost var goal := Parse(Message(), input.Rest());
      while true
        invariant input.Valid()
        invariant Parse(Message(), input.Rest()) == goal
        decreases |input.Rest()|
      {
        ghost var s := input.Rest();
        var tag, known := input.ReadTagWithCutoff(16383);
        if tag != 0 && tag % 8 != END_GROUP { ParseTag(Message(), s, tag, input.Rest()); }
        var parseCost := known && tag / 8 == 106 && tag == 848;
        var value;
        if known && tag / 8 == 105 && tag == 840 {
          AfterNumberTag(Value(), 840, input.Rest());
          ok, value := input.ReadUInt32();
          if !ok {
            return;
          }
          SetFaceId(value);
          ghost var t := input.Rest();
          parseCost := input.ExpectTag(848);
          if parseCost { ParseTag(Message(), t, 848, input.Rest()); }
        } else if !parseCost {
          // handle_unusual:
          if tag == 0 || tag % 8 == END_GROUP {
            ParseStops(Message(), s, tag, input.Rest());
            return true;
          }
          AfterUnusual(Message(), tag, input.Rest());
          var field;
          ok, field := input.SkipField(tag);
          if !ok {
            return;
          }
          unknown := unknown + [field];
        }
        if parseCost {
          // parse_cost:
          AfterNumberTag(Value(), 848, input.Rest());
          ok, value := input.ReadUInt32();
          if !ok {
            return;
          }
          SetCost(value);
          var atEnd := input.ExpectAtEnd();
          if atEnd {
            ParseNothing(Message());
            return true;
          }
        }
      }
    }

    method ByteSize() returns (total: nat)
      modifies this`cachedSize
      ensures total == |Ser(Message())| && Sized()
    {
      hide Records, Ser, Optional, Varint;
      total := 0;
      LowBits(hasBits);
      HopLength(Value());
      NumberLength(105, Value().faceId);
      NumberLength(106, Value().cost);
      NoRecords(0, [], unknown);
      if hasBits & 0xff != 0 {
        if HasFaceId() {
          total := total + 2 + |Varint(faceId)|;
        }
        if HasCost() {
          total := total + 2 + |Varint(cost)|;
        }
      }
      if unknown != [] {
        total := total + |Records(unknown)|;
      }
      cachedSize := total;
    }

    method SerializeWithCachedSizesToArray(target: array<byte>, at: nat) returns (end: nat)
      requires Sized() && at + cachedSize <= target.Length
      modifies target
      ensures end == at + cachedSize && Wrote(old(target[..]), target[..], at, Ser(Message()))
    {
      hide Records, Ser, Record, Wrote, Optional, KnownFields;
      ghost var before := target[..];
      ghost var face, price := Records(Optional(105, Value().faceId)), Records(Optional(106, Value().cost));
      end := at;
      NothingWritten(before, at);
      NoRecords(0, [], unknown);
      HopParts(Value());
      NumberRecord(105, Value().faceId);
      NumberRecord(106, Value().cost);
      if HasFaceId() {
        end := WriteUInt32ToArray(105, faceId, target, end);
      }
      assert Wrote(before, target[..], at, face) && end == at + |face|;
      if HasCost() {
        ghost var now, mid := target[..], end;
        end := WriteUInt32ToArray(106, cost, target, end);
        WroteBoth(before, now, target[..], at, mid, face, price);
      }
      assert face + [] == face;
      assert Wrote(before, target[..], at, face + price) && end == at + |face| + |price|;
      if unknown != [] {
        ghost var now, mid := target[..], end;
        end := SerializeUnknownFieldsToArray(unknown, target, end);
        WroteBoth(before, now, target[..], at, mid, face + price, Records(unknown));
      }
      assert face + price + [] == face + price;
    }
  }

  /** Reads a nested message: its length, then the message within a limit that it has to reach. */
  method ReadName(input: CodedInputStream, message: Name) returns (ok: bool)
    requires input.Valid()
    modifies message, input`pos, input`limit, input`legitimateEnd
    ensures input.Valid() && (ok ==> input.limit == old(input.limit))
    ensures ReadNested(Nested(old(message.Message()), old(input.Rest())), ok, message.Message(), old(input.Rest()),
                       input.Rest())
  {
    hide Parse, Length;
    var oldLimit;
    ok, oldLimit := input.PushLength();
    if !ok {
      return;
    }
    ok := message.MergePartialFromCodedStream(input);
    if !ok || !input.legitimateEnd {
      return false;
    }
    input.PopLimit(oldLimit);
  }

  method ReadHop(input: CodedInputStream, message: NextHopRecord) returns (ok: bool)
    requires input.Valid()
    modifies message, input`pos, input`limit, input`legitimateEnd
    ensures input.Valid() && (ok ==> input.limit == old(input.limit))
    ensures ReadNested(Nested(old(message.Message()), old(input.Rest())), ok, message.Message(), old(input.Rest()),
                       input.Rest())
  {
    hide Parse, Length;
    var oldLimit;
    ok, oldLimit := input.PushLength();
    if !ok {
      return;
    }
    ok := message.MergePartialFromCodedStream(input);
    if !ok || !input.legitimateEnd {
      return false;
    }
    input.PopLimit(oldLimit);
  }

  /** A nested message was read: it succeeded where the content is whole, and took exactly the content. */
  predicate ReadNested(r: ParseResult, ok: bool, m: Msg, before: bytes, rest: bytes)
  {
    && (ok <==> Whole(r))
    && (ok ==> m == r.msg && Length(before).Read? && rest == AfterContent(before) && |rest| < |before|)
  }

  function HopValues(hops: seq<NextHopRecord>): (r: seq<HopValue>)
    reads hops
    ensures |r| == |hops| && forall i :: 0 <= i < |hops| ==> r[i] == hops[i].Value()
  {
    seq(|hops|, i requires 0 <= i < |hops| reads hops => hops[i].Value())
  }

  /** Writes a nested message: its tag, the size it has cached as the length, and the message. */
  method WriteName(number: nat, message: Name, target: array<byte>, at: nat) returns (end: nat)
    requires message.Sized() && at + |Record(LengthDelimited(number, Ser(message.Message())))| <= target.Length
    modifies target
    ensures end == at + |Record(LengthDelimited(number, Ser(message.Message())))|
    ensures Wrote(old(target[..]), target[..], at, Record(LengthDelimited(number, Ser(message.Message()))))
  {
    hide Ser, Record, Wrote, Varint, Tag;
    ghost var before, m := target[..], message.Message();
    PrefixAndContent(number, Ser(m));
    end := WriteLengthPrefix(number, message.cachedSize, target, at);
    ghost var now, mid := target[..], end;
    end := message.SerializeWithCachedSizesToArray(target, end);
    WroteBoth(before, now, target[..], at, mid, Varint(Tag(number, 2)) + Varint(message.cachedSize), Ser(m));
  }

  method WriteHop(number: nat, message: NextHopRecord, target: array<byte>, at: nat) returns (end: nat)
    requires message.Sized() && at + |Record(LengthDelimited(number, Ser(message.Message())))| <= target.Length
    modifies target
    ensures end == at + |Record(LengthDelimited(number, Ser(message.Message())))|
    ensures Wrote(old(target[..]), target[..], at, Record(LengthDelimited(number, Ser(message.Message()))))
  {
    hide Ser, Record, Wrote, Varint, Tag;
    ghost var before, m := target[..], message.Message();
    PrefixAndContent(number, Ser(m));
    end := WriteLengthPrefix(number, message.cachedSize, target, at);
    ghost var now, mid := target[..], end;
    end := message.SerializeWithCachedSizesToArray(target, end);
    WroteBoth(before, now, target[..], at, mid, Varint(Tag(number, 2)) + Varint(message.cachedSize), Ser(m));
  }

  lemma HopValueAt(hops: seq<NextHopRecord>, i: nat)
    requires i < |hops|
    ensures HopValues(hops)[i] == hops[i].Value()
  {
  }

  class FibEntry {
    var hasBits: bv32
    var name: Name?
    var hops: seq<NextHopRecord>
    var unknown: seq<Field>
    var cachedSize: nat

    constructor ()
      ensures Valid() && Value() == NO_FIB && fresh(Footprint())
    {
      hasBits, name, hops, unknown, cachedSize := 0, null, [], [], 0;
    }

    predicate HasName()
      reads this
    {
      hasBits & 1 != 0
    }

    ghost function Footprint(): set<object>
      reads this
    {
      {this} + Names() + (set h | h in hops)
    }

    ghost function Names(): set<Name>
      reads this
    {
      if name == null then {} else {name}
    }

    /** A name object that the has-bit does not count is empty: MutableName takes it as it is. */
    predicate Valid()
      reads this, name
    {
      && (forall i, j :: 0 <= i < j < |hops| ==> hops[i] != hops[j])
      && (HasName() ==> name != null)
      && (name != null && !HasName() ==> name.Value() == NO_NAME)
    }

    function Value(): FibValue
      requires Valid()
      reads this, name, hops
    {
      FibValue(if HasName() then Some(name.Value()) else None, HopValues(hops), unknown)
    }

    function Message(): (m: Msg)
      requires Valid()
      reads this, name, hops
      ensures m.FibMsg?
    {
      FibMsg(Value())
    }

    /** The cached sizes of the message and of every part that is serialized are those of now. */
    ghost predicate Sized()
      requires Valid()
      reads this, name, hops
    {
      && cachedSize == |Ser(Message())|
      && (HasName() ==> name.Sized())
      && forall h :: h in hops ==> h.Sized()
    }

    method Clear()
      requires Valid()
      modifies this, name
      ensures Valid() && Value() == NO_FIB && Footprint() <= old(Footprint())
    {
      if HasName() {
        if name != null {
          name.Clear();
        }
      }
      hops := [];
      hasBits := 0;
      unknown := [];
    }

    method MutableName() returns (r: Name)
      requires Valid()
      modifies this`hasBits, this`name
      ensures Valid() && HasName() && r == name && (if old(name) == null then fresh(r) else r == old(name))
      ensures Value() == old(Value()).(name := Some(OrElse(old(Value()).name, NO_NAME)))
    {
      SetBits(hasBits);
      hasBits := hasBits | 1;
      if name == null {
        name := new Name();
      }
      r := name;
    }

    method AddNextHopRecord() returns (r: NextHopRecord)
      requires Valid()
      modifies this`hops
      ensures Valid() && fresh(r) && hops == old(hops) + [r] && r.Value() == NO_HOP
      ensures Value() == old(Value()).(hops := old(Value()).hops + [NO_HOP])
    {
      r := new NextHopRecord();
      hops := hops + [r];
      assert Value().hops == old(Value()).hops + [NO_HOP];
    }

    /** Reads the name record, whose tag has been read. */
    method ParseName(input: CodedInputStream) returns (ok: bool)
      requires Valid() && input.Valid()
      modifies this, name, input`pos, input`limit, input`legitimateEnd
      ensures Valid() && input.Valid() && (ok ==> input.limit == old(input.limit))
      ensures hops == old(hops) && (name == old(name) || fresh(name))
      ensures AfterTag(old(Message()), NAME_TAG, old(input.Rest()))
        == if ok then Parse(Message(), input.Rest()) else Failed
      ensures ok ==> |input.Rest()| < |old(input.Rest())|
    {
      hide Parse, Length, AfterTag;
      AfterNameTag(Value(), input.Rest());
      var n := MutableName();
      ok := ReadName(input, n);
    }

    /** Reads one next hop record, whose tag has been read. */
    method ParseHop(input: CodedInputStream) returns (ok: bool)
      requires Valid() && input.Valid()
      modifies this`hops, input`pos, input`limit, input`legitimateEnd
      ensures Valid() && input.Valid() && (ok ==> input.limit == old(input.limit))
      ensures forall h :: h in hops ==> h in old(hops) || fresh(h)
      ensures AfterTag(old(Message()), HOP_TAG, old(input.Rest()))
        == if ok then Parse(Message(), input.Rest()) else Failed
      ensures ok ==> |input.Rest()| < |old(input.Rest())|
    {
      hide Parse, Length, AfterTag;
      AfterHopTag(Value(), input.Rest());
      ghost var before := Value();
      var h := AddNextHopRecord();
      ok := ReadHop(input, h);
      assert HopValues(hops) == before.hops + [h.Value()];
      assert Value() == before.(hops := before.hops + [h.Value()]);
    }

    /** parse_next_hop_records: reads next hop records for as long as their tag is expected. */
    method ParseHops(input: CodedInputStream) returns (ok: bool)
      requires Valid() && input.Valid()
      modifies this`hops, input`pos, input`limit, input`legitimateEnd
      ensures Valid() && input.Valid() && (ok ==> input.limit == old(input.limit))
      ensures forall h :: h in hops ==> h in old(hops) || fresh(h)
      ensures AfterTag(old(Message()), HOP_TAG, old(input.Rest()))
        == if ok then Parse(Message(), input.Rest()) else Failed
      ensures ok ==> |input.Rest()| < |old(input.Rest())|
    {
      hide Parse, AfterTag, Valid, Value, Message;
      var again := true;
      while again
        invariant Valid() && input.Valid() && input.limit == old(input.limit)
        invariant forall h :: h in hops ==> h in old(hops) || fresh(h)
        invariant again || |input.Rest()| < |old(input.Rest())|
        invariant |input.Rest()| <= |old(input.Rest())|
        invariant AfterTag(old(Message()), HOP_TAG, old(input.Rest())) ==
          if again then AfterTag(Message(), HOP_TAG, input.Rest()) else Parse(Message(), input.Rest())
        decreases |input.Rest()|, again
      {
        ok := ParseHop(input);
        if !ok {
          return;
        }
        again := ExpectHop(input);
      }
      ok := true;
    }

    /** Keeps a record that the switch does not handle. */
    method Keep(tag: nat, input: CodedInputStream) returns (ok: bool)
      requires Valid() && input.Valid() && !KnownTag(Message(), tag)
      modifies this`unknown, input`pos
      ensures Valid() && input.Valid()
      ensures AfterTag(old(Message()), tag, old(input.Rest())) == if ok then Parse(Message(), input.Rest()) else Failed
      ensures ok ==> |input.Rest()| <= |old(input.Rest())|
    {
      hide Parse, AfterTag, FieldAt;
      AfterUnusual(Message(), tag, input.Rest());
      var field;
      ok, field := input.SkipField(tag);
      if !ok {
        return;
      }
      unknown := unknown + [field];
    }

    /** Reads a tag, and says what parsing comes to after it. */
    method NextTag(input: CodedInputStream) returns (tag: nat, known: bool)
      requires Valid() && input.Valid()
      modifies input`pos, input`legitimateEnd
      ensures Valid() && input.Valid() && Message() == old(Message())
      ensures known <==> 0 < tag <= 16383
      ensures if tag == 0 || tag % 8 == END_GROUP
        then Parsed(Parse(Message(), old(input.Rest())), true, Message(), input.legitimateEnd, input.Rest())
        else Parse(Message(), old(input.Rest())) == AfterTag(Message(), tag, input.Rest())
      ensures tag != 0 ==> |input.Rest()| < |old(input.Rest())|
    {
      hide Parse, AfterTag, Took;
      ghost var s := input.Rest();
      tag, known := input.ReadTagWithCutoff(16383);
      if tag == 0 || tag % 8 == END_GROUP {
        ParseStops(Message(), s, tag, input.Rest());
      } else {
        ParseTag(Message(), s, tag, input.Rest());
      }
    }

    /** Takes the tag of a next hop record, if it is there. */
    method ExpectHop(input: CodedInputStream) returns (taken: bool)
      requires Valid() && input.Valid()
      modifies input`pos
      ensures Valid() && input.Valid() && Message() == old(Message()) && |input.Rest()| <= |old(input.Rest())|
      ensures Parse(Message(), old(input.Rest()))
        == if taken then AfterTag(Message(), HOP_TAG, input.Rest()) else Parse(Message(), input.Rest())
      ensures taken ==> |input.Rest()| < |old(input.Rest())|
    {
      hide Parse, AfterTag, Took;
      ghost var s := input.Rest();
      taken := input.ExpectTag(1034);
      if taken { ParseTag(Message(), s, 1034, input.Rest()); }
    }

    method AtEnd(input: CodedInputStream) returns (atEnd: bool)
      requires Valid() && input.Valid()
      modifies input`legitimateEnd
      ensures Valid() && input.Valid() && Message() == old(Message())
      ensures atEnd ==> input.Rest() == [] && input.legitimateEnd
    {
      atEnd := input.ExpectAtEnd();
    }

    method MergePartialFromCodedStream(input: CodedInputStream) returns (ok: bool)
      requires Valid() && input.Valid()
      modifies this, name, input`pos, input`limit, input`legitimateEnd
      ensures Valid() && input.Valid() && (name == old(name) || fresh(name))
      ensures forall h :: h in hops ==> h in old(hops) || fresh(h)
      ensures ok ==> input.limit == old(input.limit)
      ensures Parsed(Parse(old(Message()), old(input.Rest())), ok, Message(), input.legitimateEnd, input.Rest())
    {
      hide Parse, AfterTag, Message, Valid, Value;
      ghost var goal := Parse(Message(), input.Rest());
      while true
        invariant Valid() && input.Valid() && input.limit == old(input.limit)
        invariant name == old(name) || fresh(name)
        invariant forall h :: h in hops ==> h in old(hops) || fresh(h)
        invariant Parse(Message(), input.Rest()) == goal
        decreases |input.Rest()|
      {
        var tag, known := NextTag(input);
        var parseHops := known && tag / 8 == 129 && tag == 1034;
        if known && tag / 8 == 7 && tag == 58 {
          ok := ParseName(input);
          if !ok {
            return;
          }
          parseHops := ExpectHop(input);
        } else if !parseHops {
          // handle_unusual:
          if tag == 0 || tag % 8 == END_GROUP {
            return true;
          }
          ok := Keep(tag, input);
          if !ok {
            return;
          }
        }
        if parseHops {
          ok := ParseHops(input);
          if !ok {
            return;
          }
          var atEnd := AtEnd(input);
          if atEnd {
            ParseNothing(Message());
            return true;
          }
        }
      }
    }

    method MergeFrom(from: FibEntry)
      requires Valid() && from.Valid() && Footprint() !! from.Footprint()
      modifies this, name
      ensures Valid() && Message() == Merge(old(Message()), from.Message())
    {
      hide MergeName, HopValues;
      MergeHops(from);
      MergeNames(from);
      unknown := unknown + from.unknown;
    }

    method MergeNames(from: FibEntry)
      requires Valid() && from.Valid() && this != from && Names() !! from.Names()
      modifies this`hasBits, this`name, name
      ensures Valid() && from.Valid() && from.Value() == old(from.Value())
      ensures Value() == old(Value()).(name := MergeFib(old(Value()), from.Value()).name)
    {
      hide HopValues;
      LowBits(from.hasBits);
      if from.hasBits & 0xff != 0 {
        if from.HasName() {
          var n := MutableName();
          n.MergeFrom(from.name);
        }
      }
    }

    /** Appends a copy of each record of the other list. */
    method MergeHops(from: FibEntry)
      requires Valid() && from.Valid() && this != from
      modifies this`hops
      ensures Valid() && from.Valid() && from.Value() == old(from.Value())
      ensures Value() == old(Value()).(hops := old(Value()).hops + from.Value().hops)
    {
      ghost var v, w := Value(), from.Value();
      hide HopValues;
      for i := 0 to |from.hops|
        invariant Valid() && from.Valid() && from.Value() == w
        invariant Value() == v.(hops := v.hops + w.hops[..i])
      {
        HopValueAt(from.hops, i);
        AddCopy(from.hops[i]);
        assert v.hops + w.hops[..i] + [w.hops[i]] == v.hops + w.hops[..i + 1];
      }
      assert w.hops[..|from.hops|] == w.hops;
    }

    method AddCopy(source: NextHopRecord)
      requires Valid()
      modifies this`hops
      ensures Valid() && Value() == old(Value()).(hops := old(Value()).hops + [source.Value()])
    {
      ghost var v := Value();
      var h := AddNextHopRecord();
      h.MergeFrom(source);
      assert MergeHop(NO_HOP, source.Value()) == source.Value();
      assert HopValues(hops) == v.hops + [source.Value()];
    }

    method SizeOfHop(hop: NextHopRecord, ghost i: nat) returns (n: nat)
      requires Valid() && i < |hops| && hop == hops[i]
      modifies hop`cachedSize
      ensures Valid() && Value() == old(Value())
      ensures hop.Sized() && n == |HopStreams(Value().hops)[i]|
    {
      hide Ser, HopStreams;
      n := hop.ByteSize();
      HopStreamsAt(Value().hops, i);
      assert HopValues(hops) == old(HopValues(hops));
    }

    /** The sizes of the hops with their length prefixes, but without their tags. */
    method SizeOfHops() returns (total: nat)
      requires Valid()
      modifies hops`cachedSize
      ensures Valid() && Value() == old(Value()) && (forall h :: h in hops ==> h.Sized())
      ensures 2 * |hops| + total == |Records(Repeated(129, HopStreams(Value().hops)))|
    {
      hide Records, Ser, Varint, HopStreams, Repeated;
      ghost var v := Value();
      ghost var streams := HopStreams(v.hops);
      total := 0;
      SmallTags();
      NoRecords(129, streams, []);
      for i := 0 to |hops|
        invariant Valid() && Value() == v
        invariant forall k :: 0 <= k < i ==> hops[k].Sized()
        invariant 2 * i + total == |Records(Repeated(129, streams[..i]))|
      {
        var n := SizeOfHop(hops[i], i);
        total := total + |Varint(n)| + n;
        RepeatedAppend(129, streams, i);
      }
      assert streams[..|hops|] == streams;
    }

    /** The size of the serialized message; every part's size is kept for the serializer. */
    method ByteSize() returns (total: nat)
      requires Valid()
      modifies this`cachedSize, Names()`cachedSize, hops`cachedSize
      ensures Valid() && Value() == old(Value())
      ensures total == |Ser(Message())| && Sized()
    {
      hide Records, Ser, Varint, HopStreams, Repeated;
      total := 0;
      FibParts(Value());
      NameRecordLength(Value());
      LowBits(hasBits);
      NoRecords(129, [], unknown);
      if hasBits & 0xff != 0 {
        if HasName() {
          var n := name.ByteSize();
          total := total + 1 + |Varint(n)| + n;
        }
      }
      total := total + 2 * |hops|;
      var hopsSize := SizeOfHops();
      total := total + hopsSize;
      if unknown != [] {
        total := total + |Records(unknown)|;
      }
      cachedSize := total;
    }

    method SerializeWithCachedSizesToArray(target: array<byte>, at: nat) returns (end: nat)
      requires Valid() && Sized() && at + cachedSize <= target.Length
      modifies target
      ensures end == at + cachedSize && Wrote(old(target[..]), target[..], at, Ser(Message()))
    {
      hide Records, Ser, Record, Wrote, HopStreams, Repeated, NameRecord, HopValues;
      ghost var before, v := target[..], Value();
      ghost var first, rest := NameRecord(v), Records(Repeated(129, HopStreams(v.hops)));
      end := at;
      FibParts(v);
      NoRecords(129, [], unknown);
      end := SerializeName(target, at);
      ghost var now, mid := target[..], end;
      end := SerializeHops(target, end);
      WroteBoth(before, now, target[..], at, mid, first, rest);
      assert first + rest + [] == first + rest;
      if unknown != [] {
        now, mid := target[..], end;
        end := SerializeUnknownFieldsToArray(unknown, target, end);
        WroteBoth(before, now, target[..], at, mid, first + rest, Records(unknown));
      }
    }

    method SerializeName(target: array<byte>, at: nat) returns (end: nat)
      requires Valid() && (HasName() ==> name.Sized()) && at + |NameRecord(Value())| <= target.Length
      modifies target
      ensures end == at + |NameRecord(Value())| && Wrote(old(target[..]), target[..], at, NameRecord(Value()))
    {
      hide Ser, Record;
      end := at;
      if HasName() {
        end := WriteName(7, name, target, end);
      }
    }

    method SerializeHops(target: array<byte>, at: nat) returns (end: nat)
      requires Valid() && forall h :: h in hops ==> h.Sized()
      requires at + |Records(Repeated(129, HopStreams(Value().hops)))| <= target.Length
      modifies target
      ensures end == at + |Records(Repeated(129, HopStreams(Value().hops)))|
      ensures Wrote(old(target[..]), target[..], at, Records(Repeated(129, HopStreams(Value().hops))))
    {
      hide Records, Ser, Record, Wrote, HopStreams, Repeated, Varint;
      ghost var before := target[..];
      ghost var streams := HopStreams(Value().hops);
      end := at;
      NothingWritten(before, at);
      NoRecords(129, streams, []);
      for i := 0 to |hops|
        invariant end == at + |Records(Repeated(129, streams[..i]))|
        invariant Wrote(before, target[..], at, Records(Repeated(129, streams[..i])))
      {
        HopStreamsAt(Value().hops, i);
        RepeatedAppend(129, streams, i);
        RepeatedLength(129, streams, i + 1);
        ghost var now, mid := target[..], end;
        end := WriteHop(129, hops[i], target, end);
        WroteBoth(before, now, target[..], at, mid, Records(Repeated(129, streams[..i])),
          Record(LengthDelimited(129, streams[i])));
      }
      assert streams[..|hops|] == streams;
    }
  }

  method ReadFib(input: CodedInputStream, message: FibEntry) returns (ok: bool)
    requires input.Valid() && message.Valid()
    modifies message, message.name, input`pos, input`limit, input`legitimateEnd
    ensures message.Valid() && (message.name == old(message.name) || fresh(message.name))
    ensures forall h :: h in message.hops ==> h in old(message.hops) || fresh(h)
    ensures input.Valid() && (ok ==> input.limit == old(input.limit))
    ensures ReadNested(Nested(old(message.Message()), old(input.Rest())), ok, message.Message(), old(input.Rest()),
                       input.Rest())
  {
    hide Parse, Length;
    var oldLimit;
    ok, oldLimit := input.PushLength();
    if !ok {
      return;
    }
    ok := message.MergePartialFromCodedStream(input);
    if !ok || !input.legitimateEnd {
      return false;
    }
    input.PopLimit(oldLimit);
  }

  method WriteFib(number: nat, message: FibEntry, target: array<byte>, at: nat) returns (end: nat)
    requires message.Valid() && message.Sized()
    requires at + |Record(LengthDelimited(number, Ser(message.Message())))| <= target.Length
    modifies target
    ensures end == at + |Record(LengthDelimited(number, Ser(message.Message())))|
    ensures Wrote(old(target[..]), target[..], at, Record(LengthDelimited(number, Ser(message.Message()))))
  {
    hide Ser, Record, Wrote, Varint, Tag;
    ghost var before, m := target[..], message.Message();
    PrefixAndContent(number, Ser(m));
    end := WriteLengthPrefix(number, message.cachedSize, target, at);
    ghost var now, mid := target[..], end;
    end := message.SerializeWithCachedSizesToArray(target, end);
    WroteBoth(before, now, target[..], at, mid, Varint(Tag(number, 2)) + Varint(message.cachedSize), Ser(m));
  }

  class FibEntryMessage {
    var hasBits: bv32
    var fib: FibEntry?
    var unknown: seq<Field>
    var cachedSize: nat

    constructor ()
      ensures Valid() && Value() == NO_ENTRY && fresh(Footprint())
    {
      hasBits, fib, unknown, cachedSize := 0, null, [], 0;
    }

    predicate HasFib()
      reads this
    {
      hasBits & 1 != 0
    }

    ghost function Footprint(): (f: set<object>)
      reads this, fib
      ensures this in f
    {
      {this} + (if fib == null then {} else fib.Footprint())
    }

    /** A FibEntry object that the has-bit does not count is empty. */
    ghost predicate Valid()
      reads this, Footprint()
    {
      && (fib != null ==> fib.Valid())
      && (HasFib() ==> fib != null)
      && (fib != null && !HasFib() ==> fib.Value() == NO_FIB)
    }

    ghost function Value(): EntryValue
      requires Valid()
      reads this, Footprint()
    {
      EntryValue(if HasFib() then Some(fib.Value()) else None, unknown)
    }

    ghost function Message(): (m: Msg)
      requires Valid()
      reads this, Footprint()
      ensures m.EntryMsg?
    {
      EntryMsg(Value())
    }

    ghost predicate Sized()
      requires Valid()
      reads this, Footprint()
    {
      && cachedSize == |Ser(Message())|
      && (HasFib() ==> fib.Sized())
    }

    method Clear()
      requires Valid()
      modifies Footprint()
      ensures Valid() && Value() == NO_ENTRY && Footprint() <= old(Footprint())
    {
      if HasFib() {
        if fib != null {
          fib.Clear();
        }
      }
      hasBits := 0;
      unknown := [];
    }

    method MutableFib() returns (r: FibEntry)
      requires Valid()
      modifies this`hasBits, this`fib
      ensures Valid() && HasFib() && r == fib && (if old(fib) == null then fresh(r.Footprint()) else r == old(fib))
      ensures Value() == old(Value()).(fib := Some(OrElse(old(Value()).fib, NO_FIB)))
    {
      SetBits(hasBits);
      hasBits := hasBits | 1;
      if fib == null {
        fib := new FibEntry();
      }
      r := fib;
    }

    /** Reads the fib_entry record, whose tag has been read. */
    method ParseFib(input: CodedInputStream) returns (ok: bool)
      requires Valid() && input.Valid()
      modifies Footprint(), input`pos, input`limit, input`legitimateEnd
      ensures Valid() && input.Valid() && (ok ==> input.limit == old(input.limit))
      ensures fresh(Footprint() - old(Footprint()))
      ensures AfterTag(old(Message()), FIB_TAG, old(input.Rest()))
        == if ok then Parse(Message(), input.Rest()) else Failed
      ensures ok ==> |input.Rest()| < |old(input.Rest())|
    {
      hide Parse, Length, AfterTag;
      AfterFibTag(Value(), input.Rest());
      var e := MutableFib();
      ok := ReadFib(input, e);
    }

    method Keep(tag: nat, input: CodedInputStream) returns (ok: bool)
      requires Valid() && input.Valid() && tag != FIB_TAG
      modifies this`unknown, input`pos
      ensures Valid() && input.Valid() && Footprint() == old(Footprint())
      ensures AfterTag(old(Message()), tag, old(input.Rest())) == if ok then Parse(Message(), input.Rest()) else Failed
      ensures ok ==> |input.Rest()| <= |old(input.Rest())|
    {
      hide Parse, AfterTag, FieldAt;
      AfterUnusual(Message(), tag, input.Rest());
      var field;
      ok, field := input.SkipField(tag);
      if !ok {
        return;
      }
      unknown := unknown + [field];
    }

    /** Reads a tag, and says what parsing comes to after it. */
    method NextTag(input: CodedInputStream) returns (tag: nat, known: bool)
      requires Valid() && input.Valid()
      modifies input`pos, input`legitimateEnd
      ensures Valid() && input.Valid() && Footprint() == old(Footprint()) && Message() == old(Message())
      ensures known <==> 0 < tag <= 16383
      ensures if tag == 0 || tag % 8 == END_GROUP
        then Parsed(Parse(Message(), old(input.Rest())), true, Message(), input.legitimateEnd, input.Rest())
        else Parse(Message(), old(input.Rest())) == AfterTag(Message(), tag, input.Rest())
      ensures tag != 0 ==> |input.Rest()| < |old(input.Rest())|
    {
      hide Parse, AfterTag, Took;
      ghost var s := input.Rest();
      tag, known := input.ReadTagWithCutoff(16383);
      if tag == 0 || tag % 8 == END_GROUP {
        ParseStops(Message(), s, tag, input.Rest());
      } else {
        ParseTag(Message(), s, tag, input.Rest());
      }
    }

    method AtEnd(input: CodedInputStream) returns (atEnd: bool)
      requires Valid() && input.Valid()
      modifies input`legitimateEnd
      ensures Valid() && input.Valid() && Footprint() == old(Footprint()) && Message() == old(Message())
      ensures atEnd ==> input.Rest() == [] && input.legitimateEnd
    {
      atEnd := input.ExpectAtEnd();
    }

    method MergePartialFromCodedStream(input: CodedInputStream) returns (ok: bool)
      requires Valid() && input.Valid()
      modifies Footprint(), input`pos, input`limit, input`legitimateEnd
      ensures Valid() && input.Valid() && fresh(Footprint() - old(Footprint()))
      ensures ok ==> input.limit == old(input.limit)
      ensures Parsed(Parse(old(Message()), old(input.Rest())), ok, Message(), input.legitimateEnd, input.Rest())
    {
      hide Parse, AfterTag, Message, Valid, Value;
      ghost var goal := Parse(Message(), input.Rest());
      while true
        invariant Valid() && input.Valid() && input.limit == old(input.limit)
        invariant fresh(Footprint() - old(Footprint()))
        invariant Parse(Message(), input.Rest()) == goal
        decreases |input.Rest()|
      {
        var tag, known := NextTag(input);
        if known && tag / 8 == 128 && tag == 1026 {
          ok := ParseFib(input);
          if !ok {
            return;
          }
          var atEnd := AtEnd(input);
          if atEnd {
            ParseNothing(Message());
            return true;
          }
        } else {
          // handle_unusual:
          if tag == 0 || tag % 8 == END_GROUP {
            return true;
          }
          ok := Keep(tag, input);
          if !ok {
            return;
          }
        }
      }
    }

    method MergeFrom(from: FibEntryMessage)
      requires Valid() && from.Valid() && Footprint() !! from.Footprint()
      modifies Footprint()
      ensures Valid() && Message() == Merge(old(Message()), from.Message())
    {
      hide MergeFib;
      MergeFibs(from);
      unknown := unknown + from.unknown;
    }

    method MergeFibs(from: FibEntryMessage)
      requires Valid() && from.Valid() && Footprint() !! from.Footprint()
      modifies Footprint()
      ensures Valid() && from.Valid() && from.Value() == old(from.Value())
      ensures Value() == old(Value()).(fib := MergeEntry(old(Value()), from.Value()).fib)
    {
      hide MergeFib;
      LowBits(from.hasBits);
      if from.hasBits & 0xff != 0 {
        if from.HasFib() {
          MergeOne(from.fib);
        }
      }
    }

    method MergeOne(other: FibEntry)
      requires Valid() && other.Valid() && Footprint() !! other.Footprint()
      modifies Footprint()
      ensures Valid()
      ensures Value() == old(Value()).(fib := Some(MergeFib(OrElse(old(Value()).fib, NO_FIB), other.Value())))
    {
      hide MergeFib;
      var e := MutableFib();
      e.MergeFrom(other);
    }

    method ByteSize() returns (total: nat)
      requires Valid()
      modifies Footprint()
      ensures Valid() && Value() == old(Value()) && Footprint() == old(Footprint())
      ensures total == |Ser(Message())| && Sized()
    {
      hide Records, Ser, Varint;
      total := 0;
      EntryParts(Value());
      LowBits(hasBits);
      NoRecords(128, [], unknown);
      if hasBits & 0xff != 0 {
        if HasFib() {
          var n := fib.ByteSize();
          total := total + 2 + |Varint(n)| + n;
        }
      }
      if unknown != [] {
        total := total + |Records(unknown)|;
      }
      cachedSize := total;
    }

    method SerializeWithCachedSizesToArray(target: array<byte>, at: nat) returns (end: nat)
      requires Valid() && Sized() && at + cachedSize <= target.Length
      modifies target
      ensures Valid() && Value() == old(Value())
      ensures end == at + cachedSize && Wrote(old(target[..]), target[..], at, Ser(Message()))
    {
      hide Records, Ser, Record, Wrote, Varint;
      ghost var before, first := target[..], FibRecord(Value());
      end := at;
      EntryParts(Value());
      NothingWritten(before, at);
      NoRecords(128, [], unknown);
      if HasFib() {
        end := WriteFib(128, fib, target, end);
      }
      assert first + [] == first;
      if unknown != [] {
        ghost var now, mid := target[..], end;
        end := SerializeUnknownFieldsToArray(unknown, target, end);
        WroteBoth(before, now, target[..], at, mid, first, Records(unknown));
      }
    }
  }

  /** Sizes the message, then writes it to an array of that size. */
  method SerializeToArray(message: FibEntryMessage) returns (r: array<byte>)
    requires message.Valid()
    modifies message.Footprint()
    ensures message.Valid() && message.Value() == old(message.Value())
    ensures fresh(r) && r[..] == Ser(message.Message())
  {
    hide Ser, Wrote, FibEntryMessage.Valid, FibEntryMessage.Value;
    var size := message.ByteSize();
    r := new byte[size];
    ghost var before := r[..];
    var end := message.SerializeWithCachedSizesToArray(r, 0);
    WroteAll(before, r[..], Ser(message.Message()));
  }

  /** Clears the message and parses it from all the bytes. */
  method ParseFromArray(message: FibEntryMessage, data: bytes) returns (ok: bool)
    requires message.Valid()
    modifies message.Footprint()
    ensures message.Valid()
    ensures ok <==> Whole(Parse(EntryMsg(NO_ENTRY), data))
    ensures ok ==> message.Message() == Parse(EntryMsg(NO_ENTRY), data).msg
  {
    hide Parse;
    message.Clear();
    var input := new CodedInputStream(data);
    ok := message.MergePartialFromCodedStream(input);
    ok := ok && input.legitimateEnd;
  }

  /** A parse method did what Parse says: whether it succeeded, the message, and whether it ended cleanly. */
  predicate Parsed(r: ParseResult, ok: bool, m: Msg, clean: bool, rest: bytes)
  {
    match r
    case Failed => !ok
    case Ended(msg, whole) => ok && m == msg && clean == whole && (whole ==> rest == [])
  }

  /** The length prefix of a string of bytes, and the bytes. */
  function BytesSize(content: bytes): nat { |Varint(|content|)| + |content| }

  lemma SmallTags()
    ensures |Varint(Tag(8, 2))| == 1 && |Varint(Tag(7, 2))| == 1
    ensures |Varint(Tag(129, 2))| == 2 && |Varint(Tag(128, 2))| == 2
    ensures |Varint(Tag(105, 0))| == 2 && |Varint(Tag(106, 0))| == 2
  {
  }

  lemma NoRecords(number: nat, contents: seq<bytes>, unknown: seq<Field>)
    ensures Records(Repeated(number, contents[..0])) == Records([]) == []
    ensures unknown == [] ==> Records(unknown) == []
  {
  }

  lemma NothingWritten(before: bytes, at: nat)
    requires at <= |before|
    ensures Wrote(before, before, at, Records([]))
  {
  }

  lemma WroteAll(before: bytes, after: bytes, s: bytes)
    requires Wrote(before, after, 0, s) && |before| == |s|
    ensures after == s
  {
  }

  lemma SerParts(m: Msg)
    ensures Ser(m) == Records(KnownFields(m)) + Records(Unknown(m))
  {
    RecordsConcat(KnownFields(m), Unknown(m));
  }

  /** One more record of a repeated field. */
  lemma RepeatedAppend(number: nat, contents: seq<bytes>, i: nat)
    requires i < |contents|
    ensures var f := LengthDelimited(number, contents[i]);
      && Records(Repeated(number, contents[..i + 1])) == Records(Repeated(number, contents[..i])) + Record(f)
      && |Record(f)| == |Varint(Tag(number, 2))| + BytesSize(contents[i])
  {
    var f := LengthDelimited(number, contents[i]);
    assert Repeated(number, contents[..i + 1]) == Repeated(number, contents[..i]) + [f];
    RecordsConcat(Repeated(number, contents[..i]), [f]);
    RecordsOfOne(f);
    DelimitedLength(number, contents[i]);
    hide Records, Record, Varint;
  }

  lemma RepeatedLength(number: nat, contents: seq<bytes>, i: nat)
    requires i <= |contents|
    ensures |Records(Repeated(number, contents[..i]))| <= |Records(Repeated(number, contents))|
  {
    assert Repeated(number, contents) == Repeated(number, contents[..i]) + Repeated(number, contents[i..]);
    RecordsConcat(Repeated(number, contents[..i]), Repeated(number, contents[i..]));
    hide Records;
  }

  lemma SetBits(h: bv32)
    ensures (h | 1) & 1 != 0 && (h | 1) & 2 == h & 2
    ensures (h | 2) & 2 != 0 && (h | 2) & 1 == h & 1
  {
  }

  lemma LowBits(h: bv32)
    ensures h & 0xff == 0 ==> h & 1 == 0 && h & 2 == 0
  {
  }

  lemma NumberRecord(number: nat, value: Option<nat>)
    ensures Records(Optional(number, value)) == if value.None? then [] else Record(VarintField(number, value.value))
  {
    if value.Some? { RecordsOfOne(VarintField(number, value.value)); }
  }

  lemma NumberLength(number: nat, value: Option<nat>)
    requires number == 105 || number == 106
    ensures |Records(Optional(number, value))| == if value.None? then 0 else 2 + |Varint(value.value)|
  {
    NumberRecord(number, value);
    SmallTags();
    hide Records, Varint;
  }

  lemma NameParts(v: NameValue)
    ensures Ser(NameMsg(v)) == Records(Repeated(8, v.components)) + Records(v.unknown)
  {
    SerParts(NameMsg(v));
    hide Ser, Records;
  }

  lemma HopParts(v: HopValue)
    ensures Ser(HopMsg(v))
      == Records(Optional(105, v.faceId)) + Records(Optional(106, v.cost)) + Records(v.unknown)
  {
    SerParts(HopMsg(v));
    RecordsConcat(Optional(105, v.faceId), Optional(106, v.cost));
    hide Ser, Records, Optional;
  }

  lemma PrefixAndContent(number: nat, content: bytes)
    ensures Record(LengthDelimited(number, content)) == Varint(Tag(number, 2)) + Varint(|content|) + content
  {
    hide Varint;
  }

  function NameRecord(v: FibValue): bytes
  {
    if v.name.None? then [] else Record(LengthDelimited(7, Ser(NameMsg(v.name.value))))
  }

  lemma NameRecordLength(v: FibValue)
    ensures |NameRecord(v)| == if v.name.None? then 0
      else var n := |Ser(NameMsg(v.name.value))|; 1 + |Varint(n)| + n
  {
    if v.name.Some? { DelimitedLength(7, Ser(NameMsg(v.name.value))); }
    SmallTags();
    hide Ser, Record, Varint;
  }

  function FibRecord(v: EntryValue): bytes
  {
    if v.fib.None? then [] else Record(LengthDelimited(128, Ser(FibMsg(v.fib.value))))
  }

  lemma EntryParts(v: EntryValue)
    ensures Ser(EntryMsg(v)) == FibRecord(v) + Records(v.unknown)
    ensures |FibRecord(v)| == if v.fib.None? then 0 else var n := |Ser(FibMsg(v.fib.value))|; 2 + |Varint(n)| + n
  {
    SerParts(EntryMsg(v));
    SmallTags();
    if v.fib.Some? {
      RecordsOfOne(LengthDelimited(128, Ser(FibMsg(v.fib.value))));
      DelimitedLength(128, Ser(FibMsg(v.fib.value)));
    }
    hide Ser, Record, Varint;
  }

  lemma FibParts(v: FibValue)
    ensures Ser(FibMsg(v)) == NameRecord(v) + Records(Repeated(129, HopStreams(v.hops))) + Records(v.unknown)
  {
    SerParts(FibMsg(v));
    var first := if v.name.None? then [] else [LengthDelimited(7, Ser(NameMsg(v.name.value)))];
    RecordsConcat(first, Repeated(129, HopStreams(v.hops)));
    if v.name.Some? { RecordsOfOne(first[0]); }
    assert Records([]) == [];
    assert KnownFields(FibMsg(v)) == first + Repeated(129, HopStreams(v.hops));
    hide Ser, Record, HopStreams, Records, KnownFields;
  }
}
