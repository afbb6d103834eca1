/** What parsing does once a tag has been read, tag by tag: the cases of the parse loops' switches. */
module FibSteps {
  import opened Components
  import opened Wire
  import opened FibMessages

  const COMPONENT_TAG := 66
  const FACE_ID_TAG := 840
  const COST_TAG := 848
  const NAME_TAG := 58
  const HOP_TAG := 1034
  const FIB_TAG := 1026

  predicate KnownTag(m: Msg, tag: nat)
  {
    match m
    case NameMsg(_) => tag == COMPONENT_TAG
    case HopMsg(_) => tag == FACE_ID_TAG || tag == COST_TAG
    case FibMsg(_) => tag == NAME_TAG || tag == HOP_TAG
    case EntryMsg(_) => tag == FIB_TAG
  }

  /** What parsing gives when the tag has been read and s is left. */
  function AfterTag(m: Msg, tag: nat, s: bytes): ParseResult
  {
    var r := FieldAt(tag, s);
    if r.BadField? then Failed
    else
      var next := Step(m, r.field);
      if next.None? then Failed else Parse(next.value, s[r.size..])
  }

  /** Reading a tag from s gives this one and leaves the rest. */
  predicate Took(s: bytes, tag: nat, rest: bytes)
  {
    ReadTag(s).0 == tag && rest == s[ReadTag(s).1..]
  }

  lemma ParseTag(m: Msg, s: bytes, tag: nat, rest: bytes)
    requires Took(s, tag, rest) && tag != 0 && tag % 8 != END_GROUP
    ensures Parse(m, s) == AfterTag(m, tag, rest)
  {
    hide ReadTag, FieldAt, Step, Parse;
    var n := ReadTag(s).1;
    ParseStep(m, s, tag, n);
    var r := FieldAt(tag, s[n..]);
    if r.ReadField? { assert s[n..][r.size..] == s[n + r.size..]; }
  }

  lemma ParseStops(m: Msg, s: bytes, tag: nat, rest: bytes)
    requires Took(s, tag, rest) && (tag == 0 || tag % 8 == END_GROUP)
    ensures Parse(m, s) == Ended(m, s == [])
  {
    hide ReadTag, Parse;
    ParseEnd(m, s);
  }

  lemma FieldHasTag(tag: nat, s: bytes)
    requires FieldAt(tag, s).ReadField?
    ensures var f := FieldAt(tag, s).field; f.number == tag / 8 && WireType(f) == tag % 8
  {
    hide ReadVarint, FieldsUntilEnd, Length;
  }

  lemma KnownByTag(m: Msg, tag: nat, s: bytes)
    requires FieldAt(tag, s).ReadField?
    ensures Known(m, FieldAt(tag, s).field) <==> KnownTag(m, tag)
  {
    FieldHasTag(tag, s);
    hide FieldAt;
  }

  /** handle_unusual: the record is kept among the unknown fields. */
  lemma AfterUnusual(m: Msg, tag: nat, s: bytes)
    requires !KnownTag(m, tag)
    ensures var r := FieldAt(tag, s);
      AfterTag(m, tag, s) == if r.BadField? then Failed else Parse(WithUnknown(m, Unknown(m) + [r.field]), s[r.size..])
  {
    if FieldAt(tag, s).ReadField? {
      KnownByTag(m, tag, s);
      hide FieldAt, Parse;
    }
  }

  /** The content of a length-delimited record whose length starts at s, and what follows it. */
  function Content(s: bytes): bytes
    requires Length(s).Read?
  {
    s[Length(s).size..Length(s).size + Length(s).value]
  }

  function AfterContent(s: bytes): bytes
    requires Length(s).Read?
  {
    s[Length(s).size + Length(s).value..]
  }

  lemma DelimitedField(tag: nat, s: bytes)
    requires tag % 8 == 2
    ensures FieldAt(tag, s) == if Length(s) == Bad then BadField
      else ReadField(LengthDelimited(tag / 8, Content(s)), Length(s).size + Length(s).value)
  {
    hide ReadVarint, FieldsUntilEnd, Length;
  }

  lemma AfterComponentTag(v: NameValue, s: bytes)
    ensures AfterTag(NameMsg(v), COMPONENT_TAG, s) == if Length(s) == Bad then Failed
      else Parse(NameMsg(v.(components := v.components + [Content(s)])), AfterContent(s))
  {
    DelimitedField(COMPONENT_TAG, s);
    hide FieldAt, Length, Parse;
  }

  lemma AfterNumberTag(v: HopValue, tag: nat, s: bytes)
    requires tag == FACE_ID_TAG || tag == COST_TAG
    ensures var r := ReadVarint(s, 10);
      AfterTag(HopMsg(v), tag, s) == if r == Bad then Failed
        else
          var n := Some(r.value % TWO32);
          Parse(HopMsg(if tag == FACE_ID_TAG then v.(faceId := n) else v.(cost := n)), s[r.size..])
  {
    var r := ReadVarint(s, 10);
    if r.Read? {
      assert r.value % TWO64 % TWO32 == r.value % TWO32;
      assert FieldAt(tag, s) == ReadField(VarintField(tag / 8, r.value % TWO64), r.size);
    }
    hide ReadVarint, FieldsUntilEnd, Length, Parse;
  }

  /** What parsing the record's content into the message m gives. */
  function Nested(m: Msg, s: bytes): (r: ParseResult)
    ensures r.Ended? ==> SameKind(m, r.msg)
  {
    if Length(s) == Bad then Failed else Parse(m, Content(s))
  }

  lemma AfterNameTag(v: FibValue, s: bytes)
    ensures var r := Nested(NameMsg(OrElse(v.name, NO_NAME)), s);
      Whole(r) ==> Length(s).Read?
    ensures var r := Nested(NameMsg(OrElse(v.name, NO_NAME)), s);
      AfterTag(FibMsg(v), NAME_TAG, s)
        == if !Whole(r) then Failed else Parse(FibMsg(v.(name := Some(r.msg.name))), AfterContent(s))
  {
    DelimitedField(NAME_TAG, s);
    hide FieldAt, Length, Parse;
  }

  lemma AfterHopTag(v: FibValue, s: bytes)
    ensures var r := Nested(HopMsg(NO_HOP), s);
      Whole(r) ==> Length(s).Read?
    ensures var r := Nested(HopMsg(NO_HOP), s);
      AfterTag(FibMsg(v), HOP_TAG, s)
        == if !Whole(r) then Failed else Parse(FibMsg(v.(hops := v.hops + [r.msg.hop])), AfterContent(s))
  {
    DelimitedField(HOP_TAG, s);
    hide FieldAt, Length, Parse;
  }

  lemma AfterFibTag(v: EntryValue, s: bytes)
    ensures var r := Nested(FibMsg(OrElse(v.fib, NO_FIB)), s);
      Whole(r) ==> Length(s).Read?
    ensures var r := Nested(FibMsg(OrElse(v.fib, NO_FIB)), s);
      AfterTag(EntryMsg(v), FIB_TAG, s)
        == if !Whole(r) then Failed else Parse(EntryMsg(v.(fib := Some(r.msg.fib))), AfterContent(s))
  {
    DelimitedField(FIB_TAG, s);
    hide FieldAt, Length, Parse;
  }
}
