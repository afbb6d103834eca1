/**
  The wire format of Protocol Buffers messages, as the Encoding guide describes it: varints, tags and
  records, and the fields a message keeps although it does not know them.
 */
module Wire {
  import opened Components

  type bytes = seq<byte>

  datatype Option<T> = None | Some(value: T)

  const TWO31 := 0x8000_0000
  const TWO32 := 0x1_0000_0000
  const TWO64 := 0x1_0000_0000_0000_0000

  // ----- varints -----

  function Varint(n: nat): (s: bytes)
    ensures s != []
  {
    if n < 128 then [n] else [n % 128 + 128] + Varint(n / 128)
  }

  datatype VarintResult = Bad | Read(value: nat, size: nat)

  /** A varint of at most `limit` bytes. */
  function ReadVarint(s: bytes, limit: nat): (r: VarintResult)
    ensures r.Read? ==> 1 <= r.size <= |s|
  {
    if s == [] || limit == 0 then Bad
    else if s[0] < 128 then Read(s[0], 1)
    else
      match ReadVarint(s[1..], limit - 1)
      case Bad => Bad
      case Read(v, n) => Read(s[0] - 128 + 128 * v, n + 1)
  }

  function Pow128(k: nat): (p: nat)
    ensures p > 0
  {
    if k == 0 then 1 else 128 * Pow128(k - 1)
  }

  lemma {:induction false} ReadVarintOfVarint(n: nat, limit: nat, rest: bytes)
    requires n < Pow128(limit) && limit > 0
    ensures ReadVarint(Varint(n) + rest, limit) == Read(n, |Varint(n)|)
  {
    if n >= 128 {
      ReadVarintOfVarint(n / 128, limit - 1, rest);
      assert (Varint(n) + rest)[1..] == Varint(n / 128) + rest;
    }
  }

  /** A 64-bit number written as a varint is read back, whatever follows it. */
  lemma VarintRoundTrip(n: nat, rest: bytes)
    requires n < TWO64
    ensures ReadVarint(Varint(n) + rest, 10) == Read(n, |Varint(n)|)
  {
    assert Pow128(5) == 0x8_0000_0000;
    assert Pow128(10) == 0x8_0000_0000 * Pow128(5) by {
      assert Pow128(10) == 128 * Pow128(9);
      assert Pow128(9) == 128 * Pow128(8);
      assert Pow128(8) == 128 * Pow128(7);
      assert Pow128(7) == 128 * Pow128(6);
      assert Pow128(6) == 128 * Pow128(5);
    }
    ReadVarintOfVarint(n, 10, rest);
  }

  // ----- records -----

  datatype Field =
    | VarintField(number: nat, value: nat)
    | Fixed64Field(number: nat, octets: bytes)
    | LengthDelimited(number: nat, content: bytes)
    | Group(number: nat, fields: seq<Field>)
    | Fixed32Field(number: nat, octets: bytes)

  function WireType(f: Field): nat
  {
    match f
    case VarintField(_, _) => 0
    case Fixed64Field(_, _) => 1
    case LengthDelimited(_, _) => 2
    case Group(_, _) => 3
    case Fixed32Field(_, _) => 5
  }

  function Tag(number: nat, wireType: nat): nat { number * 8 + wireType }

  const END_GROUP := 4

  function Record(f: Field): bytes
    decreases f, 1
  {
    Varint(Tag(f.number, WireType(f))) + Payload(f)
  }

  function Payload(f: Field): bytes
    decreases f, 0
  {
    match f
    case VarintField(_, value) => Varint(value)
    case Fixed64Field(_, octets) => octets
    case LengthDelimited(_, content) => Varint(|content|) + content
    case Group(number, fields) => Records(fields) + Varint(Tag(number, END_GROUP))
    case Fixed32Field(_, octets) => octets
  }

  function Records(fs: seq<Field>): bytes
    decreases fs, 0
  {
    if fs == [] then [] else Record(fs[0]) + Records(fs[1..])
  }

  /** What the C++ types allow: 32-bit tags other than 0, 64-bit varints, lengths that fit an int. */
  predicate Fits(f: Field)
    decreases f
  {
    0 < Tag(f.number, WireType(f)) < TWO32
    && match f
       case VarintField(_, value) => value < TWO64
       case Fixed64Field(_, octets) => |octets| == 8
       case LengthDelimited(_, content) => |content| < TWO31
       case Group(_, fields) => forall g :: g in fields ==> Fits(g)
       case Fixed32Field(_, octets) => |octets| == 4
  }

  // ----- reading -----

  /** ReadTag: 0 at the end, and where no tag can be read. */
  function ReadTag(s: bytes): (r: (nat, nat))
    ensures r.1 <= |s| && (r.0 != 0 ==> r.1 >= 1) && r.0 < TWO32
  {
    match ReadVarint(s, 10)
    case Bad => (0, 0)
    case Read(v, n) => (v % TWO32, n)
  }

  datatype FieldResult = BadField | ReadField(field: Field, size: nat)
  datatype FieldsResult = BadFields | ReadFields(fields: seq<Field>, endTag: nat, size: nat)

  function Length(s: bytes): VarintResult
  {
    match ReadVarint(s, 10)
    case Bad => Bad
    case Read(v, n) => if v % TWO32 < TWO31 && n + v % TWO32 <= |s| then Read(v % TWO32, n) else Bad
  }

  /** The record whose tag has been read. */
  function FieldAt(tag: nat, s: bytes): (r: FieldResult)
    ensures r.ReadField? ==> r.size <= |s| && (r.field.LengthDelimited? ==> |r.field.content| < r.size)
    decreases |s|, 1
  {
    var number := tag / 8;
    if tag % 8 == 0 then
      match ReadVarint(s, 10)
      case Bad => BadField
      case Read(v, n) => ReadField(VarintField(number, v % TWO64), n)
    else if tag % 8 == 1 then
      if |s| < 8 then BadField else ReadField(Fixed64Field(number, s[..8]), 8)
    else if tag % 8 == 2 then
      match Length(s)
      case Bad => BadField
      case Read(v, n) => ReadField(LengthDelimited(number, s[n..n + v]), n + v)
    else if tag % 8 == 3 then
      match FieldsUntilEnd(s)
      case BadFields => BadField
      case ReadFields(fields, endTag, size) =>
        if endTag == Tag(number, END_GROUP) then ReadField(Group(number, fields), size) else BadField
    else if tag % 8 == 5 then
      if |s| < 4 then BadField else ReadField(Fixed32Field(number, s[..4]), 4)
    else BadField
  }

  /** The records up to an end-group tag or a tag of 0. */
  function FieldsUntilEnd(s: bytes): (r: FieldsResult)
    ensures r.ReadFields? ==> r.size <= |s|
    decreases |s|, 0
  {
    var (tag, n) := ReadTag(s);
    if tag == 0 || tag % 8 == END_GROUP then ReadFields([], tag, n)
    else
      match FieldAt(tag, s[n..])
      case BadField => BadFields
      case ReadField(f, k) =>
        match FieldsUntilEnd(s[n + k..])
        case BadFields => BadFields
        case ReadFields(fs, endTag, m) => ReadFields([f] + fs, endTag, n + k + m)
  }

  lemma FieldsEnd(s: bytes, tag: nat, n: nat)
    requires ReadTag(s) == (tag, n) && (tag == 0 || tag % 8 == END_GROUP)
    ensures FieldsUntilEnd(s) == ReadFields([], tag, n)
  {
    hide ReadTag;
  }

  lemma FieldsStep(s: bytes, tag: nat, n: nat, f: Field, k: nat)
    requires ReadTag(s) == (tag, n) && n <= |s| && tag != 0 && tag % 8 != END_GROUP
    requires FieldAt(tag, s[n..]) == ReadField(f, k) && n + k <= |s|
    ensures FieldsUntilEnd(s) ==
      match FieldsUntilEnd(s[n + k..])
      case BadFields => BadFields
      case ReadFields(fs, endTag, m) => ReadFields([f] + fs, endTag, n + k + m)
  {
    hide ReadTag, FieldAt;
  }

  lemma GroupAt(number: nat, s: bytes)
    ensures FieldAt(Tag(number, 3), s) ==
      match FieldsUntilEnd(s)
      case BadFields => BadField
      case ReadFields(fs, endTag, k) =>
        if endTag == Tag(number, END_GROUP) then ReadField(Group(number, fs), k) else BadField
  {
    hide FieldsUntilEnd, ReadVarint, Length;
    assert Tag(number, 3) / 8 == number && Tag(number, 3) % 8 == 3;
  }

  // ----- what has been read does not depend on what follows -----

  lemma {:induction false} VarintPrefix(s: bytes, t: bytes, limit: nat)
    requires ReadVarint(s, limit).Read?
    ensures ReadVarint(s + t, limit) == ReadVarint(s, limit)
  {
    if s[0] >= 128 {
      assert (s + t)[1..] == s[1..] + t;
      VarintPrefix(s[1..], t, limit - 1);
    }
  }

  lemma TagPrefix(s: bytes, t: bytes)
    requires ReadTag(s).0 != 0
    ensures ReadTag(s + t) == ReadTag(s)
  {
    VarintPrefix(s, t, 10);
  }

  lemma LengthPrefix(s: bytes, t: bytes)
    requires Length(s).Read?
    ensures Length(s + t) == Length(s)
  {
    hide ReadVarint;
    VarintPrefix(s, t, 10);
  }

  lemma Dropped(s: bytes, t: bytes, n: nat)
    requires n <= |s|
    ensures (s + t)[n..] == s[n..] + t
  {
  }

  lemma {:induction false} FieldPrefix(tag: nat, s: bytes, t: bytes)
    requires FieldAt(tag, s).ReadField?
    ensures FieldAt(tag, s + t) == FieldAt(tag, s)
    decreases |s|, 1
  {
    hide ReadVarint, Length, FieldsUntilEnd;
    if tag % 8 == 0 {
      VarintPrefix(s, t, 10);
    } else if tag % 8 == 1 {
      assert (s + t)[..8] == s[..8];
    } else if tag % 8 == 2 {
      LengthPrefix(s, t);
      var l := Length(s);
      assert (s + t)[l.size..l.size + l.value] == s[l.size..l.size + l.value];
    } else if tag % 8 == 3 {
      FieldsPrefix(s, t);
    } else {
      assert (s + t)[..4] == s[..4];
    }
  }

  lemma {:induction false} FieldsPrefix(s: bytes, t: bytes)
    requires FieldsUntilEnd(s).ReadFields? && FieldsUntilEnd(s).endTag != 0
    ensures FieldsUntilEnd(s + t) == FieldsUntilEnd(s)
    decreases |s|, 0
  {
    hide ReadTag, FieldAt;
    var (tag, n) := ReadTag(s);
    if tag == 0 || tag % 8 == END_GROUP {
      TagPrefix(s, t);
      FieldsEnd(s + t, tag, n);
    } else {
      var r := FieldAt(tag, s[n..]);
      TagPrefix(s, t);
      FieldPrefix(tag, s[n..], t);
      Dropped(s, t, n);
      Dropped(s, t, n + r.size);
      FieldsStep(s + t, tag, n, r.field, r.size);
      FieldsPrefix(s[n + r.size..], t);
    }
  }

  /** The stream s starts with the record of f, which is read as f and leaves the tail. */
  predicate Starts(s: bytes, f: Field, tail: bytes)
  {
    var tag := Tag(f.number, WireType(f));
    var n, k := |Varint(tag)|, |Payload(f)|;
    && ReadTag(s) == (tag, n) && tag != 0 && tag % 8 != END_GROUP
    && n + k == |Record(f)| <= |s|
    && FieldAt(tag, s[n..]) == ReadField(f, k)
    && s[n + k..] == tail
  }

  lemma FieldsOfStart(s: bytes, f: Field, tail: bytes)
    requires Starts(s, f, tail)
    ensures FieldsUntilEnd(s) ==
      match FieldsUntilEnd(tail)
      case BadFields => BadFields
      case ReadFields(gs, endTag, m) => ReadFields([f] + gs, endTag, |Record(f)| + m)
  {
    hide FieldsUntilEnd, ReadTag, FieldAt, Tag, Varint, Payload, Record;
    var tag := Tag(f.number, WireType(f));
    FieldsStep(s, tag, |Varint(tag)|, f, |Payload(f)|);
  }

  // ----- round trips -----

  lemma ReadTagOfVarint(tag: nat, rest: bytes)
    requires tag < TWO32
    ensures ReadTag(Varint(tag) + rest) == (tag, |Varint(tag)|)
  {
    VarintRoundTrip(tag, rest);
  }

  lemma TagParts(f: Field)
    requires Fits(f)
    ensures var tag := Tag(f.number, WireType(f));
      0 < tag < TWO32 && tag / 8 == f.number && tag % 8 == WireType(f) != END_GROUP
    ensures f.Group? ==> Tag(f.number, END_GROUP) < TWO32
  {
  }

  lemma RecordsStep(fs: seq<Field>)
    requires fs != []
    ensures Records(fs) == Varint(Tag(fs[0].number, WireType(fs[0]))) + Payload(fs[0]) + Records(fs[1..])
  {
    hide Varint, Payload, Tag, WireType;
  }

  lemma VarintAt(number: nat, value: nat)
    requires value < TWO64
    ensures FieldAt(Tag(number, 0), Varint(value)) == ReadField(VarintField(number, value), |Varint(value)|)
  {
    hide ReadVarint, Varint;
    VarintRoundTrip(value, []);
    assert Varint(value) + [] == Varint(value);
  }

  lemma LengthDelimitedAt(number: nat, content: bytes)
    requires |content| < TWO31
    ensures var s := Varint(|content|) + content;
      FieldAt(Tag(number, 2), s) == ReadField(LengthDelimited(number, content), |s|)
  {
    hide ReadVarint, Varint;
    var n := |Varint(|content|)|;
    VarintRoundTrip(|content|, content);
    assert Length(Varint(|content|) + content) == Read(|content|, n);
    assert (Varint(|content|) + content)[n..n + |content|] == content;
  }

  lemma FixedAt(number: nat, octets: bytes)
    ensures |octets| == 8 ==> FieldAt(Tag(number, 1), octets) == ReadField(Fixed64Field(number, octets), 8)
    ensures |octets| == 4 ==> FieldAt(Tag(number, 5), octets) == ReadField(Fixed32Field(number, octets), 4)
  {
    hide ReadVarint, FieldsUntilEnd;
    if |octets| == 8 {
      assert octets[..8] == octets;
    } else if |octets| == 4 {
      assert octets[..4] == octets;
    }
  }

  /** The payload of a record is read back as its field, groups included. */
  lemma {:induction false} FieldRoundTrip(f: Field)
    requires Fits(f)
    ensures FieldAt(Tag(f.number, WireType(f)), Payload(f)) == ReadField(f, |Payload(f)|)
    decreases f, 0
  {
    hide Varint, Records, FieldsUntilEnd, FieldAt, Tag;
    match f
    case VarintField(number, value) =>
      VarintAt(number, value);
    case Fixed64Field(number, octets) =>
      FixedAt(number, octets);
    case LengthDelimited(number, content) =>
      LengthDelimitedAt(number, content);
    case Group(number, fields) =>
      GroupAt(number, Payload(f));
      TagParts(f);
      GroupRoundTrip(fields, number);
    case Fixed32Field(number, octets) =>
      FixedAt(number, octets);
  }

  lemma {:induction false} GroupRoundTrip(fs: seq<Field>, number: nat)
    requires (forall f :: f in fs ==> Fits(f)) && Tag(number, END_GROUP) < TWO32
    ensures var end := Varint(Tag(number, END_GROUP));
      FieldsUntilEnd(Records(fs) + end) == ReadFields(fs, Tag(number, END_GROUP), |Records(fs)| + |end|)
    decreases fs, 2
  {
    var endTag := Tag(number, END_GROUP);
    var end := Varint(endTag);
    if fs == [] {
      hide FieldsUntilEnd, ReadTag, Varint;
      ReadTagOfVarint(endTag, []);
      assert Records(fs) + end == end == end + [];
      FieldsEnd(end, endTag, |end|);
    } else {
      GroupStep(fs, end);
      GroupRoundTrip(fs[1..], number);
      hide FieldsUntilEnd, Varint, Records, Tag;
      RecordsStep(fs);
      assert [fs[0]] + fs[1..] == fs;
    }
  }

  lemma GroupStep(fs: seq<Field>, end: bytes)
    requires fs != [] && Fits(fs[0])
    ensures FieldsUntilEnd(Records(fs) + end) ==
      match FieldsUntilEnd(Records(fs[1..]) + end)
      case BadFields => BadFields
      case ReadFields(gs, endTag, m) => ReadFields([fs[0]] + gs, endTag, |Record(fs[0])| + m)
    decreases fs, 1
  {
    hide *;
    RecordStarts(fs, end);
    FieldsOfStart(Records(fs) + end, fs[0], Records(fs[1..]) + end);
  }

  lemma RecordStarts(fs: seq<Field>, rest: bytes)
    requires fs != [] && Fits(fs[0])
    ensures Starts(Records(fs) + rest, fs[0], Records(fs[1..]) + rest)
    decreases fs, 0
  {
    RecordsStep(fs);
    TagParts(fs[0]);
    FieldRoundTrip(fs[0]);
    hide ReadTag, Tag, Varint, Payload, FieldAt, Records, Fits, WireType, Starts;
    var tag, payload := Tag(fs[0].number, WireType(fs[0])), Payload(fs[0]);
    ThreeParts(Varint(tag), payload, Records(fs[1..]), rest);
    StartsSo(Records(fs) + rest, fs[0], Records(fs[1..]) + rest);
  }

  lemma StartsSo(s: bytes, f: Field, tail: bytes)
    requires var tag, payload := Tag(f.number, WireType(f)), Payload(f);
      && s == Varint(tag) + (payload + tail)
      && s[|Varint(tag)|..] == payload + tail && s[|Varint(tag)| + |payload|..] == tail
      && 0 < tag < TWO32 && tag % 8 != END_GROUP && FieldAt(tag, payload) == ReadField(f, |payload|)
    ensures Starts(s, f, tail)
  {
    hide ReadTag, Tag, Varint, Payload, FieldAt, WireType;
    var tag, payload := Tag(f.number, WireType(f)), Payload(f);
    ReadTagOfVarint(tag, payload + tail);
    FieldPrefix(tag, payload, tail);
  }

  lemma ThreeParts(a: bytes, b: bytes, c: bytes, rest: bytes)
    ensures var s, tail := a + b + c + rest, c + rest;
      s == a + (b + tail) && s[|a|..] == b + tail && s[|a| + |b|..] == tail
  {
  }

  lemma {:induction false} RecordsConcat(fs: seq<Field>, gs: seq<Field>)
    ensures Records(fs + gs) == Records(fs) + Records(gs)
  {
    if fs == [] {
      assert fs + gs == gs;
    } else {
      assert (fs + gs)[1..] == fs[1..] + gs;
      RecordsConcat(fs[1..], gs);
    }
  }
}
