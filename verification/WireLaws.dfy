/** The bytes of varints and records, one by one, and the order in which a message is written. */
module WireLaws {
  import opened Components
  import opened Wire
  import opened FibMessages
  import opened FibRoundTrip

  // ----- varints -----

  /** Byte i of a varint holds the i-th group of seven bits, and its top bit says whether another byte follows. */
  lemma {:induction false} VarintBytes(n: nat, i: nat)
    requires i < |Varint(n)|
    ensures Varint(n)[i] % 128 == n / Pow128(i) % 128
    ensures Varint(n)[i] >= 128 <==> i + 1 < |Varint(n)|
  {
    if i > 0 {
      VarintBytes(n / 128, i - 1);
      DivideTwice(n, 128, Pow128(i - 1));
    }
  }

  /** A varint has no more bytes than the number needs. */
  lemma {:induction false} VarintLength(n: nat)
    ensures n < Pow128(|Varint(n)|)
    ensures |Varint(n)| > 1 ==> n >= Pow128(|Varint(n)| - 1)
  {
    if n >= 128 {
      VarintLength(n / 128);
    } else {
      assert Pow128(1) == 128;
    }
  }

  /** The low seven bits of the first k bytes, the first byte counting least. */
  function Groups(s: bytes, k: nat): nat
    requires k <= |s|
  {
    if k == 0 then 0 else Groups(s, k - 1) + s[k - 1] % 128 * Pow128(k - 1)
  }

  lemma {:induction false} GroupsFirst(s: bytes, k: nat)
    requires 0 < k <= |s|
    ensures Groups(s, k) == s[0] % 128 + 128 * Groups(s[1..], k - 1)
  {
    if k == 1 {
      assert Groups(s, 1) == Groups(s, 0) + s[0] % 128 * Pow128(0);
    } else {
      GroupsFirst(s, k - 1);
      var d, p := s[k - 1] % 128, Pow128(k - 2);
      assert s[1..][k - 2] == s[k - 1];
      assert d * (128 * p) == 128 * (d * p);
    }
  }

  /** The first k bytes are a varint: every one but the last has its top bit set. */
  predicate IsVarint(s: bytes, k: nat)
  {
    1 <= k <= |s| && s[k - 1] < 128 && forall i :: 0 <= i < k - 1 ==> s[i] >= 128
  }

  /** Reading gives what the groups spell, up to the first byte below 128; there must be one within the limit. */
  lemma {:induction false} ReadVarintIs(s: bytes, limit: nat, k: nat)
    ensures ReadVarint(s, limit).Read? && ReadVarint(s, limit).size == k <==> k <= limit && IsVarint(s, k)
    ensures k <= limit && IsVarint(s, k) ==> ReadVarint(s, limit) == Read(Groups(s, k), k)
    ensures ReadVarint(s, limit) == Bad <==> forall i :: 0 <= i < limit && i < |s| ==> s[i] >= 128
    decreases limit
  {
    if s != [] && limit > 0 {
      if s[0] < 128 {
        assert Groups(s, 1) == s[0] by { assert Groups(s, 0) == 0 && Pow128(0) == 1; }
      } else {
        var rest := s[1..];
        ReadVarintIs(rest, limit - 1, if k == 0 then 0 else k - 1);
        assert forall i :: 1 <= i < |s| ==> rest[i - 1] == s[i];
        if k > 1 && IsVarint(s, k) { GroupsFirst(s, k); }
      }
    }
  }

  // ----- records -----

  lemma SmallVarints()
    ensures Varint(150) == [0x96, 0x01] && Varint(300) == [0xac, 0x02] && forall n: nat :: n < 128 ==> Varint(n) == [n]
  {
    assert Varint(1) == [1] && Varint(2) == [2];
  }

  /** The examples of the Encoding guide, and a record of each other wire type. */
  lemma GuideExamples(octets: bytes)
    ensures Record(VarintField(1, 150)) == [0x08, 0x96, 0x01]
    ensures Record(LengthDelimited(2, [0x74, 0x65, 0x73, 0x74, 0x69, 0x6e, 0x67]))
      == [0x12, 0x07, 0x74, 0x65, 0x73, 0x74, 0x69, 0x6e, 0x67]
    ensures Record(Fixed64Field(1, octets)) == [0x09] + octets && Record(Fixed32Field(1, octets)) == [0x0d] + octets
    ensures Record(Group(1, [VarintField(1, 150)])) == [0x0b, 0x08, 0x96, 0x01, 0x0c]
  {
    SmallVarints();
    hide Varint;
    OneRecord(VarintField(1, 150));
    assert Record(VarintField(1, 150)) == [0x08] + [0x96, 0x01];
  }

  lemma OneRecord(f: Field)
    ensures Records([f]) == Record(f) && Records([]) == []
  {
    hide Record;
    assert [f][1..] == [];
  }

  // ----- messages -----

  /** Known fields are written in the order of their numbers. */
  lemma KnownInOrder(m: Msg, i: nat, j: nat)
    requires i < j < |KnownFields(m)|
    ensures KnownFields(m)[i].number <= KnownFields(m)[j].number
  {
    hide Ser;
  }

  /** A FIB entry for the name /a with one next hop of face 300 and cost 1. */
  const ENTRY := EntryValue(Some(FibValue(Some(NameValue([[0x61]], [])), [HopValue(Some(300), Some(1), [])], [])), [])

  /** Its bytes, from the inside: name and hop, fib entry, message. */
  lemma EntryBytes()
    ensures Ser(NameMsg(ENTRY.fib.value.name.value)) == [0x42, 0x01, 0x61]
    ensures Ser(HopMsg(ENTRY.fib.value.hops[0])) == [0xc8, 0x06, 0xac, 0x02, 0xd0, 0x06, 0x01]
    ensures Ser(FibMsg(ENTRY.fib.value)) ==
      [0x3a, 0x03, 0x42, 0x01, 0x61, 0x8a, 0x08, 0x07, 0xc8, 0x06, 0xac, 0x02, 0xd0, 0x06, 0x01]
    ensures Ser(EntryMsg(ENTRY)) ==
      [0x82, 0x08, 0x0f, 0x3a, 0x03, 0x42, 0x01, 0x61, 0x8a, 0x08, 0x07, 0xc8, 0x06, 0xac, 0x02, 0xd0, 0x06, 0x01]
  {
    NameBytes();
    HopBytes();
    FibBytes();
    OuterBytes();
  }

  lemma OuterBytes()
    ensures Ser(EntryMsg(ENTRY)) ==
      [0x82, 0x08, 0x0f, 0x3a, 0x03, 0x42, 0x01, 0x61, 0x8a, 0x08, 0x07, 0xc8, 0x06, 0xac, 0x02, 0xd0, 0x06, 0x01]
  {
    hide Ser, Record, Varint;
    FibBytes();
    TagBytes();
    var fib := [0x3a, 0x03, 0x42, 0x01, 0x61, 0x8a, 0x08, 0x07, 0xc8, 0x06, 0xac, 0x02, 0xd0, 0x06, 0x01];
    OneField(EntryMsg(ENTRY), LengthDelimited(128, fib));
    ShortRecord(128, [0x82, 0x08], fib);
  }

  lemma ShortRecord(number: nat, tag: bytes, content: bytes)
    requires Varint(8 * number + 2) == tag && |content| < 128
    ensures Record(LengthDelimited(number, content)) == tag + [|content|] + content
  {
    SmallVarints();
    hide Varint;
  }

  lemma TagBytes()
    ensures Varint(58) == [0x3a] && Varint(66) == [0x42] && Varint(840) == [0xc8, 0x06] && Varint(848) == [0xd0, 0x06]
    ensures Varint(1026) == [0x82, 0x08] && Varint(1034) == [0x8a, 0x08]
  {
    assert Varint(6) == [6] && Varint(8) == [8];
  }

  lemma OneField(m: Msg, f: Field)
    requires KnownFields(m) + Unknown(m) == [f]
    ensures Ser(m) == Record(f)
  {
    OneRecord(f);
    hide Record;
  }

  lemma NameBytes()
    ensures Ser(NameMsg(NameValue([[0x61]], []))) == [0x42, 0x01, 0x61]
  {
    var m := NameMsg(NameValue([[0x61]], []));
    assert [[0x61]][1..] == [];
    assert KnownFields(m) == [LengthDelimited(8, [0x61])];
    OneField(m, LengthDelimited(8, [0x61]));
    TagBytes();
    SmallVarints();
    hide Varint, Ser;
  }

  lemma HopBytes()
    ensures Ser(HopMsg(HopValue(Some(300), Some(1), []))) == [0xc8, 0x06, 0xac, 0x02, 0xd0, 0x06, 0x01]
  {
    var m := HopMsg(HopValue(Some(300), Some(1), []));
    var f, g := VarintField(105, 300), VarintField(106, 1);
    assert KnownFields(m) + Unknown(m) == [f] + [g];
    TwoFields(m, f, g);
    TagBytes();
    SmallVarints();
    hide Varint, KnownFields, Records;
  }

  lemma FibBytes()
    ensures Ser(FibMsg(ENTRY.fib.value)) ==
      [0x3a, 0x03, 0x42, 0x01, 0x61, 0x8a, 0x08, 0x07, 0xc8, 0x06, 0xac, 0x02, 0xd0, 0x06, 0x01]
  {
    NameBytes();
    HopBytes();
    FibFields();
    hide Ser, HopStreams, KnownFields;
    var m := FibMsg(ENTRY.fib.value);
    var name, hop := [0x42, 0x01, 0x61], [0xc8, 0x06, 0xac, 0x02, 0xd0, 0x06, 0x01];
    TwoFields(m, LengthDelimited(7, name), LengthDelimited(129, hop));
    TagBytes();
    hide Varint, Record, Records;
    ShortRecord(7, [0x3a], name);
    ShortRecord(129, [0x8a, 0x08], hop);
  }

  lemma TwoFields(m: Msg, f: Field, g: Field)
    requires KnownFields(m) + Unknown(m) == [f] + [g]
    ensures Ser(m) == Record(f) + Record(g)
  {
    RecordsConcat([f], [g]);
    OneRecord(f);
    OneRecord(g);
    hide Record, Records, KnownFields;
  }

  lemma FibFields()
    ensures KnownFields(FibMsg(ENTRY.fib.value)) == [LengthDelimited(7, Ser(NameMsg(ENTRY.fib.value.name.value)))]
      + [LengthDelimited(129, Ser(HopMsg(ENTRY.fib.value.hops[0])))]
  {
    var hops, hop := ENTRY.fib.value.hops, Ser(HopMsg(ENTRY.fib.value.hops[0]));
    assert hops[1..] == [];
    assert HopStreams(hops) == [hop];
    var rest: seq<bytes> := [hop][1..];
    assert rest == [];
    assert Repeated(129, [hop]) == [LengthDelimited(129, hop)];
    hide Ser;
  }
}
