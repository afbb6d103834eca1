/**
  The parts of the Protocol Buffers library that generated code calls: a coded input stream with its limits,
  and the functions that write records to an array.
 */
module CodedStreams {
  import opened Components
  import opened Wire
  import opened FibSteps

  class CodedInputStream {
    const data: bytes
    var pos: nat
    var limit: nat
    /** The last attempt to read a tag met the end and not a tag of 0. */
    var legitimateEnd: bool

    constructor (data: bytes)
      ensures Valid() && Rest() == data
    {
      this.data, pos, limit, legitimateEnd := data, 0, |data|, false;
    }

    predicate Valid()
      reads this
    {
      pos <= limit <= |data|
    }

    /** The bytes up to the limit. */
    function Rest(): bytes
      requires Valid()
      reads this
    {
      data[pos..limit]
    }

    lemma RestAfter(s: bytes, n: nat)
      requires pos <= limit <= |data| && n <= limit - pos && s == data[pos..limit]
      ensures data[pos + n..limit] == s[n..]
    {
    }

    /** The tag, 0 where there is none, and whether it is one up to the cutoff. */
    method ReadTagWithCutoff(cutoff: nat) returns (tag: nat, known: bool)
      requires Valid()
      modifies this`pos, this`legitimateEnd
      ensures Valid()
      ensures Took(old(Rest()), tag, Rest())
      ensures known <==> 0 < tag <= cutoff
      ensures tag != 0 ==> |Rest()| < |old(Rest())|
      ensures legitimateEnd <==> old(Rest()) == []
      ensures legitimateEnd ==> Rest() == []
    {
      var r := ReadTag(data[pos..limit]);
      tag := r.0;
      known := 0 < tag <= cutoff;
      legitimateEnd := pos == limit;
      RestAfter(data[pos..limit], r.1);
      pos := pos + r.1;
    }

    /**
      Takes the tag if its shortest encoding comes next. The library may also answer false where it would have
      to refill its buffer, so callers may rely on a true answer only.
     */
    method ExpectTag(tag: nat) returns (taken: bool)
      requires Valid() && 0 < tag < TWO32
      modifies this`pos
      ensures Valid()
      ensures taken ==> Took(old(Rest()), tag, Rest()) && |Rest()| < |old(Rest())|
      ensures !taken ==> Rest() == old(Rest())
    {
      var s := data[pos..limit];
      taken := Varint(tag) <= s;
      if taken {
        ReadTagOfVarint(tag, s[|Varint(tag)|..]);
        assert Varint(tag) + s[|Varint(tag)|..] == s;
        RestAfter(s, |Varint(tag)|);
        pos := pos + |Varint(tag)|;
      }
    }

    /** Whether the end has been reached; here too the library may answer false without need. */
    method ExpectAtEnd() returns (atEnd: bool)
      requires Valid()
      modifies this`legitimateEnd
      ensures Valid()
      ensures atEnd ==> Rest() == [] && legitimateEnd
    {
      atEnd := pos == limit;
      if atEnd { legitimateEnd := true; }
    }

    /** The content of a length-delimited record. */
    method ReadBytes() returns (ok: bool, content: bytes)
      requires Valid()
      modifies this`pos
      ensures Valid()
      ensures ok <==> Length(old(Rest())).Read?
      ensures ok ==> content == Content(old(Rest())) && Rest() == AfterContent(old(Rest()))
      ensures ok ==> |Rest()| < |old(Rest())|
    {
      ok, content := false, [];
      var s := data[pos..limit];
      var r := Length(s);
      if r.Read? {
        LengthWithin(s);
        ok, content := true, s[r.size..r.size + r.value];
        RestAfter(s, r.size + r.value);
        pos := pos + r.size + r.value;
      }
    }

    /** A varint of up to 64 bits, of which the low 32 are kept. */
    method ReadUInt32() returns (ok: bool, value: nat)
      requires Valid()
      modifies this`pos
      ensures Valid()
      ensures ok <==> ReadVarint(old(Rest()), 10).Read?
      ensures ok ==> value == ReadVarint(old(Rest()), 10).value % TWO32
      ensures ok ==> Rest() == old(Rest())[ReadVarint(old(Rest()), 10).size..]
      ensures value < TWO32 && (ok ==> |Rest()| < |old(Rest())|)
    {
      ok, value := false, 0;
      var s := data[pos..limit];
      var r := ReadVarint(s, 10);
      if r.Read? {
        ok, value := true, r.value % TWO32;
        RestAfter(s, r.size);
        pos := pos + r.size;
      }
    }

    /** The record whose tag has been read, as a field to be kept. */
    method SkipField(tag: nat) returns (ok: bool, field: Field)
      requires Valid()
      modifies this`pos
      ensures Valid()
      ensures ok <==> FieldAt(tag, old(Rest())).ReadField?
      ensures ok ==> field == FieldAt(tag, old(Rest())).field && Rest() == old(Rest())[FieldAt(tag, old(Rest())).size..]
    {
      ok, field := false, VarintField(0, 0);
      var s := data[pos..limit];
      var r := FieldAt(tag, s);
      if r.ReadField? {
        ok, field := true, r.field;
        RestAfter(s, r.size);
        pos := pos + r.size;
      }
    }

    /** Reads a length and narrows the limit to that many bytes; the caller puts the old limit back. */
    method PushLength() returns (ok: bool, oldLimit: nat)
      requires Valid()
      modifies this`pos, this`limit
      ensures Valid() && oldLimit == old(limit)
      ensures ok <==> Length(old(Rest())).Read?
      ensures ok ==> Rest() == Content(old(Rest())) && limit <= oldLimit
      ensures ok ==> data[limit..oldLimit] == AfterContent(old(Rest()))
      ensures ok ==> |Content(old(Rest()))| + |AfterContent(old(Rest()))| < |old(Rest())|
      ensures !ok ==> limit == old(limit)
    {
      ok, oldLimit := false, limit;
      var s := data[pos..limit];
      var r := Length(s);
      if r.Read? {
        LengthWithin(s);
        ok := true;
        RestAfter(s, r.size + r.value);
        SliceOfSlice(data, pos, limit, r.size, r.size + r.value);
        pos, limit := pos + r.size, pos + r.size + r.value;
      }
    }

    method PopLimit(oldLimit: nat)
      requires Valid() && limit <= oldLimit <= |data|
      modifies this`limit, this`legitimateEnd
      ensures Valid() && limit == oldLimit
      ensures old(Rest()) == [] ==> Rest() == old(data[limit..oldLimit])
    {
      limit, legitimateEnd := oldLimit, false;
    }
  }

  lemma SliceOfSlice(s: bytes, a: nat, b: nat, i: nat, j: nat)
    requires a <= b <= |s| && i <= j <= b - a
    ensures s[a..b][i..j] == s[a + i..a + j]
  {
    var u, v := s[a..b][i..j], s[a + i..a + j];
    assert |u| == |v| && forall k :: 0 <= k < |u| ==> u[k] == s[a + i + k] == v[k];
  }

  lemma LengthWithin(s: bytes)
    requires Length(s).Read?
    ensures 0 < Length(s).size && Length(s).size + Length(s).value <= |s|
  {
    hide ReadVarint;
    assert ReadVarint(s, 10).Read?;
  }

  // ----- writing -----

  /** The array has s at a position, and what it had before everywhere else. */
  ghost predicate Wrote(before: bytes, after: bytes, at: nat, s: bytes)
  {
    at + |s| <= |before| && after == before[..at] + s + before[at + |s|..]
  }

  lemma WroteBoth(a: bytes, b: bytes, c: bytes, at: nat, mid: nat, s: bytes, t: bytes)
    requires Wrote(a, b, at, s) && mid == at + |s| && Wrote(b, c, mid, t)
    ensures Wrote(a, c, at, s + t)
  {
    assert at + |s + t| <= |a|;
    assert b[..at + |s|] == a[..at] + s;
    assert b[at + |s| + |t|..] == a[at + |s + t|..];
  }

  method WriteRaw(s: bytes, target: array<byte>, at: nat) returns (end: nat)
    requires at + |s| <= target.Length
    modifies target
    ensures end == at + |s| && Wrote(old(target[..]), target[..], at, s)
  {
    end := at;
    while end < at + |s|
      invariant at <= end <= at + |s|
      invariant target[..end] == old(target[..at]) + s[..end - at]
      invariant target[end..] == old(target[end..])
    {
      assert s[..end - at + 1] == s[..end - at] + [s[end - at]];
      target[end] := s[end - at];
      end := end + 1;
    }
    assert s[..end - at] == s;
    assert target[..] == target[..end] + target[end..];
  }

  method WriteBytesToArray(number: nat, content: bytes, target: array<byte>, at: nat) returns (end: nat)
    requires at + |Record(LengthDelimited(number, content))| <= target.Length
    modifies target
    ensures end == at + |Record(LengthDelimited(number, content))|
    ensures Wrote(old(target[..]), target[..], at, Record(LengthDelimited(number, content)))
  {
    end := WriteRaw(Record(LengthDelimited(number, content)), target, at);
  }

  method WriteUInt32ToArray(number: nat, value: nat, target: array<byte>, at: nat) returns (end: nat)
    requires at + |Record(VarintField(number, value))| <= target.Length
    modifies target
    ensures end == at + |Record(VarintField(number, value))|
    ensures Wrote(old(target[..]), target[..], at, Record(VarintField(number, value)))
  {
    end := WriteRaw(Record(VarintField(number, value)), target, at);
  }

  method SerializeUnknownFieldsToArray(fields: seq<Field>, target: array<byte>, at: nat) returns (end: nat)
    requires at + |Records(fields)| <= target.Length
    modifies target
    ensures end == at + |Records(fields)|
    ensures Wrote(old(target[..]), target[..], at, Records(fields))
  {
    end := WriteRaw(Records(fields), target, at);
  }

  /** The tag and the length prefix of a nested message, whose size its caller supplies. */
  method WriteLengthPrefix(number: nat, size: nat, target: array<byte>, at: nat) returns (end: nat)
    requires at + |Varint(Tag(number, 2)) + Varint(size)| <= target.Length
    modifies target
    ensures end == at + |Varint(Tag(number, 2)) + Varint(size)|
    ensures Wrote(old(target[..]), target[..], at, Varint(Tag(number, 2)) + Varint(size))
  {
    end := WriteRaw(Varint(Tag(number, 2)) + Varint(size), target, at);
  }
}
