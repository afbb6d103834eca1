/**
  Bytes, and the component order shared by names and exclude filters.
 */
module Components {
  type byte = b: int | 0 <= b < 256
  type Component = seq<byte>

  /** The bytes of an ASCII text. */
  function Ascii(s: string): (b: Component)
    ensures |b| == |s| && forall i :: 0 <= i < |s| ==> b[i] == s[i] as int % 256
  {
    seq(|s|, i requires 0 <= i < |s| => s[i] as int % 256)
  }

  /** ndn_memcmp on arrays of equal length. */
  function MemCmp(a: Component, b: Component): int
    requires |a| == |b|
  {
    if a == [] then 0
    else if a[0] > b[0] then 1
    else if a[0] < b[0] then -1
    else MemCmp(a[1..], b[1..])
  }

  /** Name::Component::compare: the shorter component comes first. */
  function Compare(a: Component, b: Component): int
  {
    if |a| < |b| then -1 else if |a| > |b| then 1 else MemCmp(a, b)
  }

  function Sign(n: int): int { if n < 0 then -1 else if n > 0 then 1 else 0 }

  /** The number that the bytes spell, most significant first. */
  function Value(s: Component): nat
  {
    if s == [] then 0 else 256 * Value(s[..|s| - 1]) + s[|s| - 1]
  }

  // ----- division -----

  lemma Multiple(d: nat, x: nat)
    requires x >= 1
    ensures d * x >= d
  {
  }

  lemma QuotientIs(n: nat, d: nat, q: nat, r: nat)
    requires n == d * q + r && r < d
    ensures n / d == q
  {
    var p, s := n / d, n % d;
    assert n == d * p + s;
    assert d * (p - q) == r - s;
    if p > q {
      Multiple(d, p - q);
    } else if p < q {
      assert d * (q - p) == s - r;
      Multiple(d, q - p);
    }
  }

  /** Dividing by b and then by d is dividing by both at once. */
  lemma DivideTwice(n: nat, b: nat, d: nat)
    requires b > 0 && d > 0
    ensures b * d > 0 && n / b / d == n / (b * d)
  {
    var q, r := n / b / d, n / b % d;
    var s := b * r + n % b;
    assert b * r <= b * (d - 1);
    assert s < b * d;
    assert n == b * (d * q + r) + n % b == (b * d) * q + s;
    QuotientIs(n, b * d, q, s);
  }

  // ----- the order -----

  lemma {:induction false} MemCmpLast(a: Component, b: Component, x: byte, y: byte)
    requires |a| == |b|
    ensures MemCmp(a + [x], b + [y]) == if MemCmp(a, b) != 0 then MemCmp(a, b) else Sign(x - y)
  {
    if a == [] {
      assert MemCmp([x], [y]) == Sign(x - y);
    } else {
      assert (a + [x])[1..] == a[1..] + [x] && (b + [y])[1..] == b[1..] + [y];
      MemCmpLast(a[1..], b[1..], x, y);
    }
  }

  lemma {:induction false} MemCmpIsValueOrder(a: Component, b: Component)
    requires |a| == |b|
    ensures MemCmp(a, b) == Sign(Value(a) - Value(b))
  {
    if a != [] {
      var n := |a| - 1;
      MemCmpIsValueOrder(a[..n], b[..n]);
      MemCmpLast(a[..n], b[..n], a[n], b[n]);
      assert a == a[..n] + [a[n]] && b == b[..n] + [b[n]];
    }
  }

  lemma {:induction false} ValueInjective(a: Component, b: Component)
    requires |a| == |b| && Value(a) == Value(b)
    ensures a == b
  {
    if a != [] {
      var n := |a| - 1;
      ValueInjective(a[..n], b[..n]);
      assert a == a[..n] + [a[n]] && b == b[..n] + [b[n]];
    }
  }

  /** The canonical order is the order of (length, value) pairs, hence total. */
  lemma CompareIsTotalOrder(a: Component, b: Component, c: Component)
    ensures Compare(a, b) == if |a| != |b| then Sign(|a| - |b|) else Sign(Value(a) - Value(b))
    ensures Compare(a, b) == 0 <==> a == b
    ensures Compare(a, b) == -Compare(b, a)
    ensures Compare(a, b) <= 0 && Compare(b, c) <= 0 ==> Compare(a, c) <= 0
    ensures Compare(a, b) < 0 && Compare(b, c) <= 0 ==> Compare(a, c) < 0
    ensures Compare(a, b) <= 0 && Compare(b, c) < 0 ==> Compare(a, c) < 0
  {
    if |a| == |b| {
      MemCmpIsValueOrder(a, b);
      MemCmpIsValueOrder(b, a);
      if Value(a) == Value(b) {
        ValueInjective(a, b);
      }
    }
    if |b| == |c| {
      MemCmpIsValueOrder(b, c);
    }
    if |a| == |c| {
      MemCmpIsValueOrder(a, c);
    }
  }
}

/**
  Number components: Name::Component::fromNumberWithPrefix and toNumberWithPrefix.
 */
module NumberComponents {
  import opened Components

  const TWO64 := 0x1_0000_0000_0000_0000

  /** The bytes of n without leading zeros, most significant first. */
  function Minimal(n: nat): Component
  {
    if n == 0 then [] else Minimal(n / 256) + [n % 256]
  }

  function Reversed(s: Component): (r: Component)
    ensures |r| == |s|
  {
    if s == [] then [] else Reversed(s[1..]) + [s[0]]
  }

  lemma {:induction false} ReversedPush(s: Component, x: byte)
    ensures Reversed(s + [x]) == [x] + Reversed(s)
  {
    if s == [] {
      assert [x][1..] == [];
    } else {
      assert (s + [x])[1..] == s[1..] + [x];
      ReversedPush(s[1..], x);
      assert Reversed(s + [x]) == Reversed(s[1..] + [x]) + [s[0]];
      assert [x] + Reversed(s[1..]) + [s[0]] == [x] + (Reversed(s[1..]) + [s[0]]);
    }
  }

  lemma MovePushed(n: nat, pushed: Component)
    requires n != 0
    ensures Minimal(n) + Reversed(pushed) == Minimal(n / 256) + Reversed(pushed + [n % 256])
  {
    hide Reversed, Minimal;
    ReversedPush(pushed, n % 256);
    MinimalStep(n);
    var high, last, rest := Minimal(n / 256), [n % 256], Reversed(pushed);
    assert high + last + rest == high + (last + rest);
  }

  lemma MinimalStep(n: nat)
    requires n != 0
    ensures Minimal(n) == Minimal(n / 256) + [n % 256]
  {
  }

  method FromNumberWithPrefix(number: nat, prefix: Component) returns (value: Component)
    requires number < TWO64
    ensures value == prefix + Minimal(number)
  {
    value := prefix;
    var n := number;
    ghost var pushed: Component := [];
    // What has been pushed is the minimal form of the digits taken off so far, reversed.
    while n != 0
      invariant value == prefix + pushed
      invariant Minimal(number) == Minimal(n) + Reversed(pushed)
    {
      MovePushed(n, pushed);
      pushed := pushed + [n % 256];
      value := value + [n % 256];
      n := n / 256;
    }
    assert value[|prefix|..] == pushed;
    // Reversing it gives the minimal form itself.
    value := value[..|prefix|] + Reversed(value[|prefix|..]);
  }

  datatype NumberResult = Number(value: nat) | WrongPrefix

  method ToNumberWithPrefix(component: Component, prefix: Component) returns (r: NumberResult)
    ensures prefix <= component ==> r == Number(Value(component[|prefix|..]) % TWO64)
    ensures !(prefix <= component) ==> r == WrongPrefix
  {
    if |component| < |prefix| {
      return WrongPrefix;
    }
    CompareIsTotalOrder(component[..|prefix|], prefix, prefix);
    if MemCmp(component[..|prefix|], prefix) != 0 {
      return WrongPrefix;
    }
    assert prefix <= component;
    var result := 0;
    ghost var tail := component[|prefix|..];
    assert tail[..|tail|] == tail;
    for i := |prefix| to |component|
      invariant result == Value(tail[..i - |prefix|]) % TWO64
    {
      ghost var v := Value(tail[..i - |prefix|]);
      assert tail[..i + 1 - |prefix|][..i - |prefix|] == tail[..i - |prefix|];
      MulAddWraps(v, component[i]);
      // Multiplication and addition of uint64_t values.
      result := result * 256 % TWO64;
      result := (result + component[i]) % TWO64;
    }
    return Number(result);
  }

  lemma MulAddWraps(v: nat, x: byte)
    ensures (v % TWO64 * 256 % TWO64 + x) % TWO64 == (256 * v + x) % TWO64
  {
  }

  lemma {:induction false} ValueOfMinimal(n: nat)
    ensures Value(Minimal(n)) == n
    ensures Minimal(n) != [] ==> Minimal(n)[0] != 0
  {
    if n != 0 {
      ValueOfMinimal(n / 256);
      var m := Minimal(n / 256);
      assert (m + [n % 256])[..|m|] == m;
    }
  }

  /** No shorter byte string spells n. */
  lemma {:induction false} MinimalIsShortest(s: Component)
    ensures |Minimal(Value(s))| <= |s|
  {
    if s != [] {
      MinimalIsShortest(s[..|s| - 1]);
    }
  }

  /** Reading back a component made from a 64-bit number gives the number. */
  lemma NumberRoundTrip(n: nat, prefix: Component)
    requires n < TWO64
    ensures var c := prefix + Minimal(n);
      prefix <= c && Value(c[|prefix|..]) % TWO64 == n
  {
    ValueOfMinimal(n);
    assert (prefix + Minimal(n))[|prefix|..] == Minimal(n);
  }

  lemma {:induction false} MinimalLengthMonotone(a: nat, b: nat)
    requires a <= b
    ensures |Minimal(a)| <= |Minimal(b)|
  {
    if a != 0 {
      MinimalLengthMonotone(a / 256, b / 256);
    }
  }

  lemma {:induction false} MemCmpSamePrefix(p: Component, a: Component, b: Component)
    requires |a| == |b|
    ensures MemCmp(p + a, p + b) == MemCmp(a, b)
  {
    if p == [] {
      assert p + a == a && p + b == b;
    } else {
      assert (p + a)[1..] == p[1..] + a && (p + b)[1..] == p[1..] + b;
      MemCmpSamePrefix(p[1..], a, b);
    }
  }

  /** Under one prefix, the canonical order of number components is the order of the numbers. */
  lemma NumberOrder(prefix: Component, a: nat, b: nat)
    ensures Compare(prefix + Minimal(a), prefix + Minimal(b)) == Sign(a - b)
  {
    if a < b {
      MinimalLengthMonotone(a, b);
    } else {
      MinimalLengthMonotone(b, a);
    }
    ValueOfMinimal(a);
    ValueOfMinimal(b);
    if |Minimal(a)| == |Minimal(b)| {
      MemCmpSamePrefix(prefix, Minimal(a), Minimal(b));
      MemCmpIsValueOrder(Minimal(a), Minimal(b));
    }
  }
}

/**
  The escaped form of one component: Name::toEscapedString and Name::fromEscapedString.
  Strings and component values are both byte sequences, as in the C++ code.
 */
module EscapedStrings {
  import opened Components

  type Text = seq<byte>
  datatype Blob = Null | Blob(value: Component)

  const PERCENT: byte := 0x25
  const DOT: byte := 0x2e
  const SLASH: byte := 0x2f
  const COLON: byte := 0x3a

  predicate IsSpace(c: byte) { c == 0x20 || c == 0x0a || c == 0x0d || c == 0x09 }

  function TrimLeft(s: Text): Text
  {
    if s != [] && IsSpace(s[0]) then TrimLeft(s[1..]) else s
  }

  function TrimRight(s: Text): Text
  {
    if s != [] && IsSpace(s[|s| - 1]) then TrimRight(s[..|s| - 1]) else s
  }

  function Trim(s: Text): Text { TrimRight(TrimLeft(s)) }

  function FromHexChar(c: byte): int
  {
    if 0x30 <= c <= 0x39 then c - 0x30
    else if 0x41 <= c <= 0x46 then c - 0x41 + 10
    else if 0x61 <= c <= 0x66 then c - 0x61 + 10
    else -1
  }

  /** What one step of unescape consumes and produces. */
  function UnescapeStep(s: Text): (r: (nat, Text))
    requires s != []
    ensures 1 <= r.0 <= |s|
  {
    if s[0] == PERCENT && |s| > 2 then
      var hi, lo := FromHexChar(s[1]), FromHexChar(s[2]);
      (3, if hi < 0 || lo < 0 then s[..3] else [16 * hi + lo])
    else (1, [s[0]])
  }

  function Unescaped(s: Text): Text
  {
    if s == [] then [] else UnescapeStep(s).1 + Unescaped(s[UnescapeStep(s).0..])
  }

  method Unescape(str: Text) returns (result: Text)
    ensures result == Unescaped(str)
  {
    hide Unescaped;
    result := [];
    assert str[0..] == str;
    var i := 0;
    while i < |str|
      invariant 0 <= i <= |str|
      invariant result + Unescaped(str[i..]) == Unescaped(str)
    {
      ghost var before := result;
      UnescapedAt(str, i);
      if str[i] == PERCENT && i + 2 < |str| {
        var hi := FromHexChar(str[i + 1]);
        var lo := FromHexChar(str[i + 2]);
        if hi < 0 || lo < 0 {
          // UnescapeStep keeps all three characters.
          result := result + [str[i], str[i + 1], str[i + 2]];
        } else {
          result := result + [16 * hi + lo];
        }
        i := i + 2;
      } else {
        result := result + [str[i]];
      }
      i := i + 1;
    }
    assert str[i..] == [];
    UnescapedEmpty();
  }

  lemma UnescapedEmpty()
    ensures Unescaped([]) == []
  {
  }

  lemma UnescapedAt(s: Text, i: nat)
    requires i < |s|
    ensures Unescaped(s[i..]) ==
      if s[i] == PERCENT && i + 2 < |s| then
        var hi, lo := FromHexChar(s[i + 1]), FromHexChar(s[i + 2]);
        (if hi < 0 || lo < 0 then [s[i], s[i + 1], s[i + 2]] else [16 * hi + lo]) + Unescaped(s[i + 3..])
      else [s[i]] + Unescaped(s[i + 1..])
  {
    var r := s[i..];
    var n := UnescapeStep(r).0;
    assert r[n..] == s[i + n..];
    if n == 3 {
      assert r[..3] == [s[i], s[i + 1], s[i + 2]];
    }
  }

  predicate AllDots(s: Text) { forall k :: 0 <= k < |s| ==> s[k] == DOT }

  function Dots(n: nat): (s: Text)
    ensures |s| == n && AllDots(s)
  {
    seq(n, i => DOT)
  }

  predicate IsUnreserved(x: byte)
  {
    0x30 <= x <= 0x39 || 0x41 <= x <= 0x5a || 0x61 <= x <= 0x7a || x == 0x2b || x == 0x2d || x == 0x2e || x == 0x5f
  }

  /** The digit that an upper-case hex stream prints. */
  function HexDigit(d: nat): (c: byte)
    requires d < 16
    ensures IsUnreserved(c) && FromHexChar(c) == d
  {
    if d < 10 then 0x30 + d else 0x41 + d - 10
  }

  function EscapedByte(x: byte): Text
  {
    if IsUnreserved(x) then [x] else [PERCENT, HexDigit(x / 16), HexDigit(x % 16)]
  }

  function EscapedBytes(value: Component): Text
  {
    if value == [] then [] else EscapedByte(value[0]) + EscapedBytes(value[1..])
  }

  function Escaped(value: Component): Text
  {
    if AllDots(value) then Dots(3) + value else EscapedBytes(value)
  }

  lemma {:induction false} EscapedBytesPush(v: Component, x: byte)
    ensures EscapedBytes(v + [x]) == EscapedBytes(v) + EscapedByte(x)
  {
    if v == [] {
      assert [x][1..] == [];
    } else {
      assert (v + [x])[1..] == v[1..] + [x];
      EscapedBytesPush(v[1..], x);
    }
  }

  lemma EscapedBytesEmpty()
    ensures EscapedBytes([]) == []
  {
  }

  method ToEscapedString(value: Component) returns (result: Text)
    ensures result == Escaped(value)
  {
    hide EscapedBytes;
    var gotNonDot := false;
    var i := 0;
    while i < |value|
      invariant 0 <= i <= |value|
      invariant gotNonDot <==> !AllDots(value[..i])
    {
      if value[i] != DOT {
        gotNonDot := true;
        assert !AllDots(value);
        break;
      }
      i := i + 1;
    }
    result := [];
    if !gotNonDot {
      assert value[..|value|] == value;
      // AllDots(value), so the escaped form is the dots and three more.
      result := Dots(3);
      for j := 0 to |value|
        invariant result == Dots(3) + value[..j]
      {
        result := result + [DOT];
      }
    } else {
      EscapedBytesEmpty();
      for j := 0 to |value|
        invariant result == EscapedBytes(value[..j])
      {
        var x := value[j];
        EscapedBytesPush(value[..j], x);
        assert value[..j + 1] == value[..j] + [x];
        ghost var before := result;
        if IsUnreserved(x) {
          result := result + [x];
        } else {
          result := result + [PERCENT];
          if x < 16 {
            result := result + [0x30];
          } else {
            result := result + [HexDigit(x / 16)];
          }
          result := result + [HexDigit(x % 16)];
        }
        assert result == before + EscapedByte(x);
      }
      assert value[..|value|] == value;
    }
  }

  /** The component that an escaped string stands for, or Null for an illegal one. */
  function StripDots(value: Text): Blob
  {
    if AllDots(value) then (if |value| <= 2 then Null else Blob(value[3..])) else Blob(value)
  }

  function FromEscaped(s: Text): Blob { StripDots(Unescaped(Trim(s))) }

  method FromEscapedString(escaped: Text, begin: nat, end: nat) returns (r: Blob)
    requires begin <= end <= |escaped|
    ensures r == FromEscaped(escaped[begin..end])
  {
    var value := Unescape(Trim(escaped[begin..end]));
    if AllDots(value) {
      // StripDots: Null below three dots.
      r := if |value| <= 2 then Null else Blob(value[3..]);
    } else {
      r := Blob(value);
    }
  }

  // ----- what escaping promises -----

  /** The characters an escaped component consists of. */
  predicate IsSafe(c: byte) { IsUnreserved(c) || c == PERCENT }

  predicate AllSafe(s: Text) { forall k :: 0 <= k < |s| ==> IsSafe(s[k]) }

  lemma {:induction false} EscapedBytesSafe(v: Component)
    ensures AllSafe(EscapedBytes(v)) && |EscapedBytes(v)| >= |v|
  {
    if v != [] {
      EscapedBytesSafe(v[1..]);
    }
  }

  /** An escaped component is never empty and has no slash, colon, comma, star or white space in it. */
  lemma EscapedSafe(v: Component)
    ensures AllSafe(Escaped(v)) && Escaped(v) != []
  {
    EscapedBytesSafe(v);
  }

  lemma {:induction false} UnescapeEscapedBytes(v: Component)
    ensures Unescaped(EscapedBytes(v)) == v
  {
    if v != [] {
      UnescapeEscapedBytes(v[1..]);
      var first, rest := EscapedByte(v[0]), EscapedBytes(v[1..]);
      assert (first + rest)[|first|..] == rest;
      assert UnescapeStep(first + rest) == (|first|, [v[0]]);
    }
  }

  lemma {:induction false} UnescapePlain(s: Text)
    requires forall k :: 0 <= k < |s| ==> s[k] != PERCENT
    ensures Unescaped(s) == s
  {
    if s != [] {
      UnescapePlain(s[1..]);
    }
  }

  lemma TrimSafe(s: Text)
    requires AllSafe(s)
    ensures Trim(s) == s
  {
  }

  /** Unescaping an escaped component gives it back, whatever its bytes. */
  lemma EscapeRoundTrip(v: Component)
    ensures FromEscaped(Escaped(v)) == Blob(v)
  {
    EscapedSafe(v);
    TrimSafe(Escaped(v));
    if AllDots(v) {
      UnescapePlain(Escaped(v));
      assert (Dots(3) + v)[3..] == v;
    } else {
      UnescapeEscapedBytes(v);
    }
  }
}

