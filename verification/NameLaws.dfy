/** What Name::set does with URIs that toUri does not print, and what the canonical order is. */
module NameLaws {
  import opened Components
  import opened EscapedStrings
  import opened NdnNames

  // ----- white space at the ends -----

  lemma TrimNothing(s: Text)
    requires s == [] || (!IsSpace(s[0]) && !IsSpace(s[|s| - 1]))
    ensures Trim(s) == s
  {
  }

  lemma {:induction false} TrimLeftOnly(s: Text, t: Text)
    requires t != [] && !IsSpace(t[0])
    ensures TrimLeft(s + t) == TrimLeft(s) + t
  {
    if s == [] {
      assert s + t == t;
    } else {
      assert (s + t)[1..] == s[1..] + t;
      TrimLeftOnly(s[1..], t);
    }
  }

  /** Trimming takes characters away and adds none. */
  lemma {:induction false} TrimLeftKeeps(s: Text, c: byte)
    requires c !in s
    ensures c !in TrimLeft(s)
  {
    if s != [] { TrimLeftKeeps(s[1..], c); }
  }

  lemma {:induction false} TrimRightKeeps(s: Text, c: byte)
    requires c !in s
    ensures c !in TrimRight(s)
  {
    if s != [] { TrimRightKeeps(s[..|s| - 1], c); }
  }

  lemma TrimTail(s: Text, t: Text)
    requires t != [] && !IsSpace(t[0]) && !IsSpace(t[|t| - 1])
    ensures Trim(s + t) == TrimLeft(s) + t
  {
    TrimLeftOnly(s, t);
    var u := TrimLeft(s) + t;
    assert u[|u| - 1] == t[|t| - 1];
  }

  // ----- printed names inside other texts -----

  /** A printed name has no white space and no colon in it, and starts and ends so that nothing is trimmed. */
  lemma PrintedCharacters(n: NameValue)
    ensures var s := Uri(n, false);
      s != [] && s[0] == SLASH && forall k :: 0 <= k < |s| ==> !IsSpace(s[k]) && s[k] != COLON
  {
    JoinedCharacters(n);
    JoinedStart(n);
    hide JoinedFrom;
  }

  /** Splitting what stands behind the first slash of a printed name. */
  lemma SplitPrinted(n: NameValue)
    ensures SplitComponents(Uri(n, false)[1..]) == n
  {
    hide JoinedFrom, SplitComponents;
    if n == [] {
      SplitEmpty();
      assert Uri(n, false)[1..] == [];
    } else {
      SplitJoined(n);
      assert Uri(n, false) == JoinedFrom(n);
    }
  }

  /** A text without slash and colon, and white space gone. */
  predicate NoSlash(s: Text) { SLASH !in s }
  predicate NoColon(s: Text) { COLON !in s }

  lemma FindsFirst(s: Text, c: byte, t: Text)
    requires c !in s
    ensures Find(s + [c] + t, c, 0) == |s| && (c !in t ==> Find(s + t, c, 0) == |s + t|)
  {
    FindIs(s + [c] + t, c, 0, |s|);
    if c !in t { FindIs(s + t, c, 0, |s + t|); }
  }

  /** Without a scheme: a colon only behind a slash, or none. */
  lemma NoScheme(s: Text)
    requires s == [] || s[0] == SLASH || NoColon(s)
    ensures AfterScheme(s) == s
  {
    if s != [] && s[0] == SLASH {
      FindIs(s, SLASH, 0, 0);
    } else {
      FindIs(s, COLON, 0, |s|);
    }
  }

  lemma SchemeStripped(scheme: Text, t: Text)
    requires NoSlash(scheme) && NoColon(scheme)
    requires t == [] || (!IsSpace(t[0]) && !IsSpace(t[|t| - 1]))
    ensures AfterScheme(scheme + [COLON] + t) == t
  {
    var s := scheme + [COLON] + t;
    hide Find, Trim;
    FindsFirst(scheme, COLON, t);
    assert forall k :: 0 <= k <= |scheme| ==> s[k] == if k < |scheme| then scheme[k] else COLON;
    assert Find(s, SLASH, 0) > |scheme|;
    assert s[|scheme| + 1..] == t;
    TrimNothing(t);
  }

  /** What set reads from a text behind an optional scheme. */
  function Body(t: Text): NameValue
  {
    var rest := AfterAuthority(t);
    if rest.OnlyAuthority? then [] else SplitComponents(rest.text)
  }

  lemma ParsedWithScheme(scheme: Text, t: Text)
    requires NoSlash(scheme) && NoColon(scheme)
    requires t != [] && !IsSpace(t[0]) && !IsSpace(t[|t| - 1])
    ensures ParsedUri(scheme + [COLON] + t) == Body(t)
  {
    hide AfterAuthority, SplitComponents, Find, Trim;
    var uri := scheme + [COLON] + t;
    assert uri == scheme + ([COLON] + t);
    TrimTail(scheme, [COLON] + t);
    var left := TrimLeft(scheme);
    TrimLeftKeeps(scheme, SLASH);
    TrimLeftKeeps(scheme, COLON);
    assert Trim(uri) == left + [COLON] + t;
    SchemeStripped(left, t);
  }

  lemma ParsedWithout(t: Text)
    requires t != [] && !IsSpace(t[0]) && !IsSpace(t[|t| - 1])
    requires t[0] == SLASH || NoColon(t)
    ensures ParsedUri(t) == Body(t)
  {
    TrimNothing(t);
    NoScheme(t);
    hide AfterAuthority, SplitComponents, Find, Trim, AfterScheme;
  }

  /** A name printed without its first slash is read all the same, with and without a scheme. */
  lemma NoLeadingSlash(n: NameValue, scheme: Text)
    requires n != [] && NoSlash(scheme) && NoColon(scheme)
    ensures ParsedUri(Uri(n, false)[1..]) == n
    ensures ParsedUri(scheme + [COLON] + Uri(n, false)[1..]) == n
  {
    var s := Uri(n, false);
    var t := s[1..];
    PrintedCharacters(n);
    EscapedSafe(n[0]);
    assert t[0] == Escaped(n[0])[0] && t[|t| - 1] == s[|s| - 1];
    SplitPrinted(n);
    hide Escaped, JoinedFrom, SplitComponents, Find, Trim, Uri;
    assert NoColon(t);
    ParsedWithout(t);
    ParsedWithScheme(scheme, t);
  }

  lemma AuthorityStripped(authority: Text, n: NameValue)
    requires NoSlash(authority)
    ensures Body([SLASH, SLASH] + authority + Uri(n, false)) == n
  {
    hide Uri, SplitComponents, Find, Trim;
    var s := Uri(n, false);
    var t := [SLASH, SLASH] + authority + s;
    var i := 2 + |authority|;
    PrintedCharacters(n);
    SplitPrinted(n);
    assert t[i..] == s && t[i + 1..] == s[1..];
    assert forall k :: 2 <= k < i ==> t[k] == authority[k - 2];
    FindIs(t, SLASH, 2, i);
    TrimNothing(s[1..]);
  }

  /** An authority between two slashes and the next one is skipped, with and without a scheme. */
  lemma AuthoritySkipped(authority: Text, n: NameValue, scheme: Text)
    requires NoSlash(authority) && NoSlash(scheme) && NoColon(scheme)
    ensures ParsedUri([SLASH, SLASH] + authority + Uri(n, false)) == n
    ensures ParsedUri(scheme + [COLON] + ([SLASH, SLASH] + authority + Uri(n, false))) == n
  {
    var t := [SLASH, SLASH] + authority + Uri(n, false);
    PrintedCharacters(n);
    assert t[|t| - 1] == Uri(n, false)[|Uri(n, false)| - 1];
    AuthorityStripped(authority, n);
    hide Body, Uri;
    ParsedWithout(t);
    ParsedWithScheme(scheme, t);
  }

  /** With nothing behind the authority the name is empty. */
  lemma AuthorityAlone(authority: Text)
    requires NoSlash(authority)
    ensures ParsedUri([SLASH, SLASH] + authority) == []
  {
    hide SplitComponents;
    var a := TrimRight(authority);
    TrimRightKeeps(authority, SLASH);
    TrimRightOnly([SLASH, SLASH], authority);
    var t := [SLASH, SLASH] + a;
    assert Trim([SLASH, SLASH] + authority) == t;
    NoScheme(t);
    FindIs(t, SLASH, 2, |t|);
  }

  lemma {:induction false} TrimRightOnly(s: Text, t: Text)
    requires s != [] && !IsSpace(s[|s| - 1])
    ensures TrimRight(s + t) == s + TrimRight(t)
  {
    if t == [] {
      assert s + t == s;
    } else {
      assert (s + t)[..|s + t| - 1] == s + t[..|t| - 1];
      TrimRightOnly(s, t[..|t| - 1]);
    }
  }

  // ----- white space around -----

  predicate AllSpace(s: Text) { forall k :: 0 <= k < |s| ==> s[k] in [0x20, 0x0a, 0x0d, 0x09] }

  lemma {:induction false} TrimLeftSpace(s: Text, t: Text)
    requires AllSpace(s) && t != [] && !IsSpace(t[0])
    ensures TrimLeft(s + t) == t
  {
    if s == [] {
      assert s + t == t;
    } else {
      assert (s + t)[1..] == s[1..] + t;
      TrimLeftSpace(s[1..], t);
    }
  }

  lemma {:induction false} TrimRightSpace(s: Text, t: Text)
    requires AllSpace(t) && s != [] && !IsSpace(s[|s| - 1])
    ensures TrimRight(s + t) == s
  {
    if t == [] {
      assert s + t == s;
    } else {
      assert (s + t)[..|s + t| - 1] == s + t[..|t| - 1];
      TrimRightSpace(s, t[..|t| - 1]);
    }
  }

  /** Blanks, tabs and line ends around a printed name make no difference. */
  lemma SpaceIgnored(before: Text, n: NameValue, after: Text)
    requires AllSpace(before) && AllSpace(after)
    ensures ParsedUri(before + Uri(n, false) + after) == n
  {
    var s := Uri(n, false);
    PrintedCharacters(n);
    UriRoundTrip(n, false);
    TrimNothing(s);
    hide Uri, AfterAuthority, AfterScheme, SplitComponents;
    assert before + s + after == before + (s + after);
    TrimLeftSpace(before, s + after);
    TrimRightSpace(s, after);
  }

  /** Nor does white space behind the colon of a scheme. */
  lemma SpaceBehindScheme(scheme: Text, before: Text, n: NameValue)
    requires NoSlash(scheme) && NoColon(scheme) && scheme != [] && !IsSpace(scheme[0]) && AllSpace(before)
    ensures ParsedUri(scheme + [COLON] + before + Uri(n, false)) == n
  {
    PrintedCharacters(n);
    PrintedIsBody(n);
    hide Uri, AfterScheme, Trim, ParsedUri, Body;
    var s := Uri(n, false);
    var uri := scheme + [COLON] + before + s;
    assert uri[0] == scheme[0] && uri[|uri| - 1] == s[|s| - 1];
    TrimNothing(uri);
    SchemeAndSpace(scheme, before, s);
    TrimmedFirst(uri, uri);
  }

  lemma PrintedIsBody(n: NameValue)
    ensures Body(Uri(n, false)) == n
  {
    PrintedCharacters(n);
    UriRoundTrip(n, false);
    ParsedWithout(Uri(n, false));
    hide Uri, Body;
  }

  lemma SchemeAndSpace(scheme: Text, before: Text, s: Text)
    requires NoSlash(scheme) && NoColon(scheme) && AllSpace(before)
    requires s != [] && !IsSpace(s[0]) && !IsSpace(s[|s| - 1])
    ensures AfterScheme(scheme + [COLON] + before + s) == s
  {
    var t := scheme + [COLON] + (before + s);
    assert scheme + [COLON] + before + s == t;
    hide Find;
    FindsFirst(scheme, COLON, before + s);
    assert forall k :: 0 <= k <= |scheme| ==> t[k] == if k < |scheme| then scheme[k] else COLON;
    assert Find(t, SLASH, 0) > |scheme|;
    assert t[|scheme| + 1..] == before + s;
    TrimLeftSpace(before, s);
    TrimNothing(s);
    hide TrimLeft, TrimRight;
  }

  lemma TrimmedFirst(s: Text, uri: Text)
    requires Trim(s) == uri != []
    ensures ParsedUri(s) == Body(AfterScheme(uri))
  {
    hide Trim, AfterScheme, AfterAuthority, SplitComponents;
  }

  /** Nor white space around a component. */
  lemma SpaceAroundComponent(before: Text, v: Component, after: Text)
    requires AllSpace(before) && AllSpace(after)
    ensures FromEscaped(before + Escaped(v) + after) == Blob(v)
  {
    var s := Escaped(v);
    EscapedSafe(v);
    EscapeRoundTrip(v);
    TrimSafe(s);
    assert before + s + after == before + (s + after);
    hide Escaped, Unescaped, StripDots;
    TrimLeftSpace(before, s + after);
    TrimRightSpace(s, after);
  }

  // ----- illegal components -----

  /** Only the empty component, "." and ".." are illegal, escaped or not. */
  lemma NullIff(s: Text)
    ensures FromEscaped(s).Null? <==> Unescaped(Trim(s)) in {[], [DOT], [DOT, DOT]}
  {
    var u := Unescaped(Trim(s));
    if AllDots(u) && |u| <= 2 {
      assert u == [] || u == [DOT] || u == [DOT, DOT];
    }
  }

  lemma {:induction false} SplitJoinedThen(x: NameValue, rest: Text)
    requires x != [] && (rest == [] || rest[0] == SLASH)
    ensures JoinedFrom(x) != []
    ensures SplitComponents(JoinedFrom(x)[1..] + rest) == x + SplitComponents(if rest == [] then [] else rest[1..])
  {
    JoinedStep(x);
    JoinedStart(x[1..]);
    hide Escaped, SplitComponents, JoinedFrom;
    var e, more := Escaped(x[0]), JoinedFrom(x[1..]);
    Regroup(e, more, rest);
    SplitFirst(x[0], more + rest);
    if |x| > 1 {
      SplitJoinedThen(x[1..], rest);
      OneAndRest(x, SplitComponents(if rest == [] then [] else rest[1..]));
    } else {
      assert more + rest == rest;
      assert x == [x[0]];
    }
  }

  lemma Regroup(e: Text, more: Text, rest: Text)
    ensures e + more + rest == e + (more + rest) && (more != [] ==> (more + rest)[1..] == more[1..] + rest)
  {
  }

  lemma OneAndRest(x: NameValue, y: NameValue)
    requires x != []
    ensures [x[0]] + (x[1..] + y) == x + y
  {
  }

  lemma JoinedStep(x: NameValue)
    requires x != []
    ensures JoinedFrom(x) == [SLASH] + Escaped(x[0]) + JoinedFrom(x[1..])
    ensures JoinedFrom(x)[1..] == Escaped(x[0]) + JoinedFrom(x[1..])
    ensures |x| == 1 ==> JoinedFrom(x[1..]) == []
  {
    hide Escaped;
    Behind(SLASH, Escaped(x[0]), JoinedFrom(x[1..]));
  }

  lemma Behind(c: byte, s: Text, t: Text)
    ensures ([c] + s + t)[1..] == s + t
  {
  }

  lemma SplitIllegal(junk: Text, rest: Text)
    requires NoSlash(junk) && FromEscaped(junk).Null? && (rest == [] || rest[0] == SLASH)
    ensures SplitComponents(junk + rest) == SplitComponents(if rest == [] then [] else rest[1..])
  {
    hide FromEscaped, Find, SplitComponents;
    var s := junk + rest;
    if s == [] {
    } else {
      FindIs(s, SLASH, 0, |junk|);
      assert s[..|junk|] == junk;
      if rest != [] { assert s[|junk| + 1..] == rest[1..]; }
      SplitStep(s);
    }
  }

  /** An illegal component between those of two names makes no difference. */
  lemma IllegalIgnored(x: NameValue, junk: Text, y: NameValue)
    requires NoSlash(junk) && NoColon(junk) && FromEscaped(junk).Null? && (x != [] || junk != [])
    requires junk == [] || (!IsSpace(junk[0]) && !IsSpace(junk[|junk| - 1]))
    ensures ParsedUri(JoinedFrom(x) + [SLASH] + junk + JoinedFrom(y)) == x + y
  {
    hide JoinedFrom, SplitComponents, Find, FromEscaped, Trim, Body;
    var front, rest := JoinedFrom(x) + [SLASH], JoinedFrom(y);
    var t := front + junk + rest;
    Solid(x);
    Solid(y);
    SplitWithIllegal(x, junk, y);
    assert t[1] == if x != [] then front[1] else junk[0];
    EndsSolid(front, junk, rest);
    ParsedWithout(t);
    OneSlash(t);
  }

  lemma SplitWithIllegal(x: NameValue, junk: Text, y: NameValue)
    requires NoSlash(junk) && FromEscaped(junk).Null?
    ensures SplitComponents((JoinedFrom(x) + [SLASH] + junk + JoinedFrom(y))[1..]) == x + y
  {
    hide JoinedFrom, SplitComponents, Find, FromEscaped, Trim;
    var s, rest := JoinedFrom(x), JoinedFrom(y);
    var more := [SLASH] + junk + rest;
    assert s + [SLASH] + junk + rest == s + more && more[1..] == junk + rest;
    SplitRest(y);
    JoinedEmpty();
    SplitIllegal(junk, rest);
    if x == [] {
      assert s + more == more;
    } else {
      SplitJoinedThen(x, more);
      assert (s + more)[1..] == s[1..] + more;
    }
  }

  lemma Solid(n: NameValue)
    ensures var s := JoinedFrom(n);
      && (n == [] ==> s == [])
      && (n != [] ==> |s| > 1 && s[0] == SLASH && s[1] != SLASH && !IsSpace(s[1]) && !IsSpace(s[|s| - 1]))
  {
    JoinedCharacters(n);
    if n != [] {
      EscapedSafe(n[0]);
      assert JoinedFrom(n)[1] == Escaped(n[0])[0];
    }
    hide Escaped;
  }

  lemma SplitRest(y: NameValue)
    ensures var rest := JoinedFrom(y);
      SplitComponents(if rest == [] then [] else rest[1..]) == y && (y != [] ==> rest != [] && rest[0] == SLASH)
  {
    JoinedStart(y);
    if y == [] { SplitEmpty(); } else { SplitJoined(y); }
    hide SplitComponents, Escaped;
  }

  lemma EndsSolid(a: Text, junk: Text, rest: Text)
    requires a != [] && !IsSpace(a[|a| - 1])
    requires junk == [] || !IsSpace(junk[|junk| - 1])
    requires rest == [] || !IsSpace(rest[|rest| - 1])
    ensures var t := a + junk + rest; !IsSpace(t[|t| - 1])
  {
  }

  lemma OneSlash(t: Text)
    requires t != [] && t[0] == SLASH && (|t| > 1 ==> t[1] != SLASH && !IsSpace(t[1]) && !IsSpace(t[|t| - 1]))
    ensures Body(t) == SplitComponents(t[1..])
  {
    TrimNothing(t[1..]);
    hide SplitComponents, Find, Trim;
  }

  // ----- the canonical order -----

  /** The first k components agree and the next one decides. */
  ghost predicate DecidedAt(x: NameValue, y: NameValue, k: nat)
  {
    k < |x| && k < |y| && x[..k] == y[..k] && Compare(x[k], y[k]) < 0
  }

  /** One name comes before another if it is a proper prefix of it, or by the first component that differs. */
  lemma {:induction false} CanonicalOrder(x: NameValue, y: NameValue)
    ensures CompareNames(x, y) < 0 <==> (x <= y && x != y) || exists k: nat :: DecidedAt(x, y, k)
  {
    hide Compare;
    if x != [] && y != [] {
      CompareIsTotalOrder(x[0], y[0], y[0]);
      if Compare(x[0], y[0]) == 0 {
        CanonicalOrder(x[1..], y[1..]);
        assert x == [x[0]] + x[1..] && y == [y[0]] + y[1..];
        assert x <= y <==> x[1..] <= y[1..];
        if k: nat :| DecidedAt(x[1..], y[1..], k) {
          assert x[..k + 1] == [x[0]] + x[1..][..k] && y[..k + 1] == [y[0]] + y[1..][..k];
          assert DecidedAt(x, y, k + 1);
        }
        if k: nat :| DecidedAt(x, y, k) {
          assert k > 0;
          assert x[1..][..k - 1] == x[..k][1..] && y[1..][..k - 1] == y[..k][1..];
          assert DecidedAt(x[1..], y[1..], k - 1);
        }
      } else {
        assert DecidedAt(x, y, 0) <==> Compare(x[0], y[0]) < 0;
        assert forall k: nat :: DecidedAt(x, y, k) && k > 0 ==> x[..k][0] == y[..k][0];
      }
    }
  }

  // ----- characters -----

  /** Hex digits are printed in upper case and read in both. */
  lemma HexDigits(d: nat)
    requires d < 16
    ensures HexDigit(d) == Ascii("0123456789ABCDEF")[d]
    ensures FromHexChar(Ascii("0123456789ABCDEF")[d]) == FromHexChar(Ascii("0123456789abcdef")[d]) == d
  {
    hide Ascii;
  }

  predicate IsHex(c: byte) { c in Ascii("0123456789ABCDEFabcdef") }

  lemma HexChars(c: byte)
    ensures FromHexChar(c) >= 0 <==> IsHex(c)
  {
    var t := Ascii("0123456789ABCDEFabcdef");
    hide Ascii;
    if FromHexChar(c) >= 0 {
      var k := if c < 0x40 then c - 0x30 else if c < 0x60 then c - 0x41 + 10 else c - 0x61 + 16;
      assert t[k] == c;
    }
  }

  /** A percent sign and two hex digits behind it. */
  predicate EscapeAt(s: Text, i: nat)
  {
    i + 2 < |s| && s[i] == PERCENT && IsHex(s[i + 1]) && IsHex(s[i + 2])
  }

  /** A text without escapes is left as it is, broken ones included. */
  lemma {:induction false} BrokenEscapesStay(s: Text)
    requires forall i: nat :: !EscapeAt(s, i)
    ensures Unescaped(s) == s
  {
    hide IsHex;
    if s != [] {
      if |s| > 2 {
        HexChars(s[1]);
        HexChars(s[2]);
        assert !EscapeAt(s, 0);
      }
      var n := UnescapeStep(s).0;
      forall i: nat
        ensures !EscapeAt(s[n..], i)
      {
        assert !EscapeAt(s, i + n);
      }
      BrokenEscapesStay(s[n..]);
      assert s == s[..n] + s[n..];
    }
  }

  /** A broken escape hides one that starts inside it: the three characters are kept and the scan goes on behind. */
  lemma BrokenEscapeHides()
    ensures Unescaped([PERCENT, 0x34, PERCENT, 0x34, 0x31]) == [PERCENT, 0x34, PERCENT, 0x34, 0x31]
  {
    var s: Text := [PERCENT, 0x34, PERCENT, 0x34, 0x31];
    assert UnescapeStep(s) == (3, s[..3]);
    UnescapePlain(s[3..]);
    assert s == s[..3] + s[3..];
  }

  lemma SchemePrinted(n: NameValue)
    ensures Uri(n, true) == Ascii("ndn:") + Uri(n, false)
  {
    hide Ascii, JoinedFrom;
  }

  // ----- an example -----

  lemma EscapedCons(x: byte, v: Component)
    ensures EscapedBytes([x] + v) == EscapedByte(x) + EscapedBytes(v) && EscapedBytes([]) == []
  {
    assert ([x] + v)[1..] == v;
  }

  lemma EscapedFour(a: byte, b: byte, c: byte, d: byte, v: Component)
    ensures EscapedBytes([a, b, c, d] + v)
      == EscapedByte(a) + EscapedByte(b) + EscapedByte(c) + EscapedByte(d) + EscapedBytes(v)
  {
    hide EscapedBytes, EscapedByte;
    EscapedCons(a, [b, c, d] + v);
    EscapedCons(b, [c, d] + v);
    EscapedCons(c, [d] + v);
    EscapedCons(d, v);
    assert [a] + ([b, c, d] + v) == [a, b, c, d] + v && [b] + ([c, d] + v) == [b, c, d] + v;
    assert [c] + ([d] + v) == [c, d] + v;
  }

  lemma EscapedOctets()
    ensures EscapedByte(0xc3) == [0x25, 0x43, 0x33] && EscapedByte(0xa9) == [0x25, 0x41, 0x39]
    ensures EscapedByte(0) == [0x25, 0x30, 0x30] && EscapedByte(1) == [0x25, 0x30, 0x31]
    ensures EscapedByte(2) == [0x25, 0x30, 0x32] && EscapedByte(3) == [0x25, 0x30, 0x33]
    ensures forall x: byte :: 0x61 <= x <= 0x7a ==> EscapedByte(x) == [x]
  {
  }

  lemma EscapedWord()
    ensures [SLASH] + Escaped([0x65, 0x6e, 0x74, 0x72, 0xc3, 0xa9, 0x65]) == Ascii("/entr%C3%A9e")
  {
    var v: Component := [0x65, 0x6e, 0x74, 0x72, 0xc3, 0xa9, 0x65];
    assert v[0] != DOT;
    hide EscapedBytes, EscapedByte, Ascii;
    assert v == [0x65, 0x6e, 0x74, 0x72] + [0xc3, 0xa9, 0x65];
    WordBytes();
    WordText();
  }

  lemma WordBytes()
    ensures EscapedBytes([0x65, 0x6e, 0x74, 0x72] + [0xc3, 0xa9, 0x65])
      == [0x65, 0x6e, 0x74, 0x72] + [0x25, 0x43, 0x33, 0x25, 0x41, 0x39, 0x65]
  {
    hide EscapedBytes, EscapedByte;
    EscapedOctets();
    EscapedFour(0x65, 0x6e, 0x74, 0x72, [0xc3, 0xa9, 0x65]);
    LastThree();
  }

  lemma WordText()
    ensures Ascii("/entr%C3%A9e")
      == [SLASH] + ([0x65, 0x6e, 0x74, 0x72] + [0x25, 0x43, 0x33, 0x25, 0x41, 0x39, 0x65])
  {
    hide Ascii;
  }

  lemma LastThree()
    ensures EscapedBytes([0xc3, 0xa9, 0x65]) == [0x25, 0x43, 0x33, 0x25, 0x41, 0x39, 0x65]
  {
    hide EscapedBytes, EscapedByte;
    EscapedOctets();
    EscapedCons(0xc3, [0xa9, 0x65]);
    EscapedCons(0xa9, [0x65]);
    EscapedCons(0x65, []);
    assert [0xc3] + [0xa9, 0x65] == [0xc3, 0xa9, 0x65] && [0xa9] + [0x65] == [0xa9, 0x65] && [0x65] + [] == [0x65];
  }

  lemma EscapedNumbers()
    ensures [SLASH] + Escaped([0, 1, 2, 3]) == Ascii("/%00%01%02%03")
  {
    var v: Component := [0, 1, 2, 3];
    assert v[0] != DOT;
    hide EscapedBytes, EscapedByte, Ascii;
    EscapedOctets();
    EscapedFour(0, 1, 2, 3, []);
    EscapedCons(0, []);
    assert v + [] == v;
  }

  lemma EscapedDot()
    ensures [SLASH] + Escaped([DOT]) == Ascii("/....")
  {
    hide Ascii;
  }

  /** The name of the unit tests: letters as they are, other bytes as upper-case hex pairs, dots and three more. */
  lemma ExpectedUri()
    ensures Uri([[0x65, 0x6e, 0x74, 0x72, 0xc3, 0xa9, 0x65], [0x2e], [0, 1, 2, 3]], false)
      == Ascii("/entr%C3%A9e") + Ascii("/....") + Ascii("/%00%01%02%03")
  {
    EscapedWord();
    EscapedDot();
    EscapedNumbers();
    hide Escaped, Ascii;
    ThreeJoined([0x65, 0x6e, 0x74, 0x72, 0xc3, 0xa9, 0x65], [0x2e], [0, 1, 2, 3]);
  }

  lemma ThreeJoined(a: Component, b: Component, c: Component)
    ensures JoinedFrom([a, b, c]) == ([SLASH] + Escaped(a)) + ([SLASH] + Escaped(b)) + ([SLASH] + Escaped(c))
  {
    var last: NameValue := [c];
    assert [a, b, c][1..] == [b, c] && [b, c][1..] == last && last[1..] == [];
    hide Escaped, JoinedFrom;
    JoinedStep([a, b, c]);
    JoinedStep([b, c]);
    JoinedStep(last);
  }
}
