/**
  Names: the URI printer and parser, the canonical order and prefix matching.
 */
module NdnNames {
  import opened Components
  import opened EscapedStrings

  type NameValue = seq<Component>

  const NDN_SCHEME: Text := [0x6e, 0x64, 0x6e, 0x3a]

  // ----- Name::toUri and Name::set as functions of their input -----

  function JoinedFrom(name: NameValue): Text
  {
    if name == [] then [] else [SLASH] + Escaped(name[0]) + JoinedFrom(name[1..])
  }

  function Uri(name: NameValue, includeScheme: bool): Text
  {
    (if includeScheme then NDN_SCHEME else []) + (if name == [] then [SLASH] else JoinedFrom(name))
  }

  /** string::find; the length of s stands for npos. */
  function Find(s: Text, c: byte, from: nat): (i: nat)
    requires from <= |s|
    ensures from <= i <= |s|
    ensures forall k :: from <= k < i ==> s[k] != c
    ensures i < |s| ==> s[i] == c
    decreases |s| - from
  {
    if from == |s| || s[from] == c then from else Find(s, c, from + 1)
  }

  function AfterScheme(uri: Text): Text
  {
    var iColon := Find(uri, COLON, 0);
    if iColon < |uri| && iColon < Find(uri, SLASH, 0) then Trim(uri[iColon + 1..]) else uri
  }

  datatype Rest = OnlyAuthority | Rest(text: Text)

  function AfterAuthority(uri: Text): Rest
  {
    if uri == [] || uri[0] != SLASH then Rest(uri)
    else if |uri| < 2 || uri[1] != SLASH then Rest(Trim(uri[1..]))
    else
      var iAfter := Find(uri, SLASH, 2);
      if iAfter == |uri| then OnlyAuthority else Rest(Trim(uri[iAfter + 1..]))
  }

  /** The components between slashes, without the illegal ones. */
  function SplitComponents(s: Text): NameValue
    decreases |s|
  {
    if s == [] then []
    else
      var end := Find(s, SLASH, 0);
      var first := FromEscaped(s[..end]);
      (if first.Null? then [] else [first.value]) + SplitComponents(if end < |s| then s[end + 1..] else [])
  }

  function ParsedUri(uri: Text): NameValue
  {
    if Trim(uri) == [] then []
    else
      var rest := AfterAuthority(AfterScheme(Trim(uri)));
      if rest.OnlyAuthority? then [] else SplitComponents(rest.text)
  }

  // ----- the canonical order of names -----

  function CompareNames(x: NameValue, y: NameValue): int
  {
    if x == [] && y == [] then 0
    else if x == [] then -1
    else if y == [] then 1
    else if Compare(x[0], y[0]) != 0 then Compare(x[0], y[0])
    else CompareNames(x[1..], y[1..])
  }

  class Name {
    var components: NameValue

    constructor ()
      ensures components == []
    {
      components := [];
    }

    method Clear()
      modifies this
      ensures components == []
    {
      components := [];
    }

    method Append(value: Component)
      modifies this
      ensures components == old(components) + [value]
    {
      components := components + [value];
    }

    method Set(uriBytes: Text)
      modifies this
      ensures components == ParsedUri(uriBytes)
    {
      hide Trim, Find, SplitComponents, FromEscaped;
      Clear();
      var uri := Trim(uriBytes);
      if |uri| == 0 {
        return;
      }
      var iColon := Find(uri, COLON, 0);
      if iColon != |uri| {
        // AfterScheme: only a colon in front of every slash ends a scheme.
        var iFirstSlash := Find(uri, SLASH, 0);
        if iFirstSlash == |uri| || iColon < iFirstSlash {
          uri := Trim(uri[iColon + 1..]);
        }
      }
      if |uri| > 0 && uri[0] == SLASH {
        if |uri| >= 2 && uri[1] == SLASH {
          var iAfterAuthority := Find(uri, SLASH, 2);
          if iAfterAuthority == |uri| {
            return;
          }
          uri := Trim(uri[iAfterAuthority + 1..]);
        } else {
          uri := Trim(uri[1..]);
        }
      }
      AppendComponents(uri);
    }

    /** The loop of Set that unescapes the components. */
    method AppendComponents(uri: Text)
      requires components == []
      modifies this
      ensures components == SplitComponents(uri)
    {
      hide FromEscaped, SplitComponents, Find;
      var iComponentStart := 0;
      assert uri[0..] == uri;
      while iComponentStart < |uri|
        invariant components + SplitComponents(uri[if iComponentStart < |uri| then iComponentStart else |uri|..])
          == SplitComponents(uri)
      {
        ghost var before := components;
        SplitAt(uri, iComponentStart);
        var iComponentEnd := Find(uri, SLASH, iComponentStart);
        var component := FromEscapedString(uri, iComponentStart, iComponentEnd);
        // Null components are left out, the empty one behind a last slash among them.
        if component.Blob? {
          Append(component.value);
        }
        iComponentStart := iComponentEnd + 1;
      }
      assert uri[|uri|..] == [];
      SplitEmpty();
    }

    method ToUri(includeScheme: bool) returns (result: Text)
      ensures result == Uri(components, includeScheme)
    {
      if |components| == 0 {
        return if includeScheme then NDN_SCHEME + [SLASH] else [SLASH];
      }
      hide JoinedFrom, Escaped;
      result := if includeScheme then NDN_SCHEME else [];
      ghost var scheme := result;
      JoinedEmpty();
      for i := 0 to |components|
        invariant result == scheme + JoinedFrom(components[..i])
      {
        UriGrows(scheme, components, i);
        var escaped := ToEscapedString(components[i]);
        result := result + [SLASH];
        result := result + escaped;
      }
      assert components[..|components|] == components;
    }

    method Equals(name: Name) returns (b: bool)
      ensures b <==> components == name.components
    {
      if |components| != |name.components| {
        return false;
      }
      var i := |components| - 1;
      while i >= 0
        invariant -1 <= i < |components|
        invariant forall k :: i < k < |components| ==> components[k] == name.components[k]
      {
        if components[i] != name.components[i] {
          return false;
        }
        i := i - 1;
      }
      return true;
    }

    method Match(name: Name) returns (b: bool)
      ensures b <==> components <= name.components
    {
      if |components| > |name.components| {
        return false;
      }
      var i := |components| - 1;
      while i >= 0
        invariant -1 <= i < |components|
        invariant forall k :: i < k < |components| ==> components[k] == name.components[k]
      {
        if components[i] != name.components[i] {
          return false;
        }
        i := i - 1;
      }
      return true;
    }

    method CompareTo(other: Name) returns (r: int)
      ensures r == CompareNames(components, other.components)
    {
      ghost var x, y := components, other.components;
      assert x[0..] == x && y[0..] == y;
      var i := 0;
      while i < |components| && i < |other.components|
        invariant i <= |x| && i <= |y|
        invariant CompareNames(x, y) == CompareNames(x[i..], y[i..])
      {
        var comparison := Compare(components[i], other.components[i]);
        if comparison != 0 {
          return comparison;
        }
        i := i + 1;
      }
      if |components| < |other.components| {
        return -1;
      } else if |components| > |other.components| {
        return 1;
      } else {
        return 0;
      }
    }
  }

  // ----- the loops against their functions -----

  lemma FindIs(s: Text, c: byte, from: nat, i: nat)
    requires from <= i <= |s| && (i < |s| ==> s[i] == c)
    requires forall k :: from <= k < i ==> s[k] != c
    ensures Find(s, c, from) == i
  {
    var j := Find(s, c, from);
  }

  lemma SplitEmpty()
    ensures SplitComponents([]) == []
  {
  }

  lemma {:induction false} FindInSuffix(s: Text, c: byte, start: nat, from: nat)
    requires start <= from <= |s|
    ensures Find(s, c, from) == start + Find(s[start..], c, from - start)
    decreases |s| - from
  {
    if from < |s| {
      FindInSuffix(s, c, start, from + 1);
    }
  }

  lemma SplitAt(s: Text, start: nat)
    requires start < |s|
    ensures var end := Find(s, SLASH, start);
      var first := FromEscaped(s[start..end]);
      SplitComponents(s[start..]) == (if first.Null? then [] else [first.value])
        + SplitComponents(s[if end + 1 < |s| then end + 1 else |s|..])
  {
    FindInSuffix(s, SLASH, start, start);
    var end := Find(s, SLASH, start);
    hide Find, FromEscaped;
    assert s[start..][..end - start] == s[start..end];
    if end < |s| {
      assert s[start..][end - start + 1..] == s[end + 1..];
    }
  }

  lemma JoinedEmpty()
    ensures JoinedFrom([]) == []
  {
  }

  lemma {:induction false} JoinedPush(name: NameValue, c: Component)
    ensures JoinedFrom(name + [c]) == JoinedFrom(name) + [SLASH] + Escaped(c)
  {
    if name == [] {
      assert [c][1..] == [];
    } else {
      assert (name + [c])[1..] == name[1..] + [c];
      JoinedPush(name[1..], c);
    }
  }

  lemma UriGrows(scheme: Text, name: NameValue, i: nat)
    requires i < |name|
    ensures scheme + JoinedFrom(name[..i]) + [SLASH] + Escaped(name[i]) == scheme + JoinedFrom(name[..i + 1])
  {
    hide JoinedFrom, Escaped;
    JoinedPush(name[..i], name[i]);
    assert name[..i + 1] == name[..i] + [name[i]];
    var j, e := JoinedFrom(name[..i]), Escaped(name[i]);
    assert scheme + (j + [SLASH] + e) == scheme + j + [SLASH] + e;
  }

  // ----- printing and parsing -----

  lemma SplitStep(s: Text)
    requires s != []
    ensures var end := Find(s, SLASH, 0);
      var first := FromEscaped(s[..end]);
      SplitComponents(s) == (if first.Null? then [] else [first.value])
        + SplitComponents(if end < |s| then s[end + 1..] else [])
  {
    hide Find, FromEscaped;
  }

  /** The first component of an escaped one followed by a slash, and what remains. */
  lemma SplitFirst(v: Component, rest: Text)
    requires rest == [] || rest[0] == SLASH
    ensures SplitComponents(Escaped(v) + rest) == [v] + SplitComponents(if rest == [] then [] else rest[1..])
  {
    hide Escaped, FromEscaped, Find, SplitComponents;
    var e, s := Escaped(v), Escaped(v) + rest;
    EscapedSafe(v);
    EscapeRoundTrip(v);
    assert forall k :: 0 <= k < |e| ==> s[k] == e[k];
    FindIs(s, SLASH, 0, |e|);
    assert s[..|e|] == e;
    if rest != [] {
      assert s[|e| + 1..] == rest[1..];
    }
    SplitStep(s);
  }

  /** Splitting what stands after the first slash of a printed name gives the name. */
  lemma {:induction false} SplitJoined(name: NameValue)
    requires name != []
    ensures JoinedFrom(name) != [] && SplitComponents(JoinedFrom(name)[1..]) == name
  {
    hide Escaped, SplitComponents;
    var rest := JoinedFrom(name[1..]);
    assert JoinedFrom(name)[1..] == Escaped(name[0]) + rest;
    if |name| > 1 {
      SplitJoined(name[1..]);
    } else {
      SplitEmpty();
    }
    SplitFirst(name[0], rest);
    assert name == [name[0]] + name[1..];
  }

  /** No colon and no white space in a printed name, and its last character is not white space. */
  lemma {:induction false} JoinedCharacters(name: NameValue)
    ensures forall k :: 0 <= k < |JoinedFrom(name)| ==> IsSafe(JoinedFrom(name)[k]) || JoinedFrom(name)[k] == SLASH
  {
    hide Escaped;
    if name != [] {
      EscapedSafe(name[0]);
      JoinedCharacters(name[1..]);
    }
  }

  lemma TrimWithoutSpace(s: Text)
    requires forall k :: 0 <= k < |s| ==> !IsSpace(s[k])
    ensures Trim(s) == s
  {
  }

  /** The part of Set after the scheme, on a printed name. */
  lemma ParseAfterScheme(name: NameValue)
    ensures var rest := AfterAuthority(Uri(name, false));
      rest.Rest? && SplitComponents(rest.text) == name
  {
    hide Trim, SplitComponents, Escaped;
    if name == [] {
      assert Uri(name, false) == [SLASH];
      assert [SLASH][1..] == [];
      TrimWithoutSpace([]);
      SplitEmpty();
    } else {
      var s := JoinedFrom(name);
      assert Uri(name, false) == s;
      EscapedSafe(name[0]);
      JoinedCharacters(name);
      assert IsSafe(s[1]) by {
        assert s[1] == Escaped(name[0])[0];
      }
      TrimWithoutSpace(s[1..]);
      SplitJoined(name);
    }
  }

  /** Parsing a printed name gives the name back, for components of any bytes, with or without the scheme. */
  lemma UriRoundTrip(name: NameValue, includeScheme: bool)
    ensures ParsedUri(Uri(name, includeScheme)) == name
  {
    hide Trim, SplitComponents, AfterAuthority, JoinedFrom, Find;
    var plain := Uri(name, false);
    var uri := Uri(name, includeScheme);
    JoinedCharacters(name);
    assert forall k :: 0 <= k < |plain| ==> IsSafe(plain[k]) || plain[k] == SLASH;
    TrimWithoutSpace(uri);
    TrimWithoutSpace(plain);
    ParseAfterScheme(name);
    JoinedStart(name);
    if includeScheme {
      assert uri == NDN_SCHEME + plain;
      FindIs(uri, COLON, 0, 3);
      FindIs(uri, SLASH, 0, 4);
      assert uri[4..] == plain;
    } else {
      assert uri == plain;
      FindIs(uri, COLON, 0, |uri|);
    }
  }

  lemma JoinedStart(name: NameValue)
    ensures name != [] ==> JoinedFrom(name) != [] && JoinedFrom(name)[0] == SLASH
  {
  }

  /** Different names never print alike. */
  lemma UriInjective(x: NameValue, y: NameValue, includeScheme: bool)
    requires Uri(x, includeScheme) == Uri(y, includeScheme)
    ensures x == y
  {
    UriRoundTrip(x, includeScheme);
    UriRoundTrip(y, includeScheme);
  }

  // ----- the order -----

  lemma {:induction false} CompareNamesIsTotalOrder(x: NameValue, y: NameValue, z: NameValue)
    ensures CompareNames(x, y) == 0 <==> x == y
    ensures CompareNames(x, y) == -CompareNames(y, x)
    ensures CompareNames(x, y) <= 0 && CompareNames(y, z) <= 0 ==> CompareNames(x, z) <= 0
  {
    hide Compare;
    if x != [] && y != [] {
      CompareIsTotalOrder(x[0], y[0], if z == [] then [] else z[0]);
      assert x == [x[0]] + x[1..] && y == [y[0]] + y[1..];
      CompareNamesIsTotalOrder(x[1..], y[1..], if z == [] then [] else z[1..]);
    }
  }

  /** A prefix comes before, or is, every name that it matches. */
  lemma {:induction false} PrefixIsLeast(p: NameValue, x: NameValue)
    requires p <= x
    ensures CompareNames(p, x) <= 0
  {
    if p != [] {
      CompareIsTotalOrder(p[0], x[0], []);
      PrefixIsLeast(p[1..], x[1..]);
    }
  }

  /** The names that a prefix matches form an interval of the canonical order. */
  lemma {:induction false} PrefixInterval(p: NameValue, x: NameValue, y: NameValue, z: NameValue)
    requires p <= x && p <= z
    requires CompareNames(x, y) <= 0 && CompareNames(y, z) <= 0
    ensures p <= y
  {
    hide Compare;
    if p != [] {
      if y == [] {
        assert false;
      } else {
        assert x[0] == z[0] == p[0];
        CompareIsTotalOrder(x[0], y[0], z[0]);
        assert x[0] == y[0];
        CompareIsTotalOrder(y[0], z[0], x[0]);
        PrefixInterval(p[1..], x[1..], y[1..], z[1..]);
        assert y == [y[0]] + y[1..] && p == [p[0]] + p[1..];
      }
    }
  }
}
