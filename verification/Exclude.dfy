/**
  Exclude filters and the interest match that uses them.
 */
module Excludes {
  import opened Components
  import opened EscapedStrings

  datatype Entry = Any | Excluded(component: Component) {
    /** getComponent: an ANY entry holds a component of size zero. */
    function GetComponent(): Component { if Any? then [] else component }
  }

  type Filter = seq<Entry>

  predicate Before(a: Component, b: Component) { Compare(a, b) < 0 }

  // ----- the interval meaning of a filter -----

  ghost predicate Listed(f: Filter, c: Component) { Excluded(c) in f }

  /** f[lo..hi] is a maximal non-empty run of ANY entries. */
  ghost predicate IsRun(f: Filter, lo: nat, hi: nat)
  {
    lo < hi <= |f|
    && (forall k :: lo <= k < hi ==> f[k].Any?)
    && (lo == 0 || f[lo - 1].Excluded?)
    && (hi == |f| || f[hi].Excluded?)
  }

  /** c lies strictly between the neighbours of the run; a missing neighbour is no bound. */
  ghost predicate InRun(f: Filter, lo: nat, hi: nat, c: Component)
  {
    IsRun(f, lo, hi)
    && (lo == 0 || Before(f[lo - 1].component, c))
    && (hi == |f| || Before(c, f[hi].component))
  }

  ghost predicate Meaning(f: Filter, c: Component)
  {
    Listed(f, c) || exists lo: nat, hi: nat :: InRun(f, lo, hi, c)
  }

  /** The list ends in two or more ANY entries that follow a component. */
  ghost predicate EndsInRepeatedAny(f: Filter)
  {
    exists lo: nat :: 0 < lo && lo + 1 < |f| && IsRun(f, lo, |f|)
  }

  /** What the scan answers: the interval meaning, except after such an ending. */
  ghost predicate Matched(f: Filter, c: Component)
  {
    Meaning(f, c) || (EndsInRepeatedAny(f) && c != [])
  }

  // ----- the scan -----

  /** Some entry before i, or some run that starts before i, covers c. */
  ghost predicate CoveredBefore(f: Filter, c: Component, i: nat)
    requires i <= |f|
  {
    (exists k :: 0 <= k < i && f[k] == Excluded(c)) || (exists lo: nat, hi: nat :: lo < i && InRun(f, lo, hi, c))
  }

  /** The scan is at the start of an entry list position that no run straddles. */
  ghost predicate Between(f: Filter, i: nat)
    requires i <= |f|
  {
    i == 0 || i == |f| || f[i - 1].Excluded? || f[i].Excluded?
  }

  lemma CoverComponent(f: Filter, c: Component, i: nat)
    requires i < |f| && f[i].Excluded?
    ensures CoveredBefore(f, c, i + 1) <==> CoveredBefore(f, c, i) || c == f[i].component
  {
  }

  lemma RunsDoNotOverlap(f: Filter, lo: nat, hi: nat, lo': nat, hi': nat)
    requires IsRun(f, lo, hi) && IsRun(f, lo', hi') && lo <= lo' < hi
    ensures lo == lo' && hi == hi'
  {
  }

  lemma CoverRun(f: Filter, c: Component, lo: nat, hi: nat)
    requires IsRun(f, lo, hi)
    ensures CoveredBefore(f, c, hi) <==> CoveredBefore(f, c, lo) || InRun(f, lo, hi, c)
  {
    if CoveredBefore(f, c, hi) && !CoveredBefore(f, c, lo) {
      var lo': nat, hi': nat :| lo' < hi && InRun(f, lo', hi', c);
      RunsDoNotOverlap(f, lo, hi, lo', hi');
    }
  }

  lemma CoverAll(f: Filter, c: Component)
    ensures CoveredBefore(f, c, |f|) <==> Meaning(f, c)
  {
    if Listed(f, c) {
      var k :| 0 <= k < |f| && f[k] == Excluded(c);
    }
  }

  /** Nothing compares less than or equal to the empty component except itself. */
  lemma AfterEmpty(c: Component)
    ensures Compare(c, []) > 0 <==> c != []
    ensures Compare(c, []) >= 0
  {
    CompareIsTotalOrder(c, [], []);
  }

  method Matches(f: Filter, c: Component) returns (b: bool)
    ensures b <==> Matched(f, c)
    ensures !EndsInRepeatedAny(f) ==> (b <==> Meaning(f, c))
  {
    hide Meaning, CoveredBefore, Compare;
    CoverNone(f, c);
    var i := 0;
    // Set when the scan goes on inside a final run, because no component bounds it above.
    ghost var tail := false;
    while i < |f|
      invariant 0 <= i <= |f|
      invariant !tail ==> !CoveredBefore(f, c, i) && Between(f, i)
      invariant !tail ==> forall lo: nat :: 0 < lo && lo + 1 < |f| && IsRun(f, lo, |f|) ==> i <= lo
      invariant tail ==> !Meaning(f, c) && EndsInRepeatedAny(f) && (i == |f| ==> c == [])
      invariant tail ==> i > 0 && forall k :: i - 1 <= k < |f| ==> f[k].Any?
    {
      if f[i].Any? {
        var hasLower, lowerBound := i > 0, if i > 0 then f[i - 1].GetComponent() else [];
        // f[i..iUpperBound] becomes the whole run that starts here.
        var iUpperBound := i + 1;
        while iUpperBound < |f| && f[iUpperBound].Any?
          invariant i < iUpperBound <= |f|
          invariant forall k :: i <= k < iUpperBound ==> f[k].Any?
        {
          iUpperBound := iUpperBound + 1;
        }
        OrderFacts(c, lowerBound);
        AfterEmpty(c);
        if !tail {
          CoverRun(f, c, i, iUpperBound);
          CoverAll(f, c);
          CoverMore(f, c, iUpperBound);
        }
        if iUpperBound < |f| {
          var upperBound := f[iUpperBound].component;
          if hasLower {
            if Compare(c, lowerBound) > 0 && Compare(c, upperBound) < 0 {
              return true;
            }
          } else if Compare(c, upperBound) < 0 {
            return true;
          }
          // The increment below lands on the component behind the run.
          i := iUpperBound - 1;
        } else if hasLower {
          if Compare(c, lowerBound) > 0 {
            return true;
          }
          tail := tail || i + 1 < |f|;
        } else {
          // A run without neighbours covers everything.
          return true;
        }
      } else {
        CoverComponent(f, c, i);
        CoverMore(f, c, i + 1);
        if c == f[i].component {
          return true;
        }
      }
      i := i + 1;
    }
    CoverAll(f, c);
    return false;
  }

  lemma CoverNone(f: Filter, c: Component)
    ensures !CoveredBefore(f, c, 0)
  {
  }

  lemma CoverMore(f: Filter, c: Component, i: nat)
    requires i <= |f|
    ensures CoveredBefore(f, c, i) ==> Meaning(f, c)
  {
  }

  lemma OrderFacts(a: Component, b: Component)
    ensures Before(b, a) <==> Compare(a, b) > 0
  {
    CompareIsTotalOrder(a, b, b);
  }

  /** The scan may answer more than the intervals say: it rejects [3] though only [5] and up is excluded. */
  lemma RepeatedAnyOverMatches()
    ensures var f := [Excluded([5]), Any, Any];
      Matched(f, [3]) && !Meaning(f, [3])
  {
    var f := [Excluded([5]), Any, Any];
    assert IsRun(f, 1, 3);
    assert Compare([5], [3]) == 1;
    forall lo: nat, hi: nat | IsRun(f, lo, hi)
      ensures lo == 1 && hi == 3
    {
      RunsDoNotOverlap(f, 1, 3, if lo == 0 then 1 else lo, if lo == 0 then 3 else hi);
    }
  }

  // ----- sorted filters -----

  ghost predicate StrictlySorted(f: Filter)
  {
    forall i, j :: 0 <= i < j < |f| && f[i].Excluded? && f[j].Excluded? ==> Before(f[i].component, f[j].component)
  }

  /** c falls between neighbouring listed components lo and hi (-1 and |f| when there is none). */
  ghost predicate IsGap(f: Filter, c: Component, lo: int, hi: nat)
  {
    -1 <= lo < hi <= |f|
    && (lo >= 0 ==> f[lo].Excluded? && Before(f[lo].component, c))
    && (hi < |f| ==> f[hi].Excluded? && Before(c, f[hi].component))
    && forall k :: lo < k < hi ==> f[k].Any?
  }

  lemma GapExists(f: Filter, c: Component) returns (lo: int, hi: nat)
    requires StrictlySorted(f) && !Listed(f, c)
    ensures IsGap(f, c, lo, hi)
  {
    hide Compare;
    lo, hi := -1, 0;
    while hi < |f| && (f[hi].Any? || Compare(f[hi].component, c) < 0)
      invariant -1 <= lo < |f| && lo < hi <= |f|
      invariant lo >= 0 ==> f[lo].Excluded? && Before(f[lo].component, c)
      invariant forall k :: lo < k < hi ==> f[k].Any?
    {
      if f[hi].Excluded? {
        lo := hi;
      }
      hi := hi + 1;
    }
    if hi < |f| {
      CompareIsTotalOrder(f[hi].component, c, c);
    }
  }

  /** In a sorted filter, an unlisted component is excluded exactly if its one gap holds an ANY. */
  lemma SortedMeaning(f: Filter, c: Component, lo: int, hi: nat)
    requires StrictlySorted(f) && !Listed(f, c) && IsGap(f, c, lo, hi)
    ensures Meaning(f, c) <==> exists k :: lo < k < hi && f[k].Any?
    ensures forall lo': int, hi': nat :: IsGap(f, c, lo', hi') ==> lo' == lo && hi' == hi
  {
    hide Compare;
    if lo + 1 < hi {
      assert f[lo + 1].Any?;
      assert InRun(f, lo + 1, hi, c);
    }
    forall lo': nat, hi': nat | InRun(f, lo', hi', c)
      ensures lo + 1 < hi
    {
      if lo' > 0 {
        NotAbove(f, c, lo' - 1, lo, hi);
      }
      if hi' < |f| {
        NotBelow(f, c, hi', lo, hi);
      }
    }
    forall lo': int, hi': nat | IsGap(f, c, lo', hi')
      ensures lo' == lo && hi' == hi
    {
      if lo' >= 0 {
        NotAbove(f, c, lo', lo, hi);
      }
      if hi' < |f| {
        NotBelow(f, c, hi', lo, hi);
      }
      if lo >= 0 {
        NotAbove(f, c, lo, lo', hi');
      }
      if hi < |f| {
        NotBelow(f, c, hi, lo', hi');
      }
    }
  }

  lemma NotAbove(f: Filter, c: Component, k: nat, lo: int, hi: nat)
    requires StrictlySorted(f) && IsGap(f, c, lo, hi)
    requires k < |f| && f[k].Excluded? && Before(f[k].component, c)
    ensures k <= lo
  {
    hide Compare;
    if hi <= k {
      CompareIsTotalOrder(f[hi].component, f[k].component, c);
      CompareIsTotalOrder(c, f[hi].component, c);
      assert false;
    }
  }

  lemma NotBelow(f: Filter, c: Component, k: nat, lo: int, hi: nat)
    requires StrictlySorted(f) && IsGap(f, c, lo, hi)
    requires k < |f| && f[k].Excluded? && Before(c, f[k].component)
    ensures hi <= k
  {
    hide Compare;
    if k <= lo {
      CompareIsTotalOrder(f[k].component, f[lo].component, c);
      CompareIsTotalOrder(c, f[k].component, c);
      assert false;
    }
  }

  /**
    Below the first component of a sorted filter nothing is meant to be excluded; the scan excludes it (unless
    it is empty) exactly if the filter ends in repeated ANYs.
   */
  lemma BelowFirst(f: Filter, c: Component)
    requires StrictlySorted(f) && f != [] && f[0].Excluded? && Before(c, f[0].component)
    ensures !Meaning(f, c)
    ensures Matched(f, c) <==> EndsInRepeatedAny(f) && c != []
  {
    hide Compare;
    forall k | 0 <= k < |f| && f[k].Excluded?
      ensures f[k].component != c
    {
      CompareIsTotalOrder(c, f[0].component, f[k].component);
      CompareIsTotalOrder(c, c, c);
    }
    assert !Listed(f, c);
    assert IsGap(f, c, -1, 0);
    SortedMeaning(f, c, -1, 0);
  }

  /** [0] comes before every component but itself and the empty one. */
  lemma LeastNonEmpty(c: Component)
    requires c != [] && c != [0]
    ensures Before([0], c)
  {
  }

  /**
    On a sorted filter that starts with a component that others come before, the scan agrees with the interval
    meaning for all components exactly if the filter does not end in repeated ANYs.
   */
  lemma ScanAgreesIff(f: Filter)
    requires StrictlySorted(f) && f != [] && f[0].Excluded? && f[0].component != [] && f[0].component != [0]
    ensures (forall c :: Matched(f, c) <==> Meaning(f, c)) <==> !EndsInRepeatedAny(f)
  {
    LeastNonEmpty(f[0].component);
    BelowFirst(f, [0]);
    hide Meaning, EndsInRepeatedAny, StrictlySorted;
    assert EndsInRepeatedAny(f) ==> Matched(f, [0]) && !Meaning(f, [0]);
  }

  // ----- the printed form -----

  const COMMA: byte := 0x2c
  const STAR: byte := 0x2a

  function Item(e: Entry): Text { if e.Any? then [STAR] else Escaped(e.component) }

  function Printed(f: Filter): Text
  {
    if f == [] then []
    else if |f| == 1 then Item(f[0])
    else Item(f[0]) + [COMMA] + Printed(f[1..])
  }

  lemma {:induction false} PrintedPush(f: Filter, e: Entry)
    ensures Printed(f + [e]) == if f == [] then Item(e) else Printed(f) + [COMMA] + Item(e)
  {
    hide Item;
    if |f| > 0 {
      assert (f + [e])[1..] == f[1..] + [e];
      PrintedPush(f[1..], e);
      var first := Item(f[0]);
      if |f| > 1 {
        var rest := Printed(f[1..]);
        assert first + [COMMA] + (rest + [COMMA] + Item(e)) == first + [COMMA] + rest + [COMMA] + Item(e);
      } else {
        assert f[1..] == [];
      }
    }
  }

  method ToUri(f: Filter) returns (result: Text)
    ensures result == Printed(f)
  {
    hide Printed, Escaped;
    PrintedEmpty();
    if |f| == 0 {
      return [];
    }
    result := [];
    for i := 0 to |f|
      invariant result == Printed(f[..i])
    {
      PrintedPush(f[..i], f[i]);
      assert f[..i + 1] == f[..i] + [f[i]];
      if i > 0 {
        result := result + [COMMA];
      }
      if f[i].Any? {
        result := result + [STAR];
      } else {
        var escaped := ToEscapedString(f[i].component);
        result := result + escaped;
      }
    }
    assert f[..|f|] == f;
  }

  lemma PrintedEmpty()
    ensures Printed([]) == []
  {
  }

  lemma PrintedTwo(d: Entry, e: Entry)
    ensures Printed([d, e]) == Item(d) + Ascii(",") + Item(e) && Item(Any) == Ascii("*")
  {
    Punctuation();
    hide Item, Ascii;
    PrintedPush([d], e);
    assert [d] + [e] == [d, e];
  }

  lemma Punctuation()
    ensures Ascii(",") == [COMMA] && Item(Any) == Ascii("*")
  {
    hide Ascii;
  }

  /** An item is not empty, has no comma in it, and tells which entry it prints. */
  lemma ItemIsCode(d: Entry, e: Entry)
    ensures Item(d) != [] && COMMA !in Item(d)
    ensures Item(d) == Item(e) ==> d == e
  {
    hide Escaped;
    if d.Excluded? {
      EscapedSafe(d.component);
      EscapeRoundTrip(d.component);
    }
    if e.Excluded? {
      EscapedSafe(e.component);
      EscapeRoundTrip(e.component);
    }
  }

  /** Equal printed forms mean equal entry lists. */
  lemma {:induction false} PrintedInjective(f: Filter, g: Filter)
    requires Printed(f) == Printed(g)
    ensures f == g
  {
    hide Item;
    if f != [] {
      ItemIsCode(f[0], f[0]);
    }
    if g != [] {
      ItemIsCode(g[0], g[0]);
    }
    if f != [] && g != [] {
      var x, y := Item(f[0]), Item(g[0]);
      var s := Printed(f);
      assert x <= s && (|f| == 1 ==> |x| == |s|) && (|f| > 1 ==> |x| < |s| && s[|x|] == COMMA);
      assert y <= s && (|g| == 1 ==> |y| == |s|) && (|g| > 1 ==> |y| < |s| && s[|y|] == COMMA);
      assert |x| == |y|;
      ItemIsCode(f[0], g[0]);
      if |f| > 1 {
        assert s[|x| + 1..] == Printed(f[1..]) == Printed(g[1..]);
        PrintedInjective(f[1..], g[1..]);
        assert f == [f[0]] + f[1..] && g == [g[0]] + g[1..];
      }
    }
  }
}

/**
  Which Data names an interest accepts.
 */
module Interests {
  import opened Components
  import opened NdnNames
  import opened Excludes

  const TWO64 := 0x1_0000_0000_0000_0000

  type int32 = x: int | -0x8000_0000 <= x < 0x8000_0000

  /** A negative suffix count or lifetime means that it is not set. */
  datatype Interest = Interest(name: NameValue, minSuffixComponents: int32, maxSuffixComponents: int32, exclude: Filter,
                               lifetime: real)

  /** The name has the interest's name as a prefix, a suffix of an allowed length and no excluded next component. */
  ghost predicate Accepts(interest: Interest, name: NameValue)
  {
    // The implicit digest counts as one more component.
    var suffix := |name| - |interest.name| + 1;
    interest.name <= name
    && (interest.minSuffixComponents >= 0 ==> suffix >= interest.minSuffixComponents)
    && (interest.maxSuffixComponents >= 0 ==> suffix <= interest.maxSuffixComponents)
    && (|name| > |interest.name| ==> !Matched(interest.exclude, name[|interest.name|]))
  }

  /** name.size() + 1 - getName().size() in size_t arithmetic. */
  function SuffixCount(nameSize: nat, prefixSize: nat): nat { (nameSize + 1 - prefixSize) % TWO64 }

  lemma NothingExcludes(c: Component)
    ensures !Matched([], c)
  {
  }

  method MatchesName(interest: Interest, name: NameValue) returns (b: bool)
    requires |name| + 1 < TWO64
    ensures b <==> Accepts(interest, name)
  {
    if !(interest.name <= name) {
      return false;
    }
    if interest.minSuffixComponents >= 0 && !(SuffixCount(|name|, |interest.name|) >= interest.minSuffixComponents) {
      return false;
    }
    if interest.maxSuffixComponents >= 0 && !(SuffixCount(|name|, |interest.name|) <= interest.maxSuffixComponents) {
      return false;
    }
    if |interest.exclude| > 0 && |name| > |interest.name| {
      var excluded := Matches(interest.exclude, name[|interest.name|]);
      if excluded {
        return false;
      }
    }
    if |name| > |interest.name| {
      NothingExcludes(name[|interest.name|]);
    }
    return true;
  }

  // ----- what the limits mean for names -----

  /** A packet's full name ends in its digest. */
  function FullName(name: NameValue, digest: Component): NameValue { name + [digest] }

  /** What the full name has behind the interest's name is as long as the limits say, and starts with no exclusion. */
  lemma AcceptsFullName(interest: Interest, name: NameValue, digest: Component)
    ensures Accepts(interest, name) <==>
      exists suffix: NameValue ::
        && FullName(name, digest) == interest.name + suffix && suffix != []
        && (interest.minSuffixComponents >= 0 ==> |suffix| >= interest.minSuffixComponents)
        && (interest.maxSuffixComponents >= 0 ==> |suffix| <= interest.maxSuffixComponents)
        && (|suffix| > 1 ==> !Matched(interest.exclude, suffix[0]))
  {
    hide Matched;
    var full, n := FullName(name, digest), |interest.name|;
    if interest.name <= name {
      var suffix := full[n..];
      assert full == interest.name + suffix && |suffix| == |name| - n + 1;
      assert |suffix| > 1 ==> suffix[0] == name[n];
    }
    forall suffix: NameValue | full == interest.name + suffix && suffix != []
      ensures suffix == full[n..] && interest.name <= name
    {
      assert name == full[..|name|] && interest.name == full[..n];
      assert full[..|name|][..n] == full[..n];
    }
  }

  /** Without exclusions: at most one suffix component leaves the interest's own name, at least two all but that. */
  lemma SuffixLimits(name: NameValue, wanted: NameValue, lifetime: real)
    ensures Accepts(Interest(wanted, -1, -1, [], lifetime), name) <==> wanted <= name
    ensures !Accepts(Interest(wanted, -1, 0, [], lifetime), name)
    ensures Accepts(Interest(wanted, -1, 1, [], lifetime), name) <==> name == wanted
    ensures Accepts(Interest(wanted, 2, -1, [], lifetime), name) <==> wanted < name
  {
    if |name| > |wanted| { NothingExcludes(name[|wanted|]); }
    hide Matched;
    if wanted <= name && |name| == |wanted| { assert name == wanted; }
  }
}
