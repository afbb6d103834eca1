/**
  The roster of the chat example: a list of strings, each a user name with its session number printed at the
  end, updated by chat messages, by leave messages and by timeouts.
 */
module ChatRoster {
  import opened Components
  import opened Wire

  // ----- numbers as text -----

  function Digit(d: nat): char
    requires d < 10
  {
    ('0' as int + d) as char
  }

  predicate IsDigit(c: char) { '0' <= c <= '9' }

  function DecimalOfNat(n: nat): (s: string)
    ensures s != [] && forall c :: c in s ==> IsDigit(c)
  {
    if n < 10 then [Digit(n)] else DecimalOfNat(n / 10) + [Digit(n % 10)]
  }

  /** How an int is printed to a stream. */
  function Decimal(i: int): string { if i < 0 then ['-'] + DecimalOfNat(-i) else DecimalOfNat(i) }

  predicate IsSpace(c: char) { c == ' ' || 9 as char <= c <= 13 as char }

  /** The number that the digits at the front of s continue. */
  function Digits(s: string, n: nat): nat
  {
    if s == [] || !IsDigit(s[0]) then n else Digits(s[1..], 10 * n + (s[0] as int - '0' as int))
  }

  predicate IsInt(i: int) { -TWO31 <= i < TWO31 }

  function ToInt(i: int): int { (i + TWO31) % TWO32 - TWO31 }

  /** atoi: spaces, a sign, digits. Beyond the range of an int C leaves the result open; here it wraps. */
  function Atoi(s: string): int
  {
    if s == [] then 0
    else if IsSpace(s[0]) then Atoi(s[1..])
    else if s[0] == '-' then var n: int := Digits(s[1..], 0); ToInt(-n)
    else if s[0] == '+' then ToInt(Digits(s[1..], 0))
    else ToInt(Digits(s, 0))
  }

  lemma {:induction false} DigitsAppend(s: string, n: nat, d: nat)
    requires d < 10 && forall c :: c in s ==> IsDigit(c)
    ensures Digits(s + [Digit(d)], n) == 10 * Digits(s, n) + d
  {
    if s == [] {
      assert [Digit(d)][1..] == [];
    } else {
      assert s[0] in s;
      assert (s + [Digit(d)])[1..] == s[1..] + [Digit(d)];
      DigitsAppend(s[1..], 10 * n + (s[0] as int - '0' as int), d);
    }
  }

  lemma {:induction false} DigitsOfDecimal(n: nat)
    ensures Digits(DecimalOfNat(n), 0) == n
  {
    if n < 10 {
      assert [Digit(n)][1..] == [];
    } else {
      DigitsOfDecimal(n / 10);
      DigitsAppend(DecimalOfNat(n / 10), 0, n % 10);
    }
  }

  /** Reading back a printed int gives the int. */
  lemma AtoiOfDecimal(i: int)
    requires IsInt(i)
    ensures Atoi(Decimal(i)) == i
  {
    DigitsOfDecimal(if i < 0 then -i else i);
    if i < 0 { assert Decimal(i)[1..] == DecimalOfNat(-i); }
  }

  function Power10(k: nat): (p: nat)
    ensures p > 0
  {
    if k == 0 then 1 else 10 * Power10(k - 1)
  }

  lemma {:induction false} DecimalLength(n: nat, k: nat)
    requires k > 0
    ensures |DecimalOfNat(n)| <= k <==> n < Power10(k)
  {
    if n < 10 {
      PowerAtLeast(k);
    } else if k > 1 {
      DecimalLength(n / 10, k - 1);
    }
  }

  lemma {:induction false} PowerAtLeast(k: nat)
    requires k > 0
    ensures Power10(k) >= 10
  {
    if k > 1 { PowerAtLeast(k - 1); }
  }

  /** The i-th digit from the right stands for its power of ten, and the first digit is not a zero too many. */
  lemma {:induction false} DecimalDigits(n: nat, i: nat)
    requires i < |DecimalOfNat(n)|
    ensures var s := DecimalOfNat(n);
      && s[|s| - 1 - i] == "0123456789"[n / Power10(i) % 10]
      && n < Power10(|s|) && (|s| > 1 ==> n >= Power10(|s| - 1))
  {
    var s := DecimalOfNat(n);
    DecimalLength(n, |s|);
    if |s| > 1 { DecimalLength(n, |s| - 1); }
    DigitText(n % 10);
    if i > 0 {
      var t := DecimalOfNat(n / 10);
      assert s == t + [Digit(n % 10)];
      DecimalDigits(n / 10, i - 1);
      DivideTwice(n, 10, Power10(i - 1));
      assert s[|s| - 1 - i] == t[|t| - 1 - (i - 1)];
    } else if n < 10 {
      assert s[0] == Digit(n % 10);
    }
  }

  lemma DigitText(d: nat)
    requires d < 10
    ensures Digit(d) == "0123456789"[d]
  {
  }

  /** What atoi does with blanks and signs in front. */
  lemma AtoiSigns(n: nat)
    requires n < TWO31
    ensures var s := DecimalOfNat(n);
      Atoi(s) == Atoi(['+'] + s) == Atoi([' '] + s) == n && Atoi(['-'] + s) == 0 - n
  {
    DigitsOfDecimal(n);
    hide DecimalOfNat, Digits;
    var s := DecimalOfNat(n);
    assert s[0] in s;
    assert (['+'] + s)[1..] == s && (['-'] + s)[1..] == s && ([' '] + s)[1..] == s;
  }

  // ----- entries -----

  function Entry(name: string, session: int): string { name + Decimal(session) }

  /** The part of an entry before its last ten characters; of a shorter entry, all of it. */
  function UserOf(entry: string): string { if |entry| < 10 then entry else entry[..|entry| - 10] }

  /** The number in the last ten characters. The update loop throws on a shorter entry. */
  function SessionOf(entry: string): int
    requires |entry| >= 10
  {
    Atoi(entry[|entry| - 10..])
  }

  /** The session numbers that print with ten characters. */
  predicate TenChars(session: int)
  {
    1_000_000_000 <= session < TWO31 || -999_999_999 <= session <= -100_000_000
  }

  lemma TenCharsLength(session: int)
    requires IsInt(session)
    ensures |Decimal(session)| == 10 <==> TenChars(session)
  {
    assert Power10(8) == 100_000_000;
    assert Power10(9) == 1_000_000_000 && Power10(10) == 10_000_000_000;
    var n := if session < 0 then -session else session;
    DecimalLength(n, 8);
    DecimalLength(n, 9);
    DecimalLength(n, 10);
  }

  /** An entry comes apart into the name and session it was made of exactly for those session numbers. */
  lemma EntrySplitsIff(name: string, session: int)
    requires IsInt(session)
    ensures var e := Entry(name, session);
      |e| >= 10 && UserOf(e) == name && SessionOf(e) == session <==> TenChars(session)
  {
    var e := Entry(name, session);
    TenCharsLength(session);
    if TenChars(session) {
      assert e[..|e| - 10] == name && e[|e| - 10..] == Decimal(session);
      AtoiOfDecimal(session);
    } else if |e| >= 10 {
      assert |UserOf(e)| != |name|;
    }
  }

  // ----- updates -----

  datatype MessageType = CHAT | HELLO | LEAVE | JOIN | OTHER

  /** The roster after the update loop and the push that may follow it; None where the loop throws. */
  function Updated(roster: seq<string>, name: string, session: int, kind: MessageType): Option<seq<string>>
  {
    if roster == [] then Some([Entry(name, session)])
    else if |roster[0]| < 10 then None
    else if name != UserOf(roster[0]) && kind != LEAVE then
      var rest := Updated(roster[1..], name, session, kind);
      if rest.None? then None else Some([roster[0]] + rest.value)
    else if name == UserOf(roster[0]) && session > SessionOf(roster[0]) then
      Some([Entry(name, session)] + roster[1..])
    else Some(roster)
  }

  /** The roster without the first such entry. */
  function Without(roster: seq<string>, entry: string): seq<string>
  {
    if roster == [] then []
    else if roster[0] == entry then roster[1..]
    else [roster[0]] + Without(roster[1..], entry)
  }

  datatype Event =
    | Initial
    | Message(name: string, session: int, kind: MessageType, recent: bool)
    | Alive(name: string, session: int, sequenceNo: int, producerSequenceNo: int)

  /** None is an exception that leaves the roster as it was. */
  function Step(screenName: string, userName: string, roster: seq<string>, event: Event): Option<seq<string>>
  {
    match event
    case Initial => Some(if userName in roster then roster else roster + [userName])
    case Message(name, session, kind, recent) =>
      if !recent then Some(roster)
      else
        var updated := Updated(roster, name, session, kind);
        if updated.None? then None
        else if kind == LEAVE && name != screenName then Some(Without(updated.value, Entry(name, session)))
        else updated
    case Alive(name, session, sequenceNo, producerSequenceNo) =>
      Some(if producerSequenceNo != -1 && sequenceNo == producerSequenceNo then Without(roster, Entry(name, session))
           else roster)
  }

  class Chat {
    const screenName: string
    const userName: string
    var roster: seq<string>

    constructor (screenName: string, sessionNo: int)
      ensures roster == [] && this.screenName == screenName && userName == Entry(screenName, sessionNo)
    {
      this.screenName, userName, roster := screenName, Entry(screenName, sessionNo), [];
    }

    method RosterFind(entry: string) returns (n: int)
      ensures n == -1 ==> entry !in roster
      ensures n != -1 ==> 0 <= n < |roster| && roster[n] == entry && entry !in roster[..n]
    {
      for i := 0 to |roster|
        invariant entry !in roster[..i]
      {
        if roster[i] == entry {
          return i;
        }
      }
      return -1;
    }

    method JoinSelf()
      modifies this`roster
      ensures Some(roster) == Step(screenName, userName, old(roster), Initial)
    {
      var n := RosterFind(userName);
      if n < 0 {
        roster := roster + [userName];
      }
    }

    method Erase(n: nat, ghost entry: string)
      requires n < |roster| && roster[n] == entry && entry !in roster[..n]
      modifies this`roster
      ensures roster == Without(old(roster), entry)
    {
      WithoutAt(roster, entry, n);
      roster := roster[..n] + roster[n + 1..];
    }

    /** The update loop of onData and the push after it. */
    method UpdateRoster(name: string, sessionNo: int, kind: MessageType) returns (threw: bool)
      modifies this`roster
      ensures (if threw then None else Some(roster)) == Updated(old(roster), name, sessionNo, kind)
      ensures threw ==> roster == old(roster)
    {
      hide Updated, UserOf, SessionOf, Entry;
      ghost var before := roster;
      var l := 0;
      PrependNothing(before, Updated(before, name, sessionNo, kind));
      while l < |roster|
        invariant l <= |roster| && roster == before
        invariant Prepend(before[..l], Updated(before[l..], name, sessionNo, kind))
          == Updated(before, name, sessionNo, kind)
      {
        UpdatedAt(before, l, name, sessionNo, kind);
        if |roster[l]| < 10 {
          return true;
        }
        var user, session := UserOf(roster[l]), SessionOf(roster[l]);
        if name != user && kind != LEAVE {
          l := l + 1;
        } else {
          if name == user && sessionNo > session {
            roster := roster[l := Entry(name, sessionNo)];
          }
          return false;
        }
      }
      UpdatedAtEnd(before, l, name, sessionNo, kind);
      roster := roster + [Entry(name, sessionNo)];
      threw := false;
    }

    method OnData(name: string, sessionNo: int, kind: MessageType, recent: bool) returns (threw: bool)
      modifies this`roster
      ensures (if threw then None else Some(roster)) == Step(screenName, userName, old(roster),
        Message(name, sessionNo, kind, recent))
      ensures threw ==> roster == old(roster)
    {
      hide Updated, Entry, Without;
      threw := false;
      if !recent {
        return;
      }
      threw := UpdateRoster(name, sessionNo, kind);
      if !threw && kind == LEAVE {
        var nameAndSession := Entry(name, sessionNo);
        var n := RosterFind(nameAndSession);
        if n >= 0 && name != screenName {
          Erase(n, nameAndSession);
        } else if n < 0 {
          WithoutNone(roster, nameAndSession);
        }
      }
    }

    method OnAlive(sequenceNo: int, name: string, sessionNo: int, producerSequenceNo: int)
      modifies this`roster
      ensures Some(roster) == Step(screenName, userName, old(roster),
        Alive(name, sessionNo, sequenceNo, producerSequenceNo))
    {
      var n := RosterFind(Entry(name, sessionNo));
      if producerSequenceNo != -1 && n >= 0 {
        if sequenceNo == producerSequenceNo {
          Erase(n, Entry(name, sessionNo));
        }
      } else if n < 0 {
        WithoutNone(roster, Entry(name, sessionNo));
      }
    }
  }

  function Prepend(front: seq<string>, r: Option<seq<string>>): Option<seq<string>>
  {
    if r.None? then None else Some(front + r.value)
  }

  lemma PrependNothing(roster: seq<string>, r: Option<seq<string>>)
    ensures Prepend(roster[..0], r) == r && roster[0..] == roster
  {
    if r.Some? { assert [] + r.value == r.value; }
  }

  /** The update from position l on, one entry at a time, with the entries before it put back. */
  lemma UpdatedAt(roster: seq<string>, l: nat, name: string, session: int, kind: MessageType)
    requires l < |roster|
    ensures var e, u := roster[l], Prepend(roster[..l], Updated(roster[l..], name, session, kind));
      if |e| < 10 then u == None
      else if name != UserOf(e) && kind != LEAVE then
        u == Prepend(roster[..l + 1], Updated(roster[l + 1..], name, session, kind))
      else if name == UserOf(e) && session > SessionOf(e) then u == Some(roster[l := Entry(name, session)])
      else u == Some(roster)
  {
    hide UserOf, SessionOf, Entry;
    var s, front := roster[l..], roster[..l];
    assert s != [] && s[0] == roster[l] && s[1..] == roster[l + 1..];
    assert front + s == roster;
    assert front + ([Entry(name, session)] + s[1..]) == roster[l := Entry(name, session)];
    var r := Updated(s[1..], name, session, kind);
    if r.Some? { assert front + ([s[0]] + r.value) == roster[..l + 1] + r.value; }
  }

  lemma UpdatedAtEnd(roster: seq<string>, l: nat, name: string, session: int, kind: MessageType)
    requires l == |roster|
    ensures Prepend(roster[..l], Updated(roster[l..], name, session, kind)) == Some(roster + [Entry(name, session)])
  {
    assert roster[..l] == roster && roster[l..] == [];
  }

  lemma {:induction false} WithoutAt(roster: seq<string>, entry: string, n: nat)
    requires n < |roster| && roster[n] == entry && entry !in roster[..n]
    ensures Without(roster, entry) == roster[..n] + roster[n + 1..]
  {
    if n > 0 {
      assert roster[0] in roster[..n];
      assert roster[1..][..n - 1] == roster[..n][1..];
      WithoutAt(roster[1..], entry, n - 1);
      assert roster[..n] == [roster[0]] + roster[1..][..n - 1];
    }
  }

  lemma {:induction false} WithoutNone(roster: seq<string>, entry: string)
    requires entry !in roster
    ensures Without(roster, entry) == roster
  {
    if roster != [] { WithoutNone(roster[1..], entry); }
  }

  // ----- what every run keeps -----

  predicate Splits(entry: string)
  {
    && |entry| >= 10 && IsInt(SessionOf(entry)) && TenChars(SessionOf(entry))
    && entry == Entry(UserOf(entry), SessionOf(entry))
  }

  /** Every entry comes apart into its user and session, and no user has two. */
  predicate Sound(roster: seq<string>)
  {
    && (forall e :: e in roster ==> Splits(e))
    && forall i, j :: 0 <= i < j < |roster| ==> UserOf(roster[i]) != UserOf(roster[j])
  }

  /** The session recorded for a user. */
  function SessionIn(roster: seq<string>, user: string): Option<int>
  {
    if roster == [] then None
    else if |roster[0]| >= 10 && UserOf(roster[0]) == user then Some(SessionOf(roster[0]))
    else SessionIn(roster[1..], user)
  }

  lemma SplitsEntry(name: string, session: int)
    requires IsInt(session) && TenChars(session)
    ensures var e := Entry(name, session); Splits(e) && UserOf(e) == name && SessionOf(e) == session
  {
    EntrySplitsIff(name, session);
    hide Entry, UserOf, SessionOf;
  }

  lemma {:induction false} NotRecorded(roster: seq<string>, user: string)
    requires Sound(roster)
    ensures SessionIn(roster, user) == None <==> forall e :: e in roster ==> UserOf(e) != user
  {
    hide UserOf, SessionOf, Entry, TenChars, IsInt;
    if roster != [] { NotRecorded(roster[1..], user); }
  }

  lemma SoundTail(roster: seq<string>)
    requires roster != [] && Sound(roster)
    ensures Sound(roster[1..]) && Splits(roster[0]) && SessionIn(roster[1..], UserOf(roster[0])) == None
  {
    hide UserOf, SessionOf, Splits;
    NotRecorded(roster[1..], UserOf(roster[0]));
  }

  lemma SoundCons(entry: string, roster: seq<string>)
    requires Splits(entry) && Sound(roster) && SessionIn(roster, UserOf(entry)) == None
    ensures Sound([entry] + roster)
    ensures forall u ::
      SessionIn([entry] + roster, u) == if u == UserOf(entry) then Some(SessionOf(entry)) else SessionIn(roster, u)
  {
    NotRecorded(roster, UserOf(entry));
    assert ([entry] + roster)[1..] == roster;
    assert |entry| >= 10;
    hide UserOf, SessionOf, Splits;
  }

  function Max(o: Option<int>, session: int): int { if o.Some? && o.value > session then o.value else session }

  /** The roster with the session recorded for the name, and nothing else changed. */
  ghost predicate Records(roster: seq<string>, r: seq<string>, name: string, session: int)
  {
    forall u :: SessionIn(r, u) == if u == name then Some(session) else SessionIn(roster, u)
  }

  /** A message other than LEAVE records the larger session for its sender and changes nothing else. */
  lemma {:induction false} MessageRecords(roster: seq<string>, name: string, session: int, kind: MessageType)
    requires Sound(roster) && IsInt(session) && TenChars(session) && kind != LEAVE
    ensures var r := Updated(roster, name, session, kind);
      r.Some? && Sound(r.value) && Records(roster, r.value, name, Max(SessionIn(roster, name), session))
  {
    hide UserOf, SessionOf, Splits, Entry, Sound, SessionIn, TenChars;
    var e := Entry(name, session);
    SplitsEntry(name, session);
    NothingRecorded();
    if roster == [] {
      SoundCons(e, []);
      assert [e] + [] == [e];
    } else {
      SoundTail(roster);
      SplitsLong(roster[0]);
      UpdatedHead(roster, name, session, kind);
      assert roster == [roster[0]] + roster[1..];
      hide Updated, Records;
      if name != UserOf(roster[0]) {
        MessageRecords(roster[1..], name, session, kind);
        RecordsBehind(roster[0], roster[1..], Updated(roster[1..], name, session, kind).value, name,
          Max(SessionIn(roster[1..], name), session));
      } else {
        RecordsFirst(roster[0], e, roster[1..]);
      }
    }
  }

  lemma RecordsBehind(x: string, roster: seq<string>, r: seq<string>, name: string, session: int)
    requires Splits(x) && Sound(roster) && SessionIn(roster, UserOf(x)) == None && name != UserOf(x)
    requires Sound(r) && Records(roster, r, name, session)
    ensures Sound([x] + r) && Records([x] + roster, [x] + r, name, session)
    ensures SessionIn([x] + roster, name) == SessionIn(roster, name)
  {
    SoundCons(x, roster);
    SoundCons(x, r);
    hide UserOf, SessionOf, Splits, Sound, SessionIn;
  }

  lemma RecordsFirst(x: string, e: string, roster: seq<string>)
    requires Splits(x) && Splits(e) && Sound(roster) && UserOf(x) == UserOf(e) && SessionIn(roster, UserOf(x)) == None
    ensures Sound([x] + roster) && Sound([e] + roster) && SessionIn([x] + roster, UserOf(x)) == Some(SessionOf(x))
    ensures Records([x] + roster, [x] + roster, UserOf(x), SessionOf(x))
    ensures Records([x] + roster, [e] + roster, UserOf(x), SessionOf(e))
  {
    SoundCons(x, roster);
    SoundCons(e, roster);
    hide UserOf, SessionOf, Splits, Sound, SessionIn;
  }

  lemma UpdatedHead(roster: seq<string>, name: string, session: int, kind: MessageType)
    requires roster != [] && |roster[0]| >= 10 && kind != LEAVE
    ensures Updated(roster, name, session, kind) ==
      if name != UserOf(roster[0]) then Prepend([roster[0]], Updated(roster[1..], name, session, kind))
      else if session > SessionOf(roster[0]) then Some([Entry(name, session)] + roster[1..])
      else Some(roster)
  {
    hide UserOf, SessionOf, Entry;
  }

  lemma NothingRecorded()
    ensures Sound([]) && forall u :: SessionIn([], u) == None
  {
  }

  lemma SoundNil()
    ensures Sound([])
  {
  }

  lemma SplitsLong(e: string)
    requires Splits(e)
    ensures |e| >= 10
  {
  }

  /** Erasing an entry forgets its user if that is the session recorded, and changes nothing else. */
  lemma {:induction false} ErasingForgets(roster: seq<string>, name: string, session: int)
    requires Sound(roster) && IsInt(session) && TenChars(session)
    ensures var r := Without(roster, Entry(name, session));
      && Sound(r)
      && forall u :: SessionIn(r, u)
           == if u == name && SessionIn(roster, name) == Some(session) then None else SessionIn(roster, u)
  {
    var e := Entry(name, session);
    SplitsEntry(name, session);
    if roster == [] {
    } else {
      SoundTail(roster);
      SplitsAgain(roster[0]);
      hide UserOf, SessionOf, Splits, Entry, Sound;
      assert roster == [roster[0]] + roster[1..];
      if roster[0] != e {
        ErasingForgets(roster[1..], name, session);
        SoundCons(roster[0], Without(roster[1..], e));
      }
    }
  }

  lemma SplitsAgain(e: string)
    requires Splits(e)
    ensures |e| >= 10 && e == Entry(UserOf(e), SessionOf(e))
  {
  }

  /** On a roster that is not empty a LEAVE looks at the first entry only. */
  lemma LeaveUpdates(roster: seq<string>, name: string, session: int)
    requires Sound(roster) && IsInt(session) && TenChars(session)
    ensures var r := Updated(roster, name, session, LEAVE);
      && r.Some? && Sound(r.value)
      && if LooksAt(roster, name) then Records(roster, r.value, name, Max(SessionIn(roster, name), session))
         else r.value == roster
  {
    var e := Entry(name, session);
    SplitsEntry(name, session);
    hide UserOf, SessionOf, Splits, Entry, Sound;
    if roster == [] {
      SoundNil();
      SoundCons(e, []);
      assert [e] + [] == [e];
    } else {
      SoundTail(roster);
      SplitsLong(roster[0]);
      assert roster == [roster[0]] + roster[1..];
      if name == UserOf(roster[0]) { SoundCons(e, roster[1..]); }
    }
  }

  predicate LooksAt(roster: seq<string>, name: string)
  {
    roster == [] || (|roster[0]| >= 10 && UserOf(roster[0]) == name)
  }

  predicate Allowed(event: Event)
  {
    match event
    case Initial => false
    case Message(_, session, _, _) => IsInt(session) && TenChars(session)
    case Alive(_, session, _, _) => IsInt(session) && TenChars(session)
  }

  /** An event with a ten-character session never throws, and keeps at most one entry for each user. */
  lemma StepKeepsSound(screenName: string, userName: string, roster: seq<string>, event: Event)
    requires Sound(roster) && Allowed(event)
    ensures var r := Step(screenName, userName, roster, event);
      && r.Some? && Sound(r.value)
      && forall u :: SessionIn(roster, u).Some? && SessionIn(r.value, u).Some?
           ==> SessionIn(roster, u).value <= SessionIn(r.value, u).value
  {
    hide Sound, SessionIn, Updated, Without, Entry;
    match event
    case Message(name, session, kind, _) =>
      if kind == LEAVE {
        LeaveUpdates(roster, name, session);
        ErasingForgets(Updated(roster, name, session, kind).value, name, session);
      } else {
        MessageRecords(roster, name, session, kind);
      }
    case Alive(name, session, _, _) =>
      ErasingForgets(roster, name, session);
  }

  /**
    A LEAVE of another user: a sender at the front of the roster, or of an empty one, is forgotten unless a newer
    session is recorded, and any other one is forgotten if the session is the recorded one. The own user stays.
   */
  lemma LeaveForgets(screenName: string, userName: string, roster: seq<string>, name: string, session: int)
    requires Sound(roster) && IsInt(session) && TenChars(session)
    ensures var r := Step(screenName, userName, roster, Message(name, session, LEAVE, true));
      var known := SessionIn(roster, name);
      var left :=
        if name == screenName then (if LooksAt(roster, name) then Some(Max(known, session)) else known)
        else if known == Some(session) || (LooksAt(roster, name) && Max(known, session) == session) then None
        else known;
      && r.Some? && Sound(r.value)
      && forall u :: SessionIn(r.value, u) == if u == name then left else SessionIn(roster, u)
  {
    LeaveUpdates(roster, name, session);
    ErasingForgets(Updated(roster, name, session, LEAVE).value, name, session);
    hide Sound, SessionIn, Updated, Without, Entry, LooksAt, TenChars;
  }

  /** A user whose sequence number is known and has not moved is forgotten if the session is the recorded one. */
  lemma AliveForgets(screenName: string, userName: string, roster: seq<string>, name: string, session: int,
                     sequenceNo: int, producerSequenceNo: int)
    requires Sound(roster) && IsInt(session) && TenChars(session)
    ensures var r := Step(screenName, userName, roster, Alive(name, session, sequenceNo, producerSequenceNo));
      var silent := producerSequenceNo != -1 && sequenceNo == producerSequenceNo;
      && r.Some? && Sound(r.value)
      && (forall u :: u != name ==> SessionIn(r.value, u) == SessionIn(roster, u))
      && SessionIn(r.value, name) == if silent && SessionIn(roster, name) == Some(session) then None
                                     else SessionIn(roster, name)
  {
    ErasingForgets(roster, name, session);
    hide Sound, SessionIn, Without, Entry, TenChars;
  }

  /** Putting the own entry on the roster keeps it sound exactly if no other session of the user is there. */
  lemma InitialKeepsSoundIff(screenName: string, sessionNo: int, roster: seq<string>)
    requires Sound(roster) && IsInt(sessionNo) && TenChars(sessionNo)
    ensures var r := Step(screenName, Entry(screenName, sessionNo), roster, Initial).value;
      Sound(r) <==> (SessionIn(roster, screenName) == None || SessionIn(roster, screenName) == Some(sessionNo))
  {
    var e := Entry(screenName, sessionNo);
    SplitsEntry(screenName, sessionNo);
    NotRecorded(roster, screenName);
    RecordedEntry(roster, screenName);
    SoundSnocIff(roster, e);
    hide UserOf, SessionOf, Splits, Entry, SessionIn, Sound;
  }

  lemma SoundSnocIff(roster: seq<string>, e: string)
    requires Sound(roster) && Splits(e)
    ensures Sound(roster + [e]) <==> forall x :: x in roster ==> UserOf(x) != UserOf(e)
  {
    hide UserOf, Splits;
    var r := roster + [e];
    assert r[|roster|] == e;
    if x :| x in roster && UserOf(x) == UserOf(e) {
      var i :| 0 <= i < |roster| && roster[i] == x;
      assert r[i] == x;
    }
  }

  lemma {:induction false} RecordedEntry(roster: seq<string>, user: string)
    requires Sound(roster)
    ensures forall e :: e in roster && UserOf(e) == user ==> SessionIn(roster, user) == Some(SessionOf(e))
    ensures SessionIn(roster, user).Some? ==> Entry(user, SessionIn(roster, user).value) in roster
  {
    hide UserOf, SessionOf, TenChars, IsInt, Entry;
    if roster != [] {
      NotRecorded(roster[1..], UserOf(roster[0]));
      RecordedEntry(roster[1..], user);
    }
  }

  // ----- runs -----

  /** The roster after the chat has put itself on it and then met these events. */
  function Run(screenName: string, userName: string, events: seq<Event>): Option<seq<string>>
  {
    if events == [] then Step(screenName, userName, [], Initial)
    else
      var before := Run(screenName, userName, events[..|events| - 1]);
      if before.None? then None else Step(screenName, userName, before.value, events[|events| - 1])
  }

  lemma {:induction false} RunKeepsSound(screenName: string, sessionNo: int, events: seq<Event>)
    requires IsInt(sessionNo) && TenChars(sessionNo) && forall e :: e in events ==> Allowed(e)
    ensures var r := Run(screenName, Entry(screenName, sessionNo), events); r.Some? && Sound(r.value)
  {
    var userName := Entry(screenName, sessionNo);
    hide Sound, Step, Allowed;
    if events == [] {
      SoundNil();
      InitialKeepsSoundIff(screenName, sessionNo, []);
      InitialSteps(screenName, userName, []);
    } else {
      var n := |events| - 1;
      assert events[n] in events;
      RunKeepsSound(screenName, sessionNo, events[..n]);
      StepKeepsSound(screenName, userName, Run(screenName, userName, events[..n]).value, events[n]);
    }
  }

  lemma InitialSteps(screenName: string, userName: string, roster: seq<string>)
    ensures Step(screenName, userName, roster, Initial).Some?
  {
  }

  /** Messages that are not recent make no difference, wherever in a run they come. */
  lemma {:induction false} OldMessagesIgnored(screenName: string, userName: string, events: seq<Event>, old': Event,
                                              more: seq<Event>)
    requires old'.Message? && !old'.recent
    ensures Run(screenName, userName, events + [old'] + more) == Run(screenName, userName, events + more)
    decreases |more|
  {
    hide Updated, Without, Entry;
    if more == [] {
      assert events + [old'] + more == events + [old'] && events + more == events;
      assert (events + [old'])[..|events|] == events;
    } else {
      var n := |more| - 1;
      var long, short := events + [old'] + more, events + more;
      assert long[..|long| - 1] == events + [old'] + more[..n] && short[..|short| - 1] == events + more[..n];
      hide Step;
      OldMessagesIgnored(screenName, userName, events, old', more[..n]);
    }
  }

  /** From the i-th to the j-th event of a run the user is always on the roster. */
  predicate Stays(screenName: string, userName: string, events: seq<Event>, user: string, i: nat, j: nat)
  {
    forall k :: i <= k <= j <= |events| ==>
      var r := Run(screenName, userName, events[..k]); r.Some? && SessionIn(r.value, user).Some?
  }

  /** While a user stays on the roster its recorded session never decreases. */
  lemma {:induction false} SessionsOnlyGrow(screenName: string, sessionNo: int, events: seq<Event>, user: string,
                                            i: nat, j: nat)
    requires IsInt(sessionNo) && TenChars(sessionNo) && (forall e :: e in events ==> Allowed(e))
    requires i <= j <= |events| && Stays(screenName, Entry(screenName, sessionNo), events, user, i, j)
    ensures var userName := Entry(screenName, sessionNo);
      var r, s := Run(screenName, userName, events[..i]), Run(screenName, userName, events[..j]);
      r.Some? && s.Some? && SessionIn(r.value, user).Some? && SessionIn(s.value, user).Some?
      && SessionIn(r.value, user).value <= SessionIn(s.value, user).value
    decreases j
  {
    hide Sound, Step, Allowed, SessionIn, Entry;
    if i < j {
      var userName := Entry(screenName, sessionNo);
      SessionsOnlyGrow(screenName, sessionNo, events, user, i, j - 1);
      RunKeepsSound(screenName, sessionNo, events[..j - 1]);
      assert events[..j][..j - 1] == events[..j - 1];
      StepKeepsSound(screenName, userName, Run(screenName, userName, events[..j - 1]).value, events[j - 1]);
    }
  }

  /** What a second message makes of the entry that the first one appended. */
  function AfterSecond(roster: seq<string>, name: string, session: int): Option<seq<string>>
  {
    var e := Entry(name, session);
    if TenChars(session) then Some(roster + [e])
    else if |e| < 10 then None
    else Some(roster + [e, e])
  }

  /**
    The first message of a user that is not on the roster appends an entry. The same message again changes
    nothing if its session prints with ten characters; otherwise it throws or appends the entry once more.
   */
  lemma {:induction false} SecondMessage(roster: seq<string>, name: string, session: int, kind: MessageType)
    requires Sound(roster) && SessionIn(roster, name) == None && IsInt(session) && kind != LEAVE
    ensures Updated(roster, name, session, kind) == Some(roster + [Entry(name, session)])
    ensures Updated(roster + [Entry(name, session)], name, session, kind) == AfterSecond(roster, name, session)
  {
    hide UserOf, SessionOf, Splits, Entry, TenChars;
    var e := Entry(name, session);
    if roster == [] {
      EntryAlone(name, session, kind);
      assert [] + [e] == [e] && [] + [e, e] == [e, e];
    } else {
      var x, rest := roster[0], roster[1..];
      assert SessionIn(rest, name) == None && (|x| >= 10 ==> UserOf(x) != name);
      SoundTail(roster);
      SplitsLong(x);
      hide SessionIn, Updated, AfterSecond, Sound;
      SecondMessage(rest, name, session, kind);
      UpdatedPast(x, rest, name, session, kind);
      UpdatedPast(x, rest + [e], name, session, kind);
      AfterSecondPast(x, rest, name, session);
      assert roster == [x] + rest && roster + [e] == [x] + (rest + [e]);
    }
  }

  lemma UpdatedPast(x: string, rest: seq<string>, name: string, session: int, kind: MessageType)
    requires |x| >= 10 && name != UserOf(x) && kind != LEAVE
    ensures Updated([x] + rest, name, session, kind) == Prepend([x], Updated(rest, name, session, kind))
  {
    UpdatedHead([x] + rest, name, session, kind);
    hide UserOf, SessionOf, Entry, Updated;
    assert ([x] + rest)[1..] == rest;
  }

  lemma AfterSecondPast(x: string, rest: seq<string>, name: string, session: int)
    ensures Prepend([x], AfterSecond(rest, name, session)) == AfterSecond([x] + rest, name, session)
  {
    hide Entry, TenChars;
    var e := Entry(name, session);
    assert [x] + (rest + [e]) == [x] + rest + [e] && [x] + (rest + [e, e]) == [x] + rest + [e, e];
  }

  lemma EntryAlone(name: string, session: int, kind: MessageType)
    requires IsInt(session) && kind != LEAVE
    ensures var e := Entry(name, session);
      Updated([], name, session, kind) == Some([e]) && Updated([e], name, session, kind)
        == if TenChars(session) then Some([e]) else if |e| < 10 then None else Some([e, e])
  {
    var e := Entry(name, session);
    TenCharsLength(session);
    EntrySplitsIff(name, session);
    assert [e][1..] == [];
    assert Updated([], name, session, kind) == Some([e]);
    if |e| >= 10 {
      assert |UserOf(e)| == |name| <==> TenChars(session);
      UpdatedHead([e], name, session, kind);
      hide TenChars, UserOf, SessionOf, Updated;
      assert [e] + [e] == [e, e];
    }
  }

  /**
    After any run of events with ten-character sessions, two equal messages of a user who is not on the roster
    leave one entry of that user, two, or throw, by the number of characters that the session prints with.
   */
  lemma TwoMessages(screenName: string, sessionNo: int, events: seq<Event>, name: string, session: int,
                    kind: MessageType)
    requires IsInt(sessionNo) && TenChars(sessionNo) && forall e :: e in events ==> Allowed(e)
    requires var r := Run(screenName, Entry(screenName, sessionNo), events);
      r.Some? ==> SessionIn(r.value, name) == None
    requires IsInt(session) && kind != LEAVE
    ensures var userName, m := Entry(screenName, sessionNo), Message(name, session, kind, true);
      var r := Run(screenName, userName, events);
      r.Some? && Run(screenName, userName, events + [m, m]) == AfterSecond(r.value, name, session)
  {
    var userName, m := Entry(screenName, sessionNo), Message(name, session, kind, true);
    hide Sound, SessionIn, Updated, Allowed, Entry, AfterSecond, TenChars;
    RunKeepsSound(screenName, sessionNo, events);
    var roster := Run(screenName, userName, events).value;
    SecondMessage(roster, name, session, kind);
    assert (events + [m])[..|events|] == events;
    assert (events + [m, m])[..|events| + 1] == events + [m];
  }

  /** For a user other than the own one that is so from the start. */
  lemma FirstTwoMessages(screenName: string, sessionNo: int, name: string, session: int, kind: MessageType)
    requires IsInt(sessionNo) && TenChars(sessionNo) && name != screenName && IsInt(session) && kind != LEAVE
    ensures var userName, e := Entry(screenName, sessionNo), Entry(name, session);
      var m := Message(name, session, kind, true);
      Run(screenName, userName, [m, m])
        == if TenChars(session) then Some([userName, e]) else if |e| < 10 then None else Some([userName, e, e])
  {
    var userName, m := Entry(screenName, sessionNo), Message(name, session, kind, true);
    OwnEntryAlone(screenName, sessionNo, name);
    hide Run, SessionIn, Entry, TenChars;
    TwoMessages(screenName, sessionNo, [], name, session, kind);
    assert [] + [m, m] == [m, m];
    var e := Entry(name, session);
    assert [userName] + [e] == [userName, e] && [userName] + [e, e] == [userName, e, e];
  }

  lemma OwnEntryAlone(screenName: string, sessionNo: int, name: string)
    requires IsInt(sessionNo) && TenChars(sessionNo) && name != screenName
    ensures var userName := Entry(screenName, sessionNo);
      SessionIn([userName], name) == None && Run(screenName, userName, []) == Some([userName])
  {
    var userName := Entry(screenName, sessionNo);
    SplitsEntry(screenName, sessionNo);
    hide Entry, UserOf, SessionOf, Splits;
    assert [userName][1..] == [] && [] + [userName] == [userName];
  }
}
