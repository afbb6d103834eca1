# NDN client library: a verified model

This project models five parts of the NDN client library and proves what they promise, for all inputs and
all runs:

- **Streaming SHA-256 and HMAC** (`Fips180.dfy`, `Sha256.dfy`, `Sha256Laws.dfy`, `Sha256ByRows.dfy`,
  `Sha256Examples.dfy`). The class that feeds bytes through an endian swizzle into a 64-byte buffer, overwrites
  a 16-word ring in its 64 rounds, pads and swaps bytes back is proved against section 6.2 of FIPS 180-2 and
  section 2 of RFC 2104, for every message. That `Fips180` is what these standards say is held to laws that do
  not follow its definitions (rounds undone, the length spelled, what keys amount to) and to their examples,
  computed eight rounds at a time.
- **Names, number components and exclude filters** (`Names.dfy`, `NdnName.dfy`, `NameLaws.dfy`, `Exclude.dfy`).
  The URI printer and parser, the canonical order, big-endian numbers and the scan that skips ANY runs.
  `NameLaws` says what parsing does with URIs that the printer does not print.
- **The Node** (`NodeModel.dfy`, `NodeRuns.dfy`, `NodeRegistrations.dfy`, `NodeTables.dfy`, `NodeEntries.dfy`,
  `NodeOrigins.dfy`, `NodeDeadlines.dfy`, `NodeOutcomes.dfy`, `NodeRows.dfy`, `NodeLimits.dfy`,
  `NodeRemovals.dfy`, `Node.dfy`). The pending interest table, the two prefix tables and the three-stage
  registration protocol. `NodeModel` gives every API call and event as a function on one state; a run is any
  sequence of them. `NodeRuns` to `NodeEntries` prove invariants of all runs. The next four tell what a run
  holds by the events that made it: each entry and each row by the call it comes from, each timeout by the
  lifetime, each outcome by the response. `NodeLimits` and `NodeRemovals` say exactly when the promises about
  registrations hold. `Node.dfy` holds the class whose loops change the tables in place; each method is proved
  to do what the function says, and its ghost field `trace` makes every valid node the end of a run, so the
  invariants hold of it (`NodeObject.Node.Invariants`).
- **The FibEntry message codec** (`Wire.dfy`, `WireLaws.dfy`, `FibMessages.dfy`, `FibRoundTrip.dfy`,
  `FibCanonical.dfy`, `FibSteps.dfy`, `CodedStreams.dfy`, `FibEntry.dfy`). `Wire` is the wire format of the
  Protocol Buffers Encoding guide; `WireLaws` spells its bytes; `FibMessages` to `FibCanonical` define parsing,
  serialization and merging on values and prove the laws between them; `FibEntry` holds the four classes with
  their has-bits, cached sizes, goto loops and array writers, each proved against those functions.
- **The chat roster** (`Chat.dfy`). Strings that carry a session number in their last ten characters.

## Where a promise fails

- The 32-bit byte counter announces a wrong length for messages of 2^32 bytes and more: padding is right if and
  only if the message is shorter (`Cryptosuite.CounterFitsIff`).
- An exclude list that ends in two or more ANYs after a component excludes every non-empty component
  (`Excludes.Matches`, `Excludes.RepeatedAnyOverMatches`). A sorted list that starts with a component other than
  the two least excludes what its intervals say if and only if it does not end so (`Excludes.ScanAgreesIff`). The
  NDN packet format does not allow consecutive ANYs.
- Without NDNx enabled, a registration can be left with neither a pending interest nor an outcome, and an
  application that waits for the same Data is never called: `NodeLimits.ForgottenRun` is such a run. When the
  hub's key arrives for a registration, it stays in view if and only if NDNx is enabled
  (`NodeLimits.KeyArrivalCoversIff`), and so do the callbacks behind it (`NodeLimits.BehindKeyIff`). All runs in
  which nothing outside fails keep all accepted registrations in view if and only if it is
  (`NodeLimits.CoversAllIffNdnx`), and the same goes for losing no callback (`NodeLimits.NoneLostIffNdnx`).
- The key is stored before the setting of NDNx is looked at. So registerPrefix with a key chain and a
  certificate, where nothing outside fails, throws if and only if NDNx is not enabled and the hub's key was
  delivered to a registration before (`NodeLimits.KeyChainRegisters`; `NodeLimits.RegisterThrowsIff` gives the
  condition for all calls). `NodeLimits.RegisterAfterForgotten` has a run after which it does.
- removeRegisteredPrefix has no effect while a registration waits for the hub's key, and the rows are added
  afterwards: `NodeRemovals.RemovedAndBack` is such a run. In every state the removal is final if and only if no
  entry of the registration is left to add its row: none in the table, and none in flight if the Data being
  delivered is a key (`NodeRemovals.RemovalIsFinalIff`).
- A message that holds a field its type knows among its unknown fields is not read back as it was: the round
  trip holds if and only if there is none (`FibRoundTrip.RoundTripIffClean`,
  `FibRoundTrip.UncleanNameComesBackDifferent`). Parsing never produces such a message
  (`FibCanonical.ParsedRoundTrips`).
- A chat session number that does not print with ten characters does not come apart from its user name again
  (`ChatRoster.EntrySplitsIff`). The second of two equal messages of a new user leaves the roster as it is if and
  only if the session prints with ten characters; otherwise it throws if the entry is shorter than that, and else
  appends the entry once more (`ChatRoster.TwoMessages`, `ChatRoster.FirstTwoMessages`).

## Model

| member | source | states |
|---|---|---|
| Fips180.FirstPrimes | ndn-cpp/contrib/cryptosuite/sha256.cpp:29-38 | the numbers whose roots these are taken from are the first sixty-four primes, in order, none left out |
| Fips180.RoundConstants | ndn-cpp/contrib/cryptosuite/sha256.cpp:29-38 | word t of the K table is the first 32 bits of the fractional part of the cube root of prime t |
| Fips180.InitialHash | ndn-cpp/contrib/cryptosuite/sha256.cpp:45-54 | initial hash word i is the first 32 bits of the fractional part of the square root of prime i |
| Fips180.HashBlocksOfPrefix | ndn-cpp/contrib/cryptosuite/sha256.cpp:107-114 | the hash over the first blocks depends on those blocks only, so it can be computed as bytes arrive |
| Sha256Laws.CompressUndone | ndn-cpp/contrib/cryptosuite/sha256.cpp:66-105 | undoing rounds 63 to 0 on what a block added to the hash value gives back the value before it, for every value and block |
| Sha256Laws.Be64IsBigEndian | ndn-cpp/contrib/cryptosuite/sha256.cpp:128-136 | the eight length octets of the padding spell the length, most significant first |
| Sha256Laws.HmacKeys | ndn-cpp/contrib/cryptosuite/sha256.cpp:165-182 | a key of exactly one block is used as it is, and a longer one is as good as its digest |
| Sha256Laws.HmacKeyFilled | ndn-cpp/contrib/cryptosuite/sha256.cpp:165-182 | zeros at the end of a key of up to one block make no difference |
| Sha256Examples.Sha256OfAbc | ndn-cpp/contrib/cryptosuite/sha256.cpp:29-157 | the digest of "abc" is the one in appendix B.1 of FIPS 180-2 |
| Sha256Examples.HmacOfHiThere | ndn-cpp/contrib/cryptosuite/sha256.cpp:165-193 | test case 1 of section 4.2 of RFC 4231 gives the result printed there, through two blocks inside and two outside |
| Cryptosuite.OctetOfWithOctet | ndn-cpp/contrib/cryptosuite/sha256.h:30-37 | storing a byte through the union changes that byte of the word and no other |
| Cryptosuite.SwizzleIsXor | ndn-cpp/contrib/cryptosuite/sha256.cpp:108 | the byte index offset ^ 3 counts from the other end of its word |
| Cryptosuite.StoreOctet | ndn-cpp/contrib/cryptosuite/sha256.cpp:108 | the store at offset ^ 3 puts the byte at its big-endian place and leaves the other 63 bytes |
| Cryptosuite.FullBuffer | ndn-cpp/contrib/cryptosuite/sha256.cpp:107-114 | a buffer filled byte by byte holds the sixteen big-endian words of the block |
| Cryptosuite.ChooseAndMajority | ndn-cpp/contrib/cryptosuite/sha256.cpp:88-94 | the rewritten Ch and Maj equal those of FIPS 180-2 for all words |
| Cryptosuite.NextWordAsWritten | ndn-cpp/contrib/cryptosuite/sha256.cpp:80-87 | the update of a ring slot computes the next word of the message schedule |
| Cryptosuite.RoundFromParts | ndn-cpp/contrib/cryptosuite/sha256.cpp:88-95 | the parallel shift of the eight variables is one round of the standard |
| Cryptosuite.RingStep | ndn-cpp/contrib/cryptosuite/sha256.cpp:79-87 | overwriting slot i mod 16 keeps the ring equal to W[i-15..i] of the 64-word schedule |
| Cryptosuite.RingAt | ndn-cpp/contrib/cryptosuite/sha256.cpp:92 | the slot read in round i holds W[i] |
| Cryptosuite.Sha256Class.HashBlock | ndn-cpp/contrib/cryptosuite/sha256.cpp:66-105 | the 64 rounds over the ring are the compression function of section 6.2.2, for every state and block |
| Cryptosuite.AbsorbOctet | ndn-cpp/contrib/cryptosuite/sha256.cpp:107-114 | a stored byte extends what the object has absorbed by that byte, within a block and at its end |
| Cryptosuite.Sha256Class.Init | ndn-cpp/contrib/cryptosuite/sha256.cpp:56-60 | from any state the object has absorbed nothing and counts from zero |
| Cryptosuite.Sha256Class.AddUncounted | ndn-cpp/contrib/cryptosuite/sha256.cpp:107-114 | state, buffer and offset are those of the bytes so far followed by this one |
| Cryptosuite.Sha256Class.Write | ndn-cpp/contrib/cryptosuite/sha256.cpp:116-119 | the byte is absorbed and the 32-bit counter stays the number of bytes modulo 2^32 |
| Cryptosuite.PaddingProgress | ndn-cpp/contrib/cryptosuite/sha256.cpp:124-126 | the zero bytes stop at offset 56 after exactly the number section 5.1.1 asks for, so the loop ends |
| Cryptosuite.LengthOctets | ndn-cpp/contrib/cryptosuite/sha256.cpp:128-136 | three zeros and the five shifted bytes are 8 times the counter, big-endian in 64 bits |
| Cryptosuite.Sha256Class.Pad | ndn-cpp/contrib/cryptosuite/sha256.cpp:121-137 | what was written followed by the standard's padding for the counter has been absorbed |
| Cryptosuite.SwapOrderReverses | ndn-cpp/contrib/cryptosuite/sha256.cpp:144-153 | the byte swap makes memory order the big-endian order |
| Cryptosuite.Sha256Class.Result | ndn-cpp/contrib/cryptosuite/sha256.cpp:140-157 | the bytes returned are the digest of the padded message |
| Cryptosuite.CounterFitsIff | ndn-cpp/contrib/cryptosuite/sha256.cpp:121-137 | the padding made from the counter is the standard's exactly for messages shorter than 2^32 bytes |
| Cryptosuite.Hash | ndn-cpp/contrib/cryptosuite/sha256.cpp:56-157 | init, a write for each byte and result give SHA-256 of every message that fits the 32-bit counter, from any earlier state; of a longer one, the hash of it padded with its length modulo 2^32 |
| Cryptosuite.Sha256Class.InitHmac | ndn-cpp/contrib/cryptosuite/sha256.cpp:165-182 | for keys of any C int length the key buffer holds the block-sized key and the inner pad has been absorbed |
| Cryptosuite.Sha256Class.ResultHmac | ndn-cpp/contrib/cryptosuite/sha256.cpp:184-193 | the outer hash is taken over the outer pad and the inner digest, the key buffer having survived |
| Cryptosuite.Authenticate | ndn-cpp/contrib/cryptosuite/sha256.cpp:165-193 | initHmac, writes and resultHmac give HMAC-SHA-256 of RFC 2104 for every key of C int length and every text that fits the counter behind the inner pad |
| Components.MemCmpIsValueOrder | ndn-cpp/src/c/util/ndn_memory.c:24-36 | comparing byte by byte is comparing the big-endian numbers |
| Components.CompareIsTotalOrder | ndn-cpp/src/name.cpp:220-231 | the component order is total, is that of (length, number) pairs, and its zero case is equality |
| NumberComponents.FromNumberWithPrefix | ndn-cpp/src/name.cpp:189-204 | the loop that reverses the bytes it pushed gives the prefix followed by the number without leading zeros |
| NumberComponents.ToNumberWithPrefix | ndn-cpp/src/c/name.c:57-75 | a component is read as the number after its prefix modulo 2^64, or refused exactly without the prefix |
| NumberComponents.ValueOfMinimal | ndn-cpp/src/name.cpp:189-204 | the bytes spell the number and do not start with zero |
| NumberComponents.MinimalIsShortest | ndn-cpp/src/name.cpp:189-204 | no shorter byte string spells the number |
| NumberComponents.NumberRoundTrip | ndn-cpp/src/name.cpp:149-204 | reading back a component made from a 64-bit number gives the number |
| NumberComponents.NumberOrder | ndn-cpp/src/name.cpp:189-231 | under one prefix the component order is the order of the numbers |
| EscapedStrings.Unescape | ndn-cpp/src/name.cpp:105-130 | the loop decodes each valid escape and keeps everything else, broken escapes included |
| EscapedStrings.ToEscapedString | ndn-cpp/src/name.cpp:429-467 | the two passes give the escaped form, with three dots in front of an all-dot component |
| EscapedStrings.FromEscapedString | ndn-cpp/src/name.cpp:403-421 | the slice is trimmed, unescaped and freed of three dots; fewer dots are refused |
| EscapedStrings.EscapedSafe | ndn-cpp/src/name.cpp:429-467 | an escaped component is not empty and has no slash, colon, comma, star or white space in it |
| EscapedStrings.EscapeRoundTrip | ndn-cpp/src/name.cpp:403-467 | unescaping an escaped component gives it back, for every byte string |
| NdnNames.Name.Set | ndn-cpp/src/name.cpp:234-289 | scheme and authority are stripped, illegal components dropped, and the rest becomes the name |
| NdnNames.Name.ToUri | ndn-cpp/src/name.cpp:323-338 | the loop prints the components after slashes, and a slash for the empty name |
| NdnNames.UriRoundTrip | ndn-cpp/src/name.cpp:234-338 | parsing a printed name gives it back, for components of any bytes, with and without scheme |
| NdnNames.UriInjective | ndn-cpp/src/name.cpp:323-338 | different names never print alike |
| NameLaws.NoLeadingSlash | ndn-cpp/src/name.cpp:254-271 | a printed name without its first slash is read all the same, with and without a scheme |
| NameLaws.AuthoritySkipped | ndn-cpp/src/name.cpp:242-267 | an authority of any characters but slashes is skipped, with and without a scheme |
| NameLaws.AuthorityAlone | ndn-cpp/src/name.cpp:258-262 | a URI of nothing but an authority is the empty name |
| NameLaws.SpaceIgnored | ndn-cpp/src/name.cpp:36-81 | blanks, tabs and line ends around a name make no difference |
| NameLaws.SpaceBehindScheme | ndn-cpp/src/name.cpp:242-252 | nor do they behind the colon of a scheme |
| NameLaws.SpaceAroundComponent | ndn-cpp/src/name.cpp:403-421 | nor around a component |
| NameLaws.NullIff | ndn-cpp/src/name.cpp:403-421 | exactly the empty component and those of one and two dots are illegal, whether escaped or not |
| NameLaws.IllegalIgnored | ndn-cpp/src/name.cpp:275-288 | an illegal component between those of two names leaves the name of both |
| NameLaws.BrokenEscapesStay | ndn-cpp/src/name.cpp:105-130 | a text with no percent sign in front of two hex digits is left as it is |
| NameLaws.BrokenEscapeHides | ndn-cpp/src/name.cpp:112-123 | a broken escape keeps three characters and hides an escape that starts inside it |
| NameLaws.HexDigits | ndn-cpp/src/name.cpp:429-467 | hex digits are printed in upper case and read in both |
| NameLaws.SchemePrinted | ndn-cpp/src/name.cpp:323-338 | the scheme that is printed is ndn: in front of the same text |
| NameLaws.ExpectedUri | ndn-cpp/tests/unit-tests/test-name-methods.cpp:32-36 | the name of the unit tests prints as they expect |
| NdnNames.Name.Equals | ndn-cpp/src/name.cpp:369-382 | the loop from the last component decides equality |
| NdnNames.Name.Match | ndn-cpp/src/name.cpp:384-401 | the loop decides whether the name is a prefix |
| NdnNames.Name.CompareTo | ndn-cpp/src/name.cpp:495-515 | the loop gives the sign of the canonical order |
| NdnNames.CompareNamesIsTotalOrder | ndn-cpp/src/name.cpp:495-515 | the order of names is total and its zero case is equality |
| NameLaws.CanonicalOrder | ndn-cpp/src/name.cpp:495-515 | a name comes before another exactly if it is a proper prefix of it or has the lesser of the first two components that differ |
| NdnNames.PrefixIsLeast | ndn-cpp/src/name.cpp:384-515 | a prefix is the least of the names it matches |
| NdnNames.PrefixInterval | ndn-cpp/src/name.cpp:384-515 | a name between two that a prefix matches is matched too |
| Excludes.Matches | ndn-cpp/src/exclude.cpp:66-119 | the scan that rewrites its index answers whether the component is listed or strictly inside a maximal ANY run, except after repeated ANYs at the end, where it accepts every non-empty component |
| Excludes.RepeatedAnyOverMatches | ndn-cpp/src/exclude.cpp:103-106 | a list ending in two ANYs excludes a component that its intervals do not |
| Excludes.BelowFirst | ndn-cpp/src/exclude.cpp:66-119 | below the first component of any sorted list, where no interval excludes anything, the scan excludes a non-empty component exactly for lists that end in repeated ANYs |
| Excludes.ScanAgreesIff | ndn-cpp/src/exclude.cpp:66-119 | for a sorted list that starts with a component other than the two least, scan and intervals agree on every component exactly if the list does not end in repeated ANYs |
| Excludes.SortedMeaning | ndn-cpp/src/exclude.cpp:66-119 | in a sorted list an unlisted component is excluded exactly if its one gap holds an ANY |
| Excludes.GapExists | ndn-cpp/src/exclude.cpp:66-119 | every unlisted component has a gap in a sorted list |
| Excludes.ToUri | ndn-cpp/src/exclude.cpp:121-139 | the loop prints the items with commas between them |
| Excludes.PrintedTwo | ndn-cpp/src/exclude.cpp:121-139 | two entries are printed with a comma between them, and ANY as a star |
| Excludes.ItemIsCode | ndn-cpp/src/exclude.cpp:127-136 | an item is not empty, has no comma in it and tells which entry it prints |
| Excludes.PrintedInjective | ndn-cpp/src/exclude.cpp:121-139 | equal printed forms mean equal entry lists |
| Interests.MatchesName | ndn-cpp/src/interest.cpp:224-243 | the answer is the prefix match with suffix limits and exclude check over the integers, so size_t never underflows |
| Interests.AcceptsFullName | ndn-cpp/src/interest.cpp:224-243 | what the full name, its digest included, has behind the interest's name is as long as the limits say and starts with no excluded component |
| Interests.SuffixLimits | ndn-cpp/src/interest.cpp:229-236 | at most one suffix component leaves the interest's own name, none leaves nothing, and at least two leaves all longer names |
| NodeObject.Node.Express | ndn-cpp/src/node.cpp:199-220 | an entry with the next ID and its deadline is appended even where sending throws, and none where connecting does |
| NodeObject.Node.ExpressInterest | ndn-cpp/src/node.cpp:199-220 | expressing an interest is one event of the run and keeps the node valid |
| NodeObject.Node.ErasePendingInterest | ndn-cpp/src/node.cpp:222-237 | the backwards erasing loop removes every entry with the ID and keeps the others in order |
| NodeObject.Node.RemovePendingInterest | ndn-cpp/src/node.cpp:222-237 | the removal is one event of the run and records the fate of the entry it erased |
| NodeObject.Node.SetInterestFilter | ndn-cpp/src/node.hpp:145-156 | the filter gets the next of the IDs shared with the prefixes |
| NodeObject.Node.UnsetInterestFilter | ndn-cpp/src/node.cpp:305-320 | the backwards loop erases the filters with the ID and no others |
| NodeObject.Node.RemoveRegisteredPrefix | ndn-cpp/src/node.cpp:281-303 | the loop erases the rows with the ID and the filters they own |
| NodeObject.Node.RegisterPrefix | ndn-cpp/src/node.cpp:239-279 | the choice between fetching the hub's key, the NDNx command and the NFD command, with its exceptions |
| NodeObject.Node.RegisterPrefixHelper | ndn-cpp/src/node.cpp:472-533 | the rows are added unless the ID is 0, and the NDNx command is expressed |
| NodeObject.Node.NfdRegisterPrefix | ndn-cpp/src/node.cpp:535-589 | the rows are added and the NFD command is expressed with the lifetime for a local or remote hub |
| NodeObject.Node.HandleData | ndn-cpp/src/node.cpp:343-432 | a response ends a registration with the outcome it says, and the hub's key leads to the NDNx command |
| NodeObject.Node.HandleTimeout | ndn-cpp/src/node.cpp:367-470 | a timeout of the NFD command falls back to NDNx with ID 0; the other timeouts fail the registration |
| NodeObject.Node.ExtractEntriesForExpressedInterest | ndn-cpp/src/node.cpp:669-680 | the loop moves the entries that accept the name to the list, newest first, and keeps the others in order |
| NodeRuns.ExtractionSplits | ndn-cpp/src/node.cpp:669-680 | extraction takes exactly the accepting entries, keeps exactly the others in order, and loses and duplicates none |
| NodeObject.Node.DeliverEntry | ndn-cpp/src/node.cpp:655-660 | one callback delivers its entry; if it throws, every entry behind it is lost |
| NodeObject.Node.OnReceivedData | ndn-cpp/src/node.cpp:655-660 | the callbacks, which make any API calls, run for the extracted entries in their order, newest first; the entries up to one that throws are delivered and exactly the others are lost; the trace grows by just these events |
| NodeObject.Node.OnReceivedInterest | ndn-cpp/src/node.cpp:645-654 | exactly the callbacks of the filters that match the name are called, in table order |
| NodeObject.DispatchedExactly | ndn-cpp/src/node.cpp:645-654 | the callbacks called are those of exactly the matching filters, each once and oldest first |
| NodeObject.Node.ProcessEvents | ndn-cpp/src/node.cpp:591-609 | one pass tests every old entry once, newest first, at the clock reading after the callbacks run so far, and removes exactly those due then: all due at its start if the clock does not run back, none with a negative lifetime; an interest of the application goes only once its lifetime from the call on is over, and does if that is so at the start; the survivors stay in order and one entry for each ID given out since follows them; the trace grows by just these events |
| NodeObject.Node.Invariants | ndn-cpp/src/node.cpp:199-692 | every valid node is the end of a run and meets the invariants of pending IDs, registrations, tables and entries |
| NodeRuns.WithoutIdIsDelete | ndn-cpp/src/node.cpp:222-237 | with ascending IDs, removal by ID deletes at most one entry and keeps the rest in order |
| NodeRuns.ApplyKeepsIds | ndn-cpp/src/node.cpp:199-237 | every event keeps the IDs in the table ascending and all IDs in exactly one place, and changes no fate |
| NodeRuns.RunKeepsIds | ndn-cpp/src/node.hpp:251-278 | the same after every run |
| NodeRuns.ExactlyOnePlace | ndn-cpp/src/node.cpp:591-692 | after any run each pending interest ever expressed is in the table, being delivered, or has one fate |
| NodeRuns.FateIsFinal | ndn-cpp/src/node.cpp:591-692 | no pending interest ever gets a second fate |
| NodeRuns.NoneLost | ndn-cpp/src/node.cpp:655-660 | if callbacks return normally every fate is delivered, timed out or removed |
| NodeRegistrations.ApplyKeepsRegs | ndn-cpp/src/node.cpp:343-589 | every event keeps each registration waiting with at most one entry or recorded at most once, never both |
| NodeRegistrations.RunKeepsRegs | ndn-cpp/src/node.cpp:239-589 | the same after every run |
| NodeRegistrations.AtMostOneOutcome | ndn-cpp/src/node.cpp:239-589 | in every run whatsoever a registration has at most one waiting entry, at most one outcome, never both, and expresses at most three interests |
| NodeRegistrations.ExactlyOneOutcome | ndn-cpp/src/node.cpp:239-589 | with NDNx enabled, nothing throwing and no internal interest removed, an accepted registration has exactly one waiting entry or exactly one outcome |
| NodeTables.ApplyKeepsTables | ndn-cpp/src/node.cpp:281-320 | every event keeps prefix and filter IDs distinct across both tables and distinct owners of distinct filters |
| NodeTables.RunKeepsTables | ndn-cpp/src/node.cpp:239-589 | the same after every run, the fallback from NFD to NDNx included |
| NodeTables.RemovalIsDelete | ndn-cpp/src/node.cpp:281-303 | removal by ID deletes one row and the filter that row owns |
| NodeTables.RemovesExactlyItsOwn | ndn-cpp/src/node.cpp:281-303 | the other rows stay in order and every filter of another row stays |
| NodeTables.RemovalBeforeKeyIsLost | ndn-cpp/src/node.cpp:256-265 | the step: removing a registration that waits for the hub's key changes nothing, and the key's delivery adds its row |
| NodeEntries.RunKeepsEntries | ndn-cpp/src/node.cpp:682-692 | after every run an entry has a deadline only if its interest has a lifetime, and every fetcher of the hub's key asks the same |
| NodeEntries.NoEarlyTimeout | ndn-cpp/src/node.hpp:274-278 | in every continuation an entry times out only if some pass finds it due |
| NodeEntries.NegativeLifetimeNeverTimesOut | ndn-cpp/src/node.cpp:686-691 | an interest with a negative lifetime never times out, whatever happens |
| NodeOrigins.EveryEntryHasOrigin | ndn-cpp/src/node.cpp:199-589 | every waiting entry was expressed by one event of the run: its ID, its deadline from the lifetime, the application's interest or the stage of the registration that follows, and what the node's own interest asks for and how long it waits |
| NodeOrigins.ExpressThrowsIff | ndn-cpp/src/node.cpp:206-219 | expressing throws exactly if connecting fails, or sending does and the name is not under /local/timeout |
| NodeOrigins.KeyDigestOfAbc | ndn-cpp/src/node.cpp:354-361 | the ID of a hub is the SHA-256 digest of the key it sends, shown on one |
| NodeDeadlines.DueIff | ndn-cpp/src/node.cpp:682-692 | an interest of the application is due exactly from the clock reading of the call plus its lifetime on, if it has one |
| NodeDeadlines.NoTimeoutWithinLifetime | ndn-cpp/src/node.cpp:591-609 | where every timeout pass comes before the end of its lifetime an interest never times out, whatever else happens |
| NodeOutcomes.OutcomeIff | ndn-cpp/src/node.cpp:343-470 | after every run a registration has the outcome success exactly if its NFD command was answered with status 200 or its NDNx command under a selfreg name, and failure exactly if it was answered otherwise, its fetch brought no key, or its fetch or NDNx command timed out |
| NodeRows.EntryRegistered | ndn-cpp/src/node.cpp:239-589 | every entry that waits for a registration belongs to one call of registerPrefix, through all its stages |
| NodeRows.RowRegistered | ndn-cpp/src/node.cpp:510-533 | every row of the prefix table belongs to one call of registerPrefix: its ID, its prefix, and a filter exactly if the call had a callback |
| NodeRows.OwnFilterStays | ndn-cpp/src/node.cpp:281-320 | the filter that a row owns is in the filter table, with the row's prefix, unless it was unset by its ID |
| NodeLimits.KeyArrivalCoversIff | ndn-cpp/src/node.cpp:343-366 | when the hub's key arrives for a waiting registration, it stays in view exactly if NDNx is enabled |
| NodeLimits.BehindKeyIff | ndn-cpp/src/node.cpp:343-366 | when the hub's key arrives for a waiting registration, every callback behind it is still to be called exactly if NDNx is enabled, and is lost otherwise |
| NodeLimits.ForgottenRun | ndn-cpp/src/node.cpp:239-481 | a run from the start in which nothing outside fails: an accepted registration times out at NFD and its fetch is answered; at the end it is in view exactly if NDNx is enabled, and the application's callback for the same Data is lost exactly if not |
| NodeLimits.CoversAllIffNdnx | ndn-cpp/src/node.cpp:239-589 | all runs in which nothing outside fails keep every accepted registration waiting or with an outcome exactly if NDNx is enabled |
| NodeLimits.NoneLostIffNdnx | ndn-cpp/src/node.cpp:655-660 | all runs in which nothing outside fails lose no callback exactly if NDNx is enabled |
| NodeLimits.ApplyStoresKeyIff | ndn-cpp/src/node.cpp:343-366 | an event leaves the hub's key stored exactly if it was before or the event delivers it to a fetcher, whether that throws or not |
| NodeLimits.RegisterThrowsIff | ndn-cpp/src/node.cpp:239-279 | after every run and for every call, the exact condition under which registerPrefix throws, in terms of the call, the setting of NDNx and whether the hub's key was ever delivered |
| NodeLimits.KeyChainRegisters | ndn-cpp/src/node.cpp:249-366 | where nothing outside fails, registerPrefix with a key chain and a certificate throws exactly if NDNx is not enabled and the hub's key was delivered before |
| NodeLimits.RegisterAfterForgotten | ndn-cpp/src/node.cpp:249-366 | a run from the start after which registerPrefix with a key chain and a certificate throws exactly if NDNx is not enabled |
| NodeRemovals.RemovedAndBack | ndn-cpp/src/node.cpp:256-303 | a run from the start that registers, removes the registration, receives the key and ends with its row in the table |
| NodeRemovals.GoneForGood | ndn-cpp/src/node.cpp:239-589 | a registration with no row and no entry that will add one gets no row in any continuation |
| NodeRemovals.RemovalIsFinalIff | ndn-cpp/src/node.cpp:256-303 | in every state removeRegisteredPrefix is final exactly if no entry of the registration would add its row with the hub's key: none in the table, none in flight while a key is delivered |
| Wire.VarintRoundTrip | ndn-cpp/examples/fib-entry.pb.cc:483-491 | a 64-bit number written as a varint is read back, whatever follows it |
| WireLaws.VarintBytes | ndn-cpp/examples/fib-entry.pb.cc:557-576 | byte i of a varint holds the i-th group of seven bits, and its top bit says whether another byte follows |
| WireLaws.VarintLength | ndn-cpp/examples/fib-entry.pb.cc:578-606 | a varint has exactly as many bytes as the number needs |
| WireLaws.ReadVarintIs | ndn-cpp/examples/fib-entry.pb.cc:483-491 | reading gives the sum of the groups up to the first byte below 128, and fails exactly if there is none within the limit |
| WireLaws.GuideExamples | ndn-cpp/examples/fib-entry.pb.cc:557-576 | records of every wire type have the bytes that the Encoding guide gives |
| Wire.FieldRoundTrip | ndn-cpp/examples/fib-entry.pb.cc:267-276 | a record of any wire type is read back as its field, nested groups included |
| Wire.FieldPrefix | ndn-cpp/examples/fib-entry.pb.cc:267-276 | what a record is read as does not depend on the bytes after it |
| FibMessages.MergeUnits | ndn-cpp/examples/fib-entry.pb.cc:889-898 | merging with an empty message changes nothing, on either side |
| FibMessages.MergeAssociative | ndn-cpp/examples/fib-entry.pb.cc:889-898 | merging is associative for all four messages |
| FibMessages.StepMerges | ndn-cpp/examples/fib-entry.pb.cc:741-797 | taking in a record commutes with merging another message underneath |
| FibMessages.ParseMerges | ndn-cpp/examples/fib-entry.pb.cc:741-797 | parsing any bytes into a merged message merges what parsing them into its second part gives |
| FibMessages.ParseGoesOn | ndn-cpp/examples/fib-entry.pb.cc:741-797 | after bytes that end cleanly parsing goes on with what follows |
| FibMessages.LastOneWins | ndn-cpp/examples/fib-entry.pb.cc:1007-1049 | parsing a concatenation gives what merging the two parsed messages gives, for byte strings that each parse whole |
| FibRoundTrip.ParseRecords | ndn-cpp/examples/fib-entry.pb.cc:821-844 | parsing serialized fields takes in those fields in turn |
| FibRoundTrip.UnknownCollects | ndn-cpp/examples/fib-entry.pb.cc:778-786 | exactly the fields the type does not know end up among the unknown ones, in order |
| FibRoundTrip.RoundTripSplits | ndn-cpp/examples/fib-entry.pb.cc:821-844 | known and unknown fields make the round trip separately |
| FibRoundTrip.RoundTripIffClean | ndn-cpp/examples/fib-entry.pb.cc:1007-1083 | serializing and parsing gives a message whose values fit their types and whose size fits an int back exactly if no known field is among its unknown ones |
| WireLaws.KnownInOrder | ndn-cpp/examples/fib-entry.pb.cc:821-844 | known fields are written in the order of their numbers |
| WireLaws.EntryBytes | ndn-cpp/examples/fib-entry.pb.cc:1067-1083 | a message with a name and a next hop is written as these bytes, level by level |
| FibRoundTrip.ParseOfSerializedMerges | ndn-cpp/examples/fib-entry.pb.cc:889-898 | parsing the bytes of a clean b that fits into a is a.MergeFrom(b) |
| FibRoundTrip.SerializedConcatenation | ndn-cpp/examples/fib-entry.pb.cc:1007-1128 | parsing the bytes of a clean a followed by those of a clean b, both of which fit, gives a.MergeFrom(b) |
| FibRoundTrip.UncleanNameComesBackDifferent | ndn-cpp/examples/fib-entry.pb.cc:242-286 | a component record kept as unknown is read back as a component |
| FibCanonical.ParseKeepsGood | ndn-cpp/examples/fib-entry.pb.cc:741-797 | whatever is parsed leaves a message clean, with numbers that fit, and no longer than before plus the input |
| FibCanonical.ParsedRoundTrips | ndn-cpp/examples/fib-entry.pb.cc:1007-1083 | a message parsed from any bytes is serialized to no more bytes and read back from them unchanged |
| FibSteps.AfterUnusual | ndn-cpp/examples/fib-entry.pb.cc:778-786 | a tag that the switch does not handle keeps its record as unknown |
| FibSteps.AfterComponentTag | ndn-cpp/examples/fib-entry.pb.cc:250-264 | tag 66 appends the record's content as a component |
| FibSteps.AfterNumberTag | ndn-cpp/examples/fib-entry.pb.cc:483-515 | tags 840 and 848 set face_id and cost to the low 32 bits of the varint |
| FibSteps.AfterNameTag | ndn-cpp/examples/fib-entry.pb.cc:752-760 | tag 58 parses into the name there is, and only a whole nested message counts |
| FibSteps.AfterHopTag | ndn-cpp/examples/fib-entry.pb.cc:763-775 | tag 1034 appends one parsed next hop record |
| FibSteps.AfterFibTag | ndn-cpp/examples/fib-entry.pb.cc:1018-1027 | tag 1026 parses into the fib entry there is |
| CodedStreams.WroteBoth | ndn-cpp/examples/fib-entry.pb.cc:821-844 | two writes one behind the other are one write of both, and nothing else of the array changes |
| FibEntryCodec.Name.MergePartialFromCodedStream | ndn-cpp/examples/fib-entry.pb.cc:242-286 | the goto loop succeeds, and leaves the message and the stream, as Parse says for all bytes |
| FibEntryCodec.Name.Clear | ndn-cpp/examples/fib-entry.pb.cc:236-240 | no component and no unknown field is left |
| FibEntryCodec.Name.ByteSize | ndn-cpp/examples/fib-entry.pb.cc:321-340 | the sum is the length of the serialized message and is cached |
| FibEntryCodec.Name.SerializeWithCachedSizesToArray | ndn-cpp/examples/fib-entry.pb.cc:304-319 | exactly the serialized bytes are written at the target and the position after them is returned |
| FibEntryCodec.Name.MergeFrom | ndn-cpp/examples/fib-entry.pb.cc:354-358 | components and unknown fields are appended |
| FibEntryCodec.NextHopRecord.SetFaceId | ndn-cpp/examples/fib-entry.pb.h:478-482 | face_id is set and cost keeps its presence and value |
| FibEntryCodec.NextHopRecord.SetCost | ndn-cpp/examples/fib-entry.pb.h:502-506 | cost is set and face_id keeps its presence and value |
| FibEntryCodec.NextHopRecord.Clear | ndn-cpp/examples/fib-entry.pb.cc:456-474 | nothing of the message is left |
| FibEntryCodec.NextHopRecord.MergeFrom | ndn-cpp/examples/fib-entry.pb.cc:620-631 | the test of the low has-bits skips no field that is present; present fields win |
| FibEntryCodec.NextHopRecord.MergePartialFromCodedStream | ndn-cpp/examples/fib-entry.pb.cc:476-535 | the loop with its jump into the second case does what Parse says |
| FibEntryCodec.NextHopRecord.ByteSize | ndn-cpp/examples/fib-entry.pb.cc:578-606 | the sum over the present fields is the serialized length |
| FibEntryCodec.NextHopRecord.SerializeWithCachedSizesToArray | ndn-cpp/examples/fib-entry.pb.cc:557-576 | exactly the serialized bytes are written |
| FibEntryCodec.FibEntry.Clear | ndn-cpp/examples/fib-entry.pb.cc:732-739 | the message is empty, and so is the name object it keeps for later |
| FibEntryCodec.FibEntry.MutableName | ndn-cpp/examples/fib-entry.pb.h:530-535 | the name becomes present with the value it had, or empty if it was absent |
| FibEntryCodec.FibEntry.AddNextHopRecord | ndn-cpp/examples/fib-entry.pb.h:568-571 | a new empty record, no other's object, is appended |
| FibEntryCodec.FibEntry.ParseName | ndn-cpp/examples/fib-entry.pb.cc:751-760 | a name record is merged into the name there is, or the parse fails |
| FibEntryCodec.FibEntry.ParseHops | ndn-cpp/examples/fib-entry.pb.cc:763-775 | the inner loop over expected tags reads the records as Parse does |
| FibEntryCodec.FibEntry.MergePartialFromCodedStream | ndn-cpp/examples/fib-entry.pb.cc:741-797 | the loop with its nested messages, limits and jumps does what Parse says |
| FibEntryCodec.FibEntry.MergeFrom | ndn-cpp/examples/fib-entry.pb.cc:889-898 | copies of the other's records are appended and its name is merged in |
| FibEntryCodec.FibEntry.ByteSize | ndn-cpp/examples/fib-entry.pb.cc:846-875 | the result is the serialized length and every nested cached size is that of its part |
| FibEntryCodec.FibEntry.SerializeWithCachedSizesToArray | ndn-cpp/examples/fib-entry.pb.cc:821-844 | with fresh cached sizes exactly the serialized bytes are written, length prefixes included |
| FibEntryCodec.FibEntryMessage.Clear | ndn-cpp/examples/fib-entry.pb.cc:999-1005 | the message and the object it keeps are empty |
| FibEntryCodec.FibEntryMessage.MutableFib | ndn-cpp/examples/fib-entry.pb.h:605-610 | the fib entry becomes present with the value it had, or empty |
| FibEntryCodec.FibEntryMessage.MergePartialFromCodedStream | ndn-cpp/examples/fib-entry.pb.cc:1007-1049 | the outer loop does what Parse says, three levels deep |
| FibEntryCodec.FibEntryMessage.MergeFrom | ndn-cpp/examples/fib-entry.pb.cc:1120-1128 | the value is that of merging |
| FibEntryCodec.FibEntryMessage.ByteSize | ndn-cpp/examples/fib-entry.pb.cc:1085-1106 | the result is the serialized length and all cached sizes are fresh |
| FibEntryCodec.FibEntryMessage.SerializeWithCachedSizesToArray | ndn-cpp/examples/fib-entry.pb.cc:1067-1083 | with fresh cached sizes exactly the serialized bytes are written |
| FibEntryCodec.SerializeToArray | ndn-cpp/examples/fib-entry.pb.cc:1067-1106 | sizing and then writing fills an array of that size with the serialized message |
| FibEntryCodec.ParseFromArray | ndn-cpp/examples/fib-entry.pb.cc:999-1049 | clearing and then parsing gives the message of the bytes, and fails unless they end cleanly |
| ChatRoster.AtoiOfDecimal | ndn-cpp/examples/test-chrono-chat.cpp:359-369 | reading back a printed int gives the int |
| ChatRoster.DecimalDigits | ndn-cpp/examples/test-chrono-chat.cpp:361-363 | the i-th printed digit from the right is that of the i-th power of ten, and there are no more digits than needed |
| ChatRoster.EntrySplitsIff | ndn-cpp/examples/test-chrono-chat.cpp:361-369 | an entry comes apart into its name and session exactly for sessions that print with ten characters |
| ChatRoster.Chat.RosterFind | ndn-cpp/examples/test-chrono-chat.cpp:480-489 | the first index of the entry, or -1 exactly if there is none |
| ChatRoster.Chat.JoinSelf | ndn-cpp/examples/test-chrono-chat.cpp:243-259 | the own entry is added unless it is there |
| ChatRoster.Chat.UpdateRoster | ndn-cpp/examples/test-chrono-chat.cpp:365-382 | the loop with its odd branch and the push replace the sender's entry by a newer session or append one, and throw exactly on reaching an entry shorter than ten characters |
| ChatRoster.Chat.OnData | ndn-cpp/examples/test-chrono-chat.cpp:349-407 | a message updates the roster, a LEAVE then erases the sender's entry, an old message does nothing |
| ChatRoster.Chat.OnAlive | ndn-cpp/examples/test-chrono-chat.cpp:453-469 | the entry goes exactly if the sequence number is known and has not moved |
| ChatRoster.MessageRecords | ndn-cpp/examples/test-chrono-chat.cpp:365-382 | a message other than LEAVE records the larger session for its sender and changes nobody else |
| ChatRoster.LeaveUpdates | ndn-cpp/examples/test-chrono-chat.cpp:365-382 | a LEAVE looks at the first entry only: it records the session if that entry is the sender's, joins an empty roster, and changes nothing otherwise |
| ChatRoster.ErasingForgets | ndn-cpp/examples/test-chrono-chat.cpp:398-405 | erasing an entry forgets that user if the session matches, and nobody else |
| ChatRoster.LeaveForgets | ndn-cpp/examples/test-chrono-chat.cpp:365-405 | what a LEAVE does to the sender's recorded session in every case, the own user's included, and nobody else's changes |
| ChatRoster.AliveForgets | ndn-cpp/examples/test-chrono-chat.cpp:453-469 | a timeout forgets the user exactly if the sequence number is known and has not moved and the session is the recorded one |
| ChatRoster.StepKeepsSound | ndn-cpp/examples/test-chrono-chat.cpp:349-469 | an event with a ten-character session never throws, keeps one entry for each user and lowers no session |
| ChatRoster.InitialKeepsSoundIff | ndn-cpp/examples/test-chrono-chat.cpp:253-258 | joining keeps one entry for each user exactly if no other session of the own user is on the roster |
| ChatRoster.RunKeepsSound | ndn-cpp/examples/test-chrono-chat.cpp:243-469 | after joining an empty roster with a ten-character session, any sequence of messages and timeouts with ten-character sessions keeps at most one entry for each user |
| ChatRoster.SessionsOnlyGrow | ndn-cpp/examples/test-chrono-chat.cpp:349-469 | with ten-character sessions, over any stretch of a run in which a user stays on the roster its session never decreases |
| ChatRoster.OldMessagesIgnored | ndn-cpp/examples/test-chrono-chat.cpp:349-360 | messages that are not recent make no difference wherever in a run they come |
| ChatRoster.SecondMessage | ndn-cpp/examples/test-chrono-chat.cpp:365-382 | on a sound roster the first message of a new user appends an entry; the same message again keeps the roster exactly for ten-character sessions, and otherwise throws or appends the entry once more |
| ChatRoster.TwoMessages | ndn-cpp/examples/test-chrono-chat.cpp:365-382 | the same after any run of messages and timeouts with ten-character sessions, for a user not on the roster then |
| ChatRoster.FirstTwoMessages | ndn-cpp/examples/test-chrono-chat.cpp:365-382 | two equal messages of another user than the own one, met first, leave the own entry and one of that user, two, or throw |

## Left out

- Transport, sockets, wall clock, logging and standard input: what a call meets outside is a parameter (`Env`, the clock of ProcessEvents), and a run quantifies over it.
- Signing, key chains, the DER tables and command-interest naming: signing succeeds or throws, and what it appends to a name is a parameter.
- TLV and Binary XML packet decoding: a received packet is an already decoded Interest or Data; an NFD control response is a status code or undecodable.
- The wrap-around of the 64-bit ID counters, and their being shared by all Node objects of a process: one node counts its own IDs.
- NodeObject.Node.ProcessEvents: callbacks append through the API but do not remove pending interests or call processEvents again, because the loop does not check its index after a callback.
- NodeObject.Node.OnReceivedInterest: callbacks do not edit the filter table while the index loop runs over it, and filters match by name prefix only, without regular expressions.
- Interests.MatchesName: names of 2^64 - 1 components or more, for which size_t would wrap.
- Cryptosuite.Sha256Class.Result: the returned pointer aliases the object's state; the model returns a copy of the bytes.
- Cryptosuite.Sha256Class.HashBlock: the three additions into the schedule word are written as one sum.
- NdnNames.Name.Set: the NUL character that ends a C string; a text is a sequence of bytes.
- fromNumber and fromNumberWithMarker, which rest on the TLV and Binary XML encoders.
- The Protocol Buffers library is not part of this repository: its primitives follow the Encoding guide. Its recursion limit, its message size limit, its clamping of a nested length that exceeds the enclosing limit, and the reuse of cleared repeated elements are not part of the model.
- FibEntryCodec.FibEntry.ByteSize: sizes are unbounded; the wrap-around of an int beyond 2 GB, which the library does not support, is not modelled.
- The other generated messages (rib entry, channel status and so on), SerializeWithCachedSizes to a stream, Swap, reflection and IsInitialized: the same shape, and no harder property.
- ChatRoster.Atoi: C leaves numbers beyond an int undefined; the model wraps.
- The chat's message cache, heartbeat and sync protocol: they do not touch the roster.
- Interest and Data wire caches, signature subclasses, getters and C structs: nothing harder than what is here.
