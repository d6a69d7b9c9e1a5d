# A verified model of dnsd's decision logic

dnsd is a validating recursive DNS resolver.  This project models the parts of it that decide
something, in Dafny, and proves what those decisions guarantee over every input, every interleaving or
every run.  Libraries, sockets and cryptography appear as parameters: a signature check, a DS digest,
an NSEC3 hash, a reply, a clock reading or a random choice is an arbitrary value or function, so every
statement holds whatever they do.

The modules follow the program.

- **Basics**, **Names** — options, decimal numbers and the like; domain names, the library's label
  count, canonical order.
- **NsecDenial**, **NsecWildcard**, **Nsec3Denial**, **Nsec3Wildcard**, **ZoneCuts** — proofs of
  non-existence from NSEC and NSEC3 records, and what they mean for the zone the records come from:
  empty non-terminals, wildcards, unsigned opt-out names and delegations included.
- **Trust**, **DnskeyCache**, **KeyChain**, **AnswerCheck**, **Validator** — the chain of trust:
  derivations of key sets from anchors by exactly the checks the code makes, the bounded DNSKEY cache,
  the walk over delegation steps, the checks of answers and denials.  A validation is suspended at
  every upstream query; there, any sequence of cache writes by other validations may happen, each
  storing only derived key sets.  Every write a validation logs is of that kind, and so is any
  interleaving of such logs (`DnskeyCache.InterleavingIsLegal`), so validations may stand in for each
  other's surroundings.
- **Walk**, **Delegations**, **Resolution** — the referral walk with its budget and its race over name
  servers, the cache of validated delegations, and a resolution from end to end.  While a walk waits for
  a reply or a validation runs, other resolutions may store any proven steps in that cache.
- **Anchor**, **AnchorFile**, **AnchorText** — the RFC 5011 automaton over whole runs, the anchor file
  that a restart reads back, and the presentation format an operator may write.
- **UdpDemux**, **DotPool**, **ForwarderRun**, **ForwarderConfig** — the UDP demultiplexer, the DoT
  connection pool with its retry, the order in which servers are tried, and the configuration rule that
  makes Tor forwarding fail closed.
- **HttpHead**, **HttpLists**, **DohFraming** — the DoH request parser, what header values say on the
  wire, and the framing of pipelined requests.
- **ZeroXTwenty**, **Dns64**, **CivilDate** — 0x20 case encoding, NAT64 reverse names, the civil date.
- **ListenerReload**, **InFlight** — listener reload over shared cells and tasks, and in-flight
  coalescing.

Where the code changes state step by step the model does too: classes with `modifies` clauses for
caches, pools, budgets, connections and the listener set; loops for loops; arrays where a buffer is
rewritten in place.  Each such method is tied to a specification function or states its result
outright, and the results about whole runs are proved of that specification.

Some statements one might expect do not hold of the code as it is.  Each is given with an input on which
it fails and the exact condition under which it holds:

- `closest_encloser` finds the closest encloser in every zone exactly when the query name has no `*`
  label, because the library's label count skips one (`NsecDenial.EncloserRightIffNoStar`,
  `NsecDenial.LoneStarMissed`).
- A Secure NSEC name error is right, in every zone the records may come from, exactly when the covering
  record's next owner does not lie below the name and one of the records denies the wildcard under the
  encloser that the covering record gives (`NsecWildcard.SecureIsRightIffWildcardDenied`).  Otherwise the
  name may exist as an empty non-terminal (`NsecWildcard.EmptyNonTerminalDenied`); and since the code asks
  each record for the wildcard under that record's own encloser, a record from elsewhere can pass
  (`NsecWildcard.StrayRecordAccepted`).
- A Secure NSEC3 name error is right, in every zone the records may come from, exactly when the record
  covering the next-closer name is not opt-out and one of the records covers the wildcard without opt-out
  or owns it without the type (`Nsec3Wildcard.SecureIsRightIff`, `Nsec3Denial.OptOutDeniesExisting`,
  `Nsec3Wildcard.AnsweringWildcardAccepted`).
- A Secure name error is about a name below a zone cut exactly when the covering record's owner, or the
  closest encloser's record, shows one (`ZoneCuts.BelowCutIff`, `ZoneCuts.BelowCutDenied`,
  `ZoneCuts.BelowCutIff3`, `ZoneCuts.BelowCutDenied3`); the code does not look.
- A signed set passes only by keys of zones at or above its owner exactly when the signer its signature
  names is at or above the owner (`AnswerCheck.FromAboveIffSignerAbove`): the keys are looked up by the
  signer alone (`AnswerCheck.ForeignSignerAttests`).  So a Secure answer is one the owners' own zones vouch
  for where signers are above owners (`AnswerCheck.AttestedFromAbove`).
- A restart loads the published anchor set exactly when every active key has key text and no REVOKE
  flag (`AnchorFile.RestartLoadsPublishedSet`, `AnchorFile.RevokedActiveLost`).
- A refresh is one step of the RFC 5011 automaton for every key exactly when no addable key repeats the
  identity of an earlier one in the same key set (`Anchor.StepsEachKeyIff`,
  `Anchor.RepeatedKeyListedTwice`).
- A chain through given zones stores only validated steps, whatever its referrals carry and wherever
  validation stops, exactly when no two of the zones are the same (`Delegations.StoresOnlyValidatedIff`).
  A repeat takes a referral to the root (`Walk.RepeatNeedsRoot`), and with one it happens
  (`Walk.RootReferralRepeats`, and through the validator itself `Walk.RootReferralCached`).
- Apart from the root, every accepted referral goes below the current zone only while that is the root
  (`Walk.AcceptsOnlyBelowIff`, `Walk.SidewaysReferralFollowed`).
- A request head is accepted however its bytes are cut exactly when it ends within 8192 bytes
  (`DohFraming.AcceptedIffWithinLimit`, `DohFraming.ByteByByteRefuses`).
- A connection processes exactly the requests sent on it, however the bytes are cut, exactly when none
  of them is a GET that announces a body (`DohFraming.ServeDoh`, `DohFraming.OneGetServedAsTwo`): the
  body of a GET is read as the next request.
- The server sees a client's wish to close exactly when `close` stands alone in a Connection header
  (`DohFraming.WantsCloseIff`, `DohFraming.CloseInListMissed`).
- After a reload with one entry per socket the live listeners reflect the configuration exactly when the
  kept ones that share a cell agree on its contents (`ListenerReload.Daemon.Reload`,
  `ListenerReload.TwoEntriesConflict`).
- At every point of a run, callers for one name and type have the lock the map holds, exactly when nobody
  entered while as many keys were held as the map has room for (`InFlight.SharedIffUncrowded`).  After that
  the next caller for such a key gets another lock (`InFlight.UnsharedSplitsNext`), and two can be in the
  section (`InFlight.SplitIsReached`).

Three comments in the code promise more than it does, and the model follows the code.  Wrapped anchor
records are described as flattened and comments as skipped (`src/recursor/dnssec.rs:318-326`), but
parentheses are looked for in comments too, and a comment inside parentheses takes the rest of its record
with it (`AnchorText.CommentEndsRecord`, `AnchorText.OpenInCommentLosesRest`).  The delegation
cache is described as filled only by fully Secure walks (`src/recursor/iterative.rs:142-148`), but the
validated prefix of any walk is stored.  The referral guard is described as requiring a strict
sub-domain (`src/recursor/iterative.rs:487-502`), but only label counts are compared and the root is
let through.

## Model

| member | source | states |
|---|---|---|
| Names.CanonLtTotal | src/recursor/dnssec.rs:1799-1801 | canonical name order of section 6.1 of RFC 4034 compares any two different names |
| Names.CanonLtAsym | src/recursor/dnssec.rs:1799-1801 | and never both ways, nor a name with itself |
| Names.CanonLtTrans | src/recursor/dnssec.rs:1799-1801 | and is transitive, so zones can be sorted by it |
| Names.CommonConvex | src/recursor/dnssec.rs:1803-1826 | of three names in canonical order the outer two share no more trailing labels than either neighbouring pair: why the two bounds of an NSEC decide the encloser |
| NsecDenial.ClosestEncloser | src/recursor/dnssec.rs:1808-1826 | the loop over candidates and ancestors computes the specification `EncloserOf`, whose meaning the lemmas below give |
| NsecDenial.ProveDenial | src/recursor/dnssec.rs:1553-1629 | the loops over the records give the verdict: NODATA by the first record at the name, Insecure without one; NXDOMAIN Secure with a name cover and a wildcard cover and Bogus without; Insecure for other codes |
| NsecDenial.NoErrorVerdict | src/recursor/dnssec.rs:1562-1580 | over records of the zone's own chain, no error is Bogus exactly with a record at a name that has the type, Secure exactly with one at a name that has not, and Insecure exactly without one |
| NsecDenial.NoErrorOfNonOwner | src/recursor/dnssec.rs:1562-1580 | so for a name that owns nothing, empty non-terminals included, no error is Insecure |
| NsecDenial.NameErrorVerdict | src/recursor/dnssec.rs:1582-1629 | a name error is Secure exactly when a record covers the name and a record denies the wildcard under its own encloser, otherwise Bogus and never Insecure; other codes are Insecure |
| NsecDenial.NameErrorOfOwner | src/recursor/dnssec.rs:1582-1629 | a name error about a name that owns records is Bogus, whichever records of the zone come with it |
| NsecDenial.BoundsDominate | src/recursor/dnssec.rs:1592-1600 | the two bounds of a covering record share with the name at least as many labels as any name of the zone, and the name is not in the zone |
| NsecDenial.NeighboursGiveClosestEncloser | src/recursor/dnssec.rs:1596-1600 | for neighbours of a sorted zone strictly around a name without `*` labels, the encloser computed from the two bounds is the longest ancestor that exists in the whole zone |
| NsecDenial.SecureIsTrue | src/recursor/dnssec.rs:1553-1629 | a Secure verdict on records of the zone's own chain: NXDOMAIN means the name owns nothing and a record covers it, which says whether it exists all the same and pins its closest encloser; NODATA means it is an owner without the type |
| NsecDenial.CoveredExistsIff | src/recursor/dnssec.rs:1592-1595 | a covered name exists, as an empty non-terminal, if and only if the record's next owner lies below it |
| NsecDenial.CoveredIffInsideSpan | src/recursor/dnssec.rs:1592-1595 | a name is covered by some record of the chain exactly when it owns nothing and sorts between the first and last owner: the wrap-around record covers nothing |
| NsecDenial.EncloserRightIffNoStar | src/recursor/dnssec.rs:1808-1826 | the encloser computation agrees with a search of the zone, for every zone and covering record, if and only if no label of the name is `*` |
| NsecDenial.LoneStarMissed | src/recursor/dnssec.rs:1815-1823 | a concrete zone for the name `*` on which the computation misses the encloser |
| NsecWildcard.DeniedIffOneDenies | src/recursor/dnssec.rs:1592-1619 | records of a zone rule out a type at a name, in every zone they may come from, if and only if one of them spans the name or owns it without the type |
| NsecWildcard.SecureIsRightIffWildcardDenied | src/recursor/dnssec.rs:1588-1627 | with a covering record in hand, nothing exists at or below the name and the wildcard under its closest encloser does not answer, in every zone the records may come from, if and only if the record's next owner is not below the name and one record denies that wildcard |
| NsecWildcard.EmptyNonTerminalDenied | src/recursor/dnssec.rs:1592-1606 | zones in which the one covering record gives a Secure NXDOMAIN for a name that exists as an empty non-terminal |
| NsecWildcard.StrayRecordAccepted | src/recursor/dnssec.rs:1588-1627 | zones and two of their records that give a Secure NXDOMAIN although a wildcard answers the query |
| Nsec3Denial.GapMeaning | src/recursor/dnssec.rs:1841-1860 | the range test on a ring's interval means: strictly after its owner and before its next owner in cyclic order |
| Nsec3Denial.RingPartition | src/recursor/dnssec.rs:1841-1860 | in a ring of at least two sorted hashes every hash is an owner or lies in exactly one interval, the wrapping one included |
| Nsec3Denial.ClimbToOwner | src/recursor/dnssec.rs:1721-1741 | the climb finds the deepest visited ancestor whose hash owns a record |
| Nsec3Denial.ProveDenial3 | src/recursor/dnssec.rs:1699-1794 | the whole NSEC3 verdict, with its Insecure exits where a hash is not available |
| Nsec3Denial.NoErrorVerdict3 | src/recursor/dnssec.rs:1699-1717 | over intervals of a zone's ring, no error is Bogus exactly with the name's own record if the name has the type, Secure exactly with it if not, and Insecure exactly without it or without a hash |
| Nsec3Denial.NameErrorVerdict3 | src/recursor/dnssec.rs:1721-1791 | a name error is Bogus without an encloser above the name; with one it is Insecure where a hash that is needed is missing, Secure exactly when the next-closer name is covered and the wildcard covered or owned, and otherwise Bogus |
| Nsec3Denial.NameErrorOfSigned3 | src/recursor/dnssec.rs:1721-1791 | a name error about a signed name is never Secure, and Bogus wherever the hashes are to be had |
| Nsec3Denial.SecureNxDomain | src/recursor/dnssec.rs:1721-1791 | a Secure NXDOMAIN over intervals of a zone's ring: the encloser found is signed, neither the name nor the next-closer name is, and nothing at all exists from the next-closer name on unless the record covering it is opt-out |
| Nsec3Denial.SecureIsTrueIffNotOptOut | src/recursor/dnssec.rs:1721-1791 | after a Secure NXDOMAIN nothing exists from the next-closer name on, in every zone these records may come from, if and only if the record covering that name is not opt-out |
| Nsec3Denial.OptOutDeniesExisting | src/recursor/dnssec.rs:1686-1791 | an opt-out zone, all its records, and a Secure NXDOMAIN for an unsigned delegation it holds |
| Nsec3Denial.WildcardHalf | src/recursor/dnssec.rs:1772-1788 | after a Secure NXDOMAIN the wildcard at the encloser is a signed name if and only if its hash owns a record rather than being covered |
| Nsec3Wildcard.SecureIsRightIff | src/recursor/dnssec.rs:1721-1791 | a Secure NXDOMAIN is right about the name and the wildcard, in every zone these records may come from, if and only if the record covering the next-closer name is not opt-out and one of the records covers the wildcard without opt-out or owns it without the type |
| Nsec3Wildcard.AnsweringWildcardAccepted | src/recursor/dnssec.rs:1781-1788 | a zone, all its records, and a Secure NXDOMAIN for a name that its wildcard answers |
| ZoneCuts.BelowCutIff | src/recursor/dnssec.rs:1592-1616 | a covered name lies below a delegation or DNAME of the zone if and only if the covering record's owner shows one and lies above it |
| ZoneCuts.BelowCutDenied | src/recursor/dnssec.rs:1592-1616 | the record at a delegation gives a Secure NXDOMAIN for any name below it |
| ZoneCuts.BelowCutIff3 | src/recursor/dnssec.rs:1721-1791 | after a Secure NXDOMAIN the name lies below a signed delegation or DNAME if and only if the closest encloser's record shows one |
| ZoneCuts.BelowCutDenied3 | src/recursor/dnssec.rs:1721-1791 | a zone, all its records, and a Secure NXDOMAIN for a name below its delegation |
| Nsec3Denial.SecureNoData | src/recursor/dnssec.rs:1699-1717 | a Secure NODATA: the name is a signed name of the zone and does not hold the type |
| Nsec3Denial.SecureIffAbsent | src/recursor/dnssec.rs:1721-1791 | with the whole ring in hand, NXDOMAIN is Secure exactly for the names that do not exist or are opted out |
| Nsec3Denial.SingletonRingProvesNothing | src/recursor/dnssec.rs:1763-1770 | a ring of one name covers nothing, so NXDOMAIN is never Secure from it |
| Trust.DeriveAnchored | src/recursor/dnssec.rs:609-618 | anchors of a zone are a derived key set |
| Trust.DeriveResigned | src/recursor/dnssec.rs:1103-1126 | a zone's key set signed in time by an already derived key of that zone is derived |
| Trust.TrustDs | src/recursor/dnssec.rs:693-763 | a DS set signed in time by a derived key of an ancestor-or-self zone is trusted |
| Trust.DeriveDelegated | src/recursor/dnssec.rs:810-857 | a key set signed by one of its own keys, one of whose keys matches a trusted DS set, is derived |
| Trust.DerivationIsAnchored | src/recursor/dnssec.rs:602-869 | every derivation starts at an anchor at or above its zone and yields at least one key |
| Trust.OutsideAnchors | src/recursor/dnssec.rs:602-869 | a zone with no anchor at or above it gets no keys at all |
| Trust.DerivationsGrow | src/recursor/dnssec.rs:604-607 | publishing further anchors invalidates no derivation |
| DnskeyCache.Evict | src/recursor/dnssec.rs:161-179 | eviction drops every expired entry, a live one only if none is expired and then only one, and always makes room |
| DnskeyCache.Cache.PutPositive | src/recursor/dnssec.rs:126-134 | stores a derived key set with its clamped lifetime, touches nothing else when there is room, and keeps the caps and the derivability of every entry |
| DnskeyCache.Cache.InvalidatePositive | src/recursor/dnssec.rs:136-138 | removes exactly that zone |
| DnskeyCache.Cache.PutNegative | src/recursor/dnssec.rs:145-152 | marks the zone for the negative lifetime within the cap |
| DnskeyCache.Cache.Interfere | src/recursor/dnssec.rs:103-179 | any sequence of legal writes by other validations keeps the caps and the derivability of every entry |
| DnskeyCache.InterleavingIsLegal | src/recursor/dnssec.rs:103-179 | any interleaving of parts of legal write logs is legal, so what validations write is what others may meet |
| KeyChain.ClosestTrustedKeys | src/recursor/dnssec.rs:1283-1303 | the keys of the first entry with the most labels among those at or above the name, or none if there is no such entry |
| KeyChain.Seed | src/recursor/dnssec.rs:609-624 | one entry per anchored zone, every anchor in it and only anchors, all derived |
| KeyChain.ReplacedKeeps | src/recursor/dnssec.rs:1140-1141 | replacing a zone's entry by a derived set loses no zone and leaves every entry derived |
| Validator.CollectDnskeys | src/recursor/dnssec.rs:1245-1266 | exactly the zone's DNSKEY records in order, their keys, and the last signature over them |
| Validator.CollectDs | src/recursor/dnssec.rs:1003-1018 | adds exactly the zone's DS records in order and keeps the last signature over them |
| Validator.Validator.FetchDnskeys | src/recursor/dnssec.rs:1217-1280 | succeeds exactly when the first server heard, failed ones skipped, gave something readable, and then gives exactly the zone's key set out of that reply, as many servers having been asked |
| Validator.Validator.FetchDs | src/recursor/dnssec.rs:995-1027 | exactly what the servers' replies give, asked in order until DS records and a signature over them are there, and no server asked after that |
| Validator.Validator.Splice | src/recursor/dnssec.rs:1089-1143 | a cached set is taken as it is; otherwise it succeeds if and only if the set of the first server heard is signed in time by a current key of the zone, and then that set is the zone's entry and is cached with its clamped lifetime; the chain stays derived and loses no zone, and on failure it is unchanged |
| Validator.Validator.CheckedDs | src/recursor/dnssec.rs:984-1043 | a DS set is accepted while filling in a zone if and only if what the servers give is complete and signed in time by one of the closest trusted keys, and then it is trusted |
| Validator.Validator.Admit | src/recursor/dnssec.rs:810-866 | a key set under a trusted DS set is accepted if and only if it is signed in time by one of its own keys and one of them matches; it is then derived and cached |
| Validator.Validator.BootstrapOne | src/recursor/dnssec.rs:968-1085 | one skipped zone: a cached set is taken; otherwise success if and only if the DS set heard passes and the key set heard after it passes under that DS set; derived entry on success, unchanged chain on failure |
| Validator.Validator.Bootstrap | src/recursor/dnssec.rs:947-1087 | filling in from the deepest known ancestor down: the target has an entry on success, and it succeeds where every zone on the way is cached; on every path the chain stays derived and loses no zone |
| Validator.Validator.Lookup | src/recursor/dnssec.rs:1162-1180 | the state of a step from the cache, exactly: a matching set as it is; otherwise a set that does not match is dropped and the negative cache decides |
| Validator.Validator.FetchStep | src/recursor/dnssec.rs:1185-1212 | the state of a step that was fetched, exactly: the key set of the first server heard, or a failure |
| Validator.Validator.Prefetch | src/recursor/dnssec.rs:1155-1215 | whatever the order in which the fetches end: a step's state taken from the cache is a derived key set that matches the step's own DS set, a fetched one holds that zone's records, and every step is decided |
| Validator.Validator.CheckStepDs | src/recursor/dnssec.rs:693-763 | promoted if and only if the DS set is there and signed, in time, by one of the closest trusted keys, and then it is trusted; Insecure if there are no DS records, and otherwise only out of reach of every trusted zone; Bogus only if the DS set is unsigned, out of time or signed by none of the closest keys |
| Validator.Validator.StepKeySet | src/recursor/dnssec.rs:765-868 | a cached set is taken as it is; a fetched one is promoted if and only if it is signed by one of its own keys and matches, and then it is derived; Insecure only for negative or failed fetches, Bogus only for a fetched set |
| Validator.Validator.VerifyStep | src/recursor/dnssec.rs:650-869 | a promoted step is proven: its DS set trusted and matched by a derived key set of its zone; otherwise the status is not Secure, and Insecure without DS records; where the DS signer is known, promoted if and only if the step meets every check |
| Validator.Validator.VerifySteps | src/recursor/dnssec.rs:649-873 | the validated zones are the zones of the first steps, each proven, all of them if no step stops the walk; if every step passes under the keys of those before it, all are promoted and the chain ends with exactly their keys |
| Validator.UnknownSigners | src/recursor/dnssec.rs:884-894 | every signer of the response is known or listed, once, and only unknown signers are listed |
| Validator.Validator.CheckAnswer | src/recursor/dnssec.rs:875-920 | Secure only for an answer a derived key vouches for; where every signer is known, an answer whose groups pass is Secure, and one without RRsets gets the verdict of its denial records if their sets pass |
| Validator.Validator.ValidateWalk | src/recursor/dnssec.rs:596-920 | on every return path the cache holds only derived key sets within its caps and the validated zones are a proven prefix of the steps; Secure means an anchor was loaded, the whole list, and an answer every RRset of which a derived key vouches for, of a zone at or above the owner if the signers are, or a proven absence; and where the cache has all key sets and every step passes, all steps validate, and if the answer passes too the verdict is Secure |
| Validator.Run | src/recursor/dnssec.rs:596-920 | the same for every validation of any run over one cache, with any replies, clocks, evictions and interleaved writes |
| AnswerCheck.GroupAnswers | src/recursor/dnssec.rs:1311-1324 | groups are exactly the answer's records by name, type and class, in order, signatures apart |
| AnswerCheck.CheckSet | src/recursor/dnssec.rs:1352-1376 | Secure if and only if the first signature at that owner and type is in time and made by one of the closest keys to the signer it names, and then a derived key vouches for the set; each other verdict only for its own reason |
| AnswerCheck.FromAboveIffSignerAbove | src/recursor/dnssec.rs:1364-1372 | a signed set passes, under every sound chain, only by keys of zones at or above its owner if and only if the signer its signature names is at or above the owner |
| AnswerCheck.ForeignSignerAttests | src/recursor/dnssec.rs:1364-1372 | for any owner and any signer not above it, an answer that passes and is attested under a chain that trusts the signer alone |
| AnswerCheck.AttestedFromAbove | src/recursor/dnssec.rs:1339-1406 | where signers are at or above owners, every set of an attested answer is vouched for by a zone at or above its owner |
| AnswerCheck.CheckAnswers | src/recursor/dnssec.rs:1339-1406 | Secure only if every group is attested, and always if the first signature of every group passes whenever the clock is read; Insecure only for an unsigned or unreachable group, Bogus only for one whose signature is out of time or does not verify |
| AnswerCheck.CheckAuthority | src/recursor/dnssec.rs:1492-1543 | denial record sets pass only if every one is complete and attested, and always if each one's first signature passes; they fail only for one that is unsigned, out of reach, out of time or signed by none of the closest keys |
| AnswerCheck.Nsec3Records | src/recursor/dnssec.rs:1664-1688 | the intervals are the first records of attested sets with decodable owners, and every such owner is used |
| AnswerCheck.CheckDenial | src/recursor/dnssec.rs:1423-1488 | Secure only on a proof of absence made of attested records; Insecure without denial records; otherwise exactly the verdict the denial records give for the response code, or Bogus for a set that fails, and the former whenever all sets pass |
| AnswerCheck.CheckResponse | src/recursor/dnssec.rs:1305-1406 | Secure only if every RRset is attested, and an answer without RRsets only as a proven absence; an answer whose groups all pass is Secure, Insecure and Bogus need an unreachable and a failing set, and an answer without RRsets gets the verdict of its denial records |
| AnswerCheck.NsecAbsent | src/recursor/dnssec.rs:1423-1488 | if the attested NSEC records are the zone's own, a Secure NXDOMAIN names something that owns nothing there and exists only if a covering record's next owner lies below it, and a Secure NODATA is true of the zone |
| AnswerCheck.Nsec3Absent | src/recursor/dnssec.rs:1423-1488 | the same for attested NSEC3 records of the zone's ring: the name is not signed, and does not exist unless the record covering the next-closer name is opt-out |
| Walk.ExtractDs | src/recursor/iterative.rs:1323-1342 | exactly the zone's DS records of the authority section and exactly its signatures over DS, both in order |
| Walk.ClassLaws | src/recursor/iterative.rs:1344-1407 | each class from the message alone: by code first, then an alias at the name unless aliases are asked for, then any answer, then a name-server record, and the target or zone it gives |
| Walk.Budget.Descend | src/recursor/iterative.rs:1457-1463 | takes one from the depth, or refuses at zero |
| Walk.Budget.Query | src/recursor/iterative.rs:1465-1471 | takes one from the queries, or refuses at zero |
| Walk.Budget.Chase | src/recursor/iterative.rs:1473-1479 | takes one from the aliases, or refuses at zero |
| Walk.Resolver.QueryNsSet | src/recursor/iterative.rs:584-657 | at most two in flight, at most four sent, to different entries of the list, each charged; what it returns was received; without running out of budget it fails only after every one of the first four failed |
| Walk.Resolver.TakeHop | src/recursor/iterative.rs:445-567 | one round does what the class of the message received calls for: answer, alias, accepted referral with its DS records, or the matching fault |
| Walk.Resolver.Chase | src/recursor/iterative.rs:463-484 | following an alias: the answers of the target's walk after those of the message, with its code, or its fault |
| Walk.Resolver.Walk | src/recursor/iterative.rs:390-569 | ends for every environment; what it returns is what a finite chain of received messages says: each leads by an alias to the name of the next, the last is final, the answers are theirs in order, the code the last one's and the authorities the first one's; a fault is that of the last message, an exhausted budget, or as many queries without a reply as servers are tried; queries, depth and aliases spent, nested walks included, account for the whole budget difference; an exhaustion fault means that resource is used up; the chain is a prefix resumed from the cache as it was at the start, followed by accepted referrals |
| Walk.CountsRise | src/recursor/iterative.rs:496-503 | label counts of recorded steps strictly increase between referrals to the root |
| Walk.ZonesOnce | src/recursor/iterative.rs:486-557 | two steps of a chain, resumed prefix included, with no referral to the root after the first, are for different zones, for every query name |
| Walk.RepeatNeedsRoot | src/recursor/iterative.rs:486-557 | a zone named twice means a referral to the root in between |
| Walk.NoRootNamesOnce | src/recursor/iterative.rs:486-557 | so a chain without one names each zone once |
| Walk.RootReferralRepeats | src/recursor/iterative.rs:496-503 | an accepted chain that returns to the root: its first step meets every check and is proven, its root step has no DS records, and the cache ends with its third step, which nothing supports |
| Walk.RootReferralCached | src/recursor/iterative.rs:918-939 | the same through the validator: exactly the first zone validates, the verdict is Insecure, and the delegation cache is no longer one of proven steps |
| Walk.AcceptsOnlyBelowIff | src/recursor/iterative.rs:487-503 | apart from the root, every accepted referral lies below the current zone if and only if that is the root |
| Walk.SidewaysReferralFollowed | src/recursor/iterative.rs:487-557 | a reply from any other zone that sends the walk to a zone elsewhere, and is followed |
| Delegations.DelegationCache.Insert | src/recursor/iterative.rs:174-195 | files the step under its zone with the smallest DS lifetime capped at an hour, and ignores a step without one |
| Delegations.DelegationCache.CacheValidated | src/recursor/iterative.rs:918-939 | stores, in order, exactly the steps whose zone is among the validated ones |
| Delegations.DelegationCache.Interfere | src/recursor/iterative.rs:150-195 | any sequence of stores of proven steps keeps a cache of proven steps |
| Delegations.DelegationCache.Start | src/recursor/iterative.rs:951-988 | the longest contiguous run of cached steps for the proper ancestors of the name, from the top label on, unless it leads to a zone without addresses |
| Delegations.Ancestors | src/recursor/iterative.rs:958-964 | all proper ancestors from one label on, shallowest first; from two labels on under a top label `*` |
| Delegations.StoresOnlyValidatedIff | src/recursor/iterative.rs:927-932 | a chain through given zones stores only validated steps, for every content of its referrals and every validated prefix, if and only if no two of the zones are the same |
| Delegations.StoreKeepsProven | src/recursor/iterative.rs:918-939 | where only validated steps are stored every cached step stays one the validator proved |
| Delegations.StoredIsFound | src/recursor/iterative.rs:150-195 | after storing a chain that names each zone once, a validated step is found again for exactly its DS lifetime, an hour at most, and zones not stored are found as before |
| Resolution.ResumedZones | src/recursor/iterative.rs:951-988 | a chain resumed from a valid cache starts with steps for consecutive ancestors of the query name, each previously proven |
| Resolution.CleanNamesOnce | src/recursor/iterative.rs:486-557 | from a valid cache, having met no root referral already means naming no zone twice |
| Resolution.Resolve | src/recursor/mod.rs:1165-1222 | walk, validation and storing together, with other resolutions storing proven steps meanwhile: the message judged is what a chain of received messages says, Secure answers are vouched for, the DNSKEY cache stays valid, and so does the delegation cache if the walk names no zone twice, in particular if it met no root referral |
| Resolution.ResolveEach | src/recursor/mod.rs:1165-1222 | the same over any run of resolutions sharing both caches |
| Anchor.ApplyRefresh | src/recursor/anchor.rs:170-285 | the two loops compute the specification `Applied`, list and report |
| Anchor.RefreshAccounts | src/recursor/anchor.rs:148-285 | kept, dropped and pruned keys account for the old list and the added ones; an empty report means an unchanged list |
| Anchor.RefreshStepsEachKey | src/recursor/anchor.rs:194-282 | if no addable key repeats an earlier identity a refresh is, for every key, one step of the RFC 5011 automaton, and identities stay distinct |
| Anchor.StepsEachKeyIff | src/recursor/anchor.rs:194-282 | and only then: the refresh steps every key and keeps identities distinct if and only if no addable key repeats an earlier identity |
| Anchor.RepeatedKeyListedTwice | src/recursor/anchor.rs:262-282 | a new key observed twice in one refresh is listed twice |
| Anchor.HistorySteps | src/recursor/anchor.rs:170-285 | over any run every key's history follows the automaton |
| Anchor.HoldDown | src/recursor/anchor.rs:202-282 | a key absent at one point and Active later was first added with SEP set and unrevoked, then seen unrevoked in every refresh up to one at least the hold-down later, and never seen revoked since |
| Anchor.ActiveIffHeldDown | src/recursor/anchor.rs:202-282 | both ways, from what the refreshes saw: a key absent at one point is Active later if and only if it was added since with SEP set and unrevoked, seen unrevoked in every refresh up to one at least the hold-down later, and not seen revoked since |
| Anchor.ActiveUntilRevoked | src/recursor/anchor.rs:228-250 | an Active key stays Active until a refresh sees it revoked |
| Anchor.RevokedUntilAbsent | src/recursor/anchor.rs:251-259 | a revoked key leaves that state only by a refresh that does not see it |
| Anchor.NoSilentReturn | src/recursor/anchor.rs:194-282 | a revoked key is Active again only after an absence and a full new hold-down |
| AnchorFile.ParsePresentation | src/recursor/dnssec.rs:335-414 | the two passes compute the specification `Parse`: parentheses, comments, skipped lines, failing lines |
| AnchorText.WrappedReadsAsOne | src/recursor/dnssec.rs:335-364 | a record wrapped in parentheses over any number of lines is the record of its tokens, and the rest of the file is read as if it stood alone |
| AnchorText.CommentDropped | src/recursor/dnssec.rs:355-360 | a trailing comment does not matter to its line |
| AnchorText.CommentEndsLine | src/recursor/dnssec.rs:335-364 | outside parentheses a comment ends with its line, and the lines after it are read as if they stood alone |
| AnchorText.CommentEndsRecord | src/recursor/dnssec.rs:336-360 | inside parentheses a comment takes the rest of the record with it, up to the end of the line of the closing parenthesis |
| AnchorText.OpenInCommentLosesRest | src/recursor/dnssec.rs:336-360 | a parenthesis opened in a comment counts: with none to close it no record of the rest of the file is read |
| AnchorFile.RenderAnchorFile | src/recursor/anchor.rs:321-339 | the file is the header followed by one line per active key |
| AnchorFile.ParseRendered | src/recursor/anchor.rs:321-339 | parsing a rendered file gives, in order, the active keys that have key text, with the REVOKE flag stripped |
| AnchorFile.RestartLoadsPublishedSet | src/recursor/anchor.rs:321-339 | parsing the rendered file gives the published list if and only if every active key has key text and no REVOKE flag |
| AnchorFile.RevokedActiveLost | src/recursor/anchor.rs:321-339 | an active key with REVOKE set that a restart loads without it |
| AnchorFile.RunStaysSound | src/recursor/anchor.rs:170-285 | any sequence of refreshes over keys that have key bytes and a one-token owner name leaves every active or pending key with key text and no REVOKE flag, repeated identities included |
| AnchorFile.RestartAfterAnyRun | src/recursor/anchor.rs:597-602 | so after any such sequence from such a state, a restart loads the set that was published |
| UdpDemux.UpstreamUdpChannel.Begin | src/recursor/forwarder.rs:393-407 | claims the slot of the address and transaction id, or reports a collision and changes nothing of the map |
| UdpDemux.UpstreamUdpChannel.OnDatagram | src/recursor/forwarder.rs:697-724 | a datagram of at least 12 bytes completes the waiter of its key, if any, and frees the slot |
| UdpDemux.UpstreamUdpChannel.Return | src/recursor/forwarder.rs:478-488 | the answer returned came from the query's address and carries its transaction id |
| UdpDemux.UpstreamUdpChannel.DropGuard | src/recursor/forwarder.rs:417-423 | any other ending removes the slot of that key, whoever holds it |
| UdpDemux.StepPreservesHistory | src/recursor/forwarder.rs:380-489 | keys never change and an ended query keeps its outcome |
| UdpDemux.CollidesIff | src/recursor/forwarder.rs:393-407 | a new query fails at once if and only if another of its key is waiting, and otherwise waits |
| UdpDemux.DemuxIsSafe | src/recursor/forwarder.rs:380-489 | over every interleaving: answered queries hold a datagram from their address with their id, no datagram serves two, every entry belongs to a waiting query of its key, and once all have ended the map is empty |
| UdpDemux.FirstMatchAnswers | src/recursor/forwarder.rs:393-489 | over every interleaving, a waiting query is answered with the first datagram for its key that arrives, unless a guard of that key ran before, once it picks it up |
| UdpDemux.OrphanedOnlyByOlderQuery | src/recursor/forwarder.rs:417-423 | a waiting query loses its slot unanswered only to the guard of an older query of its key that had already lost its own |
| UdpDemux.OrphanReachable | src/recursor/forwarder.rs:417-423 | and an interleaving in which that happens |
| ForwarderConfig.ResolvedServers | src/config.rs:256-325 | the normalised list exactly when every server is usable and none mixes Tor with direct, otherwise an error |
| DotPool.Pool.Take | src/recursor/dot_pool.rs:171-188 | the last connection that is not stale, everything after it dropped, an emptied bucket removed |
| DotPool.Pool.Release | src/recursor/dot_pool.rs:194-206 | stamps and keeps the connection unless it is stale or the bucket is full |
| DotPool.Pool.Sweep | src/recursor/dot_pool.rs:211-218 | every bucket keeps exactly its connections that are not stale, as often as before and in order, and emptied buckets are gone |
| DotPool.TakenIffFresh | src/recursor/dot_pool.rs:171-188 | there is a connection to take if and only if one in the bucket is not stale, and the one taken is the last such |
| DotPool.ReleasedIsTaken | src/recursor/dot_pool.rs:171-206 | a connection released into a bucket with room is the next one taken while it is not stale, and leaves the bucket as it was |
| DotPool.TakeKeeps | src/recursor/dot_pool.rs:171-188 | what is taken was opened for that key and is no longer in the bucket; nothing else enters a bucket |
| DotPool.PoolIsSafe | src/recursor/dot_pool.rs:263-316 | over every interleaving a stream is in at most one bucket or one task's hands, buckets hold at most four streams opened for their key, and a server costs a task at most one build |
| DotPool.FailClosed | src/recursor/forwarder.rs:1144-1326 | over every interleaving a task whose accepted list has a Tor server never sends UDP, and every stream it opened or reused was connected to the SOCKS endpoint for its own domain |
| ForwarderRun.TriesInOrder | src/recursor/forwarder.rs:1283-1326 | over every interleaving a task has failed at every server before the one it is at; if it ended well that one replied; if it ended in failure without being cancelled, every one of its servers has failed it |
| ForwarderRun.FailuresInOrder | src/recursor/forwarder.rs:1283-1326 | and the failures happened in the order of the servers |
| ForwarderRun.RunTriesInOrder | src/recursor/forwarder.rs:1283-1326 | the same of every run from the start |
| ForwarderRun.FailedReuseBuildsOnce | src/recursor/dot_pool.rs:263-316 | a failed reuse, uncancelled, is followed by building for the same key at the same server until the build ends, and a build that succeeds is the only one at that server |
| InFlight.InFlightMap.LockFor | src/recursor/mod.rs:149-165 | sweeps and evicts when full, then returns the entry of the folded name and type, creating it if missing |
| InFlight.NextGoesIn | src/recursor/mod.rs:149-165 | a caller waiting for a lock that is held stays out, and goes in, alone, once the holder has left |
| InFlight.SweepIsHeldKeys | src/recursor/mod.rs:154-155 | a sweep leaves exactly the keys somebody still holds |
| InFlight.Coalesces | src/recursor/mod.rs:149-165 | over every interleaving the map stays within 4096 entries, and while fewer keys are held any two overlapping callers of one key share a lock, so one at most is in the section |
| InFlight.SharedIffUncrowded | src/recursor/mod.rs:149-165 | at every point of a run every caller has the lock the map holds for its key if and only if nobody entered while 4096 keys were held |
| InFlight.UnsharedSplitsNext | src/recursor/mod.rs:149-165 | otherwise the next caller for such a key gets a different lock, whatever is evicted |
| InFlight.SplitWhenCrowded | src/recursor/mod.rs:156-160 | once 4096 keys are held the eviction can hit the key asked for, and the two callers get different locks |
| InFlight.SplitIsReached | src/recursor/mod.rs:149-165 | a run of 4097 callers, for different types at one name, after which two are in the section for one name and type |
| HttpHead.ParseRequestHead | src/io/doh.rs:601-662 | the parser computes the specification `Parse`, rejecting whatever one bad line makes malformed |
| HttpHead.RoundTrip | src/io/doh.rs:601-662 | every well-formed head is read back exactly as it was written |
| HttpHead.ParsedIsWellFormed | src/io/doh.rs:576-662 | whatever the parser accepts is well formed: token method and names in lower case, trimmed values without line breaks, a path without spaces or controls |
| HttpHead.FramingMeans | src/io/doh.rs:667-686 | framing is refused exactly for a header named transfer-encoding or trailer, or two named content-length |
| DohFraming.FindSubsequence | src/io/doh.rs:565-567 | searching only from the last three bytes on still finds the first terminator of the whole buffer |
| DohFraming.ReadHeadsExplained | src/io/doh.rs:532-563 | for every cutting the result is explained by the bytes: the first terminator, the header limit, or the end of the stream |
| DohFraming.AcceptedIffWithinLimit | src/io/doh.rs:532-563 | a head is accepted for every cutting if and only if it ends within 8192 bytes |
| DohFraming.Connection.ReadHead | src/io/doh.rs:532-563 | the read loop: same result, no byte lost or duplicated |
| DohFraming.Connection.TakeBody | src/io/doh.rs:452-475 | the body is the next bytes of the stream, exactly its length, and the rest stays for the next request |
| DohFraming.Connection.ServeOne | src/io/doh.rs:261-357 | one round serves the next request of the bytes, or stops where the bytes say so |
| DohFraming.Connection.ServeConnection | src/io/doh.rs:245-362 | for every cutting, the requests processed are an initial part of those the bytes spell, at most 1000, and all of them if every head met is within the limit |
| DohFraming.StreamIsServed | src/io/doh.rs:256-475 | a stream of requests as sent spells exactly these in order, each with its own body, up to the first that closes or the cap, if the server takes their bodies to be as long as the client does, and otherwise does not |
| DohFraming.ServeStream | src/io/doh.rs:245-475 | so a connection carrying them processes exactly those, however the bytes arrive, if and only if the lengths agree |
| DohFraming.GoodIsSent | src/io/doh.rs:261-475 | a well-formed request that passes the parser, framing and admission rules, with a body of its Content-Length, is such a request |
| DohFraming.AcceptsExactly | src/io/doh.rs:318-332 | of well-formed admissible heads the server accepts exactly those without such headers |
| DohFraming.BadFramingEnds | src/io/doh.rs:667-686 | a request with such headers ends the connection: neither it nor anything after it is served |
| DohFraming.SameLengthIff | src/io/doh.rs:404-452 | the server and the wire disagree on the length exactly for a GET that announces a body |
| DohFraming.ServeDoh | src/io/doh.rs:245-475 | for every cutting, exactly the requests sent are processed if and only if none of them is a GET that announces a body |
| DohFraming.GetBodyIsNextRequest | src/io/doh.rs:406-411 | the body of a GET that keeps the connection is served as the next request |
| DohFraming.OneGetServedAsTwo | src/io/doh.rs:406-411 | a concrete GET for the DNS endpoint with a 55-byte body that is served as two requests |
| DohFraming.WantsCloseIff | src/io/doh.rs:336-340 | the server sees a wish to close if and only if `close` is the only option of some Connection header |
| DohFraming.CloseInListMissed | src/io/doh.rs:336-340 | a header that asks to close among other options, which the server does not see |
| HttpLists.ReadLengthIsWire | src/io/doh.rs:745-756 | where the server reads a Content-Length it is the length on the wire |
| ZeroXTwenty.QnameByteRange | src/recursor/zeroxtwenty.rs:89-114 | the end of the question name, or an error for a short message, an overrun, a pointer or a missing end |
| ZeroXTwenty.Encode | src/recursor/zeroxtwenty.rs:26-40 | in place, for every random choice: only letters of the question name change case, the parsed range and the name up to case stay, and the encoded message is accepted |
| ZeroXTwenty.BytesIffLabels | src/recursor/zeroxtwenty.rs:61-67 | two wire names agree byte for byte up to case exactly when they agree label by label |
| ZeroXTwenty.AcceptsIffSameName | src/recursor/zeroxtwenty.rs:51-77 | a response is accepted exactly when its question name is well formed and equals the sent name label by label ignoring ASCII case |
| Dns64.EmbedV4 | src/recursor/dns64.rs:116-144 | the address carries the prefix and the IPv4 octets at the places section 2.2 of RFC 6052 gives for that length |
| Dns64.ExtractEmbedded | src/recursor/dns64.rs:148-163 | extracting gives back the embedded address for every prefix length |
| Dns64.ZeroOctet | src/recursor/dns64.rs:121-139 | the reserved octet is zero exactly when the length is 40 to 64 or the prefix was written so |
| Dns64.ReverseIsInjective | src/recursor/dns64.rs:167-198 | a name is the reverse name of at most one address |
| Dns64.Ip6ArpaToAddr | src/recursor/dns64.rs:167-198 | succeeds exactly on names that are, ignoring case, the reverse name of an address, and returns that address |
| Dns64.RewritePtrQuestion | src/recursor/dns64.rs:284-293 | rewrites exactly the reverse names of addresses in the prefix, and the one of an embedded address to the in-addr.arpa name of the address embedded |
| CivilDate.NoUnderflow | src/acme/mod.rs:118-126 | no unsigned subtraction of the conversion goes below zero |
| CivilDate.CivilIsCalendar | src/acme/mod.rs:101-131 | day 0 is 1970-01-01, every result is a date, and each day is the calendar successor of the day before under the 4/100/400 rule |
| CivilDate.TimeOfDay | src/acme/mod.rs:108-113 | hours, minutes and seconds are in range and recombine to the timestamp |
| ListenerReload.Desired | src/main.rs:1059-1076 | the desired set is exactly what the configuration wants |
| ListenerReload.SharersAgree | src/main.rs:1109-1125 | with one entry per address and port, listeners that share a cell want the same contents for it |
| ListenerReload.TwoEntriesConflict | src/main.rs:1109-1125 | a configuration of two entries on one address for which that fails |
| ListenerReload.Daemon.AbortUndesired | src/main.rs:1078-1102 | aborts and forgets exactly the listeners no longer desired; every task stays live or aborted |
| ListenerReload.Daemon.HotSwap | src/main.rs:1104-1126 | in any order of the stores, every kept listener ends with its configured name and cell contents if and only if sharers agree; tasks and cells stay |
| ListenerReload.Daemon.BindRound | src/main.rs:823-905 | one pass over the pending listeners, in which a bind on a taken socket fails: exactly the slots whose bind succeeds become live and exactly those refused are left, the set stays valid and new listeners hold what an entry for their slot says |
| ListenerReload.Daemon.BindAll | src/main.rs:775-917 | after all passes a slot is live if and only if it was before, or is wanted and some attempt within the deadline succeeds with all earlier ones refused; the old listeners stay and new ones use new cells |
| ListenerReload.Daemon.Reload | src/main.rs:1059-1146 | for every configuration: a slot is live if and only if it is desired and was live before or gets bound within the deadline; kept listeners keep task and cells, new ones hold what an entry for their slot says, and every task ever spawned is in the map or aborted; with one entry per socket every live listener's cells hold this configuration's values if and only if kept listeners that share a cell agree on it, as they do with one entry per address and port |
| ListenerReload.Daemon.ReloadEach | src/main.rs:1059-1146 | the same over any sequence of configurations and bind outcomes: no task is lost, and the last configuration is reflected if it has one entry per address and port |

## Left out

- Wildcard-expanded answers: the code does not check that the expanded name is absent, so nothing is stated about them.
- Names are in case-folded form throughout: the library compares and hashes them ignoring case, and keeping the original spelling would only add easy members.
- Trust.DeriveDelegated: the DNSKEY set need not be signed by the key that matches the DS record, because the code does not require it; no statement that derived keys are the zone's real keys is made.
- Signature time windows use unbounded integers; the 32-bit wrap-around of the clock in `check_rrsig_validity` is not modelled.
- AnswerCheck.CheckAnswers: goes through the groups in an arbitrary order instead of map order, so which of several failing groups decides the verdict is left open.
- Walk.Resolver.Walk: each glueless name-server lookup is an arbitrary answer; those lookups have their own budgets and rely on wall-clock limits, so no bound on their queries is stated.
- Response cache, negative resolve cache, priming, glue and NS caching, local zones and forwarding policy: bookkeeping around the modelled decisions.
- DotPool.PoolIsSafe: no bound on a connection's age, because a pooled stream is stamped anew on each return.
- AnchorFile.ParseRendered: base64 and the library's name syntax are parameters, and the two comment lines at the top are any comment lines.
- CivilDate.TimeOfDay: the formatted text of the date is not modelled, only its components.
- DohFraming.Connection.ReadHead: read timeouts end a connection early and are not modelled; neither are TLS, HTTP/2 and the responses.
- ListenerReload.Daemon.Reload: if a configuration has two entries for one socket, which of them a new listener follows is left open.
- DohFraming.ServeDoh: the requests a connection carries end where the server sees a wish to close; `WantsCloseIff` says when it does.
- NsecDenial and Nsec3Denial name the zone's own names only; what lies below a cut is `ZoneCuts`, and names that a child zone holds are not part of this model.
- Sockets, TLS, VCL, task scheduling, signals, ACME, the control socket, metrics, rate limiting, cookies and access lists: plumbing over libraries that are not part of this model.
