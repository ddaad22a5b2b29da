# DNSWatcher: a verified model

DNSWatcher traces a name from the DNS root downward and shows every step. This Dafny project models the parts of it in
which a wrong branch would go unnoticed, and proves what they guarantee for every input, every run and every network.

**The trace engine** (`backend/internal/trace/engine.go`). Four mutually recursive procedures share one mutable run
state: the hop list, the set of lookups already made and the counter of upstream queries. `TraceSpec` states them as
functions of the run so far. `TraceEngine` has them in the program's own form, a class whose methods update the state
in loops, and proves each method equal to its function. The network is an arbitrary oracle: what the n-th query of a run
yields (a message, a deadline, another error) may depend on n, the endpoint and the question. The destination policy is
an arbitrary predicate on addresses. A log of exchanges and a count of messages sent record what the program does not
keep. The properties of whole runs follow, one module each:

- `TraceLedger`, `TraceWire`, `TraceLoops`: budget, visited set and exchanges, and what came over UDP and TCP.
- `TraceProvenance`: where every queried address and every reported record comes from.
- `TraceFrames`, `TraceIndex`: the hop list as a nested path, the kind of every hop and the next targets of every
  referral, and what `Index` and `ParentIndex` mean.
- `TraceBound`: the length of the hop list against any responder.
- `TraceCalls`: what one pass over the candidates comes to, read off the policy and the network before it is made.
- `TraceOutcome`: the final outcome against the last hop, and the exact condition of every kind of outcome.
- `TraceMessages`: when the messages that come with the outcomes are true.
- `ZoneTree`, `ZoneTrace`: against the servers of a zone tree, a trace finds what a direct lookup in the tree finds;
  `ZoneExample` is such a network.

**The client resolver** (`backend/internal/httpapi/clientid.go`): `HeaderText` (quote-aware splitting), `QuotedText`
(quoted strings and the parameters of an element), `Forwarded` (both headers, over several field lines),
`ForwardedPrint` (a printer, and the round trip through the parser), `Addresses` (IP addresses, trusted prefixes),
`ClientIdentity` (whose request it is).

**The limiter table** (`backend/internal/httpapi/server.go`): `RateLimiter`, an evicting table against one that never
evicts.

**Two consumers in the frontend**: `HopForest` (`presenters.ts`), with `TraceView` joining it to the engine's output, and
`RecentTraces` (`recentTraces.ts`).

`Text`, `Dns` and `Rrsets` hold shared helpers, the message classifiers and RRset grouping; `TraceSteps` what one pass
over the candidates does to a run.

## Where the code and what is said of it differ

- Support lookups are promised to appear as expandable substeps (`docs/07-acceptance-criteria.md:8`, `README.md:11`). A
  referral hop takes its `Index` before its support lookups run and is appended after them, so the first support hop
  has that same `Index` and is its own parent. `flattenSupportHops` then recurses without end.
  `TraceView.GroupingEndsExactlyWithoutSupport` gives the exact condition, `TraceView.GluelessReferralNeverEnds` a family
  of runs that fail it. On hop lists with unique indexes and parents below their children the grouping is right
  (`HopForest.ForestFlattening`).
- The message of `timeout` says that all candidates timed out (`backend/internal/trace/engine.go:205`). The outcome means
  that the last candidate did and that none answered (`TraceCalls.TimeoutExactlyWhen`). The message is true exactly when
  the policy allows every candidate and the network breaks no exchange with any of them
  (`TraceMessages.TimeoutIsTrueExactlyWhen`); in the run of `TraceMessages.TimeoutIsNotAll` it is not.
- The message of `unusable_referral` says that a referral was received (`backend/internal/trace/engine.go:211`). It is
  true exactly when the last call ends with an answer that names nameservers
  (`TraceMessages.UnusableIsReferralExactlyWhen`). It is false when the policy blocks the last root and none before it
  answered (`TraceMessages.UnusableWithoutReferral`), and when the answer names no nameserver, for instance because it is
  empty (`TraceMessages.UnusableAfterEmptyReply`).
- The message of `max_depth` with code `MAX_DEPTH` says that the hop depth was exceeded
  (`backend/internal/trace/engine.go:209`, `:227`). It is true exactly when the last call does not stop because the query
  budget has run out (`TraceMessages.MaxDepthIsDepthExactlyWhen`); in the run of `TraceMessages.DepthMeansBudget` it does.
- The messages of `success` on an answer and of `nxdomain` name an authoritative server
  (`backend/internal/trace/engine.go:180`, `:215`), but the authority bit is not tested. They are true exactly when the
  answer with which the last call ends has the bit (`TraceMessages.AnswerIsAuthoritativeExactlyWhen`); in the runs of
  `TraceMessages.SuccessWithoutAuthority` and `TraceMessages.NxdomainWithoutAuthority` it has not. The message of a NODATA
  success is always true.
- A trusted IPv6 prefix shorter than 96 bits that covers the IPv4-mapped range does not trust IPv4 peers, because peers
  are unmapped and the prefix is not (`Addresses.ShortPrefixLosesIPv4`; `::/0` is one, `Addresses.EverythingTrustsNoIPv4`).
  `Addresses.FaithfulExactlyWhen` gives the exact condition.
- Field lines of `Forwarded` that parse on their own may be joined (`Forwarded.AcceptedLinesJoin`). Lines across which a
  quoted value runs may not: they are malformed and their join is accepted (`ForwardedPrint.QuotedAcrossLines`).

## Model

| member | source | states |
|---|---|---|
| TraceEngine.Engine.Trace | backend/internal/trace/engine.go:101-124 | the run from an empty state yields the outcome and hop list of the specification; the status is success exactly for the outcome success |
| TraceEngine.Engine.TraceName | backend/internal/trace/engine.go:161-228 | the loop over depth, mutating the shared state, leaves exactly the specified state and outcome, for every network and every state within budget |
| TraceEngine.Engine.QueryCandidates | backend/internal/trace/engine.go:230-325 | the candidate loop with its budget, policy, loop, timeout and error branches leaves the specified state and returns the specified hop, candidates, alias and error |
| TraceEngine.Engine.Respond | backend/internal/trace/engine.go:261-316 | what a response becomes: error, CNAME, answer, NODATA, referral, or unusable |
| TraceEngine.Engine.SendQuery | backend/internal/trace/engine.go:247-249 | one exchange marks its key, spends one query and is recorded |
| TraceEngine.Engine.NextCandidatesForReferral | backend/internal/trace/engine.go:327-367 | glue first, support lookups only when no usable glue remains; candidates and next targets correspond one to one |
| TraceEngine.Engine.SupportCandidates | backend/internal/trace/engine.go:350-362 | a support lookup for every nameserver in turn, skipping those that fail |
| TraceEngine.Engine.ResolveNameServerAddresses | backend/internal/trace/engine.go:369-391 | A before AAAA, stopping at the first type with addresses, which are read from the support hops and listed once each |
| TraceLedger.TraceKeeps | backend/internal/trace/engine.go:161-175 | every lookup, nested or not, keeps the ledger from any state that has it: counter, log and visited set agree, no key is exchanged twice, every LOOP hop repeats an earlier key |
| TraceLedger.RunIsBalanced | backend/internal/trace/engine.go:168-172 | at the end of a run queries, exchanges and visited keys are equally many and within the budget, and no two exchanges agree in address, name, type and purpose; each brought the reply over TCP if the one over UDP was truncated and the one over UDP otherwise, and the messages sent are the queries and as many more as were truncated |
| TraceWire.HopsReportTheWire | backend/internal/trace/engine.go:393-416 | every hop with a response code reports what one query brought, the reply over TCP, marked TCP and truncated, exactly when that query's reply over UDP was truncated |
| TraceLoops.JoinedKeyInjective | backend/internal/trace/engine.go:242 | the bar-joined key determines its four parts even when the name contains bars |
| TraceLoops.LoopHopsRepeat | backend/internal/trace/engine.go:243-246 | a LOOP hop appears only for a question that was put to the same address, for the same purpose, earlier in the run |
| TraceProvenance.NothingInvented | backend/internal/trace/engine.go:327-391 | every address queried is allowed, and is a root's or was named by an earlier response as glue of its nameserver or as the answer of an earlier support hop, with the resolver's endpoint; every hop with a response code reports a logged response unchanged |
| TraceProvenance.LearnedIsBarFree | backend/internal/trace/engine.go:444-459 | addresses learned during a run are address text, without a bar |
| TraceFrames.TraceIsAPath | backend/internal/trace/engine.go:176-203 | with an allowed root the hop list is one path from the roots with support lookups nested in it, and this holds at every level of nesting: a referral is followed by a query to one of its next targets, a CNAME by a query for the first alias to a root, and any other hop ends its lookup; the kind of each hop fits its code and sets; a referral's next targets are all its allowed glue, or else all allowed addresses that the support lookups before it found |
| TraceIndex.IndexLaw | backend/internal/trace/engine.go:262 | Index is at most the position, the gap is filled exactly by the hop's own support lookups, ParentIndex is at most Index, and Index is the position throughout without support hops |
| TraceIndex.ReferralIsComplete | backend/internal/trace/engine.go:327-391 | a hop anywhere in a run that reports a NOERROR response without an answer, alias or NODATA lists exactly the allowed glue of the nameservers it shows, name by name in record order; if there is none, exactly the allowed addresses found by the support lookups that fill the gap before it, name by name: all A data of the hops that answer, once each, or the AAAA data if there is no A data; it is a referral exactly if it lists any |
| TraceFrames.SupportQuestion | backend/internal/trace/engine.go:372 | a support lookup asks the roots for the nameserver's name with a single dot behind it, whether or not it came with one |
| TraceIndex.GatheredMeaning | backend/internal/trace/engine.go:376-383 | the addresses found are exactly the data of the asked type in the answer hops of that referral's support lookups for that nameserver |
| TraceIndex.AllowedTargetsMeaning | backend/internal/trace/engine.go:355-361 | the targets made of some addresses are exactly those that the policy allows |
| TraceIndex.KindsFit | backend/internal/trace/engine.go:262-316 | the kind of every hop of a run is what its own code and sets say: answer exactly with a set of the asked name and type, CNAME with an alias and no such set, NODATA exactly with the authority bit, no answer and an SOA set, error for every other code and for hops without a response |
| TraceIndex.SupportMeansNoGlue | backend/internal/trace/engine.go:347-350 | a hop anywhere in a run has support lookups only if it reports a NOERROR response that does not answer, names nameservers and has no glue for them that the policy allows |
| TraceIndex.SupportHopsCollide | backend/internal/trace/engine.go:305 | once there is a support hop, some top-level hop shares its Index with a hop that is its own parent |
| TraceBound.HopsAreBounded | backend/internal/trace/engine.go:350-372 | against any responder that names at most K distinct nameservers per reply, a run with Q queries has at most Q(1+2K)+1 hops |
| TraceOutcome.OutcomeAgreesWithEvidence | backend/internal/trace/engine.go:176-227 | the outcome kind is determined by the last hop when that reports a response code or LOOP, success exactly on answer or NODATA, nxdomain, refused, not_implemented and loop_detected exactly on those codes; for TIMEOUT, ERROR and no code it is one of two or three kinds; the outcome's code is the last hop's, except for max_depth, and TerminalHopIndex is its Index |
| TraceOutcome.MoveAgrees | backend/internal/trace/engine.go:177-203 | the loop goes on only from NOERROR referrals and CNAMEs; the fallbacks for other hops are never taken |
| TraceOutcome.FirstAnswerIsUsed | backend/internal/trace/engine.go:234-265 | a response that is used came from the first candidate that answered, and the hop's role goes by that candidate's zone; everyone before it was blocked, or asked in vain |
| TraceCalls.CallEnds | backend/internal/trace/engine.go:234-324 | the candidate loop ends at the first candidate that is not blocked, late or lost, and fails, repeats or answers as that candidate's fate says, which policy, network and the earlier lookups determine |
| TraceCalls.TimeoutExactlyWhen | backend/internal/trace/engine.go:250-259 | a call fails with the timeout error exactly when the loop runs through all candidates and the last one misses its deadline |
| TraceCalls.TimeoutMeansLast | backend/internal/trace/engine.go:250-259 | the last exchange of such a call was with the last candidate |
| TraceCalls.TimeoutIsAllExactlyWhen | backend/internal/trace/engine.go:318-324 | on a timeout every candidate was asked and missed its deadline exactly when the policy allows every candidate and the network breaks no exchange with any |
| TraceOutcome.QueryIsDecided | backend/internal/trace/engine.go:204-225 | without a response: timeout, servfail or unusable_referral exactly when all candidates were gone by and the last was late, lost or blocked (or there was none), max_depth exactly when the budget ran out in between, loop_detected exactly on a repeated lookup; with one: what code and kind of the hop say |
| TraceOutcome.RunIsDecided | backend/internal/trace/engine.go:168-228 | every run has a last turn, reached from its first one by the turns before it; there it is cut short, with MAX_DEPTH after exactly the allowed number of turns and with BUDGET when no query is left, or its outcome is decided as above by the call of that turn |
| TraceMessages.TimeoutIsTrueExactlyWhen | backend/internal/trace/engine.go:204-205 | on a run that ends with timeout, all candidates of the last turn were asked and missed their deadlines exactly when the policy allows them all and the network breaks no exchange with any |
| TraceMessages.TimeoutIsNotAll | backend/internal/trace/engine.go:204-205 | a run that ends with timeout although one of its two candidates was never asked |
| TraceMessages.TurnsContinue | backend/internal/trace/engine.go:182-200 | every turn of a lookup but the first asks all next targets of the referral before it, in their order and at the resolver's endpoints, or the roots for the first alias of the CNAME hop before it |
| TraceMessages.ReferralExactlyWhen | backend/internal/trace/engine.go:277 | the hop of a call has an NS set in its authority section exactly when the candidate at which the call ends, decided by policy and network, answers with a response that names nameservers |
| TraceMessages.UnusableIsReferralExactlyWhen | backend/internal/trace/engine.go:210-211 | on a run that ends with unusable_referral, the last hop reports a referral exactly when the last call ends with an answer that names nameservers; a call without an answer ends so only when it asks the roots and the last of them is blocked, or there is none |
| TraceMessages.UnusableWithoutReferral | backend/internal/trace/engine.go:210-211 | a run that ends with unusable_referral although its only exchange missed its deadline |
| TraceMessages.UnusableAfterEmptyReply | backend/internal/trace/engine.go:313-316 | a run that ends with unusable_referral after an empty response |
| TraceMessages.MaxDepthIsDepthExactlyWhen | backend/internal/trace/engine.go:208-227 | on a run that ends with max_depth and code MAX_DEPTH, the lookup has as many hops of its own as the depth allows and would go on from the last, exactly when the last call does not stop for lack of budget |
| TraceMessages.DepthMeansBudget | backend/internal/trace/engine.go:208-209 | a run that ends with max_depth and code MAX_DEPTH after one of nine hops, its query budget being used up |
| TraceMessages.AnswerIsAuthoritativeExactlyWhen | backend/internal/trace/engine.go:178-215 | on a run that ends with success or nxdomain, the last hop is authoritative exactly when the last call ends with an answer that has the authority bit; a NODATA hop always is |
| TraceMessages.SuccessWithoutAuthority | backend/internal/trace/engine.go:179-180 | a run that ends with success on an answer without the authority bit |
| TraceMessages.NxdomainWithoutAuthority | backend/internal/trace/engine.go:214-215 | a run that ends with nxdomain on a response without the authority bit |
| TraceOutcome.FinalRoleMeaning | backend/internal/trace/engine.go:525-542 | outside support lookups and aliases that are found, role final marks exactly the hops that can end a lookup with a result or an error code |
| TraceOutcome.RoleExactlyWhen | backend/internal/trace/engine.go:525-542 | role alias marks exactly the aliases found while following one, and support lookups have role authoritative; any other response that leads on has role root exactly if the zone is the root, tld exactly if it is a single label, with or without its dot, and authoritative otherwise |
| TraceOutcome.LabelsAreCounted | backend/internal/trace/engine.go:649-655 | a name made of n labels is counted to have n, with or without its last dot |
| ZoneTree.WalkIsResolve | backend/internal/trace/engine.go:168-203 | looking a name up zone by zone agrees with the direct lookup in the tree (sections 3.6.2 and 5.3.3 of RFC 1034) |
| ZoneTrace.ResolutionIsCorrect | backend/internal/trace/engine.go:161-416 | against the servers of a zone tree, which answer over UDP or over TCP after a truncated reply, with an allowed server below every cut, with glue or with a nameserver that the tree resolves, a trace whose steps fit both limits ends with the records, NODATA or NXDOMAIN of the direct lookup, in exactly as many hops and queries as that takes with the lookups of the nameservers without glue |
| ZoneExample.GluelessIsResolved | backend/internal/trace/engine.go:350-391 | a network that meets those conditions with a cut that has no glue: the run makes one support lookup and ends with the child zone's address after three queries |
| Rrsets.RrsetsFromSection | backend/internal/trace/engine.go:418-442 | the map and order loop computes the specified grouping |
| Rrsets.StablePartition | backend/internal/trace/engine.go:418-442 | sets have distinct keys in first-seen order, each with the TTL of its first record and exactly its records' data in order, and no record is lost or doubled |
| Rrsets.KeyTextInjective | backend/internal/trace/engine.go:423 | the grouping key determines name and type even when the name contains bars |
| Rrsets.FirstAliasIsCNAME | backend/internal/trace/engine.go:470-478 | the alias of a name can be read off the sets: the first text of the first CNAME set of the name is the target of its first CNAME record |
| Rrsets.NsSetsMeaning | backend/internal/trace/engine.go:492-501 | the nameservers of a section are exactly the texts of its NS sets |
| Dns.NsTargetsLoop | backend/internal/trace/engine.go:492-501 | the loop lists the distinct nameserver names in first-seen order |
| Dns.NsTargetsMeaning | backend/internal/trace/engine.go:492-501 | the names listed are exactly the targets of the NS records |
| Dns.GlueAddrs | backend/internal/trace/engine.go:503-514 | the map holds, for exactly the names that own address records, their addresses in order |
| Dns.GlueForMeaning | backend/internal/trace/engine.go:503-514 | an address is glue of a name exactly when an A or AAAA record of that name carries it |
| Dns.FirstCNAMEMeaning | backend/internal/trace/engine.go:470-478 | the alias is the target of the first CNAME record owned by the name, whatever its case, and empty when there is none |
| Dns.ReferralZoneMeaning | backend/internal/trace/engine.go:516-523 | the zone of a referral is the owner of its first NS record, and the root when it has none |
| Text.UniqueStrings | backend/internal/trace/engine.go:622-633 | the loop with its seen set keeps each value once |
| Text.FirstSeenOrder | backend/internal/trace/engine.go:622-633 | the values kept are in the order of their first occurrences |
| Text.EqualFoldExactlyWhen | backend/internal/trace/engine.go:461-468 | two names are equal up to case exactly when they have the same length and each pair of characters is the same or the two cases of one ASCII letter |
| Text.FqdnMeaning | backend/internal/trace/engine.go:635-640 | the qualified form ends in a dot, which is added exactly when the text has none |
| HeaderText.SplitIgnoringQuotes | backend/internal/httpapi/clientid.go:327-358 | the loop with its two flags splits as the quote automaton does |
| HeaderText.SplitOfJoin | backend/internal/httpapi/clientid.go:327-358 | splitting undoes joining for parts without a separator of their own that end outside quotes |
| HeaderText.JoinOfSplit | backend/internal/httpapi/clientid.go:327-358 | joining undoes splitting for every text |
| HeaderText.PlainOfJoin | backend/internal/httpapi/clientid.go:189-190 | splitting without regard to quotes undoes joining for parts without the separator |
| HeaderText.JoinOfPlain | backend/internal/httpapi/clientid.go:189-190 | joining undoes it for every text, it gives at least one part, and no part contains the separator |
| HeaderText.TrimMeaning | backend/internal/httpapi/clientid.go:191 | trimming takes away exactly the spaces before and behind a text that has none at its ends |
| HeaderText.SpaceExactlyWhen | backend/internal/httpapi/clientid.go:191 | the spaces taken away are the six of ASCII, codes 9 to 13 and 32 |
| HeaderText.TcharExactlyWhen | backend/internal/httpapi/clientid.go:285-291 | the characters of a token are exactly the visible ASCII characters that are no delimiters (section 5.6.2 of RFC 9110) |
| QuotedText.ParseQuotedString | backend/internal/httpapi/clientid.go:293-325 | the loop with its escaped and closed flags computes the specified parse |
| QuotedText.ParseQuotedExactlyWhen | backend/internal/httpapi/clientid.go:293-325 | a text is accepted with a value exactly when it is a quoted string that writes that value (section 5.6.4 of RFC 9110) |
| QuotedText.QuoteRoundTrip | backend/internal/httpapi/clientid.go:293-325 | every text, escaped and quoted, is parsed back |
| QuotedText.ParseForwardedElement | backend/internal/httpapi/clientid.go:227-258 | the loop with its seen set accepts exactly elements whose parameters all parse, have distinct keys and include for, and yields that value |
| QuotedText.ElementEndsOutside | backend/internal/httpapi/clientid.go:227-271 | an accepted element leaves the quote automaton outside quotes |
| QuotedText.PairExactlyWhen | backend/internal/httpapi/clientid.go:236-248 | a parameter is read as a key and a value exactly when it is a token, an equals sign and a text that writes the value, cut at the first equals sign |
| Forwarded.IPHopExactlyWhen | backend/internal/httpapi/clientid.go:360-389 | a text is read as an address exactly when, trimmed, it is not empty, unknown, obfuscated or quoted and writes, in brackets, before a port or on its own, a host that is that address, unmapped |
| Forwarded.BracketedHop | backend/internal/httpapi/clientid.go:365-376 | a bracketed host is read with or without a port, and rejected with anything else behind it |
| Forwarded.ParseForwardedForAddrs | backend/internal/httpapi/clientid.go:205-225 | the nested loops yield all hops in order, or nothing when any part is malformed |
| Forwarded.ParseXForwardedForAddrs | backend/internal/httpapi/clientid.go:187-203 | the same for X-Forwarded-For |
| Forwarded.AcceptedLinesJoin | backend/internal/httpapi/clientid.go:205-225 | Forwarded lines that parse on their own parse to the same hops when joined by a comma (section 5.3 of RFC 9110) |
| Forwarded.ForwardedJoinsExactlyWhen | backend/internal/httpapi/clientid.go:205-225 | for all lines: balanced ones agree with their join, unbalanced ones are malformed; an accepted join agrees with its lines exactly when they are balanced |
| Forwarded.XForwardedForJoins | backend/internal/httpapi/clientid.go:187-203 | X-Forwarded-For lines and their join agree for all inputs |
| Forwarded.TextsRoundTrip | backend/internal/httpapi/clientid.go:187-203 | a line joined from texts without commas gives one hop for each text, in order, and is malformed exactly when one of them is no address |
| Forwarded.LinesInFront | backend/internal/httpapi/clientid.go:205-225 | further lines in front put their hops in front, or make the header malformed |
| ForwardedPrint.ParamRoundTrip | backend/internal/httpapi/clientid.go:236-248 | a printed parameter is cut and unquoted into its lower-case key and its value |
| ForwardedPrint.ElementRoundTrip | backend/internal/httpapi/clientid.go:227-258 | a printed element parses to the value of its for parameter, whatever its values contain |
| ForwardedPrint.LineRoundTrip | backend/internal/httpapi/clientid.go:205-271 | a printed list of elements comes back as exactly its for values in order, each read as a hop (section 4 of RFC 7239) |
| ForwardedPrint.EscapedIsGood | backend/internal/httpapi/clientid.go:306-319 | every non-empty value can be printed, with quotes and backslashes escaped |
| ForwardedPrint.QuotedAcrossLines | backend/internal/httpapi/clientid.go:205-225 | a quoted value that runs across two lines: the lines are malformed, their join is accepted |
| Addresses.ClampsNeverFire | backend/internal/httpapi/clientid.go:57-72 | a masked IPv4-mapped prefix has at least 96 bits, so neither clamp changes the result |
| Addresses.UnmappedKeepsRange | backend/internal/httpapi/clientid.go:57-62 | a prefix that is not IPv4-mapped keeps, when canonicalised, exactly its addresses: the range of values that share its leading bits |
| Addresses.TrustedExactlyWhen | backend/internal/httpapi/clientid.go:174-185 | an address is trusted exactly when, unmapped, it lies in the range of some member of the list, IPv4 in an IPv4 range or in the mapped part of a long enough IPv6 one |
| Addresses.MappedMembership | backend/internal/httpapi/clientid.go:57-72 | an IPv4 address lies in the canonical prefix exactly when its mapped form lies in the original (section 2.5.5.2 of RFC 4291) |
| Addresses.FaithfulExactlyWhen | backend/internal/httpapi/clientid.go:57-72 | an IPv6 prefix keeps its meaning for all IPv4 addresses exactly when it is not a short prefix over the mapped range |
| Addresses.ShortPrefixLosesIPv4 | backend/internal/httpapi/clientid.go:174-185 | a short prefix over the mapped range contains every mapped address and trusts none of them, mapped or not |
| Addresses.EverythingTrustsNoIPv4 | backend/internal/httpapi/clientid.go:174-185 | ::/0 is such a prefix |
| Addresses.CanonicalizeIdempotent | backend/internal/httpapi/clientid.go:57-72 | canonicalising twice is canonicalising once |
| Addresses.TrustUnchanged | backend/internal/httpapi/clientid.go:174-185 | canonicalising the configured list in advance changes no verdict |
| Addresses.TrustIgnoresMapping | backend/internal/httpapi/clientid.go:178 | a mapped address is trusted exactly when its IPv4 form is |
| ClientIdentity.IsTrusted | backend/internal/httpapi/clientid.go:174-185 | the loop decides membership in some canonical prefix |
| ClientIdentity.ClientFromTrustedChain | backend/internal/httpapi/clientid.go:162-172 | the loop from the right finds the specified client |
| ClientIdentity.ClientMeaning | backend/internal/httpapi/clientid.go:162-172 | there is a client exactly when a hop is untrusted, and it is the rightmost one |
| ClientIdentity.PrependingChangesNothing | backend/internal/httpapi/clientid.go:162-172 | hops in front of a chain with an untrusted hop change nothing |
| ClientIdentity.ResolveClientIdentity | backend/internal/httpapi/clientid.go:74-142 | address, source and disposition are the specified ones for every request |
| ClientIdentity.PeerKeyExactlyWhen | backend/internal/httpapi/clientid.go:148-160 | the peer's key is the address that the host of the connection writes, and the remote text as it stands when it writes none |
| ClientIdentity.DispositionExactlyWhen | backend/internal/httpapi/clientid.go:74-142 | each disposition has its exact condition on the header lines, the peer and the chains of the two headers |
| ClientIdentity.ClientChoice | backend/internal/httpapi/clientid.go:74-142 | a header is believed exactly when the peer is trusted, both headers are well formed, one names a client and they do not conflict; the address is then the rightmost untrusted hop of the header that Source names, and the peer's key otherwise |
| ClientIdentity.LinesInFrontChangeNothing | backend/internal/httpapi/clientid.go:74-142 | well-formed field lines put in front of a header that names a client change nothing in the identity |
| ClientIdentity.CombinedLinesSameClient | backend/internal/httpapi/clientid.go:94-105 | combining the field lines of both headers changes nothing in the identity |
| ClientIdentity.CanonicalTrustSameClient | backend/internal/httpapi/clientid.go:174-185 | canonicalising the trusted list in advance changes nothing in the identity |
| RateLimiter.Limiters.CleanupLimiters | backend/internal/httpapi/server.go:226-232 | the deleting loop keeps exactly the entries seen within the TTL |
| RateLimiter.Limiters.LimiterForKey | backend/internal/httpapi/server.go:206-224 | cleanup when due, then the key's limiter, seen now |
| RateLimiter.Limiters.Request | backend/internal/httpapi/server.go:141-142 | one request answers and changes the table as specified |
| RateLimiter.EvictionIsUnobservableExactlyWhen | backend/internal/httpapi/server.go:206-232 | every run of requests over all keys gets the answers of a table that never evicts, exactly when burst times interval is at most the TTL and one nanosecond |
| RateLimiter.WindowBound | backend/internal/httpapi/server.go:206-232 | in any window of length T of a run, admissions of one key cost at most burst times interval plus T |
| RateLimiter.AdmittedExactlyWhen | backend/internal/httpapi/server.go:141-142 | a request is admitted exactly when, in every window of the run that ends at it, the key's admissions and one more cost at most burst times interval plus the window's length; so a refused request costs nothing |
| RateLimiter.NoStaleLimiters | backend/internal/httpapi/server.go:206-232 | no entry of the table was last seen twenty minutes or more before the last request |
| RateLimiter.DefaultParams | backend/internal/httpapi/server.go:73-93 | without configuration, five requests and then one every three seconds |
| RateLimiter.ConfiguredParams | backend/internal/httpapi/server.go:73-93 | a configured rate gives an interval of which a minute holds that many, and a configured burst is kept |
| RateLimiter.DefaultsAreSafe | backend/internal/httpapi/server.go:73-93 | with the defaults, and with any rate for bursts up to 15, eviction is unobservable |
| HopForest.ChildrenByParent | frontend/src/lib/presenters.ts:10-19 | the pushing loop lists every parent's children in order |
| HopForest.BoundDoesNotMatter | frontend/src/lib/presenters.ts:31-44 | the modelled recursion gives one result for every bound that is large enough |
| HopForest.TerminatesExactlyWhen | frontend/src/lib/presenters.ts:31-44 | the recursion below an index ends exactly when no cycle of indexes can be reached from it |
| HopForest.GroupingEndsExactlyWhen | frontend/src/lib/presenters.ts:8-29 | grouping a hop list ends exactly when no root reaches a cycle |
| HopForest.ForestFlattening | frontend/src/lib/presenters.ts:8-44 | for unique indexes and parents below their children, grouping ends, shows every hop exactly once, lists the roots by index, and each group is in preorder with siblings by index and depth as distance |
| TraceView.GroupingEndsExactlyWithoutSupport | frontend/src/lib/presenters.ts:31-44 | on the engine's own hop lists, with an allowed root, grouping ends exactly when no support hop exists |
| TraceView.GluelessReferralNeverEnds | backend/internal/trace/engine.go:305 | a first referral without usable glue, and a budget of two queries, always give a hop list on which grouping never ends |
| RecentTraces.RecentIsNewest | frontend/src/lib/storage/recentTraces.ts:25-39 | after any run of saves from empty, failed ones included, the list is the first ten of the successful history, newest first, each domain and type once |
| RecentTraces.DedupMeaning | frontend/src/lib/storage/recentTraces.ts:29-31 | an entry is listed exactly when nothing newer has its domain and type |
| RecentTraces.RecentMeaning | frontend/src/lib/storage/recentTraces.ts:25-39 | after any run of saves the list has as many entries as pairs of domain and type were saved, at most ten; each is the latest of its pair, they are in the order of these saves, and whatever is missing is older than all of them |
| RecentTraces.TruncateEarly | frontend/src/lib/storage/recentTraces.ts:32 | truncating before removing loses no entry that should be present |

## Left out

- Sockets, the DNS client, contexts and cancellation: an exchange is what the oracle says; only the retry over TCP after a truncated reply and the number of messages remain.
- Latencies, timestamps, trace identifiers, explanation and note texts, summary headline and details, truth notes: no property rests on them.
- The empty-slice normalisation of hops before they are appended: nil and empty slices are one value here.
- The tables of the destination and domain policies: an arbitrary predicate on addresses; the name is any text, the type A, AAAA or NS.
- A response code or record type that the DNS library cannot name: codes keep their number here, and unknown types share the empty mnemonic.
- The text form of records other than A, AAAA, NS and CNAME: uninterpreted text. The text of A and AAAA records is only assumed to have no bar.
- Non-positive limits: depth and query limits are natural numbers; results on the last hop assume they are positive.
- Concurrent traces: each run has its own state, and the engine's configuration is never written.
- TraceFrames.TraceIsAPath: assumes an allowed root; with every root blocked the program appends a blank hop.
- TraceIndex.ReferralIsComplete: assumes an allowed root, as do TraceIndex.KindsFit and the other statements on the hop list that rest on TraceIsAPath.
- TraceLoops.LoopHopsRepeat: assumes that root addresses contain no bar, as addresses do.
- ZoneTrace.ResolutionIsCorrect: a zone without glue has one nameserver name, with A records that can be reached with glue all the way from the root, and no such name is met twice on the way (its second lookup would repeat the first one's questions); names are looked up for one type.
- Non-ASCII header bytes: trimming and case folding are those of ASCII.
- netip.ParseAddr and net.SplitHostPort: arbitrary functions; parsed addresses are valid.
- Invalid and zoned prefixes: a trusted prefix is valid and has no zone, as netip.ParsePrefix yields it. Reading the configured list itself (ParseTrustedProxyCIDRs) is not modelled.
- ClientIdentity.CombinedLinesSameClient: assumes balanced Forwarded lines, for the reason ForwardedPrint.QuotedAcrossLines shows.
- The floating-point tokens of the rate library: tokens are counted in whole nanoseconds of refill. limiterFor and Allow happen at one time, and the clock never goes back.
- RateLimiter.EvictionIsUnobservableExactlyWhen: assumes a burst of at least one; NewServer turns zero into five, and negative values are not modelled.
- HTTP routing, JSON decoding, the concurrency semaphore, logging, key hashing and static files.
- HopForest.Flatten: carries a bound on its depth, since the program's recursion need not end (HopForest.BoundDoesNotMatter).
- The in-place pushes into children lists: the map holds values, and no list is shared.
- Writing recent traces to local storage: a boolean says whether it succeeds. Loading and clearing them are not modelled.
