# PJLIB-UTIL, modelled and proved in Dafny

This project models PJLIB-UTIL, the utility library below the PJSIP stack: its caching
asynchronous DNS resolver, its getopt, its DNS wire format, its XML reader and writer, its
checksums and hashes, its choice among SRV records, base64 and percent escaping. Every piece
is there twice: as the source runs it (classes with fields, arrays written in place, loops),
and as functions that say what is to come out. The methods are proved to compute the
functions, and what the library promises is proved about the functions, for all inputs and
all runs.

`dafny verify dfyconfig.toml` checks the whole project.

## What is proved

**The resolver** (`resolver_*.dfy`, `nameservers.dfy`, `dns_packet.dfy`). The state is what
resolver.c keeps: query nodes, the free list, the two indexes of pending queries by id and by
key, the response cache and the nameserver table. Each section that runs under the mutex is
one step; a handler that calls the application is a step that opens a *drain*, one step for
each callback, and a step that closes it, so that anything may happen between two callbacks.
Over every run of these steps each accepted request is at every moment answered, cancelled in
silence, or waiting in exactly one node; it is called back at most once, but for the
cancellations that are notified after the callback (`resolver_late.dfy`). The cache is
proved a refinement of a log that forgets nothing. History variables (who was accepted, called
back, silenced; the log of cache updates; the age of ids) are part of the state but decide
nothing. `DnsResolver` is the object that is updated in place; each of its methods is proved
to make exactly the specified step, and `resolver_effects.dfy` tells the effects of each step
from the state before it, the times and the packet at hand.

**getopt** (`getopt_scan.dfy`, `getopt.dfy`, `getopt_arguments.dfy`, `getopt_rescan.dfy`,
`getopt_calls.dfy`). A scan from left to right that never moves an argument is the reference;
what it reports of each kind of argument is told from the argument's text. The parser with its
persistent indexes, its block exchanges and its partial options is proved to report the same
events, call by call, in each of its three orderings, and to leave argv as a stable partition.

**DNS packets** (`dns_names.dfy`, `dns_wire.dfy`, `dns_printer.dfy`, `dns_parser.dfy`,
`dns_bytes.dfy`, `dns_copy.dfy`, `dns_roundtrip.dfy`, `dns_stops.dfy`, `dns_bounds.dfy`,
`dns_behind.dfy`). The printer with its table of names already printed, and the parser of two
passes that follows compression pointers (sections 3.1 and 4.1.4 of RFC 1035). The parser reads
exactly what the bytes say, field by field. Whatever is printed is parsed; the exact condition
under which all names come back is proved. So are the sizes with which a packet is printed and
those with which it overruns them. What lies in memory behind the packet is arbitrary: the parser
reads the ends of records behind it, and questions without any test. How far it looks is proved
and, from the bytes of the packet, when what it finds there matters to the result.

**XML** (`xml_text.dfy`, `xml_grammar.dfy`, `xml_roundtrip.dfy`, `xml_markup.dfy`, `scanner.dfy`,
`xml.dfy`). The parser reads exactly the texts of a concrete syntax, as their trees. Parser and
printer are inverse on exactly the trees that have the shape of a parsed tree, whose
attributes survive printing and whose names are no markup, at every depth. For the other names
that is seen by counting.

**CRC-32** (`crc_table.dfy`, `crc32.dfy`). The table form that works word by word and the
bitwise form compute the same division, for every message, alignment and cutting; short bursts
of errors are always detected.

**MD5, SHA-1, HMAC** (`hash_core.dfy`, `hash_bytes.dfy`, `md5.dfy`, `sha1.dfy`, `hmac.dfy`). The
buffered, streamed forms equal the compression function, which is a parameter, folded over the
padded message; padding, byte orders and initial states are those of the standards.

**SRV, base64, escaping** (`srv.dfy`, `base64.dfy`, `escape.dfy`). The election by priority
and weight, with the number of draws that elect an entry; encodings and their inverses with
the exact conditions.

`bytes.dfy`, `wrappers.dfy`, `sequences.dfy` and `buffers.dfy` hold octets, options,
concatenation and the writing of a piece into the middle of a buffer.

## What the code does not do

Where a property fails, the code is kept as it is; there is an input that shows it, and the
exact condition is proved:

- A response or timeout that is being told to the applications leaves its query open to a
  notified cancellation, which calls the same callback again (`NotifiedTwice`,
  `CalledBackTwice`, `HeardTwice`). That is all that such a cancellation does (`LateCallsAreExtra`).
- An id is handed out without a look at whether a query still holds it
  (`ReusedIdBreaksTheIndex`; `IdComesRound` is a run to such a state, and `YoungRunsAreRuns`
  says when there is none).
- A notified cancellation calls a null pointer when the query was started without a callback or
  cancelled before (`CallbackIsGone`, `StartedWith`, `NullIsCalled`).
- pj_dns_resolver_add_entry keeps the lock when a name is too long (`AddEntry`, `LockIsKept`).
- pj_dns_make_query accepts a buffer up to two bytes too short (`RoomIsShort`).
- The DNS printer does not take the type and class of a query off the room that is left, and
  overruns the size it is told, also before it returns -1 (`PrintedOverrun`,
  `AbandonedOverrun`, with `TwoQuestionsOverrun` and `ThreeQuestionsOverrun`).
- It compares names with bytes already printed, in which a length stands where the dot was: two
  different host names may be taken for one (`RoundTrip`, `MistakenName`).
- The DNS parser reads questions and the ends of records behind the packet (`BehindMatters`,
  `QuestionBehind`), and names for records that begin there (`BehindMattersToErrors`,
  `AnswerBehind`).
- The XML printer writes " />" without a size test, and returns a length or, when the parent
  does not fit, -1 (`OverrunExactly`, with `OverrunByThree` and `OverrunThenFailure`). Its
  documentation promises -1 when the buffer is too small; with a prolog it returns 39
  (`FailureLooksLikeLength`).
- SHA-1 may count a carry too many for a piece of 2^29 bytes or more (`CountedRight`,
  `HalfGigabyte`).
- The base64 decoder says that it ignores invalid characters; behind the last valid one they
  add a byte, a newline behind the padding for instance (`JunkAtTheEnd`,
  `NewlineAfterPadding`), and its last assertion fails on a buffer that its own test accepts
  (`AssertionFailsExactly`, `OneByteFails`).
- Unescaping does not take back escaping when "%" is unreserved: always for the copying
  form, and together with a hexadecimal digit for the other (`RawUnescapeInvertsAll`,
  `UnescapeInvertsAll`).
- Only the first call of getopt skips the "+" or "-" that chooses the ordering: later calls take
  it for an option and do not see a ":" behind it (`FirstCallOnly`, with `ColonIsForgotten` and
  `PrefixIsTaken`).
- A node whose name starts with "?" or "!" is printed as an instruction or a comment, and never
  comes back from a document (`AnyRoundTrip`, `MarkupIsNoNode`).
- A second scan by getopt of the arguments it has permuted may find an argument for an option
  that had none (`Rescan`, `SecondScanDiffers`).

## Model

| member | source | states |
|---|---|---|
| DnsPacket.Dup | Streaming-Demo-/pjlib-util/src/pjlib-util/dns.c:615-692 | a copy has the same header; each section that is kept has the same queries or records in the same order, equal but for letter case in owner names and SRV targets; a section left out is empty |
| DnsPacket.NameTable.Apply | Streaming-Demo-/pjlib-util/src/pjlib-util/dns.c:540-570 | a name is shared with the first equal one of the table up to case, else copied and remembered while the table has fewer than 16 names |
| DnsPacket.SameNameIs | Streaming-Demo-/pjlib-util/src/pjlib-util/dns.c:540-570 | two names are equal to the table exactly when they differ at most in letters that are 32 apart |
| DnsCopy.CopyIsRespelled | Streaming-Demo-/pjlib-util/src/pjlib-util/dns.c:540-692 | every name of a copy is spelled like the one of the first 16 different names that it equals up to letter case, if there is one, and like its original otherwise |
| DnsPacket.DuplicatePacket | Streaming-Demo-/pjlib-util/src/pjlib-util/dns.c:572-692 | the loops over the sections, with one name table for all of them, compute the specified copy |
| Nameservers.Best | Streaming-Demo-/pjlib-util/src/pjlib-util/resolver.c:1008-1024 | the first scan finds the ACTIVE server with the least response time, the first one on ties, and nothing exactly when no server is ACTIVE |
| Nameservers.SelectionIsRight | Streaming-Demo-/pjlib-util/src/pjlib-util/resolver.c:990-1047 | for every table: distinct servers, exactly the best ACTIVE one and all that end PROBING; none exactly when all end BAD; every expired ACTIVE or BAD server is selected and left PROBING |
| ResolverEffects.RefreshIsRight | Streaming-Demo-/pjlib-util/src/pjlib-util/resolver.c:1029-1044 | which state a server has after the second scan, and until when, from its state and expiry before it |
| Nameservers.Visit | Streaming-Demo-/pjlib-util/src/pjlib-util/resolver.c:1029-1044 | one turn of the second scan changes one server only, and says whether it is left PROBING |
| Nameservers.SelectNameservers | Streaming-Demo-/pjlib-util/src/pjlib-util/resolver.c:990-1047 | the two scans over the table in place, writing the server list, select what SelectionIsRight is about, with the state changes it makes |
| Nameservers.RecordSent | Streaming-Demo-/pjlib-util/src/pjlib-util/resolver.c:596-622 | of the servers a query was sent to, those that were not timing a query start to time this one; the others stay |
| Nameservers.ReportIsRight | Streaming-Demo-/pjlib-util/src/pjlib-util/resolver.c:1051-1105 | exactly the first server with the address of the response changes: its state, how long that lasts, and its response time if it was timing this query |
| Nameservers.ReportStatus | Streaming-Demo-/pjlib-util/src/pjlib-util/resolver.c:1051-1105 | the loop over the table in place makes the report that ReportIsRight is about |
| ResolverEffects.ServersAreSet | Streaming-Demo-/pjlib-util/src/pjlib-util/resolver.c:427-468 | the servers that are set are all ACTIVE and due to be probed, with a response time of ten seconds |
| ResolverCache.KeysAgree | Streaming-Demo-/pjlib-util/src/pjlib-util/resolver.c:633-649 | two requests have the same key exactly when type and name up to letter case agree, although the key is a zero-filled field of fixed size |
| ResolverCache.EvictRefines | Streaming-Demo-/pjlib-util/src/pjlib-util/resolver.c:714-761 | a lookup hits exactly what a log that forgets nothing says is fresh, and dropping a stale entry changes no later lookup |
| ResolverCache.PutRefines | Streaming-Demo-/pjlib-util/src/pjlib-util/resolver.c:1109-1198 | saving or clearing an entry keeps the cache a refinement of the log of updates |
| ResolverCache.MinTtl | Streaming-Demo-/pjlib-util/src/pjlib-util/resolver.c:1139-1147 | the least TTL of the answers: below or equal to all, and one of them |
| ResolverRuns.CacheAnswersFromTheLog | Streaming-Demo-/pjlib-util/src/pjlib-util/resolver.c:714-761 | after every run of the resolver a request is answered from the cache exactly when the last update for its key kept a response that has not expired, with that response and its status |
| ResolverCache.CacheHitsExactly | Streaming-Demo-/pjlib-util/src/pjlib-util/resolver.c:1128-1187 | a response is served exactly while it is younger than the configured maximum and than each TTL of its answers, or than the negative TTL if it has none or is an error; one stored without expiry as long as the maximum is not 0 |
| ResolverCache.CachedAnswerIsFaithful | Streaming-Demo-/pjlib-util/src/pjlib-util/resolver.c:1166-1177 | what is served is the response of the last update, equal up to letter case, with its status and without NS and AR sections |
| ResolverEffects.ClosingIsRight | Streaming-Demo-/pjlib-util/src/pjlib-util/resolver.c:1403-1421 | at the end of a handler the response is filed under the key of its query and found again, up to letter case, exactly while its age is below the maximum and every time to live, or below 60 s without an answer or with an error; no other key changes, and none does for a timeout; the nodes of the query and its children are free |
| ResolverEffects.ResponsesAreFiled | Streaming-Demo-/pjlib-util/src/pjlib-util/resolver.c:1330-1421 | in every run, whatever happened between the callbacks, a response that has been told is filed so, and a timeout is not |
| ResolverEffects.InjectionIsRight | Streaming-Demo-/pjlib-util/src/pjlib-util/resolver.c:1454-1496 | a response that is added is refused, or filed under its first answer or question: for its time to live, or for good |
| ResolverRuns.StartOutcome | Streaming-Demo-/pjlib-util/src/pjlib-util/resolver.c:677-812 | type 0, then bad names, then other bad types are refused without a trace; a callback is promised or made only when the status is success; a handle is returned only for a query that is pending; an error leaves both indexes and all outstanding requests as they were |
| ResolverEffects.StartFromCache | Streaming-Demo-/pjlib-util/src/pjlib-util/resolver.c:714-761 | a request that the cache answers is told what is filed, and starts nothing |
| ResolverEffects.StartJoins | Streaming-Demo-/pjlib-util/src/pjlib-util/resolver.c:763-779 | a request for what a pending query asks joins that query as its last child |
| ResolverEffects.StartsNew | Streaming-Demo-/pjlib-util/src/pjlib-util/resolver.c:781-812 | any other acceptable request takes a node and an id and is sent, or ends with the error of the transmission and leaves both indexes as they were |
| ResolverEffects.IdIsTaken | Streaming-Demo-/pjlib-util/src/pjlib-util/resolver.c:714-790 | an id is taken exactly by an accepted request that the cache does not answer and no pending query asks; the next one is one higher, and 1 behind 65535 |
| ResolverEffects.StartRefused | Streaming-Demo-/pjlib-util/src/pjlib-util/resolver.c:690-702 | type 0, then bad names, then other bad types are refused without a trace |
| ResolverRuns.TransmitOutcome | Streaming-Demo-/pjlib-util/src/pjlib-util/resolver.c:553-627 | exactly when each error is returned: no nameserver, every nameserver ends BAD, or the timer cannot be scheduled; a query is counted as sent exactly otherwise |
| ResolverEffects.TransmitEffects | Streaming-Demo-/pjlib-util/src/pjlib-util/resolver.c:553-627 | each error of a transmission and its exact cause, and each server and the query after it |
| ResolverRuns.EveryRequestIsAccountedFor | Streaming-Demo-/pjlib-util/src/pjlib-util/resolver.c:677-835 | over every run of start, cancel, timer, response, callback, cache and nameserver steps in which ids are free when they are handed out and cancellations are notified before the callback: at most one callback for each request; accepted = answered + silenced + outstanding; outstanding requests are exactly those of the nodes whose callback lies ahead |
| ResolverLate.AccountedForAlways | Streaming-Demo-/pjlib-util/src/pjlib-util/resolver.c:677-835 | over every run in which no query grows too old, or ids are free when they are handed out, whenever cancellations are notified: each accepted request is answered, silenced or outstanding, and only one of these; and of the callbacks of a request all but the first say that it is cancelled |
| ResolverLate.LateCallsAreExtra | Streaming-Demo-/pjlib-util/src/pjlib-util/resolver.c:818-835 | a run in which cancellations are notified late is, state for state, a run in which they are not notified, but for the callbacks they add: one each, to a request that has been answered |
| ResolverRuns.RunInv | Streaming-Demo-/pjlib-util/src/pjlib-util/resolver.c:1202-1446 | the resolver invariant holds after every such run |
| ResolverSafety.StartQueryInv | Streaming-Demo-/pjlib-util/src/pjlib-util/resolver.c:677-812 | starting a query, answered from the cache, as a child, as a new query, refused or failing to be sent, keeps the invariant, as long as an id that is handed out is not in use |
| ResolverSafety.CancelInv | Streaming-Demo-/pjlib-util/src/pjlib-util/resolver.c:818-835 | cancelling a query whose callback lies ahead keeps it |
| ResolverSafety.TimeoutInv | Streaming-Demo-/pjlib-util/src/pjlib-util/resolver.c:1202-1250 | the timer, whether it retransmits, fails to, or gives up, keeps it |
| ResolverSafety.ReceiveInv | Streaming-Demo-/pjlib-util/src/pjlib-util/resolver.c:1330-1383 | a packet, parsed or not, answering a query or none, keeps it |
| ResolverSafety.NotifyInv | Streaming-Demo-/pjlib-util/src/pjlib-util/resolver.c:1385-1401 | each single callback keeps it, so that anything may happen between two |
| ResolverSafety.FinishInv | Streaming-Demo-/pjlib-util/src/pjlib-util/resolver.c:1403-1421 | saving the response and recycling the nodes keeps it |
| ResolverRuns.CancelSparesOthers | Streaming-Demo-/pjlib-util/src/pjlib-util/resolver.c:818-835 | cancelling a query never silences a child of it, nor any other query |
| ResolverRuns.NotifiedTwice | Streaming-Demo-/pjlib-util/src/pjlib-util/resolver.c:818-835 | a notified cancellation calls back for the first time exactly when the query has not been called back yet |
| ResolverRuns.CalledBackTwice | Streaming-Demo-/pjlib-util/src/pjlib-util/resolver.c:1382-1404 | finding: while a response is being told to the applications the lock is free, and for every pending query with a callback a notified cancellation then makes a second callback for the same request |
| ResolverLate.HeardTwice | Streaming-Demo-/pjlib-util/src/pjlib-util/resolver.c:1382-1404 | finding: such a run of four steps, from a new resolver on |
| ResolverNull.CallbackIsGone | Streaming-Demo-/pjlib-util/src/pjlib-util/resolver.c:818-835 | finding: a notified cancellation calls a null pointer exactly when the query had no callback at the beginning of the run, or has been cancelled in it |
| ResolverNull.StartedWith | Streaming-Demo-/pjlib-util/src/pjlib-util/resolver.c:781-812 | a query that is started has a callback exactly when one was given |
| ResolverNull.NullIsCalled | Streaming-Demo-/pjlib-util/src/pjlib-util/resolver.c:818-835 | finding: after one start without a callback a notified cancellation does |
| ResolverRuns.OnePlaceEach | Streaming-Demo-/pjlib-util/src/pjlib-util/resolver.c:763-804 | every node is free, pending, a child of one query or being drained, and only one of these; both indexes hold the same pending queries, one for each id and each key |
| ResolverRuns.IdsAreDistinct | Streaming-Demo-/pjlib-util/src/pjlib-util/resolver.c:787-790 | ids are never 0, and any 65535 consecutive allocations are distinct |
| ResolverRuns.IdsStayFresh | Streaming-Demo-/pjlib-util/src/pjlib-util/resolver.c:787-790 | if no pending query is older than 65534 allocations, the next id is not in use |
| ResolverRuns.YoungRunsAreRuns | Streaming-Demo-/pjlib-util/src/pjlib-util/resolver.c:787-790 | if no pending query ever outlives 65534 later allocations, every id that is handed out is free: nothing need be asked of the starts of a run |
| ResolverRuns.ReusedIdBreaksTheIndex | Streaming-Demo-/pjlib-util/src/pjlib-util/resolver.c:787-804 | finding: registering a query keeps the two indexes in agreement exactly when its id is not in use; the code does not test that |
| ResolverIds.IdComesRound | Streaming-Demo-/pjlib-util/src/pjlib-util/resolver.c:787-804 | finding: a run of 65535 starts, one query sent and 65534 that fail for want of the timer, at whose end the invariant holds and the next id is that of the query still pending |
| ResolverRuns.TransmittedBoundedly | Streaming-Demo-/pjlib-util/src/pjlib-util/resolver.c:1229-1244 | a query pending at both ends of a run was transmitted once for each firing of its timer in between, never more than max(1, qretr_count) times in all; so it is over after that many firings |
| ResolverEffects.FiringIsRight | Streaming-Demo-/pjlib-util/src/pjlib-util/resolver.c:1202-1279 | from any state a run can reach, the timer of a pending query sends it again and leaves it pending, armed and in both indexes exactly when it has been sent fewer times than configured, the timer can be scheduled and a server is left; otherwise it is in neither index, and it and its children are to hear of a timeout without a packet |
| ResolverEffects.FiringAsks | Streaming-Demo-/pjlib-util/src/pjlib-util/resolver.c:553-627 | what that firing makes of each server of the table |
| ResolverEffects.LateFiring | Streaming-Demo-/pjlib-util/src/pjlib-util/resolver.c:1213-1228 | a timer that fires when its query is over changes nothing |
| ResolverEffects.SentUntilTheEnd | Streaming-Demo-/pjlib-util/src/pjlib-util/resolver.c:1202-1279 | in every run, a query that a firing ends has been sent as often as is configured, and at least once, unless it could not be sent again |
| ResolverRuns.TimerIsArmed | Streaming-Demo-/pjlib-util/src/pjlib-util/resolver.c:1373-1376 | the timer of a query that a response matches is always running, as the source asserts |
| ResolverRuns.ResponseReachesTheFamily | Streaming-Demo-/pjlib-util/src/pjlib-util/resolver.c:1385-1401 | a response is told to the query and then to its children in the order they joined, all with the same status and packet |
| ResolverEffects.ReceiptIsRight | Streaming-Demo-/pjlib-util/src/pjlib-util/resolver.c:1330-1383 | a response to a pending query takes it out of both indexes, stops its timer, and is to be told, with the status of its lower four flag bits, to the query and then its children; any other packet changes the servers only |
| ResolverEffects.ReportedServers | Streaming-Demo-/pjlib-util/src/pjlib-util/resolver.c:1051-1105 | the first server with the address of the sender is good or bad, by the status 2, 5 or 9, for the configured time, and its response time is measured when it was timing this id; no other server changes |
| ResolverEffects.NotifyIsRight | Streaming-Demo-/pjlib-util/src/pjlib-util/resolver.c:1385-1401 | the next callback is told the status and packet of its handler, and nothing else changes |
| ResolverEffects.CancelIsRight | Streaming-Demo-/pjlib-util/src/pjlib-util/resolver.c:818-835 | a cancellation clears the callback, calls it once with the status of a cancellation if asked to, and otherwise silences the request |
| Resolver.DnsResolver.constructor | Streaming-Demo-/pjlib-util/src/pjlib-util/resolver.c:241-343 | a new resolver is the initial state, and satisfies the invariant |
| Resolver.DnsResolver.SetNameservers | Streaming-Demo-/pjlib-util/src/pjlib-util/resolver.c:427-468 | none or 16 servers and more are refused without effect; an address that does not parse is an error and leaves no server; else the table is theirs, all ACTIVE and due to be probed |
| Resolver.DnsResolver.AllocQnode | Streaming-Demo-/pjlib-util/src/pjlib-util/resolver.c:521-547 | the oldest free node, cleared, or a new one |
| Resolver.DnsResolver.TransmitQuery | Streaming-Demo-/pjlib-util/src/pjlib-util/resolver.c:553-627 | selection, timer and send, with each error before any later effect |
| Resolver.DnsResolver.StartQuery | Streaming-Demo-/pjlib-util/src/pjlib-util/resolver.c:677-812 | status, handle and whole new state are those of the specified step |
| Resolver.DnsResolver.CancelQuery | Streaming-Demo-/pjlib-util/src/pjlib-util/resolver.c:818-835 | the callback pointer is cleared, and called if asked for; and whether it was a null pointer that was called |
| Resolver.DnsResolver.NotifyApplications | Streaming-Demo-/pjlib-util/src/pjlib-util/resolver.c:1251-1260 | the loop of callbacks makes the drain's callbacks one after the other and keeps the invariant |
| Resolver.DnsResolver.UpdateResCache | Streaming-Demo-/pjlib-util/src/pjlib-util/resolver.c:1109-1198 | the cache entry of the key is replaced or cleared as specified; no other entry changes |
| Resolver.DnsResolver.OnTimeout | Streaming-Demo-/pjlib-util/src/pjlib-util/resolver.c:1202-1279 | the whole timer handler: retransmission, or both indexes cleared, all callbacks made and all nodes recycled |
| Resolver.DnsResolver.ReceivePacket | Streaming-Demo-/pjlib-util/src/pjlib-util/resolver.c:1330-1383 | the packet handler up to where it gives the lock away: status report, timer, both indexes |
| Resolver.DnsResolver.CompleteDrain | Streaming-Demo-/pjlib-util/src/pjlib-util/resolver.c:1385-1421 | the rest of the handler keeps the invariant |
| Resolver.DnsResolver.AddEntry | Streaming-Demo-/pjlib-util/src/pjlib-util/resolver.c:1454-1496 | the checks in their order, then the update under the key of the first answer or question; finding: the lock is still taken at the end exactly when the name is too long |
| ResolverNull.LockIsKept | Streaming-Demo-/pjlib-util/src/pjlib-util/resolver.c:1469-1478 | finding: a response with which the lock is still taken at the end of pj_dns_resolver_add_entry |
| DnsNames.PassesAgree | Streaming-Demo-/pjlib-util/src/pjlib-util/dns.c:118-244 | for every packet and offset the two passes fail with the same error, or the second appends exactly as many bytes as the first counted |
| DnsNames.CyclesAreRefused | Streaming-Demo-/pjlib-util/src/pjlib-util/dns.c:118-244 | a name whose pointers lead back to where they started, after any number of hops, is refused as a bad pointer by both passes |
| DnsNames.DecodeEncoded | Streaming-Demo-/pjlib-util/src/pjlib-util/dns.c:118-244 | an encoded name, wherever it lies in a packet, is read as itself, and its length is the bytes parsed |
| DnsNames.DecodePointer | Streaming-Demo-/pjlib-util/src/pjlib-util/dns.c:130-150 | a compression pointer to an encoded name is read as that name, in two bytes |
| DnsBytes.NameIsRead | Streaming-Demo-/pjlib-util/src/pjlib-util/dns.c:118-244 | a name is read exactly if its labels of at most 191 bytes and at most ten pointers lead to a zero byte; the name is its labels with dots between them, and takes no more of the packet than up to its first pointer |
| DnsBytes.NameIsRefused | Streaming-Demo-/pjlib-util/src/pjlib-util/dns.c:118-244 | any other path of labels and pointers is refused: for a pointer when there are eleven of them or one is out of range, for its size when a label reaches the end |
| DnsBytes.EncodedLabels | Streaming-Demo-/pjlib-util/src/pjlib-util/dns.c:85-98 | a name encoded is each label behind its length, and a zero byte |
| DnsBytes.WellFormedLabels | Streaming-Demo-/pjlib-util/src/pjlib-util/dns.c:85-98 | the names that come back are those of labels of 1 to 191 bytes with one dot between any two |
| DnsBytes.QueryIsRead | Streaming-Demo-/pjlib-util/src/pjlib-util/dns.c:248-285 | a question is read exactly as its name and two bytes each of type and class (section 4.1.2 of RFC 1035) |
| DnsBytes.RecordIsRead | Streaming-Demo-/pjlib-util/src/pjlib-util/dns.c:289-418 | a record is read exactly as its fields: type, class, time to live, length and, by type, an address of 4 or 16 bytes, a name, a service or as many bytes as the length says (sections 3.2 and 4.1.3 of RFC 1035, RFC 3596, RFC 2782) |
| DnsBytes.RecordIsRefused | Streaming-Demo-/pjlib-util/src/pjlib-util/dns.c:289-418 | and refused for its size or its class exactly by the tests of its fields in their order, else for a name in its data |
| DnsBytes.PacketIsRead | Streaming-Demo-/pjlib-util/src/pjlib-util/dns.c:424-533 | a packet is read exactly as its header and the questions and records it counts, each behind the one before |
| DnsBytes.PacketIsRefused | Streaming-Demo-/pjlib-util/src/pjlib-util/dns.c:424-533 | or refused for its size or with the error of the first question or record that is |
| DnsParser.GetNameLen | Streaming-Demo-/pjlib-util/src/pjlib-util/dns.c:118-182 | the recursive walk terminates and computes the specified length, or its error, on every packet |
| DnsParser.CopyName | Streaming-Demo-/pjlib-util/src/pjlib-util/dns.c:188-244 | on a name the first pass accepted the second succeeds and fills exactly the counted bytes |
| DnsParser.ParseName | Streaming-Demo-/pjlib-util/src/pjlib-util/dns.c:256-277 | both passes and the buffer between them |
| DnsParser.ParseQuery | Streaming-Demo-/pjlib-util/src/pjlib-util/dns.c:248-285 | a query as specified, or its error |
| DnsParser.ParseRecord | Streaming-Demo-/pjlib-util/src/pjlib-util/dns.c:289-418 | a resource record as specified, with the tests of size and class in their order |
| DnsParser.ParsePacket | Streaming-Demo-/pjlib-util/src/pjlib-util/dns.c:424-533 | the four loops over the sections read the specified packet, or give its first error |
| DnsBounds.ParserLooksNoFurther | Streaming-Demo-/pjlib-util/src/pjlib-util/dns.c:248-533 | with the same packet and the same first max(18, 6 * qdcount + 2) bytes behind it the parser has the same result: it depends on nothing further behind |
| DnsBehind.BehindMatters | Streaming-Demo-/pjlib-util/src/pjlib-util/dns.c:248-533 | finding: for a packet whose last byte could not begin a pointer, what lies behind it matters to whether it is read, or as what, exactly if with zeros behind it the packet is read to an end behind it; one that is refused with zeros behind it is refused whatever lies there |
| DnsBehind.BehindMattersToErrors | Streaming-Demo-/pjlib-util/src/pjlib-util/dns.c:248-533 | and to the error with which it is refused exactly if, with zeros behind it, a record that begins behind it is refused, and a name there can be refused for its pointer: the packet is shorter than 16 KB, or holds a name that is |
| DnsBehind.AnswerBehind | Streaming-Demo-/pjlib-util/src/pjlib-util/dns.c:289-316 | finding: a header that announces an answer is refused for its size with zeros behind it, and for a pointer with ones |
| DnsBounds.QuestionBehind | Streaming-Demo-/pjlib-util/src/pjlib-util/dns.c:459-474 | finding: a header that announces a question, and a zero behind it, is read as a question made of the four bytes that follow |
| DnsRoundTrip.PrintedPacketReads | Streaming-Demo-/pjlib-util/src/pjlib-util/dns_server.c:358-436 | every packet of well-formed names that is printed successfully within 16 KB is parsed successfully, with the same header, counts and record data; each name is read as itself or as the remembered name it was taken for |
| DnsRoundTrip.RoundTrip | Streaming-Demo-/pjlib-util/src/pjlib-util/dns_server.c:214-273 | finding: the packet comes back exactly when no name is mistaken for a remembered one |
| DnsRoundTrip.HostNamesRoundTrip | Streaming-Demo-/pjlib-util/src/pjlib-util/dns_server.c:358-436 | packets of names with labels of 1 to 44 bytes and bytes from 45 up always come back |
| DnsRoundTrip.MistakenName | Streaming-Demo-/pjlib-util/src/pjlib-util/dns_server.c:232-240 | finding: a question for one host name and an answer about another that the table takes for the first are printed into 512 bytes and read back different |
| DnsRoundTrip.FindIsIndexOf | Streaming-Demo-/pjlib-util/src/pjlib-util/dns_server.c:232-240 | what the table compares by bytes already printed is a comparison of names with a length in place of each dot |
| DnsRoundTrip.MadeQueryReads | Streaming-Demo-/pjlib-util/src/pjlib-util/dns.c:56-112 | a query made by pj_dns_make_query is parsed as its one question, with recursion desired |
| DnsPrinter.PrintName | Streaming-Demo-/pjlib-util/src/pjlib-util/dns_server.c:214-273 | a pointer to the first matching entry, or the encoded labels and a new entry, or -1 when they do not fit; nothing else in the buffer changes |
| DnsBytes.NameIsPrinted | Streaming-Demo-/pjlib-util/src/pjlib-util/dns_server.c:214-273 | a name is printed as a pointer of two bytes to the first remembered name that it matches, or in full, and remembered if there are fewer than 32 |
| DnsBytes.LengthIsPrinted | Streaming-Demo-/pjlib-util/src/pjlib-util/dns_server.c:300-353 | the length field of a printed record counts the bytes behind it |
| DnsPrinter.PrintRr | Streaming-Demo-/pjlib-util/src/pjlib-util/dns_server.c:275-356 | a record of type A, CNAME, NS, PTR or SRV with its length field written last, or -1 |
| DnsPrinter.PrintWholePacket | Streaming-Demo-/pjlib-util/src/pjlib-util/dns_server.c:358-436 | the header and four sections, or -1 with exactly what was written up to the test that failed; what lies behind them in the buffer stays |
| DnsStops.PrintedOverrun | Streaming-Demo-/pjlib-util/src/pjlib-util/dns_server.c:388-403 | finding: from the packet alone, the least size with which it is printed (Room) and its length (Length); it is printed exactly from Room on, and overruns its announced size exactly when Room <= size < Length |
| DnsStops.AbandonedOverrun | Streaming-Demo-/pjlib-util/src/pjlib-util/dns_server.c:214-403 | finding: a print that returns -1 has written behind its announced size exactly when the first test that fails comes after more bytes than that |
| DnsStops.PacketStop | Streaming-Demo-/pjlib-util/src/pjlib-util/dns_server.c:214-436 | the tests of the packet in their order, each with the size it needs and the bytes written before it, decide whether a print succeeds and how much one that fails has written |
| DnsStops.TwoQuestionsOverrun | Streaming-Demo-/pjlib-util/src/pjlib-util/dns_server.c:388-403 | finding: questions for "a" and for "b" are printed into 22 bytes as 26 |
| DnsStops.ThreeQuestionsOverrun | Streaming-Demo-/pjlib-util/src/pjlib-util/dns_server.c:388-403 | finding: with a third question and 24 bytes, -1 is returned when 29 bytes have been written |
| DnsPrinter.EncodedLength | Streaming-Demo-/pjlib-util/src/pjlib-util/dns.c:85-98 | an encoded name is two bytes longer than the name, or one if it is empty or ends in a dot |
| DnsPrinter.RoomIsShort | Streaming-Demo-/pjlib-util/src/pjlib-util/dns.c:69-73 | finding: the size test lets through a buffer one or two bytes too short, and exactly when |
| DnsPrinter.MakeQueryPacket | Streaming-Demo-/pjlib-util/src/pjlib-util/dns.c:56-112 | the errors, or the query at the start of the buffer and its length |
| GetoptScan.MatchIsExactOrUnique | Streaming-Demo-/pjlib-util/src/pjlib-util/getopt.c:478-504 | a long option is found by its full name, the first of that name, or by an abbreviation of it alone; none is found exactly when the name abbreviates none |
| GetoptScan.ScanSplits | Streaming-Demo-/pjlib-util/src/pjlib-util/getopt.c:353-449 | the scan splits the arguments into options (with their arguments and a "--") and operands, both in their original order |
| GetoptScan.SplitsFrom | Streaming-Demo-/pjlib-util/src/pjlib-util/getopt.c:353-449 | so does one whose first call reads the optstring otherwise |
| GetoptScan.MergedCounts | Streaming-Demo-/pjlib-util/src/pjlib-util/getopt.c:353-449 | so the split is a permutation of the arguments |
| GetoptScan.NothingMovesFrom | Streaming-Demo-/pjlib-util/src/pjlib-util/getopt.c:260-295 | in the orderings that "+" and "-" choose no argument is moved |
| GetoptArguments.KindIsTold | Streaming-Demo-/pjlib-util/src/pjlib-util/getopt.c:568-582 | whether a letter takes an argument, from the colons behind its first place in the optstring |
| GetoptArguments.AttachedArgument | Streaming-Demo-/pjlib-util/src/pjlib-util/getopt.c:683-729 | "-oarg" reports the letter with exactly the text behind it, whether the argument is needed or optional |
| GetoptArguments.SeparateArgument | Streaming-Demo-/pjlib-util/src/pjlib-util/getopt.c:700-729 | "-o arg" reports the letter with exactly the next argument, when it needs one, and takes both |
| GetoptArguments.BothForms | Streaming-Demo-/pjlib-util/src/pjlib-util/getopt.c:683-729 | so both report the same events |
| GetoptArguments.NoArgument | Streaming-Demo-/pjlib-util/src/pjlib-util/getopt.c:571-729 | a last letter that lacks its argument, or is unknown, is a fault; one that may do without has none |
| GetoptArguments.Cluster | Streaming-Demo-/pjlib-util/src/pjlib-util/getopt.c:568-592 | "-abc" reports one event for each letter, in their order, and then what follows |
| GetoptArguments.LongWithValue | Streaming-Demo-/pjlib-util/src/pjlib-util/getopt.c:505-566 | "--name=value" reports exactly value for an option that may have one, and a fault for one that may not |
| GetoptArguments.LongAlone | Streaming-Demo-/pjlib-util/src/pjlib-util/getopt.c:505-566 | "--name" takes the next argument exactly when it needs one |
| GetoptArguments.BothLongForms | Streaming-Demo-/pjlib-util/src/pjlib-util/getopt.c:505-566 | so both forms of a needed argument report the same events |
| GetoptArguments.LongUnknown | Streaming-Demo-/pjlib-util/src/pjlib-util/getopt.c:505-566 | a name of no option, or of several, is a fault |
| GetoptArguments.DashesEnd | Streaming-Demo-/pjlib-util/src/pjlib-util/getopt.c:409-427 | behind "--" there are only operands |
| GetoptArguments.OperandRead | Streaming-Demo-/pjlib-util/src/pjlib-util/getopt.c:374-449 | an operand is passed over, ends the scan or is reported, by the ordering |
| GetoptArguments.NoArguments | Streaming-Demo-/pjlib-util/src/pjlib-util/getopt.c:374-408 | a scan of nothing reports nothing |
| GetoptCalls.FirstCallOnly | Streaming-Demo-/pjlib-util/src/pjlib-util/getopt.c:353-364 | finding: only the first call skips the "+" or "-"; a scan finds what it would find if all calls did exactly if, behind the first call, every option is read alike from both forms of the optstring |
| GetoptCalls.ShortReadAlike | Streaming-Demo-/pjlib-util/src/pjlib-util/getopt.c:568-729 | from two optstrings a short option is read alike exactly as ShortAlike says from what they make of its character, whether text follows it and whether an argument does |
| GetoptCalls.LaterCallsDiffer | Streaming-Demo-/pjlib-util/src/pjlib-util/getopt.c:568-729 | a short option other than the "+" or "-" is read otherwise by later calls exactly if it lacks an argument it needs and ":" stands behind the "+" or "-": ":" is returned by the first call and "?" by later ones |
| GetoptCalls.LaterCallsDifferLong | Streaming-Demo-/pjlib-util/src/pjlib-util/getopt.c:505-566 | and a long option exactly then, too |
| GetoptCalls.PrefixIsAnOption | Streaming-Demo-/pjlib-util/src/pjlib-util/getopt.c:568-582 | the "+" or "-" itself is an option for later calls, with an argument if ":" stands behind it, optional if "::" does; for the first call it is one only if it stands a second time in the optstring |
| GetoptCalls.ColonIsForgotten | Streaming-Demo-/pjlib-util/src/pjlib-util/getopt.c:353-729 | finding: "-a -o" with the optstring "+:ao:" |
| GetoptCalls.PrefixIsTaken | Streaming-Demo-/pjlib-util/src/pjlib-util/getopt.c:353-729 | finding: "-a -+" with the optstring "+a" |
| Getopt.RotatedBlocks | Streaming-Demo-/pjlib-util/src/pjlib-util/getopt.c:201-256 | a rotation is the untouched front, the old right block, the old left block and the untouched back |
| Getopt.RotateBlocks | Streaming-Demo-/pjlib-util/src/pjlib-util/getopt.c:201-251 | for every three indexes the exchange loop, swapping the shorter block each round, rotates in place |
| Getopt.Parser.Exchange | Streaming-Demo-/pjlib-util/src/pjlib-util/getopt.c:201-256 | the rotation, with first_nonopt and last_nonopt relocated |
| Getopt.Parser.Initialize | Streaming-Demo-/pjlib-util/src/pjlib-util/getopt.c:260-295 | the state of the first call, with pj_optind 0 taken for 1; "+" and "-" choose the ordering and are skipped in the optstring |
| Getopt.SearchLong | Streaming-Demo-/pjlib-util/src/pjlib-util/getopt.c:478-504 | the loop that stops at an exact match and remembers the first abbreviation finds what MatchIsExactOrUnique is about |
| Getopt.Parser.DecodeLongOption | Streaming-Demo-/pjlib-util/src/pjlib-util/getopt.c:466-566 | a long option with "=", with the next argument or without; the faults; flag and longind |
| Getopt.Parser.DecodeShortOption | Streaming-Demo-/pjlib-util/src/pjlib-util/getopt.c:568-729 | a short option with its argument attached, optional or next; the faults |
| Getopt.Parser.NextElement | Streaming-Demo-/pjlib-util/src/pjlib-util/getopt.c:374-449 | to the next option, exchanging blocks as needed, or to an operand that is not passed over, which ends the scan or is reported; at the end, "--" included, argv is the options and then the operands, and pj_optind the first operand |
| Getopt.Parser.Next | Streaming-Demo-/pjlib-util/src/pjlib-util/getopt.c:353-729 | one call does what one step of a scan does on arguments that nobody has moved, in each of the three orderings |
| Getopt.ScanAll | Streaming-Demo-/pjlib-util/src/pjlib-util/getopt.c:353-729 | all calls up to the first -1 report what a left-to-right scan of the original argv reports, in each ordering; argv ends as a stable partition, and pj_optind is the first operand |
| GetoptRescan.Rescan | Streaming-Demo-/pjlib-util/src/pjlib-util/getopt.c:353-729 | scanning argv as it was left again reports the same options and leaves it unchanged exactly when, with permutation, the last option did not go without its argument, or there are no operands; without permutation always |
| GetoptRescan.SecondScanDiffers | Streaming-Demo-/pjlib-util/src/pjlib-util/getopt.c:353-729 | finding: "x -o", when -o needs an argument: the second scan takes x for it |
| GetoptRescan.OrderedScan | Streaming-Demo-/pjlib-util/src/pjlib-util/getopt.c:353-729 | the same from any point of a scan, with any operands in between |
| XmlRoundTrip.RoundTrip | Streaming-Demo-/pjlib-util/src/pjlib-util/xml.c:54-158 | a tree whose node names are no markup comes back from its printed text, whatever follows it, exactly when it has the shape of a parsed tree, attributes as AttrsRead asks for, and no node with both children and content |
| XmlMarkup.AnyRoundTrip | Streaming-Demo-/pjlib-util/src/pjlib-util/xml.c:54-158 | a tree comes back from its printed text, if no node with markup for a name opens in the text behind it, exactly when no name in it is markup, it has the shape of a parsed tree and is good |
| XmlMarkup.NodeCost | Streaming-Demo-/pjlib-util/src/pjlib-util/xml.c:54-94 | reading a node takes as many places as its names and values need, and one more if an instruction or a comment is passed over to get to it |
| XmlMarkup.NodeHolds | Streaming-Demo-/pjlib-util/src/pjlib-util/xml.c:185-291 | a printed tree holds no more of these places than it needs |
| XmlRoundTrip.NodeRead | Streaming-Demo-/pjlib-util/src/pjlib-util/xml.c:54-158 | the same for every node at every depth |
| XmlRoundTrip.AttrsRead | Streaming-Demo-/pjlib-util/src/pjlib-util/xml.c:105-119 | the printed attributes are read back exactly when all values can be quoted, none is without name and value, and behind one without value comes none without name |
| XmlRoundTrip.QuotesRead | Streaming-Demo-/pjlib-util/src/pjlib-util/scanner.c:351-425 | a quoted value is read back exactly when every quote in it follows an odd run of backslashes, or any run if it is its last character, and it holds no newline and ends in no backslash |
| XmlGrammar.CloseIs | Streaming-Demo-/pjlib-util/src/pjlib-util/scanner.c:351-425 | a quoted text ends at the first quote behind no backslash; one behind an odd number of them is passed over, and behind an even number another quote must follow |
| XmlGrammar.CloseAtStart | Streaming-Demo-/pjlib-util/src/pjlib-util/scanner.c:351-425 | at the very beginning of the buffer, a quote behind a single backslash ends the text; everything else is as elsewhere |
| XmlGrammar.SameNameIs | Streaming-Demo-/pjlib-util/src/pjlib-util/xml.c:150-152 | a closing name is the same exactly when it differs at most in letters that are 32 apart |
| XmlRoundTrip.NodeShaped | Streaming-Demo-/pjlib-util/src/pjlib-util/xml.c:54-158 | every tree that is parsed has the shape that RoundTrip asks for |
| XmlGrammar.TextIsRead | Streaming-Demo-/pjlib-util/src/pjlib-util/xml.c:54-182 | a text is read as a node exactly if it is one in this syntax: blanks, instructions and comments before a tag, names and their stops, attributes in either quotes or without a value, an empty tag or children, content and a closing tag of the same name up to case; whatever follows it |
| XmlGrammar.DocIsRead | Streaming-Demo-/pjlib-util/src/pjlib-util/xml.c:54-158 | a node in the syntax is read as its tree, up to where it ends |
| XmlGrammar.DocSplit | Streaming-Demo-/pjlib-util/src/pjlib-util/xml.c:54-158 | and whatever is read was written in the syntax |
| XmlRoundTrip.MarkupIsNoNode | Streaming-Demo-/pjlib-util/src/pjlib-util/xml.c:64-79 | finding: a node called "?x" is printed as an instruction; alone it is not read, with "?>< ?x/>" behind it it is |
| TextScanner.Scanner.constructor | Streaming-Demo-/pjlib-util/src/pjlib-util/scanner.c:114-128 | the scanner starts behind the blanks |
| TextScanner.Scanner.SkipWhitespace | Streaming-Demo-/pjlib-util/src/pjlib-util/scanner.c:137-190 | blanks, tabs and newlines are passed, and nothing else |
| TextScanner.Scanner.GetChar | Streaming-Demo-/pjlib-util/src/pjlib-util/scanner.c:446-461 | one character and the blanks behind it, or the error at the end |
| TextScanner.Scanner.GetUntil | Streaming-Demo-/pjlib-util/src/pjlib-util/scanner.c:525-572 | the text up to the first stop character, or the error when there is none |
| TextScanner.Scanner.GetQuotes | Streaming-Demo-/pjlib-util/src/pjlib-util/scanner.c:351-425 | the text up to the closing quote, counting backslashes |
| Xml.ParseTree | Streaming-Demo-/pjlib-util/src/pjlib-util/xml.c:54-158 | parsing terminates on every text and gives the specified tree, or the error |
| Xml.ParseDocument | Streaming-Demo-/pjlib-util/src/pjlib-util/xml.c:160-182 | the first node of the text, or nothing |
| Xml.PrintTree | Streaming-Demo-/pjlib-util/src/pjlib-util/xml.c:185-291 | the returned length or -1, and the buffer in both cases: the text of the tree at its place, as far as it was written |
| Xml.PrintDocument | Streaming-Demo-/pjlib-util/src/pjlib-util/xml.c:293-315 | prolog, tree and newline and the returned length; the buffer also when the node does not fit |
| Xml.LeafLayout | Streaming-Demo-/pjlib-util/src/pjlib-util/xml.c:231-289 | a node without children or content is an empty tag, and content alone stands between the tags |
| Xml.AttrLayout | Streaming-Demo-/pjlib-util/src/pjlib-util/xml.c:209-229 | an attribute with its value in double quotes, or alone if that is empty |
| Xml.ParentLayout | Streaming-Demo-/pjlib-util/src/pjlib-util/xml.c:241-289 | each child is on a line of its own, one column further in, and the closing tag on another |
| Xml.DocumentReturns | Streaming-Demo-/pjlib-util/src/pjlib-util/xml.c:293-315 | what is returned is the number of bytes written, the newline among them unless prolog and node fill the buffer to the last byte; 0 for no buffer, and -1 for a prolog that does not fit or, without one, for a node that does not |
| Xml.PrintedLength | Streaming-Demo-/pjlib-util/src/pjlib-util/xml.c:185-291 | a print that succeeds overruns its announced size exactly when the node is empty and fewer than three bytes are left for its " />", and never by more than three |
| Xml.AmpleRoom | Streaming-Demo-/pjlib-util/src/pjlib-util/xml.c:185-291 | one byte more than the node takes is enough for its tests |
| Xml.OverrunExactly | Streaming-Demo-/pjlib-util/src/pjlib-util/xml.c:185-291 | finding: a print, whether it succeeds or returns -1, writes behind its announced size exactly when the node, or one inside it, is empty, passes its tests and has less than three bytes left; never more than three |
| Xml.OverrunByThree | Streaming-Demo-/pjlib-util/src/pjlib-util/xml.c:231-239 | finding: the family of empty nodes with one attribute that overrun by three and succeed |
| Xml.OverrunThenFailure | Streaming-Demo-/pjlib-util/src/pjlib-util/xml.c:231-252 | finding: <p> with the child <c a="v" /> in 13 bytes returns -1 after 16 have been written |
| Xml.DocumentOverrun | Streaming-Demo-/pjlib-util/src/pjlib-util/xml.c:293-315 | the same for a document: at most four bytes, with the newline that follows even then |
| Xml.DocumentRoundTrip | Streaming-Demo-/pjlib-util/src/pjlib-util/xml.c:293-315 | pj_xml_parse of what pj_xml_print printed is the same tree exactly when no name in it is markup, it has the shape of a parsed tree and is good, with or without prolog and newline |
| Xml.FailureLooksLikeLength | Streaming-Demo-/pjlib-util/src/pjlib-util/xml.c:310-314 | finding: with a prolog, a node that does not fit is reported by 39, and never by -1 |
| Crc32.TableIsRemainder | Streaming-Demo-/pjlib-util/src/pjlib-util/crc32.c:27-80 | each of the 256 table entries is its index divided bit by bit |
| Crc32.CrcAppend | Streaming-Demo-/pjlib-util/src/pjlib-util/crc32.c:203-223 | the CRC of a message in pieces is that of the message |
| Crc32.WordForm | Streaming-Demo-/pjlib-util/src/pjlib-util/crc32.c:166-174 | up to four bytes may come in at once and be divided out together |
| Crc32.WordTurns | Streaming-Demo-/pjlib-util/src/pjlib-util/crc32.c:166-174 | four table turns of a little-endian word are four bytes |
| Crc32.BurstIsDetected | Streaming-Demo-/pjlib-util/src/pjlib-util/crc32.c:203-223 | two messages of equal length that differ only inside four consecutive bytes have different CRCs |
| Crc32.CrcInjective | Streaming-Demo-/pjlib-util/src/pjlib-util/crc32.c:203-223 | the state step is injective for every message |
| Crc32.Residue | Streaming-Demo-/pjlib-util/src/pjlib-util/crc32.c:234-242 | a message followed by its CRC, low byte first, has the CRC 0x2144DF1C |
| Crc32.CheckValue | Streaming-Demo-/pjlib-util/src/pjlib-util/crc32.c:234-242 | the CRC of "123456789" is 0xCBF43926 |
| Crc32.TableContext.Update | Streaming-Demo-/pjlib-util/src/pjlib-util/crc32.c:156-183 | bytes up to an aligned address, words, then bytes: the bitwise CRC of the data, from any address, in the inverted state convention |
| Crc32.BitContext.Update | Streaming-Demo-/pjlib-util/src/pjlib-util/crc32.c:198-223 | the bitwise loop on the low byte computes the same CRC in its own state convention |
| Crc32.ChecksumByTable | Streaming-Demo-/pjlib-util/src/pjlib-util/crc32.c:151-188 | for every cutting into pieces at any addresses the table form gives the CRC of the whole message |
| Crc32.ChecksumByBits | Streaming-Demo-/pjlib-util/src/pjlib-util/crc32.c:193-229 | so does the bitwise form: the two agree |
| HashCore.CounterAdds | Streaming-Demo-/pjlib-util/src/pjlib-util/md5.c:77-83 | the two-word counter with its carry is 8 * length modulo 2^64 |
| HashCore.BlocksAppend | Streaming-Demo-/pjlib-util/src/pjlib-util/md5.c:92-115 | compressing block by block in several calls is compressing the whole |
| HashCore.PadFills | Streaming-Demo-/pjlib-util/src/pjlib-util/md5.c:122-156 | the padded message is whole blocks |
| HashCore.PaddingIsInjective | Streaming-Demo-/pjlib-util/src/pjlib-util/md5.c:122-156 | different messages below 2^61 bytes have different padded texts (section 3 of RFC 1321, section 4 of RFC 3174) |
| HashBytes.DigestWord | Streaming-Demo-/pjlib-util/src/pjlib-util/md5.c:156-158 | word i of a digest is four bytes from 4 * i on, the least first for MD5 and the greatest first for SHA-1 |
| HashBytes.InitialStates | Streaming-Demo-/pjlib-util/src/pjlib-util/md5.c:58-66 | the initial states, written out like digests, are the bytes of section 3.3 of RFC 1321 and section 6.1 of RFC 3174 |
| HashBytes.PaddedMessage | Streaming-Demo-/pjlib-util/src/pjlib-util/md5.c:122-156 | the padded message is the message, 0x80, as few zeros as make whole blocks, and its number of bits modulo 2^64 in the byte order of the hash |
| HashBytes.OneBlockHash | Streaming-Demo-/pjlib-util/src/pjlib-util/md5.c:58-161 | the hash of a message below 56 bytes is one compression of the only block that is its padding |
| Md5.Md5Context.Update | Streaming-Demo-/pjlib-util/src/pjlib-util/md5.c:73-116 | the context has taken in the old message and the data: state, buffered bytes and counter |
| Md5.Md5Context.Final | Streaming-Demo-/pjlib-util/src/pjlib-util/md5.c:122-161 | the digest is the compression folded over the padded message |
| Md5.DigestPieces | Streaming-Demo-/pjlib-util/src/pjlib-util/md5.c:58-161 | for every cutting of the message into pieces |
| Sha1.Sha1Context.Update | Streaming-Demo-/pjlib-util/src/pjlib-util/sha1.c:206-227 | the same for SHA-1, counting how many carries too many have been seen |
| Sha1.Sha1Context.Final | Streaming-Demo-/pjlib-util/src/pjlib-util/sha1.c:231-261 | the digest for the counter as it stands; the padding is taken in like data, and what the compression left in the buffer never matters |
| Sha1.LowAdds | Streaming-Demo-/pjlib-util/src/pjlib-util/sha1.c:211-213 | the carry is seen, and seen falsely exactly when FalseCarry says so |
| Sha1.CountedRight | Streaming-Demo-/pjlib-util/src/pjlib-util/sha1.c:211-213 | finding: a piece is counted right exactly when there is no false carry; pieces below 2^29 bytes always are |
| Sha1.HalfGigabyte | Streaming-Demo-/pjlib-util/src/pjlib-util/sha1.c:211-213 | finding: a first piece of 2^29 bytes is the shortest that is counted wrong, and is padded wrong |
| Sha1.PaddedRight | Streaming-Demo-/pjlib-util/src/pjlib-util/sha1.c:231-261 | a number of carries too many leaves the padding right exactly when it is a multiple of 2^32 |
| Sha1.DigestPieces | Streaming-Demo-/pjlib-util/src/pjlib-util/sha1.c:193-261 | for every cutting the digest is the compression folded over the message and the padding with as many carries too many as there are false ones; it is the digest of the message whenever that number is a multiple of 2^32, as it is for pieces below 2^29 bytes |
| Hmac.MakePad | Streaming-Demo-/pjlib-util/src/pjlib-util/hmac_md5.c:43-57 | the key, filled up with zeros, is added to every byte of the pad |
| Hmac.ShortMd5Key | Streaming-Demo-/pjlib-util/src/pjlib-util/hmac_md5.c:31-41 | a key longer than 64 bytes is hashed first |
| Hmac.HmacMd5Context.constructor | Streaming-Demo-/pjlib-util/src/pjlib-util/hmac_md5.c:24-64 | the inner hash has taken in the inner pad; the outer pad is kept |
| Hmac.HmacMd5Context.Update | Streaming-Demo-/pjlib-util/src/pjlib-util/hmac_md5.c:66-71 | the text grows by the input, in pieces of any size |
| Hmac.HmacMd5Context.Final | Streaming-Demo-/pjlib-util/src/pjlib-util/hmac_md5.c:73-85 | H((K xor opad) ++ H((K xor ipad) ++ text)) for every key and every cutting of the text (section 2 of RFC 2104) |
| HashBytes.HmacIsNested | Streaming-Demo-/pjlib-util/src/pjlib-util/hmac_md5.c:24-85 | the HMAC is the hash of the key added to 0x5c bytes and of the hash of the key added to 0x36 bytes and the text (section 2 of RFC 2104) |
| Hmac.HmacSha1Context.constructor | Streaming-Demo-/pjlib-util/src/pjlib-util/hmac_sha1.c:24-63 | the same for SHA-1, with the key counted in one piece |
| Hmac.HmacSha1Context.Update | Streaming-Demo-/pjlib-util/src/pjlib-util/hmac_sha1.c:65-69 | the text grows by the input, and the false carries by one when it brings one |
| Hmac.HmacSha1Context.Final | Streaming-Demo-/pjlib-util/src/pjlib-util/hmac_sha1.c:71-83 | H((K xor opad) ++ H((K xor ipad) ++ text)) for SHA-1, the key and the text counted as they were |
| Hmac.CountedHmac | Streaming-Demo-/pjlib-util/src/pjlib-util/hmac_sha1.c:24-83 | that is the HMAC whenever the key is shorter than 2^29 bytes and the false carries of the text are a multiple of 2^32 |
| Hmac.LongKeyIsDigest | Streaming-Demo-/pjlib-util/src/pjlib-util/hmac_sha1.c:31-41 | a longer key is replaced by its digest as it is counted in one piece |
| Srv.PickFinds | Streaming-Demo-/pjlib-util/src/pjlib-util/srv_resolver.c:278-293 | the election always finds an entry, as the source asserts |
| Srv.PickedExactly | Streaming-Demo-/pjlib-util/src/pjlib-util/srv_resolver.c:278-293 | an entry is elected by exactly the draws above the running sum before it, up to its own |
| Srv.ElectedByWeight | Streaming-Demo-/pjlib-util/src/pjlib-util/srv_resolver.c:278-293 | of the sum + 1 possible draws exactly weight elect an entry, and one more the first (the Weight field of "The format of the SRV RR", RFC 2782) |
| Srv.OneForEachPriority | Streaming-Demo-/pjlib-util/src/pjlib-util/srv_resolver.c:264-308 | of a sorted list, entries of it in strictly increasing priority, exactly one for each priority |
| Srv.SortByPriority | Streaming-Demo-/pjlib-util/src/pjlib-util/srv_resolver.c:244-254 | the selection sort sorts by priority and keeps the entries |
| Srv.SumWeights | Streaming-Demo-/pjlib-util/src/pjlib-util/srv_resolver.c:264-276 | the group of equal priority, its size and its running sums |
| Srv.ElectAt | Streaming-Demo-/pjlib-util/src/pjlib-util/srv_resolver.c:264-307 | the elected entry comes to the front of its group, the rest of the group is erased, the entries behind close up in order |
| Srv.ElectAll | Streaming-Demo-/pjlib-util/src/pjlib-util/srv_resolver.c:264-308 | the loop over the groups computes the specified election |
| Srv.EntriesOfAnswer | Streaming-Demo-/pjlib-util/src/pjlib-util/srv_resolver.c:202-238 | the entries are, in their order, the first eight SRV records with a target of at most 128 bytes, each with the target, port, priority and weight of its record |
| Srv.ChosenFromAnswer | Streaming-Demo-/pjlib-util/src/pjlib-util/srv_resolver.c:202-308 | of the records alone: each priority once, in increasing order, each entry made of one of them |
| Srv.DrawsOfRecord | Streaming-Demo-/pjlib-util/src/pjlib-util/srv_resolver.c:278-293 | a record is elected by as many draws as its weight says, and the first of its priority by one more |
| Srv.BuildServerEntries | Streaming-Demo-/pjlib-util/src/pjlib-util/srv_resolver.c:202-308 | from the first eight usable records: one entry for each priority, in strictly increasing priority, elected by weight from a sorted permutation |
| Base64.SymbolValue | Streaming-Demo-/pjlib-util/src/pjlib-util/base64.c:27-55 | the table and the case expression are inverse to each other |
| Base64.QuadIsNumber | Streaming-Demo-/pjlib-util/src/pjlib-util/base64.c:58-78 | a group of bytes read as one number of 24 bits is its symbols read as one (section 4 of RFC 4648) |
| Base64.BytesAreNumber | Streaming-Demo-/pjlib-util/src/pjlib-util/base64.c:160-162 | four digits read as one number are the three bytes read as one |
| Base64.RoundTrip | Streaming-Demo-/pjlib-util/src/pjlib-util/base64.c:81-168 | decoding takes back what encoding wrote, for every input |
| Base64.EncodedFits | Streaming-Demo-/pjlib-util/include/pjlib-util/base64.h:43-49 | an encoding has 4 * ceil(n / 3) characters, never more than the macro asks for |
| Base64.Examples | Streaming-Demo-/pjlib-util/src/pjlib-util/base64.c:81-121 | examples of section 10 of RFC 4648, and one for the last two symbols |
| Base64.JunkInsideIsIgnored | Streaming-Demo-/pjlib-util/src/pjlib-util/base64.c:140-147 | a character outside the alphabet anywhere before the last one of the alphabet leaves the decoding as it is |
| Base64.JunkAtTheEnd | Streaming-Demo-/pjlib-util/src/pjlib-util/base64.c:140-158 | finding: behind the last character of the alphabet, text that is not all padding leaves the decoding as it is exactly after full groups of four; otherwise it reads as one more digit of all ones |
| Base64.NewlineAfterPadding | Streaming-Demo-/pjlib-util/src/pjlib-util/base64.c:134-158 | finding: a newline behind the padding adds a byte to the decoding |
| Base64.AssertionFailsExactly | Streaming-Demo-/pjlib-util/src/pjlib-util/base64.c:137-164 | finding: of a buffer the decoder accepts, its last assertion fails exactly when it is the smallest such buffer and no character was ignored, or one was and the text is one over a multiple of four |
| Base64.OneByteFails | Streaming-Demo-/pjlib-util/src/pjlib-util/base64.c:137-164 | finding: it fails for "Zg==" and one byte |
| Base64.Encode | Streaming-Demo-/pjlib-util/src/pjlib-util/base64.c:81-121 | the encoding at the start of the buffer and its length, or the error when the buffer is shorter than the macro asks for |
| Base64.Fill | Streaming-Demo-/pjlib-util/src/pjlib-util/base64.c:140-147 | the nested loops take up the next four values and leave the rest |
| Base64.Decode | Streaming-Demo-/pjlib-util/src/pjlib-util/base64.c:124-168 | the decoding at the start of the buffer, the error when there is too little room, and exactly when the last assertion fails |
| Escape.UnescapeInverts | Streaming-Demo-/pjlib-util/src/pjlib-util/string.c:25-51 | unescaping takes back an escaped text exactly when nothing in it looks like an escape that escaping leaves alone |
| Escape.UnescapeInvertsAll | Streaming-Demo-/pjlib-util/src/pjlib-util/string.c:25-101 | so for all texts exactly when "%" is reserved or every hexadecimal digit is |
| Escape.RawUnescapeInverts | Streaming-Demo-/pjlib-util/src/pjlib-util/string.c:53-72 | the copying form does so exactly when "%" is reserved or no "%" of the text has two characters behind it once written |
| Escape.RawUnescapeInvertsAll | Streaming-Demo-/pjlib-util/src/pjlib-util/string.c:53-101 | so for all texts exactly when "%" is reserved |
| Escape.HexReads | Streaming-Demo-/pjlib/include/pj/ctype.h:149-168 | the digits that are written are hexadecimal, are read back, and are no "%" |
| Escape.EscapedAppend | Streaming-Demo-/pjlib-util/src/pjlib-util/string.c:84-98 | escaping a text in two parts is escaping the whole |
| Escape.DigitValues | Streaming-Demo-/pjlib-util/src/pjlib-util/string.c:41-42 | each of the 22 hexadecimal digits is worth its place in "0123456789abcdef", in either case |
| Escape.AnyValue | Streaming-Demo-/pjlib-util/src/pjlib-util/string.c:41-42 | what is no digit is worth its lower four bits, with nine added behind "9" |
| Escape.SpellingsRead | Streaming-Demo-/pjlib-util/src/pjlib-util/string.c:25-72 | both forms take back a text escaped in any mixture of cases |
| Escape.EscapedSpells | Streaming-Demo-/pjlib-util/src/pjlib-util/string.c:84-98 | an escaped text is one such spelling |
| Escape.SlashRead | Streaming-Demo-/pjlib-util/src/pjlib-util/string.c:25-51 | "%2F" and "%2f" are "/" |
| Escape.Strncpy2Escape | Streaming-Demo-/pjlib-util/src/pjlib-util/string.c:74-101 | the exact length, with the text in the buffer, when the whole escaped text fits, and -1 otherwise, with as many whole codes written as fit |
| Escape.StrUnescape | Streaming-Demo-/pjlib-util/src/pjlib-util/string.c:25-51 | the source itself when it holds no "%", else a new buffer with the unescaped text |
| Escape.StrcpyUnescape | Streaming-Demo-/pjlib-util/src/pjlib-util/string.c:53-72 | the unescaped text at the start of the target, which may be the source itself |

## Left out

- The network, the timer heap, the mutex, pools, hash tables and logging: they are steps, an
  outcome of scheduling a timer, maps, sequences and a clock that does not go back. The memory
  that `pj_hash_set_np` and the lists thread through the nodes is not modelled: query nodes are
  named by their position in a pool that never shrinks.
- ResolverRuns.EveryRequestIsAccountedFor: over runs in which an id that is handed out is free
  (as in all runs where no query grows too old, `YoungRunsAreRuns`) and a notified cancellation is
  of a query that has not been called back yet; without the second condition, which
  `AccountedForAlways` does not have, a request may be called back again.
- ResolverLate.AccountedForAlways: what becomes of requests after two queries have come to hold
  one id is left at `ReusedIdBreaksTheIndex`, and no run goes on after a null pointer has been
  called. Between reading a callback pointer and calling it no other step happens, although the
  lock is free there while a response is told; a start that hits the cache calls back within its
  own step.
- Resolver.DnsResolver.StartQuery: the callback of a cache hit is part of the step, and the
  pointer to the query is its position in the pool.
- Resolver.DnsResolver.OnTimeout: the callbacks run under a lock that the application may take
  again; the method is the handler when it does not, and the steps of `ResolverModel` are the
  handler when it does.
- Nameservers.SelectNameservers: for at most 15 servers, as pj_dns_resolver_set_ns demands; with
  16 the second scan could stop before its end. Times are unbounded: `state_expiry` and the
  expiry of a cache entry do not overflow.
- Resolver.DnsResolver.SetNameservers: parsing an address is not modelled, only whether it
  succeeds.
- Resolver.DnsResolver.NotifyApplications: the callbacks one after the other, with nothing in
  between; what may come between two of them is a run of the steps of `ResolverModel`.
- pj_dns_resolver_destroy, changes of the settings during a run, pj_dns_parse_a_response,
  pj_dns_resolver_dump and get_cached_count.
- DnsParser.ParseRecord: the field rdlength is used and not kept; the two copies of an SRV
  target and of other names in unions are one value.
- DnsRoundTrip.RoundTrip: for queries and A, CNAME, NS, PTR and SRV records of class IN, the
  types the printer knows; AAAA and unknown types are parsed and not printed. Names that end in
  a dot are printed without it and do not come back. Packets above 16 KB, to whose end a
  pointer does not reach, are not covered.
- DnsPrinter.PrintWholePacket: the buffer has 4 * qdcount + 2 bytes more than it is said to
  have, since the code writes there.
- DnsBehind.BehindMatters: for a packet that ends in a byte of 0xc0 or more the second byte of a
  pointer may lie behind it, too; what is left then is `ParserLooksNoFurther`.
- Getopt.Parser.Next: no pj_getopt_long_only, and no call after the first -1. Strings hold no zero
  character.
- Getopt.Parser.DecodeShortOption: no "W;" in the optstring: with an ambiguous name behind -W the
  source passes over one argument too many, at the end of argv over one that is not there.
- TextScanner.Scanner.GetUntil: the line counter and `start_line` are not kept; a folded line
  is blanks like any other, and the character predicates of the other scanner operations are
  not part of this model.
- XmlRoundTrip.RoundTrip: whatever text follows, for trees whose names are no markup; for the
  others `AnyRoundTrip` asks something of the text that follows, and `MarkupIsNoNode` shows that
  it must.
- Xml.PrintTree: the buffer has three bytes more than it is said to have, since the code writes
  there, and one more for the newline.
- Crc32.TableContext.Update: the table for little-endian machines; the big-endian table, whose
  entries and shifts are mirrored, is not modelled.
- Md5.Md5Context.Final: the rounds of MD5Transform and SHA1_Transform are a parameter, so that
  no test vector follows; wiping the contexts afterwards and byteReverse are not modelled.
- Sha1.Sha1Context.Update: for a `pj_size_t` of 64 bits and lengths whose number of bits fits
  in it.
- Srv.BuildServerEntries: the random numbers are a parameter; the running sums are kept beside
  the entries; the addresses of the additional records, resolving the host names and the
  fallback to address queries are left out.
- Base64.Encode: the product in_len * 4 does not overflow. Or-ing parts with no bit in common is
  written as a sum.
- Base64.Decode: on an empty input, or one of padding only, the source looks at the character
  before the buffer and does not use it; the model does not look.
- Escape.StrcpyUnescape: the target has room for the result, and is the source's own buffer or
  one apart from it.
- http_client.c, pcap.c, stun_simple.c, dns_dump.c, errno.c and the serving part of
  dns_server.c: plumbing and lookups that would add only easy members.
