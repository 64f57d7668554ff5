# Verified model of axum-reverse-proxy

A Dafny model of the four parts of the proxy that are hard to get right, with
proofs about whole runs and compositions.

* **Forwarding** (`Text`, `Numbers`, `ListElements`, `HeaderMaps`, `WebSocket`, `Forward`, `BodyCap`, `Filtering`,
  `Nomination`, `Network`, `ListHeaders`, `ViaLoops`, `AddressChain`, `Handshake`, `Answers`). `HeaderMap` is an object updated in place;
  the methods in `Forward` follow the source loop by loop and are proved equal to specification
  functions. `Filtering` says what those functions mean name by name, `Nomination` what they mean on the
  text of the lines, without splitting or trimming. `Network` composes any number of
  hops, and three modules prove that Via loops end, that X-Forwarded-For grows by exactly one element a
  hop, exactly when Forwarded does, and that WebSocket handshakes
  survive a chain; `Answers` follows every other response back to the client.
* **Resource lifetime and retries** (`Lifecycle`, `Retry`). The guard slot, the guarded body and
  `retain` as objects, then a transition system over all interleavings of the tasks that hold clones
  of one guard; body buffering and the attempt loop as methods.
* **Discovery and load balancing** (`Discovery`, `Metrics`, `EndpointList`, `Balancer`, `PowerOfTwo`,
  `Pending`, `Ewma`, `RoundRobin`, `Dns`, `DnsAgreement`). The endpoint list, the metrics and the DNS
  producer as objects; the concurrent behaviour as transition systems with one step per atomic access.
* **Path rewriting** (`Paths`, `Template`). Both prefix strippers and joiners with the exact conditions
  under which they agree, and template substitution.

Header values are byte strings, one character a byte; `Readable` is `HeaderValue::to_str`,
`ValidValue` is `HeaderValue::from_str`. Counters are 64-bit and wrap; a string length does not.
That a connect failure means that nothing was sent is taken as given (`src/forward.rs:69-71`).

Where the code and the repository's own documentation or intent disagree the model follows the code.
In these cases the exact condition under which the promise is kept is proved:

* The repository's README (line 316) promises that a nested proxy and one that sees the full path behave
  alike. `Paths.MountingStyles` gives the exact condition; a path that repeats its mount point
  (`Paths.NestedRepeatDiffers`) and, for some targets, a bare trailing slash break the promise. The
  comment at `src/proxy.rs:366` that a remainder `/` is treated as empty holds only of the path `/`
  itself.
* Any string is accepted as Via pseudonym (`src/proxy.rs:147-150`), but loops are detected only for
  non-empty ones of visible characters without a comma: `ViaLoops.OwnEntryDetected`. A legal but
  unreadable pseudonym in between, and no other, erases such an entry: `ViaLoops.EntrySurvives`,
  `ViaLoops.ErasedForwardsAgain`.
* Host and scheme are written into `Forwarded` as they are (`src/forward.rs:317-321`). Split at commas, as
  the other list headers are, the list grows by one element a hop exactly if they are readable and
  comma-free where they are written: `AddressChain.ForwardedGrowsByOne`, `AddressChain.FirstElementClean`.
  `AddressChain.CommaInHost` is an input for which the first hop adds two.
* A percent sign in a value is not encoded; a value that holds an escape of its own is read back as another
  one: `Template.ValueReadsBack`.
* A declared length of 2^64 or more passes the early check of the body cap: `BodyCap.DeclaredLengthRefused`.
* Braces in parameter values are not encoded. A value comes out unchanged, in every flat template and with
  all companions that open no brace, exactly if every brace it opens is followed by another opening one or
  closed around its own key (`Template.SafeIffHarmless`); under every key exactly if it opens none
  (`Template.SafeUnderEveryKey`).

The comments that latency decays by half every five seconds (`src/balanced_proxy.rs:484`) do not match
the code's `exp(-t/5)` either. Nothing is proved about the rate: the model allows any decay.

## Model

| member | source | states |
|---|---|---|
| Forward.HopByHopHeaders | src/forward.rs:124-150 | the loops compute the specified set of names to strip; what that set is on the text of the lines is stated by Nomination.NominatedIff, Nomination.KeepsTeIff and Nomination.StandardNames |
| Forward.StripSetExact | src/forward.rs:124-150 | a name is in that set iff it is hop-by-hop (and not a kept `te`) or nominated by Connection, as Nomination.NominatedIff spells out |
| Forward.StripHopByHopResponseHeaders | src/forward.rs:199-203 | removing the names one by one, in any order, leaves exactly the names that are not stripped, values untouched |
| Forward.AppendVia | src/forward.rs:180-196 | the header map changes in Via only, to one line that joins the readable old lines and the own element, or not at all if that is no legal value |
| Forward.AppendForwardedHeader | src/forward.rs:295-333 | the same for Forwarded; host and proto only when no readable value was there |
| Forward.BuildForwardHeaders | src/forward.rs:207-288 | copying in any iteration order and adding the forwarding headers gives the specified map; the client's map is untouched |
| Forward.CopiedIsKept | src/forward.rs:216-226 | the copying loop is an exact filter: whatever the order of the names, every kept name has its whole value list in order |
| Forward.PrepareRequest | src/forward.rs:386-462 | the refusals in their order, or the header map sent: built, Via appended, upgrade pair set, Host filled in |
| Forward.ReturnHeaders | src/forward.rs:535-542 | the response map is stripped, given the upgrade pair on a 101, and gets a Via element |
| BodyCap.ParseDecimal | src/forward.rs:406-410 | parsing the decimal text of any number gives it back iff it fits 64 bits |
| BodyCap.DeclaredLengthRefused | src/forward.rs:404-417 | 413 exactly if no loop was detected and the declared length is above the cap and below 2^64 |
| Filtering.PreparedValues | src/forward.rs:213-226 | every name outside the host and scheme names: its whole value list or nothing, except for the line added by the proxy and the upgrade pair |
| Filtering.HopByHopSurvives | src/forward.rs:120-150 | a hop-by-hop name reaches the upstream iff it is a non-nominated `te: trailers` or one of the upgrade pair of a WebSocket request |
| Filtering.NominatedGone | src/forward.rs:139-147 | a nominated name does not reach the upstream unless the proxy writes it itself |
| Nomination.NominatedIff | src/forward.rs:139-147 | a name is nominated iff a readable Connection line holds, between commas and inside any blanks, a token that spells it in some letter case |
| Nomination.NamedIsGone | src/forward.rs:139-147 | so a header named there, first, last or in between, does not reach the upstream |
| Nomination.InnerBlank | src/forward.rs:142 | an element with a blank inside nominates nothing |
| Nomination.CloseAndInternal | src/forward.rs:139-147 | `Connection: close, x-internal` keeps X-Internal from the upstream |
| Nomination.StandardNames | src/forward.rs:44-52 | the hop-by-hop names, by their text |
| Nomination.KeepsTeIff | src/forward.rs:130-137 | `te` is kept iff its first value is the word `trailers` in some letter case, inside any blanks |
| HeaderMaps.ParsesTo | src/forward.rs:142 | a text parses to a name iff it is a token of at most 65535 characters that spells the name in some letter case |
| ListElements.HasElementIff | src/forward.rs:139-142 | the trimmed elements of a header are exactly what stands between commas without the blanks around it |
| Text.TrimPadded | src/forward.rs:142 | trimming takes the blanks off both ends |
| Text.TrimShape | src/forward.rs:142 | and nothing else |
| Text.IgnoringCase | src/websocket.rs:13 | ignoring case is ignoring whether ASCII letters are capitals, and nothing else |
| Filtering.PreparedHost | src/forward.rs:228-236 | the upstream's Host: the client's when preserved, else its authority, else the upstream's |
| Filtering.PreparedOrigin | src/forward.rs:271-284 | X-Forwarded-Host and X-Forwarded-Proto: the client's own lists win; otherwise the known host and scheme in Append mode |
| Filtering.HostAskedFor | src/forward.rs:240-243 | the client's host is its first Host value if that can be read, else the authority of the URI |
| Filtering.ReturnedValues | src/forward.rs:535-542 | the client's response, name by name; the upgrade pair exactly on a 101 |
| Filtering.BuildTwice | src/forward.rs:207-288 | under XForwardedFor::Preserve, building twice is building once |
| Network.NothingNominated | src/forward.rs:139-147 | after its first hop a request nominates nothing but `upgrade`, so only the client's own Connection can remove headers |
| ListHeaders.LineExtendsChain | src/forward.rs:182-195 | rewriting a list header as one line plus an element leaves all parsed elements, whatever the lines were, and adds exactly one |
| ListHeaders.LineChain | src/forward.rs:182-195 | for every line at all: a readable one adds its own elements to the parsed list, a legal unreadable one leaves it empty, an illegal one leaves it alone |
| ViaLoops.AppendExtendsChain | src/forward.rs:180-196 | appending to Via adds exactly the element `protocol pseudonym` to the parsed chain |
| ViaLoops.ContainsIff | src/forward.rs:166-177 | p is detected iff some readable Via line holds, between commas, an entry of a protocol, blanks, p and perhaps a comment |
| ViaLoops.ProtocolReads | src/forward.rs:153-162 | the protocol of an entry reads as the number of the version |
| ViaLoops.AppendThenDetect | src/forward.rs:166-196 | after appending q, p is detected iff p = q or p was detected before |
| ViaLoops.OwnEntryDetected | src/forward.rs:166-196 | a proxy recognises its own entry, on every header map, iff its pseudonym is non-empty, visible and comma-free |
| ViaLoops.UnreadableErases | src/forward.rs:185-195 | a legal but unreadable pseudonym erases the chain: nothing at all is detected afterwards |
| ViaLoops.AppendAnyThenDetect | src/forward.rs:166-196 | for every pseudonym q at all: a readable one keeps all entries and may add one that reads as p, a legal unreadable one erases all, an illegal one changes nothing |
| ViaLoops.EntrySurvives | src/forward.rs:166-196 | an entry outlives an append iff the new pseudonym is readable or no legal value |
| ViaLoops.ChainRecordsVisits | src/forward.rs:393-449 | after any number of hops the parsed Via is what the client's header left, then one element per Via-emitting visit in order |
| ViaLoops.ForwardsOnce | src/forward.rs:393-402 | in any run, whatever the client sent, a recognisable pseudonym forwards the request at most once unless a legal but unreadable pseudonym lies between its two visits; what lies elsewhere does not matter |
| ViaLoops.ErasedForwardsAgain | src/forward.rs:393-449 | and if one does lie between, a run exists in which the same proxy forwards twice |
| ViaLoops.EntrySeen | src/forward.rs:393-402 | the entry of a visit is detected at every later visit that no erasing pseudonym precedes |
| ViaLoops.RunIsBounded | src/forward.rs:393-402 | an all-Via run has at most as many forwards as there are pseudonyms |
| AddressChain.ForwardedForLine | src/forward.rs:245-261 | after k hops X-Forwarded-For is one line: the client's readable values unless nominated, then the k addresses in order |
| AddressChain.ForwardedForElements | src/forward.rs:245-261 | parsed, the list has exactly one element more per hop |
| AddressChain.ForwardedLine | src/forward.rs:290-333 | if what the first hop writes is readable, Forwarded is one line: the client's readable values, then one entry a hop, with host and proto only in the first entry of a chain that had no readable value |
| AddressChain.FirstHopElements | src/forward.rs:315-332 | what the first hop makes of the parsed list, whatever host and scheme are: adds the parsed entry, erases the list, or leaves it |
| AddressChain.ForwardedElementsParsed | src/forward.rs:290-333 | parsed, the client's elements, then those of the first hop's entry, then exactly one for each later hop |
| AddressChain.NodeReads | src/forward.rs:301-305 | the peer's address and family can be read back: IPv4 bare, IPv6 in brackets and quotes |
| AddressChain.ElementReads | src/forward.rs:315-323 | split at semicolons an element is the node, then `host=` in quotes and `proto=`, where they are to be written |
| AddressChain.ForwardedGrowsByOne | src/forward.rs:290-333 | exactly one element a hop, at every hop of the run, iff the first hop's entry is readable and comma-free |
| AddressChain.FirstElementClean | src/forward.rs:315-323 | that is so iff host and scheme are, where they are written |
| AddressChain.CommaInHost | src/forward.rs:317-318 | an input, Host `a,b`, for which the first hop adds two elements |
| WebSocket.UpgradeHeaders | src/websocket.rs:23-26 | the map gets the upgrade pair and nothing else changes |
| Nomination.UpgradeIff | src/websocket.rs:7-21 | a request is an upgrade iff Connection and Upgrade hold their tokens, anywhere and in any letter case, and key and version are there |
| Nomination.ValidIff | src/websocket.rs:28-50 | a 101 is valid iff it holds both tokens and the value derived from the first key, and selects no subprotocol that is not, letter for letter, in the request's list |
| Nomination.OfferedIff | src/websocket.rs:42-47 | a subprotocol was offered iff it is an element of the request's list |
| Nomination.KeepAliveUpgrade | src/websocket.rs:7-14 | `Connection: keep-alive, Upgrade` holds the upgrade token |
| Handshake.UpgradeSurvivesHop | src/websocket.rs:16-26 | the request sent on is an upgrade request iff Connection nominates neither the key nor the version |
| Handshake.EveryVisitUpgrades | src/forward.rs:419-449 | every proxy of a chain of any length receives an upgrade request |
| Handshake.ReturnedStaysValid | src/websocket.rs:28-50 | a valid 101 stays valid on its way back iff it does not nominate its accept value |
| Handshake.HandshakeSurvives | src/forward.rs:515-542 | if the last upstream's 101 is valid for what it received, every client, the first included, gets a 101 valid for its own request |
| Answers.RefusalIff | src/forward.rs:386-417 | 501 iff CONNECT, else 508 iff the own pseudonym is in the chain, else 413 iff the declared length is above the cap |
| Answers.AnswerIff | src/forward.rs:492-566 | the client sees 101 iff its proxy got one valid for its upgrade request; any other response keeps status and version; an invalid 101 and a failure give 502, no headers in time 504, and only a failure to connect is marked as one |
| Answers.ResponseReaches | src/forward.rs:535-550 | through any number of proxies a response that is no 101 reaches the client with the upstream's status and version, no error, and for every name but Via the upstream's value list, or none if it strips it |
| Answers.ReturnRecorded | src/forward.rs:540-542 | and its Via chain is what the upstream's left, then one element per Via-emitting proxy on the way back |
| Handshake.AnswerExists | src/websocket.rs:28-50 | every upgrade request has an answer that passes the check |
| Handshake.HandshakeExists | src/forward.rs:386-462 | every proxy forwards the smallest upgrade request, and a valid 101 for what it sends exists |
| Lifecycle.TunnelGuard.Take | src/lifecycle.rs:69-73 | one step hands out what the shared slot holds and empties it, as the first poll does in the transition system |
| Lifecycle.GuardedBody.PollFrame | src/lifecycle.rs:113-123 | the guard is cleared exactly on a final frame or end of stream, as the body's move in the transition system; the inner body's frame is passed on |
| Lifecycle.Retain | src/lifecycle.rs:97-102 | a body is wrapped exactly if there is a guard and something left to stream; the result is the task that responding makes |
| Lifecycle.AlwaysOnePlace | src/lifecycle.rs:12-31 | under every schedule of clones, requests, bodies and tunnels the resource is in exactly one place and released at most once; when it moves is stated by the rows below |
| Lifecycle.StartTakes | src/forward.rs:372-375 | the first poll of a request with a clone takes the resource if it is still in the slot |
| Lifecycle.SlotEmpties | src/lifecycle.rs:18-22 | the slot is emptied by such a poll or by the drop of the last clone, and by nothing else |
| Lifecycle.ClonesNext | src/lifecycle.rs:18-22 | which steps make a clone and which drop one |
| Lifecycle.CanStream | src/forward.rs:546 | the first request with a clone can come to stream its response with the resource in the body |
| Lifecycle.CanTunnel | src/websocket.rs:58-73 | or to be a tunnel that holds the resource and both transports |
| Lifecycle.CanRelease | src/lifecycle.rs:24-31 | in every reachable state a holder can release the resource by steps of its own |
| Lifecycle.HandOverHolds | src/websocket.rs:69-71 | a tunnel holds a transport from its hand-over |
| Lifecycle.TransportKept | src/websocket.rs:58-92 | until the future of a tunnel that is leaving is dropped, and no longer |
| Lifecycle.HeldWhileOpen | src/lifecycle.rs:24-31 | a task holds the resource iff it took it and is checking, sending, streaming an open body, or a tunnel not yet torn down |
| Lifecycle.ReleasePoints | src/lifecycle.rs:24-31 | in every reachable state a holder lets go with the next step iff that step is one of its own release points |
| Lifecycle.HeldUntilLetGo | src/lifecycle.rs:24-31 | over whole schedules the taker holds the resource until its first release point, and it is released iff that has come |
| Lifecycle.UntakenInSlot | src/lifecycle.rs:22 | a resource that nobody took is released iff it has left its slot |
| Lifecycle.NothingLeaks | src/lifecycle.rs:18-28 | when no clone and no holder is left it has been released |
| Lifecycle.OnlyTheTakerHolds | src/lifecycle.rs:18-22 | once a task took the resource, no other task and no later attempt ever holds it |
| Lifecycle.BodyHoldsWhileOpen | src/lifecycle.rs:113-123 | in every schedule a body holds the resource iff its task took it and it has yielded no end and no error and never said that it has ended |
| Lifecycle.TunnelDropsTransportsFirst | src/websocket.rs:58-92 | a tunnel releases only when it holds no transport any more, however it ends |
| Retry.BufferBody | src/retry.rs:110-133 | Complete gives all data, at most the cap; TooLarge gives a stream with the same data and failures; an error exactly if the body breaks before the cap is passed |
| Retry.ChainedStream | src/retry.rs:116-124 | prefix, overflowing frame and rest concatenate to the original data, and fail iff it fails |
| Retry.RetryableIffNotConnected | src/retry.rs:92-97 | a reply is retryable iff the request was sent and failed to connect; no upstream response, timeout or bad upgrade can be |
| Retry.Replay | src/retry.rs:185-197 | between 1 and `attempts` identical attempts, all but the last failed to connect, and the last reply, as Answers.AnswerIff gives it, is returned |
| Retry.Call | src/retry.rs:154-200 | whole runs: equal parts and body data in every attempt, one attempt only for a body above the cap, at most one attempt reaches the upstream, the result is the last reply, as Answers.AnswerIff gives it; 400 with no attempt if the body breaks early |
| Discovery.FoldCharacterised | src/balanced_proxy.rs:285-322 | the folded list has unique keys, each entry made by the last change about its key, every key last inserted is listed, in order of arrival since its last removal |
| EndpointList.DiscoveryTask.Handle | src/balanced_proxy.rs:291-331 | one turn publishes the fold of one more change; an error publishes nothing; every earlier snapshot stays the fold of its prefix |
| EndpointList.DiscoveryTask.SharedMetrics | src/balanced_proxy.rs:298-317 | entries of any two snapshots share a metrics object iff they come from the same Insert |
| EndpointList.Discover | src/balanced_proxy.rs:285-336 | after any event stream the snapshot is the fold of its changes, errors ignored |
| Metrics.ServiceMetrics.UpdateEwma | src/balanced_proxy.rs:495-542 | under arbitrary interference the loop stores one update of the value present at its swap, decayed by the time since the last stamp, stamps the time, and fails exactly as often as others changed the value in between |
| Metrics.PendingRequestGuard.Drop | src/balanced_proxy.rs:446-452 | the counter of its own metrics goes down by one, wrapping |
| Balancer.PublishedAreDistinct | src/balanced_proxy.rs:298-326 | no two endpoints of a published snapshot share a metrics object |
| Balancer.Admit | src/balanced_proxy.rs:371-399 | an undisturbed admission is one step of the power-of-two process on the counters; none on an empty snapshot |
| Balancer.RaiseAndDrop | src/balanced_proxy.rs:392-402 | increment and drop leave every counter of the snapshot as it was |
| Balancer.StartCounting | src/balanced_proxy.rs:392-399 | on objects that reflect a state of the interleaving system, counting a request is that request's increment and guard steps |
| Balancer.StopCounting | src/balanced_proxy.rs:446-452 | and dropping the guard is its drop step |
| PowerOfTwo.NeverAloneAtTheTop | src/balanced_proxy.rs:419-439 | under any distinct draws each endpoint always has another one with at least its load minus one |
| PowerOfTwo.TwoSplitEvenly | src/balanced_proxy.rs:419-439 | two endpoints always differ by at most one |
| PowerOfTwo.LoadsAddUp | src/balanced_proxy.rs:393-396 | the loads add up to the number of admissions |
| PowerOfTwo.LessLoaded | src/balanced_proxy.rs:435-438 | of two drawn endpoints the less loaded one is taken, the first if they are level |
| Pending.StartsOnPublished | src/balanced_proxy.rs:345-379 | in every interleaving a request starts on exactly the list published last, and on none before the first publication |
| Pending.ChangeIsSeen | src/balanced_proxy.rs:291-326 | after a change is published the next request's snapshot lists the inserted endpoint, or no longer the removed one |
| Pending.SnapshotKeeps | src/balanced_proxy.rs:367 | a snapshot, once taken, never changes |
| Pending.DrawIsARun | src/balanced_proxy.rs:372-433 | on an empty snapshot a request ends without an endpoint, of a single one it takes that, else it draws two |
| Pending.ChoiceIsARun | src/balanced_proxy.rs:435-438 | whatever others do, it takes the first drawn exactly if the load read for it was at most the load read later for the second |
| Pending.CountIsARun | src/balanced_proxy.rs:392-399 | what is chosen is counted and then guarded, whatever others do in between |
| Pending.CanBeServed | src/balanced_proxy.rs:366-413 | from every reachable state with published endpoints a new request can come to be guarded on one of them |
| Pending.AlwaysExact | src/balanced_proxy.rs:366-452 | in every interleaving each counter is, modulo 2^64, its live guards plus the requests between increment and guard |
| Pending.NoUnderflow | src/balanced_proxy.rs:446-452 | with fewer than 2^64 in flight the counter is that number and no decrement goes below zero |
| Pending.MentionedBefore | src/balanced_proxy.rs:310-321 | a list gains no entry but the newest Insert's, so a removed metrics object never comes back |
| Pending.MentionedIff | src/balanced_proxy.rs:310-321 | the list mentions a metrics object iff no later change is about the key it was inserted for |
| Pending.RemovedDrains | src/balanced_proxy.rs:366-452 | once an endpoint is neither listed nor published no request comes to use it: in every continuation its users are among the old ones and bound its counter |
| Pending.DrainedForGood | src/balanced_proxy.rs:446-452 | once the requests that could use it at its removal are through, its counter is zero in every continuation |
| Pending.CanFinish | src/balanced_proxy.rs:371-413 | every request can finish by at most five steps of its own; that it does so with an endpoint is stated by Pending.CanBeServed |
| Pending.CanDrain | src/balanced_proxy.rs:366-452 | so the old users alone can bring the counter to zero, where it stays |
| Ewma.NoLostUpdate | src/balanced_proxy.rs:495-542 | in every interleaving the value is the fold of the successful swaps in order, one for each call that swapped, with that call's sample |
| Ewma.UpdatedBounds | src/balanced_proxy.rs:523-529 | in integers, an update is at least the decayed old value and a quarter of the sample, at most the larger of decayed value and sample |
| Ewma.UpdatedOverReals | src/balanced_proxy.rs:527-529 | the integer average is the floor of the source's weighted sum over the reals |
| Ewma.DecayOverReals | src/balanced_proxy.rs:520-522 | decay by any factor between 0 and 1 is among the decays that the system allows |
| Ewma.AttemptIsARun | src/balanced_proxy.rs:500-541 | one turn of the loop is a run of the system: it succeeds iff the others left the value as it was |
| Ewma.CallRecords | src/balanced_proxy.rs:495-496 | a call records its latency, cut to 64 bits |
| Ewma.NeverAboveTheLargestLatency | src/balanced_proxy.rs:495-542 | the stored value never exceeds the largest recorded latency |
| Ewma.FewFailures | src/balanced_proxy.rs:500-541 | among k calls none fails its swap more than k - 1 times |
| Ewma.SomeoneCanMove | src/balanced_proxy.rs:500-541 | lock and swap together cannot deadlock: while a call is unfinished some call can take a step |
| Ewma.LockExcludes | src/balanced_proxy.rs:510-540 | while one call holds the time lock no other has it, gets it, or stamps the time |
| RoundRobin.BalancedProxy.NextProxy | src/balanced_proxy.rs:82-89 | none without proxies; otherwise the next pick of the sequence, and the counter moves on, wrapping |
| RoundRobin.FairWithoutWrap | src/balanced_proxy.rs:86-87 | in any window without a wrap selection counts differ by at most 1 |
| RoundRobin.FairAcrossOneWrap | src/balanced_proxy.rs:86-87 | in any window of at most 2^64 increments they differ by at most 2 |
| RoundRobin.WrapCanRepeat | src/balanced_proxy.rs:381-383 | the bound 2 is reached |
| Dns.DnsDiscovery.ResolveAndSend | src/dns_discovery.rs:159-201 | a lookup replaces the services and sends exactly the set difference, removals first; a failure changes nothing |
| Dns.DnsDiscovery.Refresh | src/dns_discovery.rs:145-155 | a failed refresh sends one error and keeps the services |
| DnsAgreement.RefreshIsARun | src/dns_discovery.rs:128-156 | everything Refresh may do is a run of the transition system |
| DnsAgreement.ReplayAgrees | src/dns_discovery.rs:159-201 | in every interleaving, replaying what is still under way over the consumer's list gives exactly the services of the last lookup |
| DnsAgreement.CatchesUp | src/dns_discovery.rs:128-156 | from every state the pending sends and receives alone bring the consumer's list to exactly the services of the last lookup |
| DnsAgreement.TargetsRead | src/dns_discovery.rs:171-177 | every target that the consumer lists reads back as the configured scheme, the key's address and the port |
| Dns.UrlReads | src/dns_discovery.rs:171-177 | and so does every target made |
| DnsAgreement.QueuedChangesAreEffective | src/dns_discovery.rs:181-195 | each change under way will remove a live key or insert an absent one |
| DnsAgreement.KeepsItsInsert | src/dns_discovery.rs:181-198 | an address found by all later lookups keeps its Insert |
| DnsAgreement.ConsumerKeepsMetrics | src/balanced_proxy.rs:294-321 | so the consumer goes on listing it with the metrics object of that Insert |
| Paths.StrippersAgree | src/proxy.rs:377-389 | both strippers take the prefix off at a segment boundary and nowhere else; they differ only on `/` |
| Paths.MountTrimmed | src/proxy.rs:369 | trailing slashes of the mount path make no difference unless nothing else is left |
| Paths.RootMount | src/proxy.rs:377-404 | a root mount sends every path but `/` whole, and to where a route without prefix sends it iff the target's own query is absent or the request's |
| Paths.RootPath | src/proxy.rs:377-403 | what the path `/` gives, for every mount, the mount "" included |
| Paths.PatternPrefix | src/router_ext.rs:320-326 | the pattern `b/{...}` has the literal prefix b |
| Paths.PatternWithout | src/router_ext.rs:320-326 | in general the prefix is the pattern up to its first parameter without trailing slashes |
| Paths.TargetShape | src/proxy.rs:301-307 | what normalisation keeps of a target path, and when an empty remainder restores it |
| Paths.JoinersAgree | src/router_ext.rs:398-433 | proxy and route use the same URI iff the number of the target's trailing slashes fits the path and its own query is absent or the request's |
| Paths.MountingStyles | src/proxy.rs:368-419 | full path and nested path give the same URI iff nothing is left, or a bare slash is and the target ends in one, or what is left is not itself under the mount path |
| Paths.NestedRepeatDiffers | README.md:316 | a concrete pair of requests for which the mounting styles differ, for every target |
| Paths.JoinKeeps | src/proxy.rs:391-410 | the query is carried verbatim and no double slash appears that is in neither part |
| Paths.RouteJoinKeeps | src/router_ext.rs:409-425 | the same for a route's join, whose query is the target's own or else the request's |
| Paths.OwnPathKept | src/router_ext.rs:409-425 | a target that is no base URL is used with its own path, and its own query or else the request's |
| Paths.DestinationKept | src/router_ext.rs:403-407 | scheme and authority are the target's, http if it has no scheme |
| Paths.NoDestination | src/proxy.rs:294-300 | without an authority neither gives a URI |
| Template.Resolve | src/router_ext.rs:180-190 | the loop computes the replacements one after the other; what each writes is stated by Template.EscapedExactly and Template.ValueReadsBack |
| Template.EscapedExactly | src/router_ext.rs:132-139 | by byte value: visible ASCII but six delimiters is copied, all else is escaped |
| Template.EncodeDecodes | src/router_ext.rs:185 | an encoded value percent-decodes as the value itself does |
| Template.ValueReadsBack | src/router_ext.rs:185 | so it reads back exactly iff the value holds no escape of its own |
| Template.HoleReadsBack | src/router_ext.rs:183-187 | what stands in the place of a hole decodes to its parameter's value |
| Template.VideoExample | src/router_ext.rs:158-160 | the documented example, for all values that open no brace |
| Template.ResolvingKeepsDelimiters | src/router_ext.rs:127-139 | whatever the values, the URL has exactly the delimiters of its template, in order |
| Template.ResolvedIsSubstituted | src/router_ext.rs:180-190 | for flat templates, distinct brace-free keys and harmless values the loop is one simultaneous substitution |
| Template.SafeIffHarmless | src/router_ext.rs:180-190 | a value comes out unchanged in every flat template with all companions that open no brace iff it neither spells nor begins another placeholder |
| Template.SafeUnderEveryKey | src/router_ext.rs:180-190 | and so under every key iff it opens no brace |
| Template.OwnPlaceholderIsSafe | src/router_ext.rs:183-187 | under one key a value may open a brace and be safe: it may spell its own placeholder |
| Template.OrderIrrelevant | src/router_ext.rs:180-190 | so the order of the parameters does not matter |
| Template.BracesInValuesMatter | src/router_ext.rs:183-187 | a value that spells another placeholder makes the order matter, for all names and values |
| Template.NestedTemplatesMatter | src/router_ext.rs:183-187 | so does a nested placeholder |

## Left out

- HTTP clients, connections, TLS, sockets, the DNS lookup itself: sending is an arbitrary outcome, a lookup an arbitrary address list or a failure.
- Timers, wakers, the retry delay, the body cap on streamed bodies and the copying inside a tunnel: only the events they cause.
- Rounding of doubles and `exp`: the decayed value is any integer up to the current one and the average is computed exactly.
- Random draws are given, and are two distinct ones; that the loop at src/balanced_proxy.rs:428-433 ends is probabilistic.
- Relaxed memory ordering: every interleaving is one of atomic accesses in a single order. What a request reads from several counters is nevertheless read at different times.
- Requests of the latency strategy choose by decayed values; only their update of the average is modelled, not their choice.
- src/rfc9110.rs, a deprecated layer; src/danger.rs; StaticDnsDiscovery, whose one batch of Inserts is a special case; policy builders and logging.
- src/router.rs beyond the fact that mounting strips the path, and the extraction of path parameters.
- The grammar of URIs, schemes `ws` and `wss` on the upstream, asterisk-form paths, UTF-8: paths are strings that start with a slash, and a template value's non-ASCII bytes are encoded one by one.
- Dns.UrlReads: an IPv6 address is written without brackets, as the source does; whether the result parses as a URI is not modelled.
- Header map capacity limits, and hop lists of a response on its way back other than through the modelled proxies: a client sees a 101 as the proxy sent it.
- Refusal bodies and error texts; a response is its status, version, header map and error mark.
- Metrics.ServiceMetrics.UpdateEwma: others are given as what they leave between load and swap; who holds the time lock when is stated in Ewma.
- Balancer.Admit: states the undisturbed case; with others interfering, each access is a step of Pending (Balancer.StartCounting, Balancer.StopCounting).
- Ewma.UpdatedBounds: arithmetic is exact; doubles round values from 2^53 on.
- DnsAgreement.ReplayAgrees: the services are replaced when sending starts, not when it ends; the two differ only while unsent changes remain, and those are counted as under way.
- AddressChain.ForwardedElementsParsed: an entry is split at every comma; a reader that knows quoted strings may see one element where this counts two.
- Lifecycle.TunnelDropsTransportsFirst: covers transports already handed over; one that hyper still owns is outside the guard, as src/lifecycle.rs:31-36 says.
