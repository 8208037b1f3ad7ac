# A model of the gateway's egress, traffic and login logic

The gateway forwards requests through pools of nodes. This project models the parts of it that
decide: which nodes and templates a request may use and in which order, what a failed attempt does
to the pools, how requests travel between gateways, what the traffic store remembers across
restarts, how it reduces traces for its views, how URL rules match, and when a login is refused.

How the model is built:

- Code that changes things step by step is imperative here too. `EgressManager.Manager`, `Pool`,
  `NodeHealth.NodeEntry`, `ProxyServer.Server`, `LoginLimiter.Limiter`, `TraceStore.Store`,
  `TraceStore.Window`, `TraceFiles.TraceFiles` and `TraceSessions.PersistentStore` are classes whose
  methods are proved against specification functions; the loops over lists, maps and arrays are the
  source's loops. The theorems are lemmas about the specification functions.
- What the specification functions stand for is proved a second time, without them: `EgressMeaning`
  (which nodes and templates are candidates, in which order), `RouteMeaning` (routes), `ForwardMeaning`
  (what a gateway sends on, and when) and `TraceMeaning` (what counts as success, failure, group and
  bucket) say it in terms of the settings of pools, the options of requests and the fields of traces.
- Pools are seen as one `Snapshot` per selection. The order in which Go walks a map is arbitrary:
  every loop over a map picks any remaining key. `rand.Shuffle` is an arbitrary permutation.
- The outcome of an attempt, the fate of a forwarded message and the pools of other gateways come
  from oracles, so the theorems hold for every behaviour of the network.
- Times are integers (nanoseconds since Go's zero time, which is 0 or `Never`); clock readings are
  parameters. A local day is a fixed number of nanoseconds.
- A string is a sequence of characters that each stand for one byte; case and white space are the
  ASCII ones. `net/url` is a pair of functions with the few facts the proofs need (`TraceGroups.Lawful`).
- The concurrent queue of the trace writer is a state machine over the atomic steps of its
  goroutines.

Where the code falls short of what one would expect, the code is kept and the exact condition is
proved:

- With template fallback off, a premium request can lose templates that the same request without the
  preference would attempt. It does so in exactly two cases (`PreferenceLosesIff`): its own class has
  no node and an ordinary template that gives way, either to a premium template or, for a normal
  request, to a node of the residential class; or its own class has nothing, the residential class has
  no node, and an ordinary template there gives way to a premium one. The case of the residential node
  cannot be seen in any single group (`AppendedNodeHidesTemplate`). With the fallback on nothing is
  lost, and nodes are never lost as candidates (`PreferenceKeepsNodes`).
- `containsRegionCodeToken` skips a whole occurrence after a failed one. That is exact for every
  name if and only if the code has no self-overlap whose preceding character is not a letter
  (`ScanExactIff`); codes made of letters are therefore safe.
- The trace writer prunes its directory at the time of the trace it writes, not at the clock. After a
  restart the store shows, then and at every later time, exactly those of the traces it would have
  shown that are not older than the cutoff of the last record (`RestartShows`), so a restart is
  invisible if and only if there are no older ones (`RestartIsInvisibleIff`). Records dated on a later
  day than the clock can bring this about (`FutureTraceBreaksRestart`); records that are on time
  cannot (`RestartIsInvisible`). The gateway's own callers (internal/server/server.go:493 and
  internal/server/tunnel.go:342) leave the timestamp to the store, so such records come only through
  the store's `Record`.
- Folded successes and failure groups share one index of display rows. The display counts fewer
  requests than the metrics exactly when a failure key was used by a newer folded success first
  (`DisplayAgreesIff`); URLs with a scheme exclude this, "//host/path" does not
  (`SchemelessFailureIsHidden`).
- How many failures of an address the login limiter lets through in one window depends on the
  settings and on the number `c` of logins under way at once. The exact maximum is
  `b + (c - 1) + c * (window / lockout)`, where `b` is 1 if a single failure locks and
  `2 * maxFailures - 2` otherwise (`RateBound`, `LimitIsReached`). The bound `b` itself holds if and
  only if the lockout is longer than the window and logins come one at a time (`SharpBoundIff`).
- Round-robin gives the live nodes of a class fair shares of the first places if and only if nothing
  premium is preferred or all live nodes are premium (`FairIff`); the same holds for the answers of
  whole requests that leave the pools unchanged (`RequestsAreFairIff`). With the preference an ordinary
  node never comes first (`OrdinaryNeverLeads`), and the share of a live premium node is the gap before
  it in the sorted list (`PremiumCount`), so two of them share equally if and only if their gaps are
  equal (`EqualSharesIff`).

Files: `Text`, `Ordering`, `Products`, `Wrappers` (shared); `Pools`, `NodeHealth`, `Egress`,
`EgressTheorems`, `EgressManager`, `SelectionFairness`, `RegionToken` (internal/pool); `ProxyServer`,
`PremiumPreference`, `EgressMeaning`, `RouteMeaning`, `RequestFairness`, `RetryProgress`,
`ChijieForwarding`, `ForwardMeaning`, `ForwardLimit` (internal/server and its pools);
`LoginLimiter`, `LoginRate` (internal/admin); `WildcardMatch`,
`Traces`, `TraceId`, `TraceLog`, `TraceStore`, `TraceFiles`, `TraceSessions`, `PersistenceQueue`,
`TraceGroups`, `TraceReductions`, `TraceDisplay`, `TraceSeries`, `TraceSnapshot`, `TraceMeaning`
(internal/traffic).

## Model

| member | source | states |
|---|---|---|
| EgressMeaning.CandidatesAre | internal/pool/manager.go:400-583 | A choice is a candidate exactly if it is a node that can be tried or a template that is taken, of a class the request draws on: a node is switched on, in an enabled static or subscription pool, of the region and class, and alive, or the only such node, dead and marked to be tried; a template is enabled, usable and covers the class; normal requests draw on residential choices only for premium or if their class has nothing |
| EgressMeaning.LiveNodeIsCandidate | internal/pool/manager.go:512-528 | Every node that is switched on, alive and of the request's region and class is a candidate |
| EgressMeaning.CandidateIsLiveNode | internal/pool/manager.go:512-577 | Every candidate that is no template is such a node, alive or the only one and marked to be tried |
| EgressMeaning.NoCandidatesIff | internal/pool/manager.go:400-421 | There is no candidate exactly if no class the request may use has such a node or template |
| EgressMeaning.ClassNodesAre | internal/pool/manager.go:496-583 | The nodes of a class and the fields of their choices |
| EgressMeaning.TemplatesAre | internal/pool/manager.go:645-688 | The templates of a class, how unset coverage counts, and the fields of their choices |
| EgressMeaning.EntryListIsSorted | internal/pool/manager.go:531-536 | Nodes are listed by pool name and then node name, in byte order |
| EgressMeaning.LeastLatencyIsSorted | internal/pool/manager.go:842-856 | With least-latency, smaller latencies come first, unknown ones last, equal ones by name |
| EgressMeaning.AnyListIsSorted | internal/pool/manager.go:627-641 | So are the nodes for a request without a region |
| EgressMeaning.TemplateListIsSorted | internal/pool/manager.go:689-697 | Premium templates first for a premium request, then falling priorities, equal ones by pool name |
| EgressMeaning.RoundRobinTurns | internal/pool/manager.go:833-841 | Round-robin tries the list from the counted place on, around its end |
| EgressMeaning.MarkIs | internal/pool/manager.go:1167-1192 | A mark kills the first node of that name in that pool and counts one failure, unless it is direct or a name is blank; nothing else changes |
| RouteMeaning.DirectIff | internal/server/server.go:908-934 | A request goes out directly exactly if it names no region and asks neither for any nor for premium nodes |
| RouteMeaning.AnyRouteFailsIff | internal/server/server.go:992-1012 | A request for any region fails exactly if no class it may use has a node that is switched on, alive, not direct and within the latency limit |
| RouteMeaning.AnyRouteIs | internal/server/server.go:909-957 | Otherwise its choices are exactly these nodes; the class, group, region and premium flag of the route |
| RouteMeaning.NamedRouteFailsIff | internal/server/server.go:959-977 | A request for a named region fails exactly if the name is no code or no class it may use has anything to offer |
| RouteMeaning.NamedRouteIs | internal/server/server.go:964-990 | Otherwise its choices are the candidates; class, group, region and premium flag of the route |
| RouteMeaning.RoutesAreNormalFirst | internal/server/server.go:992-1012 | On every route normal choices come before residential ones |
| EgressTheorems.PremiumIsPreference | internal/pool/manager.go:423-448 | With template fallback, the group of a premium request is the group of the ordinary request with premium choices stably moved to the front |
| EgressTheorems.AliveExcludesOffline | internal/pool/manager.go:540-583 | A region and class never has both a live candidate and a try-offline node |
| EgressTheorems.OfflineIsSingle | internal/pool/manager.go:540-583 | There is at most one try-offline node |
| EgressTheorems.MergeIsPremiumFirst | internal/pool/manager.go:884-910 | Merging for premium rearranges the ordinary merge, provided one of the two node lists is empty |
| EgressTheorems.GroupIsComplete | internal/pool/manager.go:423-448 | With fallback a group is a permutation of all live nodes, the try-offline node and all usable covering templates: nothing lost, nothing twice |
| EgressTheorems.GroupMembers | internal/pool/manager.go:423-448 | Without fallback too, a group holds only what its class offers and is empty only if the class offers nothing |
| EgressTheorems.PremiumWithoutFallback | internal/pool/manager.go:884-910 | Without fallback a premium group is the premium part of the full group, templates included, and then the ordinary nodes |
| EgressTheorems.PreferenceLosesTemplatesIff | internal/pool/manager.go:884-910 | Within one group, without fallback, the preference loses a choice exactly when there is no node to try and there are premium and ordinary templates |
| PremiumPreference.PreferenceLosesIff | internal/server/server.go:580-623 | A request for a named region attempts with the preference every template that it attempts without it, unless the fallback is off and an ordinary template gives way: in its own class without nodes, to a premium template or to the residential nodes appended for a normal request, or in the residential class that an empty normal class falls back to |
| PremiumPreference.LosesOwnIff | internal/server/server.go:602-614 | Which templates of the own class are lost: all ordinary ones, exactly in that case |
| PremiumPreference.LosesFallbackIff | internal/pool/manager.go:413-419 | The same for the templates of the residential class |
| PremiumPreference.AttemptsHold | internal/server/server.go:602-614 | A template is attempted exactly if it is a candidate and no candidate is a node, or the fallback is on, or both it and the request are premium |
| PremiumPreference.GroupHolds | internal/pool/manager.go:423-448 | Which nodes and templates are in a group, with and without preference and fallback |
| PremiumPreference.CandidatesHold | internal/pool/manager.go:400-465 | Which choices are candidates: those of the own group, and those of the residential group appended for premium or fallen back to |
| PremiumPreference.PreferenceKeepsNodes | internal/pool/manager.go:450-461 | Every node that is a candidate without the preference is one with it |
| PremiumPreference.AppendedNodeHidesTemplate | internal/server/server.go:594-610 | With one ordinary template of the normal class and one residential node, the premium request does not attempt the template although its own group holds it |
| EgressTheorems.ClassIsolation | internal/pool/manager.go:370-421 | Residential requests get residential candidates only; ordinary normal ones get residential ones only if their class offers nothing; premium normal ones get their whole group and then the whole residential group |
| EgressTheorems.SelectionFailsIff | internal/pool/manager.go:400-421 | Selection fails exactly when the region is invalid or no permitted class offers a live node, a try-offline node or a usable covering template |
| EgressTheorems.OrderedPermutes | internal/pool/manager.go:826-863 | Every strategy tries a permutation of the candidates |
| EgressTheorems.CountersAdvanceOnce | internal/pool/manager.go:423-426 | One selection advances the counter of any group by at most one although a group orders two lists with it, and only under round-robin |
| EgressTheorems.GroupAdvances | internal/pool/manager.go:423-426 | The counter of a class advances exactly when round-robin orders a non-empty list of its nodes |
| EgressTheorems.TurnsCount | internal/pool/manager.go:826-840 | In k consecutive orderings a candidate comes first once per full turn, and once more if the last incomplete turn reached it |
| EgressTheorems.RoundRobinIsFair | internal/pool/manager.go:826-840 | Over any k consecutive orderings of n candidates each is first floor(k/n) or ceil(k/n) times |
| SelectionFairness.SelectionIsFair | internal/pool/manager.go:370-448 | Over any k selections on unchanged pools, without anything premium to prefer, each of the n live nodes of the class leads the candidates floor(k/n) or ceil(k/n) times |
| SelectionFairness.FairIff | internal/pool/manager.go:370-448 | Every live node always has its fair share if and only if nothing premium is preferred or all live nodes are premium |
| SelectionFairness.OrdinaryNeverLeads | internal/pool/manager.go:884-910 | If there is something premium to prefer, an ordinary node leads no selection |
| SelectionFairness.PremiumCount | internal/pool/manager.go:884-910 | With the preference a live premium node leads once per full turn and node of its gap, and once more for each node of its gap that the last incomplete turn reaches; its gap is its distance from the premium node before it in the sorted list |
| SelectionFairness.ReachedIs | internal/pool/manager.go:826-840 | How many nodes of a gap an incomplete turn reaches, in closed form |
| SelectionFairness.PremiumShare | internal/pool/manager.go:884-910 | With k = q n + r selections, a live premium node of gap g leads between g q + max(0, g + r - n) and g q + min(g, r) of them |
| SelectionFairness.EqualSharesIff | internal/pool/manager.go:884-910 | Over full turns two live premium nodes lead equally often if and only if their gaps are equal |
| SelectionFairness.FirstPremiumIff | internal/pool/manager.go:826-840 | In the turned list a premium node is the first premium one exactly if the turn starts in its gap |
| SelectionFairness.UnevenGaps | internal/pool/manager.go:884-910 | Of two premium nodes with an ordinary one between them the second leads twice as often as the first |
| RequestFairness.OneRequest | internal/server/server.go:434-456 | A request for a named region with live nodes whose first attempt is answered leaves the pools unchanged, moves the counters on by one selection and is answered by the first candidate |
| RequestFairness.RunFollows | internal/server/server.go:434-456 | In a run of such requests each is answered by the head of its selection |
| RequestFairness.RequestsAreFairIff | internal/server/server.go:434-456 | In every run of such requests each live node answers floor(k/n) or ceil(k/n) of k, if and only if nothing premium is preferred or all live nodes are premium |
| SelectionFairness.TemplateLeads | internal/pool/manager.go:884-910 | With premium templates but no live premium node, the same template leads every selection |
| EgressTheorems.TemplatesPremiumFirst | internal/pool/manager.go:689-697 | The template list of a premium request is the ordinary list with premium templates stably first |
| EgressTheorems.AnyGroupProperties | internal/pool/manager.go:483-494 | Without a region, premium only rearranges, and the candidates are exactly the permitted live nodes |
| Egress.NodeOrdersAreTotal | internal/pool/manager.go:842-856 | The name order and the latency order (0 last, ties by pool and node) are strict and total on distinctly named nodes |
| Egress.TemplateOrdersAreTotal | internal/pool/manager.go:689-697 | Both template orders are strict and total on distinct pools |
| Egress.ChoicesAreIdentified | internal/pool/manager.go:496-538 | Distinct node names make pool and node name identify a choice |
| Ordering.ListingIsUnique | internal/pool/manager.go:531-536 | A set has only one sorted listing under a strict total order, so map iteration order cannot show |
| Ordering.ListingExists | internal/pool/manager.go:627-641 | Every set has one under such an order |
| Ordering.SortSlice | internal/pool/manager.go:531-536 | Sorting a list without ties yields that unique listing |
| EgressManager.Manager.EntryChoices | internal/pool/manager.go:496-538 | Walking the pools in any order collects exactly the enabled live nodes of the region and class, sorted by name |
| EgressManager.Manager.AppendAlive | internal/pool/manager.go:512-528 | The loop over one pool's nodes adds exactly its matching live nodes |
| EgressManager.Manager.TryOfflineEntryChoices | internal/pool/manager.go:540-583 | Yields the try-offline node exactly when the region and class has a single node, dead and marked to be tried |
| EgressManager.Manager.CountAllMatching | internal/pool/manager.go:540-583 | Counting all matching nodes, dead ones included, decides whether the remembered dead node may be tried |
| EgressManager.Manager.CountMatching | internal/pool/manager.go:552-577 | The loop over one pool's nodes counts each matching node once |
| EgressManager.Manager.AnyEntryChoices | internal/pool/manager.go:585-643 | Collects exactly the live nodes of the class that are not direct and within the latency limit, sorted by latency |
| EgressManager.Manager.TemplateChoices | internal/pool/manager.go:645-699 | Collects exactly the enabled, covering, usable templates, in the order for the request |
| EgressManager.Manager.OrderEgressChoices | internal/pool/manager.go:826-863 | Orders by strategy and advances the round-robin counter of the key, of no other key |
| EgressManager.Manager.OrderedNodes | internal/pool/manager.go:423-426 | Orders live nodes and try-offline node under one key |
| EgressManager.Manager.EgressCandidateGroup | internal/pool/manager.go:423-448 | Merges the three lists to the specified group and leaves the specified counters |
| EgressManager.Manager.SelectEgressCandidates | internal/pool/manager.go:370-421 | Both named selections with their residential fallback refine the specification; an empty list is their error |
| EgressManager.Manager.SelectAnyEgressCandidates | internal/pool/manager.go:483-494 | The selection without region refines its specification |
| EgressManager.Manager.MarkNodeUnavailable | internal/pool/manager.go:1167-1192 | Kills exactly the first node of that name unless it is direct, counts one failure, and says whether it did |
| EgressManager.Pool.Mark | internal/pool/manager.go:1181-1191 | Its loop over the nodes of a pool |
| NodeHealth.NodeEntry.constructor | internal/pool/manager.go:1219-1232 | A node starts alive with no failure counted |
| NodeHealth.NodeEntry.UpdateHealth | internal/pool/health.go:659-679 | A probe result changes liveness, count and latency as specified and reports the moment of death |
| NodeHealth.HistoryDecidesLiveness | internal/pool/health.go:659-679 | On every run of probes and proxy marks a node is alive exactly when since its last success no mark hit it and fewer than the threshold of probes failed |
| NodeHealth.CountWhileAlive | internal/pool/health.go:659-679 | While a node is alive its count is the failed probes since its last success |
| NodeHealth.OnlyHealthChanges | internal/pool/health.go:659-679 | The latency is that of the last successful probe, and nothing but liveness, count and latency ever changes |
| RegionToken.ContainsRegionCodeToken | internal/pool/manager.go:1388-1414 | The search for a trimmed, upper-cased code reports what the scan from the start finds |
| RegionToken.Scan | internal/pool/manager.go:1394-1412 | The loop with its jumps computes the scan |
| RegionToken.Qualifies | internal/pool/manager.go:1396-1404 | An occurrence counts if no letter stands before it and, after digits, none behind it |
| RegionToken.ScanIsSound | internal/pool/manager.go:1388-1414 | A reported token is there, for every name and code |
| RegionToken.ScanFindsToken | internal/pool/manager.go:1405-1412 | Without a loose border no occurrence that is jumped over could qualify |
| RegionToken.LooseBorderMissesToken | internal/pool/manager.go:1405-1412 | Every loose border gives a name whose only token is missed |
| RegionToken.ScanExactIff | internal/pool/manager.go:1388-1414 | The search is exact on all names if and only if the code has no loose border |
| RegionToken.LetterCodesAreExact | internal/pool/manager.go:1388-1414 | For codes of letters the search finds a token exactly when there is one |
| RegionToken.TokenMeans | internal/pool/manager.go:1396-1404 | A token is the code between something not ending in a letter and, after digits, something beginning with neither digit nor letter |
| ProxyServer.ProxyAttemptRoutes | internal/server/server.go:580-623 | The cut of the candidates to the attempts, with the effective settings |
| ProxyServer.Effective | internal/server/server.go:283-298 | At least one and at most 50 node attempts and redirects; without a number of attempts, and for numbers that are too large, all settings are the defaults, the template fallback included |
| ProxyServer.Validated | internal/server/server.go:148-168 | Valid settings stay as they are; zero numbers get their defaults; too large ones bring back all defaults |
| ProxyServer.NodesAttempted | internal/server/server.go:602-621 | The attempts contain exactly the first MaxAttempts nodes, in order |
| ProxyServer.TemplatesAttempted | internal/server/server.go:602-621 | With the fallback on, or without nodes, every template is attempted, in order |
| ProxyServer.AttemptsKeepOrder | internal/server/server.go:580-623 | The attempts are a subsequence of the candidates |
| ProxyServer.AttemptsExist | internal/server/server.go:580-623 | A route with candidates always has something to attempt |
| ProxyServer.Server.DoProxyWithRetry | internal/server/server.go:548-578 | Stops at the first success, fatal error or cancellation and marks exactly the nodes, not templates, whose attempt failed retryably |
| ProxyServer.Server.TryInTurn | internal/server/server.go:555-570 | Its loop, pools included |
| ProxyServer.Server.ReportFailure | internal/server/server.go:625-632 | A retryable failure marks its node unless it is a template or the direct route |
| ProxyServer.StopsAtFirst | internal/server/server.go:548-578 | Every attempt before the last one failed retryably |
| ProxyServer.TriedMeans | internal/server/server.go:548-578 | The loop's result and marks in closed form, for every outcome oracle |
| ProxyServer.MarkAllChangesExactly | internal/pool/manager.go:1167-1192 | Marks kill exactly the named nodes that are not direct; every other node and field stays |
| ProxyServer.Server.ResolveEgress | internal/server/server.go:898-990 | The route of a request, direct, any region or a named region, with their errors, and the counters left behind |
| ProxyServer.Server.SelectAny | internal/server/server.go:992-1012 | The residential fallback of a request without a region, and the counters left behind |
| RetryProgress.FailedRequestMarks | internal/server/server.go:548-578 | A request whose attempts through nodes all fail leaves exactly its attempted nodes marked, whether or not a template answers it |
| RetryProgress.AllReportedIff | internal/server/server.go:548-578 | A request reports all nodes among its attempts if and only if its attempts through nodes all fail |
| RetryProgress.NamedRequestMarks | internal/server/server.go:434-456 | The same from the resolution of a named region to the end of the attempts |
| ProxyServer.Server.HandleProxy | internal/server/server.go:434-456 | A request resolves its route and tries it; the answer, the pools and the round-robin counters are the specified ones |
| ProxyServer.AnswerExists | internal/server/server.go:434-456 | Only a request without a route gets no answer |
| RetryProgress.SurvivorsAreUnnamed | internal/pool/manager.go:1187-1189 | After marks, the live nodes of a class are among the old ones that no mark named |
| RetryProgress.OwnNodesFirst | internal/pool/manager.go:423-448 | The nodes among the candidates begin with all live nodes of the request's own class |
| RetryProgress.RequestKills | internal/server/server.go:548-632 | Such a request leaves MaxAttempts fewer live nodes in the class, or none |
| RetryProgress.FailedRequestsKillAll | internal/server/server.go:548-632 | After ceil(n / MaxAttempts) requests for a region and class whose node attempts all fail none of n live nodes is left, whatever strategy, preference and order each has and whatever its templates do |
| ChijieForwarding.ForwardsAreBounded | internal/server/server.go:401-405 | With at most b Chijie choices in any list, one request causes at most b + b^2 + b^3 forwarded messages among any, also cyclic, gateways |
| ChijieForwarding.HandleBudget | internal/server/server.go:401-405 | The bound for every number of hops left |
| ChijieForwarding.FewChijieAttempts | internal/server/server.go:580-623 | Cutting to the attempts adds no Chijie choice |
| ChijieForwarding.RouteChoices | internal/server/server.go:898-990 | Only named regions meet templates; these keep the region and a residential demand |
| ChijieForwarding.ForwardIsDerived | internal/server/server.go:758-793 | The rewritten request asks for the same thing, at least as demandingly |
| ChijieForwarding.HandleDerives | internal/server/server.go:537-546 | Every message is below its cause in the call tree, within the hop limit and derived from every message above it |
| ChijieForwarding.ChainsKeepTheRequest | internal/server/server.go:758-793 | Every forwarded message keeps URL, payload and region; along a chain residential and premium never go back to false, and the hop number grows up to three |
| ForwardMeaning.EveryMessageIsSent | internal/server/server.go:758-793 | Every message of a call tree is its sender's request at the template the sender attempts: residential if and only if the template is, premium if and only if the request or the template is, for the template's region, everything else kept |
| ForwardMeaning.CallRoute | internal/server/server.go:898-990 | The route of a call is decided by the options of the request that arrives and the pools of the gateway it arrives at |
| ForwardMeaning.CallStrategy | internal/server/server.go:898-957 | The strategy of a call is that of its request: with least-latency its nodes are tried by latency |
| ForwardMeaning.CallMeans | internal/server/server.go:548-578 | A call answers without error exactly if it is accepted within three hops and its first attempt that does not fail over succeeds; it sends exactly the Chijie attempts up to that one |
| ForwardMeaning.AnswerMeans | internal/server/server.go:548-578 | The same for the answer, from any attempt on |
| ForwardMeaning.MessagesMean | internal/server/server.go:548-578 | The same for the messages: lost answers, messages not sent and gateway errors fail over, unreadable answers and cancelled requests do not |
| ForwardLimit.BoundIsReached | internal/server/server.go:401-405 | For every b some gateways with at most b Chijie choices send exactly b + b^2 + b^3 messages for one request |
| LoginLimiter.Limiter.constructor | internal/admin/login_limiter.go:24-40 | Non-positive settings get their defaults |
| LoginLimiter.Limiter.Allow | internal/admin/login_limiter.go:44-65 | The answer, the waiting time and the reset of a window that is over |
| LoginLimiter.Limiter.RecordFailure | internal/admin/login_limiter.go:67-94 | The whole table after a failure and the deletion loop, which keeps the entry just updated and every locked one |
| LoginLimiter.Limiter.RecordSuccess | internal/admin/login_limiter.go:96-103 | Only the entry of that address goes |
| LoginLimiter.CleanupInvisible | internal/admin/login_limiter.go:87-92 | On every run with a monotone clock the answers and waiting times are those of a limiter that never deletes |
| LoginLimiter.StepKeepsView | internal/admin/login_limiter.go:44-94 | Tables that mean the same still do after any operation, with cleanup on one side only |
| LoginLimiter.StaleIsInvisible | internal/admin/login_limiter.go:88-92 | What is deleted had neither a lock nor a count that matters |
| LoginLimiter.WaitIsExact | internal/admin/login_limiter.go:55-57 | A refused address is allowed again after exactly the time it is told to wait |
| LoginLimiter.LockoutIsFull | internal/admin/login_limiter.go:84-86 | A failure that fills the count refuses the address for the whole lockout |
| LoginRate.InvStep | internal/admin/login_limiter.go:44-94 | Every permitted operation, with any number of logins under way and other addresses in between, keeps the entry in step with the failures recorded |
| LoginRate.ExpectedAfterFailure | internal/admin/login_limiter.go:77-86 | A failure, also one that is recorded during a lock, leaves the entry that the list of failures determines |
| LoginRate.FewLock | internal/admin/login_limiter.go:84-86 | Failures that lock come at most c at a time, a lockout apart |
| LoginRate.FewFree | internal/admin/login_limiter.go:77-83 | Failures that do not lock come from at most two groups in one window, and the older group's first one lies outside |
| LoginRate.RateBound | internal/admin/login_limiter.go:44-86 | For every setting and at most c logins of the address under way, no interval as long as the window holds more recorded failures than the limit |
| LoginRate.LimitInWords | internal/admin/login_limiter.go:44-86 | The limit is 2 maxFailures - 2 (1 if one failure locks) plus c - 1 plus c for every lockout that fits into the window |
| LoginRate.LimitIsReached | internal/admin/login_limiter.go:44-86 | For every setting and every c a run reaches the limit |
| LoginRate.BoundHoldsIff | internal/admin/login_limiter.go:44-86 | A bound holds on all runs if and only if it is at least the limit |
| LoginRate.SharpBoundIff | internal/admin/login_limiter.go:44-86 | 2 maxFailures - 2 (or 1) failures per window is a bound if and only if the lockout is longer than the window and logins come one at a time |
| LoginRate.LooseBoundIff | internal/admin/login_limiter.go:44-86 | With one login at a time 2 maxFailures - 1 is a bound if and only if two lockouts are longer than the window, or one lockout if a single failure locks |
| WildcardMatch.Match | internal/traffic/grouping.go:270-301 | The greedy match answers true exactly when every star can be replaced to give the value |
| WildcardMatch.SplitKeepsMeaning | internal/traffic/grouping.go:278-285 | Splitting at the stars keeps the meaning of a pattern |
| WildcardMatch.LeftmostIsEnough | internal/traffic/grouping.go:286-295 | Taking the leftmost occurrence of a middle piece loses no match |
| WildcardMatch.FitsConcat | internal/traffic/grouping.go:270-301 | Patterns compose: matching two texts matches their concatenation |
| WildcardMatch.MatchSegments | internal/traffic/grouping.go:240-249 | Equally many segments, each fitting its own pattern segment |
| WildcardMatch.MatchHost | internal/traffic/grouping.go:234-250 | Host rules match label by label; an empty pattern matches every host |
| WildcardMatch.MatchPath | internal/traffic/grouping.go:252-268 | Path rules match segment by segment |
| WildcardMatch.HostFitsIsStricter | internal/traffic/grouping.go:234-250 | A host rule is stricter than its pattern read as one glob: a star never crosses a dot |
| WildcardMatch.PathRule | internal/traffic/grouping.go:252-268 | A path rule of some segments matches exactly the paths of as many segments that fit one by one, whatever slashes stand around |
| WildcardMatch.HostRule | internal/traffic/grouping.go:234-250 | The same for hosts and dots, where the rule's letter case does not matter |
| TraceId.FormatId | internal/traffic/store.go:446-459 | Prints base 36 without leaving its 16-byte buffer, for every 64-bit value |
| TraceId.Int64Fits | internal/traffic/store.go:446-459 | A 64-bit value has at most 13 digits |
| TraceId.RoundTrip | internal/traffic/store.go:461-468 | Parsing "trace-" and the printed number gives the number back |
| TraceId.IdsAreDistinct | internal/traffic/store.go:127-128 | Different counter values never share an identifier |
| TraceStore.Window.Append | internal/traffic/store.go:132-136 | Appending and shifting in place keeps the newest traces up to the capacity |
| TraceStore.Window.Prune | internal/traffic/store.go:244-257 | Filtering in place keeps exactly the unexpired traces in order |
| TraceStore.Window.Replace | internal/traffic/store.go:174-176 | Takes over the newest traces of a list |
| TraceStore.Store.constructor | internal/traffic/store.go:90-99 | An empty store; a non-positive capacity means 1000 |
| TraceStore.Store.Record | internal/traffic/store.go:123-136 | Prunes, numbers, stamps and appends, and touches nothing else |
| TraceStore.Store.Recent | internal/traffic/store.go:214-226 | The newest traces first, up to the limit |
| TraceStore.Store.Restore | internal/traffic/store.go:167-186 | Merges loaded and present traces by a stable sort, keeps the newest, continues the numbering and dates the start back to the oldest trace |
| TraceStore.Store.TunnelOpened | internal/traffic/store.go:200-204 | The count stays the one that the run of opens and closes determines |
| TraceStore.Store.TunnelClosed | internal/traffic/store.go:206-212 | The same for a close, which may come before its open |
| TraceStore.TunnelsAreMatched | internal/traffic/store.go:200-212 | Over every run the count is opens minus those closes that found an open tunnel |
| TraceStore.TunnelsBalanceIff | internal/traffic/store.go:200-212 | It is opens minus closes if and only if no close ever came before its open |
| TraceStore.StableSortedIsStable | internal/traffic/store.go:171-173 | The sort is chronological and keeps the order of traces of the same instant |
| TraceStore.StableSortIsUnique | internal/traffic/persistence.go:245-247 | No other list has these two properties |
| TraceLog.UnexpiredIsTail | internal/traffic/store.go:244-257 | The unexpired part of a chronological log is its end |
| TraceLog.KeepsPrune | internal/traffic/store.go:244-257 | Pruning the bounded log shows the last capacity of all unexpired traces |
| TraceLog.KeepsAppend | internal/traffic/store.go:132-136 | Dropping the oldest trace of a full log keeps the end of the history |
| TraceLog.RetentionMeans | internal/traffic/store.go:244-257 | A trace is kept as long as its day is one of the last so many days, seven if the setting is below one |
| TraceFiles.TraceFiles.constructor | internal/traffic/persistence.go:39-69 | Opening a directory prunes it |
| TraceFiles.TraceFiles.Prune | internal/traffic/persistence.go:251-271 | Removes exactly the files of days before the first kept day |
| TraceFiles.TraceFiles.WriteTrace | internal/traffic/persistence.go:140-184 | Appends to the file of the trace's day, pruning when the day changes |
| TraceFiles.TraceFiles.LoadRecent | internal/traffic/persistence.go:201-249 | Reads the files by name through a sliding window and sorts what is left |
| TraceFiles.TraceFiles.ReadFile | internal/traffic/persistence.go:223-240 | The loop over the lines of one file |
| TraceFiles.ReadableIs | internal/traffic/persistence.go:230-232 | A record is read back exactly if it has a time |
| TraceSessions.PruneOnDisk | internal/traffic/persistence.go:251-271 | Pruning whole files by their day removes exactly the traces that pruning by timestamp removes |
| TraceSessions.AppendOnDisk | internal/traffic/persistence.go:140-184 | Writing to the newest file appends to the whole directory |
| TraceSessions.RestartLoads | internal/traffic/persistence.go:201-249 | Loading the pruned directory yields the newest traces of the history from the cutoff of the clock or of the last record on |
| TraceSessions.InvStep | internal/traffic/store.go:123-189 | Every record, look and restart keeps memory and disk in step with the history |
| TraceSessions.ShowsTheNewest | internal/traffic/store.go:123-136 | After any run of records, looks and restarts the store shows exactly the last capacity of all traces ever recorded that are neither expired nor older than what restarts have cut off, in order |
| TraceSessions.RestartIsInvisible | internal/traffic/store.go:149-189 | If no record is dated on a later day than the clock, a store closed and reopened shows at every later time exactly what the old one would show |
| TraceSessions.BoundedLog | internal/traffic/store.go:123-136 | Without restarts the store shows the last capacity of all unexpired traces ever recorded, whatever their dates |
| TraceSessions.RestartShows | internal/traffic/store.go:149-189 | A restart at any moment removes from what is shown, then and later, exactly the traces older than the cutoff of the last record |
| TraceSessions.RestartIsInvisibleIff | internal/traffic/store.go:149-189 | A restart cannot be seen if and only if no trace that is shown is older than that cutoff |
| TraceSessions.ShownIdsAreDistinct | internal/traffic/store.go:178-182 | The traces shown never share an identifier, however often the store was restarted |
| TraceSessions.WriterPruneIsSafeIff | internal/traffic/persistence.go:164-166 | Pruning at the time of the written trace loses an unexpired trace exactly when one lies between the two cutoffs |
| TraceSessions.FutureTraceBreaksRestart | internal/traffic/persistence.go:164-166 | For every retention and every capacity of at least two, a record dated when today has expired makes a restart lose today's trace |
| TraceSessions.PersistentStore.constructor | internal/traffic/store.go:149-189 | A new store on an old directory is the specified restart |
| TraceSessions.PersistentStore.Record | internal/traffic/store.go:123-147 | Recording and writing is the specified step |
| TraceSessions.PersistentStore.Recent | internal/traffic/store.go:214-226 | Looking is the specified step |
| PersistenceQueue.InvStep | internal/traffic/persistence.go:85-119 | The invariant that every atomic step of producers, closers and writer keeps |
| PersistenceQueue.StepConserves | internal/traffic/persistence.go:85-119 | No step loses or copies a trace |
| PersistenceQueue.QueueIsSafe | internal/traffic/persistence.go:85-119 | On every interleaving nothing is sent on the closed channel, the writer gets the accepted traces once and in order, all of them before a close returns |
| PersistenceQueue.ProducersKeepOrder | internal/traffic/persistence.go:85-95 | On every interleaving the writer gets the traces of each producer in the order in which that producer enqueued them |
| PersistenceQueue.NothingAcceptedAfterClose | internal/traffic/persistence.go:89-94 | Once a close has returned nothing is accepted any more |
| PersistenceQueue.NoDeadlock | internal/traffic/persistence.go:85-119 | No reachable state is stuck, also with a full queue and a close waiting for the lock |
| PersistenceQueue.StepDecreasesWork | internal/traffic/persistence.go:184-199 | Every step is progress |
| PersistenceQueue.EveryRunEndsWell | internal/traffic/persistence.go:108-119 | No run is endless, and one that cannot go on has written every accepted trace and returned every close |
| PersistenceQueue.CloseIsNotOvertaken | internal/traffic/persistence.go:85-119 | Once close has been called, each producer inside enqueue gets at most one more trace accepted, and no other producer any |
| PersistenceQueue.SendWaitsIff | internal/traffic/persistence.go:85-95 | A producer past the check waits exactly while the channel is full |
| TraceGroups.RuleMatches | internal/traffic/grouping.go:226-232 | A rule matches if host and path fit its patterns |
| TraceGroups.SuccessFoldGroup | internal/traffic/success_folding.go:65-97 | A trace folds exactly when folding is on, it is a clean 200 with a host and some rule fits; its key and target |
| TraceGroups.CollectDropKeys | internal/traffic/grouping.go:190-203 | The keys dropped and the sorting asked for by all matching rules |
| TraceGroups.DropFrom | internal/traffic/grouping.go:208-215 | Deletes exactly these keys from the query and says whether it deleted any |
| TraceGroups.NormalizeFailureURL | internal/traffic/grouping.go:180-224 | Leaves a URL as it is or prints it without fragment and dropped keys, its host in lower case |
| TraceGroups.FailureGroupKey | internal/traffic/grouping.go:157-170 | The key of a failure; empty if it is not grouped |
| TraceGroups.FailureGroupTarget | internal/traffic/grouping.go:172-178 | The normalised URL, or the target of a trace without URL |
| TraceGroups.DroppedKeysDoNotMatter | internal/traffic/grouping.go:180-224 | URLs that differ only in dropped keys and fragments are one target, provided a matching rule sorts the query or both have a key to drop |
| TraceGroups.KeysAreDisjoint | internal/traffic/success_folding.go:85-96 | Keys of folded successes and of failures differ unless a failing target starts with two slashes |
| TraceGroups.SchemesDistinguish | internal/traffic/grouping.go:157-178 | A URL with a scheme never yields such a target, normalised or not |
| TraceReductions.MetricsOf | internal/traffic/store.go:259-293 | Counts, bytes and average latency: failures are counted once per group, folded successes not at all |
| TraceReductions.Measured | internal/traffic/store.go:264-293 | One turn of its loop |
| TraceReductions.RawRequestsPartition | internal/traffic/store.go:259-293 | Raw requests are folded successes, raw failures and successes; requests are successes and failures |
| TraceDisplay.DisplayTraces | internal/traffic/store.go:318-368 | The rows built with a map from keys to row numbers are the specified ones |
| TraceDisplay.Place | internal/traffic/store.go:321-361 | One turn of its loop keeps the map and the rows in step |
| TraceDisplay.DisplayIs | internal/traffic/store.go:318-368 | The rows are exactly the lone traces in order and one row per key, showing its newest trace and, if several, all of them in order |
| TraceDisplay.CountsAddUp | internal/traffic/store.go:318-368 | Group counts add up to the number of traces, always |
| TraceDisplay.RowsAndHiddenAreRequests | internal/traffic/store.go:318-368 | Rows that count plus failure keys hidden behind a folded success are the effective requests |
| TraceDisplay.DisplayAgreesIff | internal/traffic/store.go:318-368 | The display agrees with the metrics exactly when no failure key is hidden |
| TraceSeries.BuildSeries | internal/traffic/store.go:370-429 | The buckets of the last 24 hours, one per minute in which something counted, sorted by time |
| TraceSeries.FillBuckets | internal/traffic/store.go:377-412 | The maps filled by its first loop |
| TraceSeries.ListBuckets | internal/traffic/store.go:414-425 | One bucket per minute, in the order of a map |
| TraceSeries.SumsOver | internal/traffic/store.go:370-412 | Summed over the minutes, every effective request is counted once |
| TraceSeries.SeriesAddsUp | internal/traffic/store.go:370-429 | The buckets increase in time and add up to the effective requests and failures of the last 24 hours |
| TraceSnapshot.ReductionsAgree | internal/traffic/store.go:228-234 | On traces whose URLs carry a scheme, metrics, display and series count the same requests |
| TraceMeaning.FoldedIff | internal/traffic/success_folding.go:58-83 | A trace is folded exactly if folding is on, its status is 200 without error, and host and path of its URL fit some rule |
| TraceMeaning.SameFoldTargetIff | internal/traffic/success_folding.go:85-91 | Folded traces share a target exactly if their hosts agree but for case and their paths agree, no path being "/" |
| TraceMeaning.AreaIsGroup | internal/traffic/grouping.go:303-315 | The area of a key is the egress group: the recorded one, or the one that selection uses for region and class |
| TraceMeaning.SameKeyIff | internal/traffic/grouping.go:165-169 | Two keys are equal exactly if kind, target and area are, unless kinds or targets hold NUL |
| TraceMeaning.NormalizedIs | internal/traffic/grouping.go:180-224 | Which URLs are rewritten, and that they lose exactly the fragment and the keys that some matching rule drops |
| TraceMeaning.MetricsMean | internal/traffic/store.go:259-293 | Successes, folded or not, are the traces with a status other than 0 below 400 and no error; all others are failures, counted singly or once per key; folded traces add no bytes |
| TraceMeaning.LatenciesAre | internal/traffic/store.go:288-292 | The average is over the positive latencies of the successes that are not folded |
| TraceMeaning.AverageIs | internal/traffic/store.go:305-310 | An average is the whole part of sum by count, and 0 of nothing |
| TraceMeaning.SharedRowsAre | internal/traffic/store.go:318-361 | A row of several traces holds only failures and folded successes of its key; a row shows the target of its newest trace and is left out of the metrics exactly if that one is folded |
| TraceMeaning.FailuresShareARow | internal/traffic/store.go:347-361 | All failures with one key are in one row |
| TraceMeaning.BucketMeans | internal/traffic/store.go:377-425 | A bucket is a whole minute of the last 24 hours with a trace not folded; its requests beyond its failures are exactly the successes of that minute, its failures at most the failed traces, its average over the latencies of the successes |
| TraceMeaning.TraceHasBucket | internal/traffic/store.go:382-391 | Every trace of the last 24 hours that is not folded has a bucket |
| TraceSnapshot.NothingHidden | internal/traffic/store.go:318-368 | No failure is hidden if kinds hold no NUL and failing targets do not start with two slashes |
| TraceSnapshot.SchemelessFailureIsHidden | internal/traffic/store.go:318-368 | A failure of "//host/path" behind a newer folded success of the same URL is counted but not displayed as counting; validateTargetURL keeps such URLs from the handlers, so only stored or directly recorded traces have them |
| TraceSnapshot.TakeSnapshot | internal/traffic/store.go:214-235 | The snapshot prunes and then holds the three reductions of what is left |

## Left out

- Dialers, transports, TLS fingerprints, HTTP and tunnels: an attempt is an outcome from an oracle.
- Parsing of subscriptions, configuration and strategy names, the table behind NormalizeRegionCode, and the text of the hop header: their results are inputs.
- Refreshing a subscription and enabling a node by hand: a pool's list of nodes and its settings do not change.
- The check of bearer tokens and endpoints before forwarding: it shows as a message that is not sent.
- Concurrent changes of the pools during one selection: a selection is one atomic step on a snapshot. Node names are distinct within a pool.
- ProxyServer.Effective: timeouts are not modelled; they never bring back the defaults.
- Texts of errors and logs.
- Overflow of counters (trace numbers beyond 64 bits, sums of bytes and latencies), and letters and white space beyond ASCII.
- Local days of other than 24 hours (daylight saving).
- SuccessRate, RequestsPerMin and the 95th percentiles: floating point and an index into a sorted list, without structure of their own.
- Failing or partial file writes, lines that cannot be read back, and the flush ticker: every write succeeds at once.
- TraceSessions.ShowsTheNewest: settings do not change during a run (UpdateConfig), records come one after another with times that do not go back, and persistence stays on.
- LoginRate.RateBound: no login of the address succeeds in between, since a success forgets its failures.
- TraceGroups.Lawful: only the stated facts about net/url are used; parsing and printing are otherwise arbitrary.
- Merging, naming and validating URL rules, the admin handlers, health check scheduling and IP classification: tables and plumbing that no property above depends on.
