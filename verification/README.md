# Verification of the hard parts

A Dafny 4.11 model of the parts of this repository whose correctness is hardest to see from
reading one function: the url4 graph walks and dataflow executor, the analytics consent bridge,
the leaderboard's axes and costs, the desktop's configuration rewrite and gateway session, and
the report service's start-up guard. `dafny verify dfyconfig.toml` checks everything.

Code that changes state is modelled as methods and classes with the same fields, each proved
against a value-level specification function, reference traversal or property; the theorems are
then proved about those specifications over every input and every run. Pure code is modelled as
functions with lemmas.

## What is modelled

**url4 graphs** (`Graph`, `WalkFacts`, `Traversal`, `Tracing`, `Acyclic`). A graph is a finite map
from node identities to ordered (role, child) lists; sharing and cycles are allowed. `Graph.Explore`
is the reference traversal, an explicit stack of edges; `WalkFacts` says what it visits and follows.
The collector, the tree printer and the proxy wrapper are recursive methods over mutable fields,
all proved equal to that one traversal. Proxies are heap objects, so "one fresh proxy per node" and
"sharing is preserved" are statements about object identity. `Acyclic` is the iterative grey/black
search.

**url4 executor** (`Memo`, `Executor`, `ExecutorRuns`, `CompletionRanks`). A run is any interleaving
of four kinds of step: a gathered dependency asks the memo, a finished task's result reaches its
consumer, a resolve starts, a resolve ends well or badly. The memo's own class shares its two
transitions (`Memo.Claim`, `Memo.Spend`) with the runs, so what is proved about runs is about that
class. The module comment of `_memo.py` names four invariants; each is a theorem here: release is
invisible (`ExecutorRuns.ReleaseIsInvisible`), the root is never released and a memo that does not
count releases nothing (`ExecutorRuns.MemoisedExactly`), only a successful consumption spends, so what
failed stays (`ExecutorRuns.OnlySuccessSpends`, `ExecutorRuns.UnfinishedStaysMemoised`), and a releasing
memo serves one root (`Memo.RunMemo.Bind`).

**Consent bridge** (`Bridge`, `BridgeRuns`, `BridgeAnswers`, `BridgeMeanings`, `Frame`, `Ingestion`,
`IngestionRuns`, `Admission`, `Batch`). The browser jar, the
requests under way (each with the cookies attached when it left) and the answers under way form one
state; requests are served, answers applied or lost, in any order. Cookie storage follows sections
5.1.4, 5.2.2, 5.3 and 5.4 of RFC 6265. `Frame` is the page's message handler with its generation
numbers; `Ingestion` the fixed-window limiter with its in-flight counter and the bracket a request runs
in, `IngestionRuns` every interleaving of such brackets, each with its own flag and final clause, before
the events handler's gate, which counts statuses, or the bridge's control gate, which does not;
`Batch` the step that removes repeats.

**Leaderboard** (`Decimal`, `Axis`, `ScoreTicks`, `Sorting`, `Cost`, `CostText`). Arithmetic is exact
over `real`; every rounding the code asks for (`toFixed` to a number of places, nine places before
each ceiling) is kept, with ties going away from zero. Printed labels are strings and are parsed
back.

**Desktop** (`Json`, `PluginList`, `Migration`, `MigrationFacts`, `MigrationMeanings`, `Session`,
`SessionFacts`, `SessionRuns`). JSON is a
datatype; the session is a class with the service's own fields.

**Report intake** (`PeerGuard`, `PeerEntries`). Addresses are numbers with a version, networks aligned blocks of a
power of two (section 3.1 of RFC 4632), IPv4-mapped addresses as in section 2.5.5.2 of RFC 4291.

## Limits and exact conditions

- The limiter's window is fixed, so a burst can cross its boundary: k minutes count at most k + 1 times
  the rate (`IngestionRuns.RateBound`), and for every rate and k some run does
  (`IngestionRuns.BoundIsReached`). `IngestionRuns.RateKeptWhenCalm` gives the exact condition under
  which k minutes from a given instant stay within k times the rate whatever happens: the gate is off,
  draining or used up, or its window is not one that began before that instant and is still open.
- A cancellation or an unforeseen exception releases a request's place and counts no status
  (`IngestionRuns.StatusesAreResponses`).
- Printing costs keeps their order for every pair but a negative cost and zero
  (`CostText.ShownKeepsOrder`). The submission schema admits no negative cost
  (apps/scoreboard/src/scoreboard/scores/schemas.py:671), so the board never shows such a pair.
- Rounding to nine places can put the first tick below the axis: exactly when the lowest score is a
  sliver above a multiple of the step (`ScoreTicks.FirstBelowWhen`; `ScoreTicks.FirstTickCanFallBelow` is
  a pair of scores for which it happens). The two ends are drawn then, as they are for a label that is
  too long or scores less than 10^-17 apart, and in no other case (`ScoreTicks.BuildScoreTicks`).
- A token from `ensureLoggedIn` is handed out without a look at its expiry. Whatever the server answers,
  none handed out is expired if and only if the session cannot sign in silently at all: no credentials, no
  server, or a password kept encrypted while encryption is unavailable (`SessionRuns.NeverExpiredWhen`).
- A freshly refreshed token close to expiry is kept but not handed out (`SessionRuns.HandedOutIsValid`).

## Model

| member | source | states |
|---|---|---|
| Graph.ExploreSplit | packages/url4/examples/utils.py:144-150 | Exploring a list of edges is exploring its first part and then, from where that ended, the rest: the recursive walks and the reference stack agree. |
| WalkFacts.WalkVisits | packages/url4/examples/utils.py:138-153 | The walk visits exactly the reachable nodes, each once, the sink first, every other node after one of its parents, and goes deep before it goes wide. |
| WalkFacts.WalkFollows | packages/url4/examples/utils.py:147-148 | The followed edges that leave a reachable node are exactly its own, in order and once each; their number is the sum of the out-degrees. |
| Traversal.Collector.Dfs | packages/url4/examples/utils.py:144-150 | The recursive search over shared fields ends, from any intermediate state, where the reference traversal ends. |
| Traversal.Collect | packages/url4/examples/utils.py:138-153 | On any finite graph the result lists the reachable nodes once, parents first found before children, with one edge per reachable node and role. |
| Traversal.TreePrinter.Visit | packages/url4/examples/utils.py:355-366 | Each printed line is the one the reference walk dictates: indented below its parent's first line, a corner for the last role, marked when its node was shown before. |
| Traversal.RenderCounts | packages/url4/examples/utils.py:350-368 | One line more than there are reachable edges; the unmarked lines are the reachable nodes in preorder, once each; 1 + edges - nodes lines are marked. |
| Traversal.PrintTree | packages/url4/examples/utils.py:350-368 | Terminates on every finite graph, cycles included, printing the text of exactly those lines. |
| Traversal.FirstText | packages/url4/examples/utils.py:368 | The first line is the sink's, under a corner, without role or mark. |
| Traversal.LineTexts | packages/url4/examples/utils.py:356-364 | The sink prints under a corner; a child under its parent's indentation, with a rail below a parent that has siblings to come, a corner or a branch, its role, its label and the mark. |
| Traversal.EdgeText | packages/url4/examples/utils.py:355-366 | The printed text of every edge's line, with its indentation taken from the first line of its parent. |
| Traversal.MarkedText | packages/url4/examples/utils.py:358-359 | The text of a marked line ends with the mark. |
| Tracing.Tracer.Wrap | packages/url4/examples/utils.py:269-274 | While wrapping is under way every proxy is wired like its node except those still open; proxies once made stay, new ones are fresh objects. |
| Tracing.TraceGraph | packages/url4/examples/utils.py:264-276 | One fresh proxy per reachable node, distinct nodes with distinct proxies, and every role of a proxy leads to the proxy of that role's child, never outside the copy. |
| Tracing.PathsCorrespond | packages/url4/examples/utils.py:264-276 | Any path of roles exists in the copy exactly when it exists in the original, and ends at the proxy of the original's end. |
| Tracing.SharingPreserved | packages/url4/examples/utils.py:232-237 | Two paths meet in the original exactly when they meet in the copy, so sharing is neither lost nor invented. |
| Acyclic.TopologicalHasNoCycle | packages/url4/src/url4/dag/executor.py:51-56 | A node listed after all its dependencies never depends on itself. |
| Acyclic.CheckAcyclic | packages/url4/src/url4/dag/executor.py:51-73 | Refuses exactly the graphs in which some reachable node depends on itself; otherwise the finishing order puts every dependency first. |
| Memo.RunMemo.Bind | packages/url4/src/url4/dag/_memo.py:53-63 | A releasing memo answers for the first root it was given and refuses every other; one that does not release refuses none. |
| Memo.CountEdges | packages/url4/src/url4/dag/_memo.py:71-81 | Every node but the root is pending with exactly the number of reachable (parent, role) edges that lead to it; nodes without any are absent. |
| Memo.RunMemo.Count | packages/url4/src/url4/dag/_memo.py:65-81 | A memo that does not release counts nothing; a releasing one holds the counts of the root's graph. |
| Memo.RunMemo.Resolve | packages/url4/src/url4/dag/_memo.py:83-94 | A node that has an entry gets that task and nothing is scheduled; otherwise the new task becomes its entry. |
| Memo.RunMemo.Consume | packages/url4/src/url4/dag/_memo.py:98-106 | A consumption lowers the node's count by one and the last one removes both the count and the entry. |
| Executor.SpendFindsEntry | packages/url4/src/url4/dag/_memo.py:95-106 | In every reachable state the entry that a returning consumer spends is still there and names what it awaited, so the deletion never fails. |
| Executor.AfterDependencies | packages/url4/src/url4/dag/executor.py:166-177 | An evaluation past gathering awaited, role by role, the evaluation of exactly that dependency, and all of those are done. |
| ExecutorRuns.ResolveOnce | packages/url4/src/url4/dag/executor.py:140-151 | In no interleaving does a node get two tasks, and only reachable nodes get one. |
| ExecutorRuns.ReleaseIsInvisible | packages/url4/src/url4/dag/_memo.py:15-17 | A releasing executor and one that keeps everything have the same runs, with the same tasks awaited at every call. |
| ExecutorRuns.MemoisedExactly | packages/url4/src/url4/dag/_memo.py:15-18 | In every reachable state a node's own evaluation is memoised exactly as long as the memo keeps everything, the node is the root, or some consumer of it is still unanswered. |
| ExecutorRuns.UnfinishedStaysMemoised | packages/url4/src/url4/dag/_memo.py:19-20 | The root's entry, and that of everything not finished, failed ones included, is there in every reachable state and is the node's own. |
| ExecutorRuns.OnlySuccessSpends | packages/url4/src/url4/dag/_memo.py:94-96 | A count changes only when a finished result arrives at a consumer. |
| ExecutorRuns.NothingLeft | packages/url4/src/url4/dag/_memo.py:6-12 | When the root is done every reachable node ran one task to its end, and a releasing memo holds the root's result and no count. |
| ExecutorRuns.RunsAreFinite | packages/url4/src/url4/dag/executor.py:107-138 | No run is longer than a bound fixed by the graph. |
| ExecutorRuns.NeverStuck | packages/url4/src/url4/dag/executor.py:107-138 | On a graph the cycle guard lets through, a run without failures can always be continued to the root's result, releasing or not. |
| CompletionRanks.RunStamps | packages/url4/examples/utils.py:249-255 | At every point of every run all start and end stamps differ, and a resolve starts after the end of each of its dependencies. |
| CompletionRanks.RecordsFollowDependencies | packages/url4/examples/utils.py:249-255 | Every recorded node's dependencies are recorded and ended before it began; a completed run recorded exactly the reachable nodes. |
| CompletionRanks.StepsRank | packages/url4/examples/utils.py:280-282 | The ranks number the recorded nodes 1 to n, one to one, in order of completion. |
| CompletionRanks.TracedRunRanks | packages/url4/examples/utils.py:258-282 | Executing the recording copy, in any interleaving and with release, ranks every node of the original once and every dependency before its consumers. |
| Bridge.Response.AddCookie | apps/analytics/src/analytics_service/bridge.py:43-50 | Appends one cookie, the identity's with the narrower path. |
| Bridge.Scopes | apps/analytics/src/analytics_service/bridge.py:46 | Under section 5.1.4 of RFC 6265 every endpoint sees both consent cookies and so the browser's choice; only the identity endpoints see the identity. |
| Bridge.BindBrowser | apps/analytics/src/analytics_service/bridge.py:86-101 | Passes exactly the batches whose every event is bound to this identity; which those are, the next three rows say. |
| BridgeMeanings.FourValuesPass | apps/analytics/src/analytics_service/bridge.py:93-98 | Whatever else an event says, with origin colab, surface python_sdk, scope browser and this identity it is bound. |
| BridgeMeanings.AnyOtherFails | apps/analytics/src/analytics_service/bridge.py:91-100 | An event without one of the four, or with another value for it, is not bound, and no batch with it passes. |
| BridgeMeanings.BatchBoundExactly | apps/analytics/src/analytics_service/bridge.py:86-101 | A batch passes exactly when it has a list of events and all of them carry the four values. |
| BridgeMeanings.ServedEvents | apps/analytics/src/analytics_service/bridge.py:149-155 | An events request not turned away for other reasons is passed on, once and with 202, exactly when it shows acceptance and a well-formed identity and its events are all genuine; else it gets 403 or 422 and nothing is passed on. |
| BridgeMeanings.OthersForwardNothing | apps/analytics/src/analytics_service/bridge.py:122-133 | No other request, and none turned away, passes anything on. |
| BridgeMeanings.ChoiceMeans | apps/analytics/src/analytics_service/bridge.py:30-35 | In the cookies' own texts, when a browser shows acceptance, when a decline, and that it shows nothing else but that it is unknown. |
| BridgeMeanings.PathMatchMeans | apps/analytics/src/analytics_service/bridge.py:46 | By section 5.1.4 of RFC 6265, a cookie's path matches itself and what continues it at a slash. |
| BridgeMeanings.UuidAccepted | apps/analytics/src/analytics_service/bridge.py:26 | Every version 4 identifier in lower-case hexadecimal groups is a well-formed identity. |
| BridgeMeanings.UuidParts | apps/analytics/src/analytics_service/bridge.py:26 | Nothing else is. |
| BridgeMeanings.IdentityMeans | apps/analytics/src/analytics_service/bridge.py:38-40 | A request's identity is its identity cookie, if well formed. |
| BridgeMeanings.DecisionsAre | apps/analytics/src/analytics_service/bridge.py:182-188 | There are exactly two well-formed decisions, spelled out. |
| BridgeMeanings.ControlStatuses | apps/analytics/src/analytics_service/bridge.py:157-210 | The status of every control request, endpoint by endpoint. |
| BridgeMeanings.ControlReasons | apps/analytics/src/analytics_service/bridge.py:134-137 | The reason each refusal gives; a refused request sets no cookie. |
| Bridge.Handlers.HandleControl | apps/analytics/src/analytics_service/bridge.py:157-179 | Builds, cookie by cookie, the answer on which the run theorems and the `BridgeAnswers` rows rest. |
| Bridge.Handlers.HandleSetConsent | apps/analytics/src/analytics_service/bridge.py:181-202 | The same for an explicit decision. |
| Bridge.Handlers.HandleEnroll | apps/analytics/src/analytics_service/bridge.py:204-214 | The same for the disclosed default. |
| BridgeAnswers.DecisionTakesEffect | apps/analytics/src/analytics_service/bridge.py:181-202 | Only a well-formed decision changes the jar; applied, it is what the browser shows, and the identity survives only an acceptance sent under acceptance. |
| BridgeAnswers.EnrollNeverOverrides | apps/analytics/src/analytics_service/bridge.py:207-213 | A browser that shows either consent cookie, readable or not, keeps its whole jar; one that shows neither is enrolled and loses nothing. |
| BridgeAnswers.IdentityIssued | apps/analytics/src/analytics_service/bridge.py:162-179 | An identity is issued exactly to an empty request under acceptance: the one the request carried, then not set again, or else the minted one. |
| BridgeAnswers.RevokedAfterDecline | apps/analytics/src/analytics_service/bridge.py:164-169 | An identity is dropped on request exactly after a decline. |
| BridgeRuns.Stored | apps/analytics/src/analytics_service/bridge.py:157-214 | What applying each kind of answer does to the jar: only an explicit decision moves the opt-out marker, and only a newly issued identity can enter. |
| BridgeRuns.IdentityNeverReturns | apps/analytics/src/analytics_service/bridge.py:172-178 | In every interleaving of late, reordered or lost answers, an identity that has left the jar is never in it again. |
| BridgeRuns.DeclineRetiresIdentities | apps/analytics/src/analytics_service/bridge.py:149-155 | After an applied decline, no request sent later is passed on with an event carrying any identity the jar ever held before. |
| BridgeRuns.ConsentIsARegister | apps/analytics/src/analytics_service/bridge.py:30-35 | The shown choice is the last applied explicit decision, whatever automatic answers arrive late; before any, an empty jar never shows a decline. |
| BridgeRuns.DeclinedSendsNothing | apps/analytics/src/analytics_service/bridge.py:149-155 | No request sent while the last applied decision was a decline is ever passed on. |
| Frame.Handler.Receive | apps/analytics/src/analytics_service/bridge.js:32-43 | Up to the first await the handler's fields make the transition of the next row. |
| Frame.ReceiveDecides | apps/analytics/src/analytics_service/bridge.js:38-43 | A message is refused exactly when something is active and it is no decline, and then only a busy reply is posted; otherwise it is the newest, unanswered, and what was active is aborted. |
| Frame.Handler.Settle | apps/analytics/src/analytics_service/bridge.js:55-61 | After the await the fields make the transition of the next row and of `Frame.SettlePosts`. |
| Frame.SettleClears | apps/analytics/src/analytics_service/bridge.js:55-61 | A returning request clears the way exactly when it is the newest; an older one posts nothing. |
| Frame.ActiveIsNewest | apps/analytics/src/analytics_service/bridge.js:38-43 | A request is active exactly while the newest accepted message is unfinished; every older unfinished one is aborted. |
| Frame.OneReplyEach | apps/analytics/src/analytics_service/bridge.js:36-38 | No message gets two replies; one refused as busy gets exactly the busy reply, an accepted one never gets that. |
| Frame.SupersededIsSilent | apps/analytics/src/analytics_service/bridge.js:39-41 | Only a decline supersedes, and the superseded message is aborted and never answered. |
| Frame.SettledIsAnswered | apps/analytics/src/analytics_service/bridge.js:55-60 | A request that comes back is answered if and only if it is the newest and did not succeed after its abort. |
| Frame.SettlePosts | apps/analytics/src/analytics_service/bridge.js:55-57 | In every reachable state a returning request posts its result exactly when it is the newest, succeeded and was not aborted, that it is unavailable exactly when it is the newest and failed, and nothing else. |
| Ingestion.Ingestion.Enter | apps/analytics/src/analytics_service/ingestion.py:33-45 | The outcome and the new window, count and in-flight number; a request refused as busy has been counted. |
| Ingestion.Ingestion.Leave | apps/analytics/src/analytics_service/ingestion.py:47-48 | Gives back one place and changes nothing else. |
| Ingestion.Ingestion.TryEnter | apps/analytics/src/analytics_service/api.py:127-133 | The request's flag is set exactly when it was admitted; a refusal already has its response. |
| Ingestion.Ingestion.Finally | apps/analytics/src/analytics_service/api.py:136-139 | A request whose flag is set gives its place back; a response is counted once, an exception on its way out not at all. |
| Ingestion.Ingestion.Depart | apps/analytics/src/analytics_service/bridge.py:144-147 | The bridge's own final clause gives back exactly what was admitted and counts nothing. |
| Ingestion.Ingestion.HandleEvents | apps/analytics/src/analytics_service/api.py:124-140 | However the work ends the in-flight number is what it was before; a response is counted once, and an exception that escapes counts nothing. |
| Ingestion.Ingestion.Drain | apps/analytics/src/analytics_service/api.py:89-99 | Draining changes nothing but the flag. |
| IngestionRuns.InflightIsOpen | apps/analytics/src/analytics_service/api.py:127-138 | Over every interleaving before either gate, refusals, caught and escaping exceptions included, the counter is the number of requests whose flag is set and whose final clause has not run; it stays in its bounds and returns to zero. |
| Admission.DecidedExactly | apps/analytics/src/analytics_service/ingestion.py:33-45 | Over every run, and told from what happened: unavailable exactly when disabled or told to drain; else rate-limited exactly when `rate` requests were counted in the window of the decision; else busy exactly when all places are held; else admitted, with a place. |
| Admission.FirstIsAdmitted | apps/analytics/src/analytics_service/ingestion.py:33-45 | A service just started, with a rate and a place, admits its first request. |
| Admission.StatusesMean | apps/analytics/src/analytics_service/api.py:66-76 | Which ending gives which status: 202 only for a batch taken upstream, and 429 or 503, the two that invite another try, only for refusals at the gate and deliveries that may work later. |
| IngestionRuns.StatusesAreResponses | apps/analytics/src/analytics_service/api.py:132-140 | Each status counter of the events handler is the number of its finished requests that ended with that response; escaped ones are in none. |
| IngestionRuns.ControlsCountNothing | apps/analytics/src/analytics_service/bridge.py:122-147 | No control request of the bridge, turned away, refused or served, ever raises a status counter. |
| IngestionRuns.DrainingAdmitsNothing | apps/analytics/src/analytics_service/ingestion.py:34-35 | Once draining, no later decision admits and no later request has its flag set. |
| IngestionRuns.RateBound | apps/analytics/src/analytics_service/ingestion.py:36-41 | With a clock that never runs backwards, any half-open interval of k minutes counts at most (k + 1) times the rate, in every run. |
| IngestionRuns.RateKeptWhenCalm | apps/analytics/src/analytics_service/ingestion.py:33-41 | From an instant on, k minutes stay within k times the rate in every continuation if and only if the gate is off, draining or used up then, or has no window open that began earlier. |
| IngestionRuns.BoundIsReached | apps/analytics/src/analytics_service/ingestion.py:36-41 | For every rate and every k some run counts (k + 1) times the rate in k minutes. |
| Batch.ParseBatch | apps/analytics/src/analytics_service/contract.py:99-107 | Accepts exactly the timely, contradiction-free lists, returning first occurrences in order; otherwise reports the fault of the first offending event. |
| Batch.DistinctHas | apps/analytics/src/analytics_service/contract.py:99-107 | The returned events are among those sent, name every id sent, and no id twice. |
| Batch.TimelyMeans | apps/analytics/src/analytics_service/contract.py:102 | At most 24 hours old and at most five minutes ahead, in milliseconds. |
| Batch.FirstOccurrences | apps/analytics/src/analytics_service/contract.py:99-107 | The i-th event kept is the first with its id, and those kept before it are what is kept of the events before it. |
| Batch.DistinctLosesNothing | apps/analytics/src/analytics_service/contract.py:104-107 | In an accepted batch every event sent is still there. |
| Batch.OrderDoesNotMatter | apps/analytics/src/analytics_service/contract.py:92-107 | Reordering changes neither acceptance nor the set of events kept. |
| Batch.ParsingSettles | apps/analytics/src/analytics_service/contract.py:92-107 | An accepted batch parsed again at the same instant is accepted unchanged. |
| Batch.RejectDuplicateKeys | apps/analytics/src/analytics_service/contract.py:110-116 | Refuses exactly the objects that repeat a key; otherwise keeps exactly the pairs. |
| Decimal.FixedReads | apps/scoreboard/portal/pareto-chart.js:103 | A number printed with d places reads back as itself with d places, so different numbers print differently. |
| Decimal.MinusMeansNegative | apps/scoreboard/portal/pareto-chart.js:102-103 | A minus is printed exactly for a negative number: the zero tick never has one. |
| Decimal.NearestTies | apps/scoreboard/portal/pareto-chart.js:79-80 | A tie goes away from zero, on both sides alike. |
| Decimal.EmptyIsNoNumber | apps/scoreboard/portal/leaderboard-logic.js:51-53 | The empty text reads as no number. |
| Axis.SnapCeil | apps/scoreboard/portal/pareto-chart.js:79-80 | Rounding to nine places first can lower a ceiling by at most one, and only within 5e-10 above an integer. |
| Axis.LastIsLeastCover | apps/scoreboard/portal/pareto-chart.js:80-83 | With the single correction the top is the least multiple of the step at or above the highest score, whatever the rounding did. |
| Axis.CorrectionCovers | apps/scoreboard/portal/pareto-chart.js:80-83 | From any quotient off by at most 5e-10 the correction still covers the highest score, at most one step above the least cover, and at it exactly when the ceiling did not rise. |
| Axis.FoundSmallest | apps/scoreboard/portal/pareto-chart.js:60-64 | The first step found is the smallest round step over all powers of ten that needs at most six ticks, and it needs at least three. |
| Axis.NiceStep | apps/scoreboard/portal/pareto-chart.js:68-90 | Succeeds exactly when the range's decade is -17 or more, and then returns the globally smallest round step that needs at most six ticks, with its first and last tick. |
| Axis.NiceIsUnique | apps/scoreboard/portal/pareto-chart.js:60-66 | There is only one such step for two scores, with one number of places. |
| Axis.RangeThreshold | apps/scoreboard/portal/pareto-chart.js:71-76 | That decade condition is a range of at least 10^-17. |
| Axis.ApartMeans | apps/scoreboard/portal/pareto-chart.js:71-76 | Scores are far enough apart for a round step exactly when they differ by at least 10^-17. |
| Axis.RoundStepsAre | apps/scoreboard/portal/pareto-chart.js:62 | The round steps are 1, 2, 2.5 and 5 times every power of ten. |
| Axis.SixTicks | apps/scoreboard/portal/pareto-chart.js:62-63 | The chosen step needs three to six ticks and every smaller round step more than six. |
| Axis.NoFewerPlaces | apps/scoreboard/portal/pareto-chart.js:63-64 | A label has exactly the places its step needs: with fewer, no number is the step. |
| Axis.MultipleRounds | apps/scoreboard/portal/pareto-chart.js:95-98 | Rounding a multiple of a round step to the step's places changes nothing. |
| ScoreTicks.NiceAxis | apps/scoreboard/portal/pareto-chart.js:92-107 | Three to six ticks at consecutive multiples of the smallest round step, labelled with its places, up to a top that covers the highest score. |
| ScoreTicks.LabelExact | apps/scoreboard/portal/pareto-chart.js:97-105 | The label of a multiple of the step reads back as exactly that multiple. |
| ScoreTicks.OneValueInTheMiddle | apps/scoreboard/portal/pareto-chart.js:24-34 | On an axis of a single value everything lies in the middle, at that value. |
| ScoreTicks.DrawnOrder | apps/scoreboard/portal/pareto-chart.js:97-105 | Ticks climb strictly in value and in position. |
| ScoreTicks.DrawnLabels | apps/scoreboard/portal/pareto-chart.js:63-64 | No two labels of a round axis are alike, because each reads back as its own value. |
| ScoreTicks.SafeWhen | apps/scoreboard/portal/pareto-chart.js:109-118 | A round axis is refused exactly when its first tick fell below the axis or some label is too long. |
| ScoreTicks.LabelsFitMeans | apps/scoreboard/portal/pareto-chart.js:115 | Short enough is at most six characters. |
| ScoreTicks.FirstBelowWhen | apps/scoreboard/portal/pareto-chart.js:79 | The first tick falls below the axis exactly when the lowest score lies above a multiple of the step by less than half a billionth of it, or by just that when negative. |
| ScoreTicks.FirstTickCanFallBelow | apps/scoreboard/portal/pareto-chart.js:79 | Two scores for which it does. |
| ScoreTicks.EndpointAxis | apps/scoreboard/portal/pareto-chart.js:139-152 | The two ends, named with the fewest of 2 to 17 figures that tell them apart, or with 17. |
| ScoreTicks.BuildScoreTicks | apps/scoreboard/portal/pareto-chart.js:163-169 | The round axis of the smallest round step is drawn exactly when the scores are apart by 10^-17, its first tick is on the axis and its labels are short enough, the two ends or the one score otherwise; ticks lie at the place of their value and climb. |
| Sorting.SortFacts | apps/scoreboard/portal/benchmark.js:71-77 | Sorting by a total preorder permutes and orders. |
| Sorting.SortStable | apps/scoreboard/portal/benchmark.js:71-77 | Tied elements keep their original order. |
| Sorting.StableSortUnique | apps/scoreboard/portal/benchmark.js:71-77 | Order and ties determine the result: any stable sort gives this list. |
| Cost.WireCost | apps/scoreboard/portal/leaderboard-logic.js:48-54 | A cost sent with the wire's six fixed places is read exactly. |
| Cost.UnknownIsNotZero | apps/scoreboard/portal/leaderboard-logic.js:47-53 | An absent, empty or unreadable cost is unknown, never zero. |
| Cost.ComparatorIsPreorder | apps/scoreboard/portal/leaderboard-logic.js:60-68 | In either direction the comparator is a total preorder and swapping its arguments flips its sign. |
| Cost.UnpricedLast | apps/scoreboard/portal/leaderboard-logic.js:56-65 | Sorted either way, the unpriced rows come last in their original order, after the sorted priced ones. |
| Cost.DirectionsMirror | apps/scoreboard/portal/leaderboard-logic.js:66-67 | The priced values of the descending board are those of the ascending one, reversed. |
| Cost.BoardOrder | apps/scoreboard/portal/leaderboard-logic.js:60-68 | Both at once for the board's rows, with ties in their original order. |
| CostText.CommasEveryThree | apps/scoreboard/portal/leaderboard-logic.js:70-74 | Counted from the right, every fourth character is a comma and nothing else is. |
| CostText.GroupLength | apps/scoreboard/portal/leaderboard-logic.js:70-74 | There are just as many commas as full groups of three with a digit before them, so none comes first. |
| CostText.GroupUngroups | apps/scoreboard/portal/leaderboard-logic.js:70-74 | Removing the separators gives back the text. |
| CostText.TextSaysShown | apps/scoreboard/portal/leaderboard-logic.js:80-94 | The printed text reads back as the displayed amount in every piece of the printer; an unknown cost reads as none. |
| CostText.CentText | apps/scoreboard/portal/leaderboard-logic.js:84 | From a cent on: a dollar sign, the dollars grouped by commas, a point and two digits for the rounded cents. |
| CostText.CommasFromThousand | apps/scoreboard/portal/leaderboard-logic.js:70-84 | Commas are printed exactly when the rounded amount reaches a thousand dollars. |
| CostText.PlainTexts | apps/scoreboard/portal/leaderboard-logic.js:82-93 | The texts of an unknown cost, of none, and of a sliver. |
| CostText.ShownKeepsOrder | apps/scoreboard/portal/leaderboard-logic.js:76-94 | Displayed amounts keep the order of costs if and only if the pair is not a negative cost and zero. |
| CostText.OneTextPerAmount | apps/scoreboard/portal/leaderboard-logic.js:86-91 | Two costs print alike exactly when they show the same amount. |
| CostText.ShownIsNear | apps/scoreboard/portal/leaderboard-logic.js:84-91 | The displayed amount is off by at most half a displayed unit. |
| CostText.SixPlacesDiffer | apps/scoreboard/portal/pareto-chart.js:277-279 | Different costs at the wire's six places have different six-place labels. |
| CostText.FixedCostReads | apps/scoreboard/portal/pareto-chart.js:268-272 | A precise label starts with the dollar sign and reads back as the value rounded to its places. |
| CostText.MorePrecise | apps/scoreboard/portal/pareto-chart.js:288-292 | Finds the fewest places from two to six at which no label repeats, exactly when there are any. |
| CostText.BuildCostTicks | apps/scoreboard/portal/pareto-chart.js:280-303 | The five quarters have the table's labels exactly when those are distinct, else those of the fewest places from two to six that are; exactly when there are none the two ends stand alone. |
| PeerGuard.ContainsRange | apps/report-intake/src/report_intake/main.py:118-120 | Membership by masking is membership in the range from base to broadcast address. |
| PeerGuard.OverlapsIffShare | apps/report-intake/src/report_intake/main.py:115-117 | Testing the blocks' ends decides exactly whether some address lies in both. |
| PeerGuard.Classify | apps/report-intake/src/report_intake/main.py:70-103 | An address is in the classified sets exactly when some entry of the value trusts it, mapped bare addresses normalised, unreadable entries inert. |
| PeerEntries.SplitJoin | apps/report-intake/src/report_intake/main.py:87 | Splitting gives back the comma-free entries that were joined. |
| PeerEntries.AddressSizes | apps/report-intake/src/report_intake/main.py:94-99 | IPv4 and IPv6 addresses are the numbers below 2^32 and 2^128. |
| PeerEntries.WholeSpace | apps/report-intake/src/report_intake/main.py:94-95 | The largest block is the whole address space. |
| PeerEntries.SingleAddress | apps/report-intake/src/report_intake/main.py:94-95 | The smallest block is a single address. |
| PeerEntries.StripExact | apps/report-intake/src/report_intake/main.py:87 | Stripping removes exactly the outer blanks. |
| PeerEntries.MappedHostTrusts | apps/report-intake/src/report_intake/main.py:100-102 | A bare IPv6 host that carries an IPv4 address makes the server trust exactly that IPv4 address, in plain numbers. |
| PeerEntries.OtherHostTrusts | apps/report-intake/src/report_intake/main.py:96-102 | Any other bare host makes it trust exactly the address it names. |
| PeerEntries.BlockTrusts | apps/report-intake/src/report_intake/main.py:90-95 | A declared block makes it trust exactly its own range, mapped or not. |
| PeerGuard.FindOverlap | apps/report-intake/src/report_intake/main.py:106-121 | Finds nothing exactly when no address is both trusted and allowed; what it reports really shares an address. |
| PeerGuard.CheckForwarded | apps/report-intake/src/report_intake/main.py:124-159 | Refuses start-up exactly when peers are authenticated and everyone, or some allowed address, is trusted to forward. |
| PeerEntries.MappedHostRefused | apps/report-intake/src/report_intake/main.py:100-102 | Start-up is refused when any entry names, in mapped form, an IPv4 address inside any allowed block. |
| PeerEntries.NamedHostRefused | apps/report-intake/src/report_intake/main.py:118-120 | And when any entry names an allowed address outright. |
| PeerEntries.DefaultIsLocal | apps/report-intake/src/report_intake/main.py:141 | An unset variable means 127.0.0.1. |
| PluginList.MigratePluginList | apps/desktop/out/main/index.js:32-50 | The loop computes the list of which the next two rows speak. |
| PluginList.PluginListFacts | apps/desktop/out/main/index.js:32-50 | No legacy entry, the gateway backend at most once and exactly when either was listed, both required plugins, all others in their order. |
| PluginList.PluginListIdempotent | apps/desktop/out/main/index.js:32-50 | Migrating a migrated list changes nothing. |
| Migration.GatewayUrls | apps/desktop/out/main/index.js:65-75 | The distinct normalised URLs of all backends, each once. |
| Migration.MigrateDesktopRuntimeConfig | apps/desktop/out/main/index.js:76-128 | Refuses exactly the irreconcilable configurations, naming their URLs; otherwise the result is the rewritten configuration of which the rows below speak. |
| MigrationMeanings.WrittenNames | apps/desktop/out/main/index.js:16-19 | The names, model and address that the rewrite speaks of. |
| MigrationFacts.RewriteSettles | apps/desktop/out/main/index.js:76-128 | A rewritten configuration is never refused, and rewriting it again changes nothing. |
| MigrationFacts.ConflictMeans | apps/desktop/out/main/index.js:108-110 | Refusal means: no base URL is set and two backends ask for different normalised URLs. |
| MigrationMeanings.UrlIsItsCore | apps/desktop/out/main/index.js:71 | Outer blanks and trailing slashes do not tell two URLs apart. |
| MigrationMeanings.AskingMeans | apps/desktop/out/main/index.js:69-70 | A backend asks for a URL exactly when its settings name one that is not blank. |
| MigrationMeanings.BackendName | apps/desktop/out/main/index.js:62-64 | Every aigw-...-backend is a backend. |
| MigrationMeanings.BackendParts | apps/desktop/out/main/index.js:62-64 | Nothing else is, but for aigw-backend, where the two hyphens are one. |
| MigrationFacts.UrlCarried | apps/desktop/out/main/index.js:107-112 | A base URL that is set stays; otherwise the one URL the backends ask for becomes the base's. |
| MigrationFacts.UrlFallsBack | apps/desktop/out/main/index.js:111-112 | When nobody asks, the base points at this machine, at the port the runner was moved to or the standard one. |
| MigrationFacts.NoBackendUrl | apps/desktop/out/main/index.js:118-121 | No backend keeps a URL of its own. |
| MigrationFacts.ModeChosen | apps/desktop/out/main/index.js:114-116 | A valid mode stays; otherwise external exactly when the old runner required sign-in or was off. |
| MigrationMeanings.ExternalMeans | apps/desktop/out/main/index.js:86-87 | The old runner meant an external gateway exactly when its sign-in switch was true or its enabled switch false. |
| MigrationMeanings.NoRunnerNotExternal | apps/desktop/out/main/index.js:84-87 | Without settings of the runner it did not. |
| MigrationFacts.RestUntouched | apps/desktop/out/main/index.js:82-128 | All other plugins' settings stay but for a backend's URL, and none appear or vanish. |
| MigrationFacts.ReadBack | apps/desktop/out/main/index.js:122-127 | The result's plugin list, settings and server section, the latter bound to this machine; every other key is as before. |
| MigrationMeanings.TextsRead | apps/desktop/out/main/index.js:77 | Of the listed plugins exactly the texts are read, in order. |
| MigrationFacts.RunnerWritten | apps/desktop/out/main/index.js:84-98 | The runner has the managed directories, at least a minute to start (longer only if it asked), and not the retired switches. |
| MigrationFacts.RunnerKept | apps/desktop/out/main/index.js:88-98 | It keeps everything else, except a tool path that is blank or no text. |
| MigrationFacts.LegacyMoved | apps/desktop/out/main/index.js:99-106 | A listed legacy backend's settings are gone, moved to the gateway backend unless that has its own. |
| MigrationFacts.UnlistedLegacyStays | apps/desktop/out/main/index.js:99-106 | An unlisted one's settings stay where they are. |
| MigrationFacts.CodexRules | apps/desktop/out/main/index.js:51-61 | Moved settings always name a model and a profile the gateway accepts, keeping valid ones and every other key. |
| Session.Service.Init | apps/desktop/out/main/index.js:989-999 | The service's fields make the transition of `SessionFacts.InitOnce`. |
| SessionFacts.InitOnce | apps/desktop/out/main/index.js:989-991 | Only the first start looks at what is stored; another changes nothing, whatever storage and server say. |
| SessionFacts.FirstStart | apps/desktop/out/main/index.js:989-999 | A first start that finds credentials and knows a server signs in exactly when the stored form can be kept and the answer brings a token; one that finds none, or knows no server, leaves the token alone. |
| Session.Service.SetServerUrl | apps/desktop/out/main/index.js:1000-1010 | The fields make the transition of the next row. |
| SessionFacts.ServerChange | apps/desktop/out/main/index.js:1000-1010 | The same server changes nothing; a new one costs the token, and gets one of its own exactly when the service has started, a silent login can be made there, and it brings one. |
| Session.Service.GetJwt | apps/desktop/out/main/index.js:1017-1027 | The fields make the transition, and the caller gets the token, of the next row. |
| SessionFacts.GetJwtHandsOut | apps/desktop/out/main/index.js:1017-1027 | A token is handed out exactly when the held one is good for another half minute, and then that one, or when a silent login can be made and brings one that is good that long afterwards, and then the answer's. |
| SessionFacts.GetJwtLeaves | apps/desktop/out/main/index.js:1019-1026 | When none is handed out, none is left but one too close to its end; credentials stay, and what is stored is what the login kept or as it was. |
| Session.Service.EnsureLoggedIn | apps/desktop/out/main/index.js:1028-1037 | The fields make the transition, and the caller gets the token, of the next row. |
| SessionFacts.EnsureHandsOut | apps/desktop/out/main/index.js:1028-1037 | The answer's token is handed out exactly when a login can be made as the credentials are kept and brings one. |
| Session.Service.Login | apps/desktop/out/main/index.js:1038-1079 | The fields make the transition of the next row. |
| SessionFacts.LoginOutcome | apps/desktop/out/main/index.js:1038-1079 | Succeeds exactly when the server is known, the password may be kept as asked, and the answer is a token with an expiry; otherwise no token is held and nothing stored or remembered changes. |
| SessionFacts.LoginReasons | apps/desktop/out/main/index.js:1038-1078 | The reason a failed login leaves is the first that applies; a good one leaves none. |
| SessionFacts.ReasonTexts | apps/desktop/out/main/index.js:1040-1064 | What these reasons say to the user. |
| SessionFacts.OtherReasons | apps/desktop/out/main/index.js:1018-1036 | The reasons left by an expired session, a missing sign-in and credentials that cannot be read. |
| Session.Service.LoadCredentials | apps/desktop/out/main/index.js:1160-1179 | Returns the credentials, and makes the transition, of the next row. |
| SessionFacts.LoadFinds | apps/desktop/out/main/index.js:1160-1179 | Finds credentials exactly when a name and a readable password form are stored, ciphertext first; an unreadable ciphertext is removed. |
| Session.Service.SaveCredentials | apps/desktop/out/main/index.js:1180-1223 | The fields make the transition of the next row. |
| SessionFacts.SaveForms | apps/desktop/out/main/index.js:1180-1223 | Ciphertext is stored exactly when encryption works, plaintext exactly when it does not and is allowed; the flags say which, and other settings stay. |
| SessionFacts.LoginStores | apps/desktop/out/main/index.js:1066-1072 | A successful login that is not to be kept leaves nothing stored; one that is keeps the password in the form its storage allows, and the flags say what was achieved. |
| Session.Service.Logout | apps/desktop/out/main/index.js:1080-1097 | The fields make the transition of the next row. |
| SessionFacts.LogoutClears | apps/desktop/out/main/index.js:1080-1097 | Token, credentials and error are gone, and exactly the session's own settings. |
| SessionFacts.FreshKnowsNothing | apps/desktop/out/main/index.js:975-981 | A service before its first start holds no token, no credentials and no server. |
| Session.Service.SetGatewayUrl | apps/desktop/out/main/index.js:1101-1114 | The fields make the transition of the next row. |
| SessionFacts.GatewayChange | apps/desktop/out/main/index.js:1101-1114 | A new gateway is written with the external mode and costs the token of the old one; credentials and every other setting stay. |
| SessionRuns.SessionInvariant | apps/desktop/out/main/index.js:1133-1136 | Over every sequence of operations: token and expiry together or not at all, never both password forms, and a plaintext flag only with a stored plaintext. |
| SessionRuns.PlaintextOnlyWhenAllowed | apps/desktop/out/main/index.js:1153-1159 | Unless a user signs in and allows it, no sequence of operations stores a password in the clear. |
| SessionRuns.NoNewPlaintext | apps/desktop/out/main/index.js:1153-1159 | From any state, silent operations leave plaintext stored only where it was. |
| SessionRuns.SavedIsLoaded | apps/desktop/out/main/index.js:1160-1223 | A later service reads back exactly what was saved, and nothing when nothing could be. |
| SessionRuns.RestartSignsIn | apps/desktop/out/main/index.js:989-999 | After saving, a new service on the same settings signs in by itself with a good answer, holds its token and the saved credentials, and keeps the password in the form it had. |
| SessionRuns.HandedOutIsValid | apps/desktop/out/main/index.js:1017-1027 | A token is handed out only while good for another half minute; when none is, none is kept but a fresh one too close to expiry. |
| SessionRuns.NeverExpiredWhen | apps/desktop/out/main/index.js:1028-1037 | Whatever the server answers, a login on demand hands out no expired token if and only if the state allows no silent login: no credentials, no server, or an encrypted password without encryption. |
| SessionRuns.ExpiredTokenHandedOut | apps/desktop/out/main/index.js:1034-1035 | In every state in which a login can succeed, some answer makes the handed-out token an expired one. |
| SessionRuns.LogoutForgets | apps/desktop/out/main/index.js:1080-1097 | After signing out no refresh, reconnection or restart brings a session back without a new sign-in. |

## Left out

- Node identity is a type parameter and a graph a map; nodes do not change while they are walked. Held subtrees enter the cycle guard as further children of the graph it is given.
- A failed resolve stops its consumers in a run; cancellation, error reporting across a group, observers and spans are not modelled. A prevalidated run is a run of a memo that does not release.
- The result values that tasks return are not modelled: two runs that await the same tasks compute the same results.
- Freshness of minted identifiers is assumed. Cookies do not expire by time; origin checks, HTTP, asyncio and the read-only state endpoint are left out, and rate limits, timeouts and malformed bodies are one refused step without cookies.
- Batch.ParseBatch: starts from events that already passed field validation and size checks, whose schemas are not modelled.
- Floating point is replaced by exact arithmetic; a signed zero, infinities and overflow are left out. The short and brief label forms, the logarithmic scale and the text of a port are parameters.
- Cost.WireCost: states what the wire's fixed form reads as; the leniency of the language's number parser on other text is not modelled.
- The order in which a conflict names its URLs and key order in objects; the rewrite works on values, not in place on nested objects.
- Session operations do not overlap. Emitted events, URL normalisation of the two setters, the wording of network and HTTP errors and a failing configuration write are left out.
- Address parsing is a parameter of the guard, assumed to return valid addresses and networks.
- The chart model, Graphviz, HTML, DOM and SVG output, the other desktop services, the report retry queue and delivery.
