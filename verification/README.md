# Verified cores of NCE

This project models, in Dafny, the parts of NCE whose correctness rests on an argument that does
not show in any one function, and proves that argument.

**Truth maintenance** (`AtmsLogic`, `AtmsSearch`, `AtmsCascade`, `AtmsEngine`, `AtmsRuns`). The engine
holds nodes with Horn-style justifications. Three layers are proved one on top of the other:

1. The explicit-stack search (`AtmsSearch`) terminates and returns what the recursive path-guarded
   search `Provable` returns, for every graph, node, starting path, antecedent order and sound memo.
2. `Provable` from the empty path is membership in `LeastModel`, the intersection of all labellings
   closed under the justifications. The key step is `CutNodeIsProvable`: if forbidding a node destroys
   every proof of another one, the forbidden node has a proof of its own.
3. A deprecation pass labels exactly the nodes of `Cascade`, a least closed set that does not mention
   the worklist, the memo or the reverse index; from exact labels that is the same as recomputing.

`AtmsRuns` lifts this to sequences of operations, and `CausalTopology` shows that the belief cascade
of an intervention and the independent breadth-first impact walk over the topology give the same set.

**Line chunker** (`LineChunker`). The output is characterised by positions only (what a chunk may span,
where a cut is forced), and the characterisation is proved to have exactly one solution.

**Rate limiters** (`RateLimiter`). Both limiters are compared with a reference that never forgets an
acceptance; the window bound is proved for the reference. A run in which Redis fails and the memory takes
over is bounded by both together.

**Quarantine protocol** (`Quarantine`) and **sharing grants** (`Grants`). State machines whose steps are
the transactions and SQL statements of the calls, interleaved in any way.

**Master-key period** (`KeyPeriod`) and **dead-letter sanitiser** (`DlqSanitizer`).

`dafny verify dfyconfig.toml` checks everything.

## Where the code differs from its documentation or from expectation

The model follows the code.

- The docstring of `propagate_deprecation` says that it returns the nodes whose label flipped. A valid
  PREMISE given as the root is returned although it keeps its label; `ReportedIsFlipped` shows that this
  is the only exception.
- The docstring of `is_node_provably_valid` says that the memo is consulted only under the empty path.
  The code also uses a cached False under any path; `LeafIsSound` shows that this is right.
- `CausalGraph` calls itself acyclic, but nothing makes it so; everything here is proved for cyclic
  graphs as well.
- A truncated string is 4096 characters plus the 14 characters of the suffix, not 4096.
- A node forced out by `invalidate_assumption` although it is DERIVED stays out for one pass only:
  `DerivedPassIsExactIff` says when the labels are still exact afterwards.
- The node "FALSE" is born labelled valid, so `register_contradiction` can leave it labelled valid
  without support: `ContradictionExactIff` says when.
- `CausalGraph.from_rows` calls its node types independent of the row order. They are not when two rows
  name a node as a source with different types: `TypeOrderIrrelevantIff`.
- A window can hold twice the limit when Redis fails in the middle: `MixedBoundReached`, and never more:
  `MixedWindowBound`.
- `CausalGraph` being cyclic shows in a new engine: its labels are exact exactly for acyclic failures,
  `BuiltExactIffAcyclic`.
- A confirmation that stops between its claim and its event leaves the item stuck: `StuckForever`.
- The sorted-set limiter counts distinct timestamps, not requests: `LuaToleratesRepeatsIff`.
- A status check that found a grant expired labels it expired even if it has been revoked meanwhile; a
  verification does not: `RevokedWhilePending`.
- A one-time grant can be used more than once by overlapping verifications: `OneTimeUsedTwice` and
  `OneTimeOnceIff`.
- Of two overlapping appends of scopes one is lost: `LostAppend`, and `AppendInterleavedIff` for the
  exact condition.

## Model

| member | source | states |
|---|---|---|
| AtmsLogic.ProvableAntitone | nce/atms.py:158-161 | a longer active path can only remove proofs, so an unprovable node stays unprovable under every path |
| AtmsLogic.CutNodeIsProvable | nce/atms.py:178-179 | if forbidding a node destroys every proof of another, the forbidden node itself has a proof: the cycle guard never loses the last proof |
| AtmsLogic.ProvableNodesClosed | nce/atms.py:138-139 | whatever follows by one justification from provable nodes is provable, although the guard forbids revisiting nodes |
| AtmsLogic.ProvableIffLeastModel | nce/atms.py:120-180 | search from the empty path succeeds exactly for the members of the least model of the justifications over premises and valid assumptions |
| AtmsLogic.CircularSupportIsNoSupport | nce/atms.py:128-129 | in a set of DERIVED nodes all of whose justifications lean on the set itself, no node is ever provable |
| AtmsLogic.LeastModelIsFixpoint | nce/atms.py:138-139 | a node is in the least model exactly when a justification fires in it |
| AtmsSearch.LeafIsSound | nce/atms.py:154-180 | every answer given without a frame, cached or not, is the memo-free answer under the current path; no answer means an unfinished DERIVED node off the path |
| AtmsSearch.MakeFrame | nce/atms.py:190-193 | a fresh frame's remaining work is equivalent to the value it has to report, for nodes with and without justifications |
| AtmsSearch.ScanAntecedents | nce/atms.py:240-261 | after the walk the value to report is equivalent to what is left, whether an antecedent failed, needs a child frame, or all hold |
| AtmsSearch.AdvanceFrame | nce/atms.py:237-296 | a frame that finishes reports its goal; a suspended one waits on a DERIVED antecedent off its path and has fewer antecedents left |
| AtmsSearch.Resume | nce/atms.py:218-235 | taking up the child's answer keeps the remaining work equivalent to the goal |
| AtmsSearch.Round | nce/atms.py:200-308 | one round keeps at most one value on the return stack, keeps every lower frame waiting for the one above, keeps the memo sound and strictly lightens the stack |
| AtmsSearch.PushIsPaid | nce/atms.py:253-261 | pushing a child costs less than the antecedent it was pushed for, which bounds every run on every graph |
| AtmsSearch.RememberIsSound | nce/atms.py:302-307 | an entry is written only for a frame started under the empty path, and it is the answer for the empty path |
| AtmsSearch.IsNodeProvablyValid | nce/atms.py:120-310 | terminates for every graph, path and sound memo with the answer of the recursive search; old memo entries are kept and new ones are sound |
| AtmsCascade.CascadeMembers | nce/atms.py:408-416 | everything processed besides the root was valid, DERIVED and has no proof once the root is out |
| AtmsCascade.ReportedIsFlipped | nce/atms.py:392-402 | the returned set is the set of flipped nodes exactly unless the root is a valid PREMISE |
| AtmsCascade.DeprecatedShrinks | nce/atms.py:392-399 | a pass keeps types and justifications, only turns labels off, leaves every PREMISE alone and turns a non-PREMISE root off |
| AtmsCascade.CascadeIffLossReaches | nce/atms.py:404-416 | from any labels, a pass processes exactly the nodes at the end of a chain of dependencies from the root whose links are believed DERIVED nodes outside the least model without the root |
| AtmsCascade.PassFromAnyLabels | nce/atms.py:357-418 | from any labels, the nodes such a chain reaches, PREMISEs apart, are labelled invalid, those of them that were valid are returned, and nothing else changes |
| AtmsCascade.DependentsAreSettled | nce/atms.py:404-416 | from any labels, a DERIVED node still believed after a pass that depends on the root or on a returned node is in the least model without the root |
| AtmsCascade.NothingMissed | nce/atms.py:404-416 | from exact labels, every believed node the pass does not process still has support without the root |
| AtmsCascade.PassIsExact | nce/atms.py:357-418 | from exact labels, a pass leaves exactly the least model of the graph with the root forced out, and returns exactly what dropped out of it |
| AtmsCascade.AssumptionPassKeepsExact | nce/atms.py:312-326 | invalidating an ASSUMPTION keeps the labels equal to the least model |
| AtmsCascade.DerivedPassIsExactIff | nce/atms.py:374-399 | forcing a DERIVED node out leaves exact labels exactly when the node had no support anyway |
| AtmsCascade.EvaluatedIsExact | nce/atms.py:420-427 | re-evaluation yields the least model whatever the labels were |
| AtmsCascade.EvaluatedFixpoints | nce/atms.py:420-427 | re-evaluation changes nothing exactly when the labels are exact |
| AtmsCascade.EvaluatedIdempotent | nce/atms.py:420-427 | a second re-evaluation changes nothing |
| AtmsEngine.ATMSEngine.constructor | nce/atms.py:69-76 | an empty engine with an exact reverse index |
| AtmsEngine.ATMSEngine.RegisterNode | nce/atms.py:78-93 | the node gets the type and the label, a known one keeps its justifications, no other node changes, and the reverse index stays exact |
| AtmsEngine.ATMSEngine.AddJustification | nce/atms.py:95-118 | an unknown consequent is born DERIVED and valid, unknown antecedents valid ASSUMPTIONs; known nodes keep type and label; the justification is appended; and the reverse index lists exactly the consequents whose justifications mention a node |
| AtmsEngine.ATMSEngine.IsProvable | nce/atms.py:120-125 | a query without memo decides provability, and under the empty path membership in the least model |
| AtmsEngine.ScanDependents | nce/atms.py:408-416 | scanning only the index queues every dependent a scan of all nodes would, and a memoised True is never stale |
| AtmsEngine.ATMSEngine.PropagateDeprecation | nce/atms.py:357-418 | for any root and labels, whatever the worklist and set order: exactly the nodes a loss chain from the root reaches are turned off and, if valid, returned; a believed dependent of the root or of a returned node is supported without the root |
| AtmsEngine.ATMSEngine.InvalidateAssumption | nce/atms.py:312-326 | unknown nodes and PREMISEs change nothing; any other node is forced out with all its loss chains reach; the returned set is the set of flipped nodes |
| AtmsEngine.ATMSEngine.RegisterContradiction | nce/atms.py:328-355 | records the pair and justifies FALSE by it; if both are valid, every target of the strategy that is not a PREMISE is forced out, both of them for "invalidate_both", no other ASSUMPTION or PREMISE changes, and the returned set is the set of flipped nodes; else nothing changes |
| AtmsEngine.ATMSEngine.EvaluateBeliefStates | nce/atms.py:420-427 | relabelling in any node order with one shared memo makes the labels the least model and changes nothing else |
| AtmsRuns.IncrementalIsRecompute | nce/atms.py:312-326 | any sequence of invalidations of assumptions from exact labels gives the graph that retracting them all and re-evaluating once gives, and re-evaluating changes nothing |
| AtmsRuns.InvalidationOrderIrrelevant | nce/atms.py:312-326 | order and repetition of the invalidations do not matter |
| AtmsRuns.RunShrinks | nce/atms.py:312-355 | over every run of invalidations and contradictions labels only go off, types stay, and no PREMISE changes its label |
| AtmsRuns.ContradictionResolvedIff | nce/atms.py:341-355 | a registered pair stays jointly valid exactly when it was so and the strategy is unknown or names only PREMISEs |
| AtmsRuns.NogoodsStayResolved | nce/atms.py:328-355 | over every run whose strategies are known and have a target that is not a PREMISE, every registered pair is and stays not jointly valid |
| AtmsRuns.FalseNeverProvable | nce/atms.py:338-339 | over every run with contradictions between assumptions, FALSE is not provable under any path |
| AtmsRuns.LateJustPass | nce/atms.py:338-355 | a justification added late, followed by the pass of an ASSUMPTION it rests on, leaves exact labels exact |
| AtmsRuns.ContradictionExactIff | nce/atms.py:328-355 | a contradiction between assumptions keeps the labels exact exactly when FALSE is registered already or both are valid |
| AtmsRuns.RunKeepsExact | nce/atms.py:312-355 | once FALSE is registered, every run of invalidations of and contradictions between assumptions keeps the labels equal to the least model, so re-evaluating at any point changes nothing |
| CausalTopology.FromRows | nce/causal/correlation.py:325-382 | both adjacency lists hold exactly the edges of the rows, filed under their endpoints; the nodes are exactly the endpoints, each with the type its last row as a source gave it, or else its last row as a target |
| CausalTopology.TypeOrderIrrelevantIff | nce/causal/correlation.py:336-372 | the type of a node is the same for every order of the rows exactly when the rows naming it as a source agree, or, without any, those naming it as a target |
| CausalTopology.FailureRules | nce/causal/correlation.py:118-119 | a failure passes to the targets of connected_to and host_application edges and to the sources of depends_on and powered_by edges, and nowhere else |
| CausalTopology.ImpactedBy | nce/causal/correlation.py:498-536 | the walk returns exactly the least set closed under failure propagation, without the failed node |
| CausalTopology.GatherDependencies | nce/atms.py:444-454 | for every node, exactly the nodes whose failure reaches it in one step |
| CausalTopology.BuildAtms | nce/atms.py:430-464 | nodes no failure reaches in one step are ASSUMPTIONs, all others DERIVED with exactly the nodes whose failures do as the one justification, all believed, whatever the registration order |
| CausalTopology.BuiltExactIffAcyclic | nce/atms.py:430-464 | the labels of a newly built engine are exact exactly when no set of nodes has every member failing with another one of it |
| CausalTopology.PassFollowsFailures | nce/atms.py:357-418 | on a translated graph, cyclic or not, a pass reports exactly the failure closure of its root minus what had failed before, and failed nodes stay closed under failure |
| CausalTopology.InterveneOn | nce/atms.py:499-504 | one target fails exactly its failure closure, and the repeated pass adds nothing |
| CausalTopology.EvaluateIntervention | nce/atms.py:486-506 | for any list of targets the cascade is the union of the failure closures of the known ones |
| LineChunker.ParagraphMeaning | nce/ast_parser.py:430-445 | a paragraph is a single blank line or a maximal run of non-blank lines |
| LineChunker.GroupParagraphs | nce/ast_parser.py:430-445 | the paragraphs are those of the file, in place and in order, and cover it |
| LineChunker.AddLine | nce/ast_parser.py:470-485 | inside an oversized paragraph a chunk is closed only if the next line does not fit, and the counters keep describing the open chunk |
| LineChunker.AddParagraph | nce/ast_parser.py:452-490 | a chunk is closed before a paragraph only if the whole paragraph does not fit; a paragraph within the budgets is never split |
| LineChunker.LineChunks | nce/ast_parser.py:408-493 | chunks tile lines 1 to n; each has at most 200 lines and costs at most 4000 unless it is one line; every cut is forced; the joined code is the text |
| LineChunker.ChunkingUnique | nce/ast_parser.py:408-493 | there is only one such tiling, so the specification leaves the splitter no freedom |
| LineChunker.ChunksKeepText | nce/ast_parser.py:421-428 | joining the code of tiling chunks with newlines gives back the text |
| LineChunker.CostIsTextLength | nce/ast_parser.py:452-490 | what a stretch of lines costs is the length of its joined text and one more newline |
| RateLimiter.WindowBound | nce/auth.py:602-614 | in every run every half-open window of one period, open on either side, holds at most `limit` acceptances |
| RateLimiter.RejectedIffFull | nce/auth.py:608-611 | a request is rejected exactly when the window ending at it already holds `limit` acceptances |
| RateLimiter.InMemoryLimiter.Check | nce/auth.py:602-614 | one call prunes, decides and rewrites the entry of its key with a new expiry, and touches no other key |
| RateLimiter.MemoryIsReference | nce/auth.py:579-614 | while the period is at most 300 s, or no two consecutive requests are 300 s apart, the in-memory limiter accepts exactly what a limiter that forgets nothing accepts |
| RateLimiter.MemoryWindowBound | nce/auth.py:602-614 | the window bound holds for what the in-memory limiter accepts |
| RateLimiter.ExpiryInvisibleIff | nce/auth.py:579-579 | the cache expiry changes no decision in any run exactly when the period is at most 300 s or nothing is ever accepted |
| RateLimiter.SortedSetLimiter.Check | nce/auth.py:584-599 | for every history of acceptances the key stands for, the request is accepted exactly when fewer than `limit` distinct ones lie in the window, and afterwards the key stands for the history with this acceptance added; no other key is touched |
| RateLimiter.LuaDecision | nce/auth.py:591-598 | the script accepts exactly when fewer than `limit` distinct accepted timestamps lie in the window, key expiry included |
| RateLimiter.LuaWindowBound | nce/auth.py:584-599 | no half-open window, open on either side, holds more than `limit` distinct accepted timestamps, whatever repeats |
| RateLimiter.LuaIsReference | nce/auth.py:1632-1654 | for strictly increasing timestamps the script accepts exactly what a limiter that forgets nothing accepts |
| RateLimiter.LimitersAgree | nce/auth.py:1632-1654 | for strictly increasing timestamps and periods up to 300 s the two limiters accept the same requests |
| RateLimiter.LuaToleratesRepeatsIff | nce/auth.py:596-596 | with repeated timestamps the script follows the reference in every run exactly when the limit is at most one |
| RateLimiter.CheckWithFallback | nce/auth.py:1632-1654 | a script that answers decides alone; one that fails, whether or not it took effect on the server, leaves the decision to the memory at a second reading of the clock |
| RateLimiter.MixedDecision | nce/auth.py:1632-1654 | in a run in which Redis fails and recovers, an answered request is accepted exactly when the script alone, over all requests it ran for, accepts it, and any other one exactly when the memory alone does |
| RateLimiter.MixedWindowBound | nce/auth.py:1632-1654 | however Redis fails and recovers during a run, for strictly increasing script timestamps and periods up to 300 s, every half-open window holds at most twice the limit |
| RateLimiter.MixedBoundReached | nce/auth.py:1632-1654 | twice the limit is accepted within one period, for every limit and period, when Redis fails right after a full window |
| Quarantine.StepKeepsInv | nce/active_learning.py:127-243 | every step keeps claims exclusive and recorded under the claimant, and the logs consistent with the rows |
| Quarantine.QuarantineAdds | nce/active_learning.py:79-109 | a new item is pending under its author, and no other row changes |
| Quarantine.WholeReject | nce/active_learning.py:245-322 | a whole rejection of a pending item of another author leaves it rejected by the operator with exactly one event added; any other rejection changes no row and no log |
| Quarantine.ClaimTakes | nce/active_learning.py:127-164 | the first transaction of a confirmation leaves a pending item of another author confirmed by the operator; otherwise it changes nothing |
| Quarantine.WholeConfirm | nce/active_learning.py:127-243 | a whole confirmation adds exactly one store and one event and leaves the item confirmed by the operator |
| Quarantine.FailedConfirmRestores | nce/active_learning.py:186-198 | a whole confirmation whose store fails gives back the rows, stores and events it found |
| Quarantine.ConfirmCompletes | nce/active_learning.py:127-243 | whatever other calls do in between, a claimed confirmation whose store succeeds ends with the item confirmed, stored and reported |
| Quarantine.FailureGivesBack | nce/active_learning.py:186-198 | whatever other calls do in between, a claimed confirmation whose store fails gives the item back pending, not stored and not reported |
| Quarantine.AtMostOnce | nce/active_learning.py:127-322 | in every interleaving at most one store and one event per item, confirmed events only for stored items, rejected items never stored, and no self-resolution |
| Quarantine.RevertIsOwn | nce/active_learning.py:186-198 | a call about to revert still owns the item: the row carries its claim, nothing is stored or reported, and no other call, running or stopped, holds it |
| Quarantine.ResolutionIsFinal | nce/active_learning.py:141-142 | once an item has been stored or reported, no later step of any call changes its resolution |
| Quarantine.UnfinishedIffHeld | nce/active_learning.py:127-243 | an item is confirmed without its store, or stored without its event, exactly while some call, running or stopped, holds it before that step |
| Quarantine.SettledOutcome | nce/active_learning.py:111-322 | an item that no call, running or stopped, holds is untouched, or confirmed with its store and its event, or rejected with its event and no store, whatever happens to other items |
| Quarantine.StuckForever | nce/active_learning.py:153-178 | stopping a call that holds an item leaves the item confirmed and unreported for ever, and stored exactly if its store had returned before the stop |
| KeyPeriod.FilledIffPeriod | nce/config.py:202-202 | a prefix repeated and cut to length gives the key exactly when characters at that distance agree throughout |
| KeyPeriod.PeriodDifference | nce/config.py:199-202 | two periods that fit into the key together have their difference as a period |
| KeyPeriod.LeastPeriodDivides | nce/config.py:201-207 | the least period of at most half the length divides every other such period |
| KeyPeriod.FindPeriod | nce/config.py:197-207 | reports the least period of at most half the length, whose multiples are exactly the periods of at most half the length, or reports none when there is none |
| DlqSanitizer.KeyTestNormalises | nce/dead_letter_queue.py:208-217 | two keys that agree character by character up to case, and dash for underscore, get the same verdict |
| DlqSanitizer.SensitiveIff | nce/dead_letter_queue.py:214-217 | a key is sensitive exactly when, up to case and dash for underscore, it is a listed name or contains a marker |
| DlqSanitizer.MarkerSurvives | nce/dead_letter_queue.py:217-217 | a key in which a marker occurs in any case, with dash or underscore, is sensitive whatever surrounds it |
| DlqSanitizer.SanitizedIsClean | nce/dead_letter_queue.py:220-242 | at every depth strings, dicts and lists are bounded, keys are text and distinct, and only the redaction mark is under a sensitive key |
| DlqSanitizer.FixedIffClean | nce/dead_letter_queue.py:220-242 | the payloads left alone are exactly the clean ones |
| DlqSanitizer.Idempotent | nce/dead_letter_queue.py:220-242 | sanitising twice is sanitising once |
| DlqSanitizer.SecretsDoNotShow | nce/dead_letter_queue.py:231-232 | payloads that differ only under sensitive keys or beyond the size limits have the same result |
| DlqSanitizer.SanitizedIsAlike | nce/dead_letter_queue.py:220-242 | unless two keys of a dict have the same text, the result differs from the payload only under sensitive keys and beyond the size limits: nothing else is dropped, changed or moved |
| DlqSanitizer.DictEntries | nce/dead_letter_queue.py:229-236 | the keys of the result are the texts of the first 50 keys in order of first appearance; under each is the redaction mark or the sanitised last value given to that text |
| DlqSanitizer.SanitizeKwargs | nce/dead_letter_queue.py:220-242 | the loop over the first 50 entries, with key collisions, and the recursion compute the specified payload |
| Grants.EnforceScope | nce/a2a.py:951-991 | access is granted exactly when some readable scope names the resource or its namespace |
| Grants.MergeScopes | nce/a2a.py:1130-1139 | the loop keeps the old scopes in front and adds the new ones once each |
| Grants.MergedOnce | nce/a2a.py:1134-1139 | a new scope is added at most once and only if it was not there |
| Grants.MergedCovers | nce/a2a.py:1130-1139 | an append covers exactly what was covered before and what the new scopes cover |
| Grants.AcceptsIff | nce/a2a.py:753-811 | the read of a verification plans an acceptance exactly when some active grant with the token is unexpired, unused if one-time, and bound to no other namespace or agent than the caller's |
| Grants.RunKeepsTokens | nce/a2a.py:681-713 | tokens stay unique in every interleaving |
| Grants.UnknownToken | nce/a2a.py:763-766 | a verification with a token of no active grant changes no row and logs nothing |
| Grants.SuccessesAreEntitled | nce/a2a.py:753-822 | in every interleaving every success was asked for with the grant's token, before its expiry, from the namespace and by the agent it is bound to |
| Grants.WholeVerify | nce/a2a.py:739-835 | a whole verification counts one use and ends a one-time grant if the caller is entitled, makes an expired grant so, and else changes nothing |
| Grants.WholeUpdate | nce/a2a.py:1098-1156 | a whole update by the owner of an active, unexpired grant leaves exactly the new list, or the merged one when it appends, unless that is empty; any other update changes nothing |
| Grants.WholeRevoke | nce/a2a.py:838-882 | a revocation by the owner ends an active grant; any other changes nothing |
| Grants.WholeStatus | nce/a2a.py:1042-1056 | a whole status check ends an active grant that has expired, and changes nothing else |
| Grants.WholeCreate | nce/a2a.py:687-713 | a new grant is active and unused |
| Grants.RevokedWhilePending | nce/a2a.py:776-862 | what each kind of pending write leaves when the grant is revoked between its read and its write |
| Grants.InactiveForever | nce/a2a.py:753-882 | over every interleaving of statements a grant that is not active never becomes active again |
| Grants.VerifiedOnlyBeforeRevoke | nce/a2a.py:849-862 | around a revocation that goes through, in every interleaving, every successful verification of the grant has read the row before the revocation, however late it finishes |
| Grants.UsageIsSuccesses | nce/a2a.py:813-822 | in every interleaving the usage counter is the number of successful verifications |
| Grants.OneTimeOnlyByOverlap | nce/a2a.py:784-822 | in every interleaving a used one-time grant is inactive, and all its successes had read the row before the first one wrote it |
| Grants.WritesReachIff | nce/a2a.py:813-822 | the writes still to come can bring the usage counter to n exactly when the uses so far and the verifications in flight add up to n |
| Grants.OneTimeOnceIff | nce/a2a.py:784-822 | when no verification of a one-time grant is in flight any more, it has been used at most once exactly when at no point of the schedule two were in flight |
| Grants.OneTimeUsedTwice | nce/a2a.py:753-822 | from an empty table: a grant is created, two verifications read before either writes, and both succeed |
| Grants.OneTimeAtomic | nce/a2a.py:739-835 | with whole calls atomic a one-time grant is used at most once |
| Grants.AppendKeepsCoverage | nce/a2a.py:1130-1156 | an append that runs as a whole keeps everything covered that was covered before |
| Grants.AppendWrites | nce/a2a.py:1128-1156 | whatever other calls do between its read and its write, an append leaves what its read saw and the new scopes |
| Grants.AppendInterleavedIff | nce/a2a.py:1128-1156 | nothing covered at the write of an append is lost exactly when every readable scope then on the row has its like among those the read saw or the new ones |
| Grants.LostAppend | nce/a2a.py:1128-1156 | of two appends that both read before either writes, the second write drops exactly the coverage that only the first one's scopes gave |

## Left out

- ATMS node objects are values in a map: a caller that keeps the object `register_node` returns and changes it later is not modelled; the same goes for descriptions of justifications and the namespace of an engine.
- AtmsEngine.ATMSEngine.PropagateDeprecation: always starts with an empty visited set, because no caller passes one.
- The branch of the search for a frame whose node is not registered is missing, because the frame invariant shows that it cannot be reached.
- Loading the causal graph from the database, confidences of the topology edges, the other graph walks, and the persistence of an intervention: SQL, or easy beside the impact walk.
- Tree-sitter parsing, and splitting a file into lines: foreign parsers; the chunker model starts from the list of lines.
- LineChunker.GroupParagraphs: whitespace is the list of Unicode whitespace characters written out in `IsSpace`.
- RateLimiter.MemoryIsReference: one clock serves the cache and the timestamps, and eviction by capacity (10000 keys) is not modelled; a clock that goes backwards is not modelled either.
- RateLimiter.LuaIsReference: timestamps are exact reals, and key expiry follows the same clock as the timestamps.
- Quarantine.SettledOutcome: a store either returns after taking effect or fails without effect; salience, payload hashing and trust scores are not modelled; an exception outside the handled part of a confirmation counts as a stopped call.
- KeyPeriod.FindPeriod: models the period search only; the tests for few distinct characters, placeholder words and ascending runs are single conditions.
- DlqSanitizer.SensitiveIff: lower-casing covers the characters whose lower case is an ASCII letter, the Kelvin sign among them; the lower case of the dotted capital I, an i and a combining dot, occurs in no listed name, so it is kept as it is.
- DlqSanitizer.SanitizedIsClean: values that are neither dict, list nor string are opaque and pass unchanged, as in the code.
- Grants: token hashing, delegation checks, the audit events, listing and inspection; a status check by token instead of by id; the caller checks of a status query, which come after its write.
- Cryptography, certificate parsing, OAuth, HTTP and MCP handlers, consolidation, contradiction detection, cron and worker plumbing: I/O, or easy beside what is modelled here.
