# CertRollover: a verified model

CertRollover rehearses the replacement of a trust anchor offline. It freezes the anchors, certificate chains and
service dependencies, samples a few instants around the overlap of the two anchors, and reports which services lose
their trust path. This project models that core and proves what its answers mean.

* **Freezing and validation** (`Snapshots`, `Sorting`, `CycleDetection`, `Graphs`): slices sorted in place, identifier
  lists put in canonical form, and the three-colour depth-first search over a mutable colour map. Map iteration and
  the unstable `sort.Slice` are nondeterministic; what the callers see does not depend on them.
* **The simulator** (`DirectPaths`, `Resolution`, `Simulation`, `Reports`): the choice of a chain at one instant, the
  second, unmemoised search that shares a `visiting` set, the sampled instants, and the assembled result. Reachability
  is stated independently of the search, over walks: the whole dependency closure is active, directly reachable and
  free of cycles.
* **What sampling covers** (`Sampling`, `ImpactOrder`, `ChainWindows`): when the six samples speak for the whole span,
  with a snapshot where they do not; interpolation; monotonicity; the windows behind a selected path.
* **The scenario protocol** (`Scenarios`, `ScenarioService`, `Interleaving`, `Guarantees`, `AuditLog`, `Races`): each
  request is a read step and a commit step, any number of requests interleave, and the theorems hold in every reachable
  state, of the table and of its audit log.
* **The dependency table** (`StoredGraph`, `Rewiring`, `ServiceStore`, `OverlappingWrites`, `FrozenTables`): writes
  guarded by the second cycle check, one at a time and with any number of them under way between check and transaction,
  and what a scenario freezes from the table.
* **Smaller cores** (`RateLimiting`, `Redaction`).

Time is an integer number of nanoseconds since Go's zero time, `Time.Sub` saturates as it does in Go, and `uint` is the
64-bit range. JSON columns hold the values they encode. The input hash is any function of the snapshot.

Results that differ from what the repository's README.md or a reader would expect:

* "Repeated requests with the same key return the stored result" (README.md:54) holds exactly while the key is that of
  the scenario's latest completed simulation (`KeyLookupIsExact`); after a return to draft and a run under another key
  the old key is refused (`OldKeyIsForgotten`).
* "All active service trust paths remain reachable before, during, and after" is a statement about six instants.
  `AllReachableIsSoundIff` gives the exact condition for the whole span, as a list of further instants to run the search
  at; `SamplesCanMissAGap` is a snapshot that fails it.
* Every run of the scenario table equals a serial one except for two effects: a replay mark that lands on a scenario
  back in draft, and a second completion under the key the scenario already has. `StepIsSerial` and the lemmas it uses
  say exactly when, `Races` shows both.
* Under serial writes a new dependent service can never be rejected as cyclic, and a scenario frozen from the table
  never is.
* The cycle check of a service write reads outside the transaction. Two writes that pass it on one table close a cycle
  exactly when they are updates of two services whose new edges lead to each other (`TwoStaleWritesAreSafeIff`,
  `StaleUpdatesCanCloseACycle`); creations and deactivations may overlap with anything
  (`OnlyUpdatesEndangerUpdates`). One cycle then blocks every creation, and every update but one that breaks it
  (`CycleCheckPassesIff`).
* An audit entry holds the row as it was read, so it can record a key the scenario no longer has or deny a replay mark it
  has (`AuditedKeyCanBeStale`, `AuditedMarkCanBeStale`). `TransitionEntryIsRightIff`, `SimulateEntryIsRightIff` and
  `ReplayEntryIsRightIff` say, column by column, exactly when. The log still determines the table
  (`LogDeterminesTable`).
* At most one scenario can be waiting for its first simulation, because the empty key is also unique.

## Model

| member | source | states |
|---|---|---|
| Sorting.UniqueIds | backend/internal/algorithm/simulator.go:348-359 | the loop and the sort yield the ascending duplicate-free list of the non-zero identifiers, which is unique |
| Sorting.SortedUniqueIsCanonical | backend/internal/service/common.go:39-50 | order and repetition of the input are irrelevant, and normalising twice equals once |
| Sorting.SortedIsUnique | backend/internal/algorithm/simulator.go:93-95 | a sorted arrangement is unique when equal keys mean equal entries, so an unstable sort does not matter |
| Snapshots.NewSnapshot | backend/internal/algorithm/simulator.go:91-101 | sorts the caller's slices in place and returns a snapshot frozen from their old contents |
| Snapshots.FreezingIsCanonical | backend/internal/algorithm/simulator.go:91-101 | any order of anchors, chains and services and any relisting of identifiers freezes to the same snapshot |
| Snapshots.FreezingIsIdempotent | backend/internal/algorithm/simulator.go:91-101 | freezing a frozen snapshot changes nothing |
| Snapshots.FreezingKeepsContents | backend/internal/algorithm/simulator.go:91-101 | the scenario's columns, every anchor and every chain are kept, in order of identifier; candidates are the same non-zero identifiers, ascending |
| Snapshots.FreezingInventsNoService | backend/internal/algorithm/simulator.go:94-100 | every frozen service is one of the input, its lists holding the same non-zero identifiers in ascending order |
| Snapshots.FreezingLosesNoService | backend/internal/algorithm/simulator.go:94-100 | every service of the input is frozen so |
| Snapshots.LastServiceCounts | backend/internal/algorithm/simulator.go:160-165 | of several entries with one identifier the last counts |
| Snapshots.ValidateSnapshot | backend/internal/algorithm/simulator.go:119-150 | accepts exactly the valid snapshots, acyclicity included; the conditions spelt out; a rejection names a defect that is there |
| Snapshots.DetectCycle | backend/internal/algorithm/simulator.go:318-347 | accepts exactly the acyclic graphs whatever the map order; the reported service is on a cycle |
| CycleDetection.CycleDetector.Visit | backend/internal/algorithm/simulator.go:325-340 | terminates; keeps the colour invariant and finishes the vertex, or reports a vertex on a cycle |
| CycleDetection.CycleDetector.Detect | backend/internal/algorithm/simulator.go:341-346 | over all keys in any order: no error exactly when the graph is acyclic |
| CycleDetection.GreyOnCycle | backend/internal/algorithm/simulator.go:326-328 | meeting a grey vertex proves it is on a cycle |
| CycleDetection.Leave | backend/internal/algorithm/simulator.go:333-339 | a vertex whose successors are finished is on no cycle |
| DirectPaths.EvaluateDirect | backend/internal/algorithm/simulator.go:201-240 | the loop computes the specified evidence, rejections included |
| DirectPaths.DirectPicksLeastUsable | backend/internal/algorithm/simulator.go:206-240 | reachable exactly when some configured or candidate chain meets all six conditions; the least such identifier is chosen |
| DirectPaths.ReasonIsTrue | backend/internal/algorithm/simulator.go:201-239 | an unreachable service is told that its chain is missing, that none matches its identity, or for each considered chain of its identity, in order and leaving none out, the first condition it fails |
| Resolution.Resolver.ResolveService | backend/internal/algorithm/simulator.go:242-268 | computes the specified outcome and leaves `visiting` as it found it |
| Resolution.ResolveIsExact | backend/internal/algorithm/simulator.go:242-268 | on every graph and from every set of ancestors: reachable exactly when the closure is directly reachable, cycle-free and avoids the ancestors |
| Resolution.ResolvedIffFullyReachable | backend/internal/algorithm/simulator.go:181 | the top-level call decides reachability of the whole closure |
| Resolution.ReportedCycleIsReal | backend/internal/algorithm/simulator.go:248-252 | a reason rooted in a cycle means a cycle the service depends on |
| Resolution.CycleBranchIsReported | backend/internal/algorithm/simulator.go:248-252 | on every graph the cycle branch is taken, in the call or one below it, exactly when the reason given is rooted in a cycle |
| Resolution.CycleBranchIsNeverTaken | backend/internal/algorithm/simulator.go:146-148 | on an accepted graph neither the call nor one below it takes the cycle branch, whatever ancestors the search is below |
| Resolution.SearchesAgree | backend/internal/algorithm/simulator.go:242-347 | where all services are directly reachable and edges are known, all resolve exactly when the graph is acyclic |
| Resolution.ResolveWitness | backend/internal/algorithm/simulator.go:253-265 | the returned path goes to the first failing dependency at each step and ends at the root cause; the reason blames the next service of the path at each step, by its code, down to the root's own reason |
| Resolution.BrokenPathHasNoRepeats | backend/internal/algorithm/simulator.go:247 | no service occurs twice on a broken path |
| Simulation.CriticalTimes | backend/internal/algorithm/simulator.go:270-280 | in-place sort and compaction yield the specified instants |
| Simulation.CompactInPlace | backend/internal/algorithm/simulator.go:273-279 | compacting over the slice being read removes exactly adjacent repetitions |
| Simulation.SampledTimesAreExact | backend/internal/algorithm/simulator.go:270-280 | one to six strictly ascending instants, exactly the six configured ones; the midpoint lies in the overlap even when the duration saturates |
| Simulation.SampledTimesByName | backend/internal/algorithm/simulator.go:270-272 | the instants are the start and end of the overlap, a minute before and after, the simulation time and the midpoint, rounded toward the start, of a duration that saturates |
| Simulation.MapKeys | backend/internal/algorithm/simulator.go:368-375 | the keys in ascending order whatever the iteration order |
| Simulation.Explain | backend/internal/algorithm/simulator.go:293-314 | counts and hints as specified from the findings |
| Simulation.SimulateAt | backend/internal/algorithm/simulator.go:166-196 | one instant's entries and evidence as functions of snapshot and instant |
| Simulation.Simulate | backend/internal/algorithm/simulator.go:152-199 | succeeds exactly on valid snapshots, and the result is a function of the snapshot alone |
| Reports.ReportedIffUnreachable | backend/internal/algorithm/simulator.go:166-193 | a (service, instant) pair is reported exactly when the instant is sampled and the active service is unreachable |
| Reports.AllReachableIff | backend/internal/algorithm/simulator.go:294-296 | the all-reachable explanation is given exactly when every active service is reachable at all sampled instants |
| Reports.FailureHintsAreTrue | backend/internal/algorithm/simulator.go:297-313 | the counts are those of the findings, and the before and after hints are given exactly when there are such failures |
| Reports.EvidenceIsTrue | backend/internal/algorithm/simulator.go:169-195 | each instant's evidence has one item per active service in identifier order, with the true verdict and the least usable chain and its anchor, or none if there is none; the anchors listed are those active then |
| Reports.FindingsArePaired | backend/internal/algorithm/simulator.go:183-192 | affected services and broken paths pair up, each for a real failure at a sampled instant |
| Reports.AffectedNameTheirService | backend/internal/algorithm/simulator.go:184 | every reported failure carries the identifier, code and criticality of one active service, at a sampled instant |
| Reports.AffectedAreInOrder | backend/internal/algorithm/simulator.go:166-184 | failures are listed by instant, then by service, none twice |
| Reports.BrokenPathsAreWitnesses | backend/internal/algorithm/simulator.go:181-191 | every reported failure of an accepted canonical snapshot has a repeat-free path along least failing dependencies to its root cause |
| Reports.FrozenDependenciesAscend | backend/internal/algorithm/simulator.go:96-99 | what freezing returns has ascending dependency lists, the canonical form the witnesses rest on |
| Reports.CodesNameKnownPath | backend/internal/algorithm/simulator.go:185-190 | the codes name the known services of a path step by step; an unknown last one is left out |
| Sampling.OutcomeIsConstant | backend/internal/algorithm/simulator.go:201-292 | within a phase and between chain boundaries evidence, reasons and paths are the same |
| Sampling.BreakpointsDecideSpan | backend/internal/algorithm/simulator.go:201-292 | three phase starts and two boundaries for each chain, a list that can be computed, decide reachability throughout the span, for every snapshot |
| Sampling.AllReachableIsSoundIff | backend/internal/algorithm/simulator.go:270-296 | the all-reachable verdict is true of every instant of the span exactly when the search passes at a computed list of at most three instants and two more for each chain |
| Sampling.SamplingSuffices | backend/internal/algorithm/simulator.go:152-292 | with no chain boundary in the span the verdict is true of every instant |
| Sampling.SamplesCanMissAGap | backend/internal/algorithm/simulator.go:271 | a snapshot with a clean verdict and a service cut off for a minute |
| Sampling.ReachabilityInterpolates | backend/internal/algorithm/simulator.go:201-292 | same phase and same choices at two instants: reachable in between, whatever the boundaries |
| ImpactOrder.RelaxingKeepsReachability | backend/internal/algorithm/simulator.go:201-268 | larger trust sets, more chains or candidates, fewer edges keep every service reachable at every instant |
| ImpactOrder.RelaxingNeverAddsImpact | backend/internal/algorithm/simulator.go:152-268 | relaxing never adds an affected (service, instant) pair |
| ImpactOrder.RelaxingKeepsAcceptance | backend/internal/algorithm/simulator.go:119-150 | relaxing keeps an accepted snapshot accepted and a clean verdict clean |
| ChainWindows.ImportWindow | backend/internal/service/certificate_chain_service.go:49-58 | the stored window is exactly the intersection of the anchor's and every certificate's, with ends taken from them |
| ChainWindows.CompareWindows | backend/internal/service/certificate_chain_service.go:157-165 | the overlap flag is true exactly when some instant is in both windows |
| ChainWindows.SelectedPathIsInsideEveryWindow | backend/internal/algorithm/simulator.go:209-235 | for imported chains the instant is inside the window of every certificate and of the selected anchor, which is trusted and active |
| StoredGraph.GraphChecker.Visit | backend/internal/service/common.go:70-88 | as the frozen search, also stopping at an unknown dependency |
| StoredGraph.ServicesContainCycle | backend/internal/service/common.go:59-95 | accepts exactly decodable, acyclic and closed tables; an error names a defect that is there |
| StoredGraph.BuildServices | backend/internal/service/common.go:124-135 | freezes every row with its own columns and exactly its non-zero identifiers, or fails on a list that does not decode |
| StoredGraph.ChecksAgreeOnClosedTables | backend/internal/service/common.go:79-81 | the two cycle checks differ exactly on edges to unknown services |
| Rewiring.RewiringIsAcyclicIff | backend/internal/service/dependent_service_service.go:148-157 | new edges keep an acyclic graph acyclic exactly when none leads back to the service |
| Rewiring.FreshVertexVerdict | backend/internal/service/dependent_service_service.go:84-89 | a vertex nothing points to passes the check exactly when the rest is sound and its edges are known |
| Rewiring.PlaceholderVerdict | backend/internal/service/dependent_service_service.go:85-86 | the placeholder identifier and the real one get the same verdict |
| Rewiring.TwoRewiringsAreAcyclicIff | backend/internal/service/dependent_service_service.go:147-157 | two vertices rewired after checks on one graph close a cycle exactly when, in that graph, each one's new edges lead to the other |
| ServiceStore.Store.ValidateReferences | backend/internal/service/dependent_service_service.go:38-69 | on every table: passes exactly when chain, anchors and dependencies exist and the service is not its own dependency; an error names what is missing |
| ServiceStore.Store.Create | backend/internal/service/dependent_service_service.go:70-103 | on every table overlapping writes can leave: succeeds exactly when request, rights, references and code are in order and the table has no cycle, and then leaves it sound; the new row holds the request, column by column, and is active; says when each refusal is given; states the audit entry |
| ServiceStore.Store.CheckCreate | backend/internal/service/dependent_service_service.go:70-89 | who is refused, which requests are invalid and when the graph would be cyclic, by role, team and graph |
| ServiceStore.Store.CheckUpdate | backend/internal/service/dependent_service_service.go:125-157 | the same for updates, the transfer of ownership included |
| ServiceStore.CreateCheckIsExact | backend/internal/service/dependent_service_service.go:84-89 | the check on the slice with the placeholder passes exactly when the table has no cycle, as it would under the real identifier |
| ServiceStore.Store.Update | backend/internal/service/dependent_service_service.go:125-178 | on every table overlapping writes can leave: succeeds exactly when also no new dependency leads back to the service and every cycle there is goes through it, and then leaves the table sound; the row holds the request, column by column, and keeps identifier, code and state; says when each refusal is given; states the audit entry |
| ServiceStore.UpdateCheckIsExact | backend/internal/service/dependent_service_service.go:147-157 | the overwritten slice passes the check exactly when no cycle avoids the service and no new dependency leads back to it |
| ServiceStore.CycleCheckPassesIff | backend/internal/service/dependent_service_service.go:84-89 | one cycle blocks every creation, and every update except one that breaks it; on a valid table no creation is blocked, and an update only if its edges lead back |
| ServiceStore.CommitIsSoundIff | backend/internal/service/dependent_service_service.go:167-172 | a transaction on any such table leaves it sound exactly when the cycle check, made then, would pass |
| ServiceStore.Store.Deactivate | backend/internal/service/dependent_service_service.go:179-206 | on every table: deactivates an active service and leaves the graph alone; says who is refused and why |
| ServiceStore.SerialWritesKeepGraphSound | backend/internal/service/dependent_service_service.go:70-206 | after any sequence of serial writes the graph is acyclic, closed and free of self-edges |
| OverlappingWrites.CommitIsSafeIff | backend/internal/service/dependent_service_service.go:167-172 | a transaction whose check may be stale keeps the table sound exactly when it is no update whose edges lead back in the table as it is now |
| OverlappingWrites.TwoStaleWritesAreSafeIff | backend/internal/service/dependent_service_service.go:84-95 | two writes of any kind that pass their checks on one table leave it sound exactly when they are not updates of two services that lead to each other in it |
| OverlappingWrites.WaitingChecksPassIff | backend/internal/service/dependent_service_service.go:84-89 | in every run: a waiting creation passes its cycle check exactly when the table has no cycle, a waiting update exactly when it breaks those there are and closes none |
| OverlappingWrites.TransactionIsSoundIff | backend/internal/service/dependent_service_service.go:167-172 | in every run: a transaction leaves the table sound exactly when no cycle remains and its edges do not lead back |
| OverlappingWrites.EveryRunStaysIntact | backend/internal/service/dependent_service_service.go:70-206 | however checks and transactions interleave, identifiers and codes stay unique and dependencies known |
| OverlappingWrites.RunStaysSoundIff | backend/internal/service/dependent_service_service.go:70-206 | a run keeps the graph acyclic throughout exactly when no update finds its own edges leading back at its transaction |
| OverlappingWrites.OnlyUpdatesEndangerUpdates | backend/internal/service/dependent_service_service.go:125-178 | the graph stays sound in every run in which no update is committed between another's check for cycles and its transaction, whatever else overlaps |
| OverlappingWrites.StaleUpdatesCanCloseACycle | backend/internal/service/dependent_service_service.go:147-172 | on a table two serial creations leave, two updates pass their checks and close a cycle in either order |
| FrozenTables.FreezingKeepsTheStoredGraph | backend/internal/service/common.go:111-141 | a scenario has the stored graph, whatever overlapping writes made of it, so after serial writes creation never meets a cycle |
| ScenarioService.Store.Create | backend/internal/service/rollover_scenario_service.go:39-89 | freezes the request, rejects exactly invalid snapshots, inserts row and audit entry together or not at all |
| ScenarioService.Store.UpdateWhere | backend/internal/repository/rollover_scenario_repository.go:86-97 | compare-and-set on the state, refused by the unique key; nothing else changes |
| ScenarioService.Store.CompleteSimulation | backend/internal/repository/rollover_scenario_repository.go:77-85 | the same from draft to simulated |
| ScenarioService.Store.SimulateLoad | backend/internal/service/rollover_scenario_service.go:90-104 | the read step: lets exactly staff and the creator through, under a key of 1 to 128 bytes, and says when each refusal is given |
| ScenarioService.Store.SimulateLookup | backend/internal/service/rollover_scenario_service.go:105-125 | the key lookup on the current table, the checks on the stale row, and the simulation |
| ScenarioService.Store.SimulateCommit | backend/internal/service/rollover_scenario_service.go:126-150 | the transaction: results, key, state and audit entry together or not at all |
| ScenarioService.Store.TransitionLoad | backend/internal/service/rollover_scenario_service.go:175-194 | the read step: lets staff and the creator make exactly the six legal moves, save that verifying is for anyone but the creator, and says when each refusal is given |
| ScenarioService.Store.TransitionCommit | backend/internal/service/rollover_scenario_service.go:195-224 | compare-and-set from the state that was read, with its audit entry |
| ScenarioService.Store.ReplayLoad | backend/internal/service/rollover_scenario_service.go:227-250 | re-simulates the frozen snapshot and compares with the stored result, for exactly staff and the creator of a scenario that is no draft |
| ScenarioService.Store.ReplayCommit | backend/internal/service/rollover_scenario_service.go:251-263 | the update by identifier alone, with its audit entry |
| Interleaving.StepKeepsInv | backend/internal/service/rollover_scenario_service.go:76-263 | every atomic step keeps the invariants of rows, indexes, waiting requests and audit trails |
| Interleaving.EveryRunKeepsInv | backend/internal/service/rollover_scenario_service.go:39-265 | they hold in every reachable state |
| Guarantees.AuditTrailIsContiguous | backend/internal/service/rollover_scenario_service.go:76-81 | per scenario the entries form a legal walk from draft to the stored state, each starting where the last ended |
| Guarantees.SimulateIsSerial | backend/internal/service/rollover_scenario_service.go:131-147 | a simulate commit is one served alone, except exactly when the scenario already has that key |
| Guarantees.ReplayIsSerial | backend/internal/repository/rollover_scenario_repository.go:98-107 | a replay commit is one served alone, except exactly when the scenario is back in draft |
| Guarantees.StepIsSerial | backend/internal/service/rollover_scenario_service.go:131-257 | despite checks on stale reads every step is a request served alone or one of the two exceptions, with one audit entry |
| Guarantees.RunIsSerial | backend/internal/service/rollover_scenario_service.go:39-265 | the table of every run is that of serving the audited requests one at a time, each with the actor, key, target, reviewer, comment and input its entry records, by an actor with the right to it |
| Guarantees.VerifiedMeansReviewed | backend/internal/service/rollover_scenario_service.go:183-198 | verified rows came through draft, simulated, ready and executing and were signed off by someone other than the creator; only rollback has a rollback record |
| Guarantees.FinalStatesStay | backend/internal/constants/scenario_state.go:18-31 | verified and rollback rows keep state, reviewer, key and results through every step |
| Guarantees.OneCompletionPerDraftPeriod | backend/internal/repository/rollover_scenario_repository.go:77-85 | completed simulations balance draft periods: each ended period has exactly one |
| Guarantees.StoredResultsAreTrue | backend/internal/service/rollover_scenario_service.go:116-147 | stored results are the simulator's on the frozen valid snapshot, and list exactly the unreachable pairs |
| Guarantees.FrozenInputStays | backend/internal/model/rollover_scenario.go:5-34 | no step removes a scenario or changes snapshot, hash or creator |
| Guarantees.ReplayAlwaysPasses | backend/internal/service/rollover_scenario_service.go:227-265 | replay of a simulated scenario always passes, and the frozen snapshot is never rejected |
| Guarantees.IndexesHold | backend/internal/model/rollover_scenario.go:15-28 | no two scenarios share a key or a frozen input |
| Guarantees.CreateGoesThroughIff | backend/internal/model/rollover_scenario.go:28 | creation succeeds exactly when audited, the input is new and no scenario is still unsimulated |
| Guarantees.KeyLookupIsExact | backend/internal/service/rollover_scenario_service.go:105-115 | for every waiting call, however stale the row it read: the stored row exactly when the key is that of the latest completed simulation, a conflict exactly when it is another scenario's, else the row read decides; a completion at once succeeds exactly if the scenario is a draft now |
| Guarantees.CompletionIsExact | backend/internal/repository/rollover_scenario_repository.go:77-85 | a prepared completion stores the results of the scenario as it is now, exactly when it is a draft, the key is nobody else's and the audit entry is written; otherwise it changes nothing |
| Guarantees.MoveIsExact | backend/internal/repository/rollover_scenario_repository.go:86-97 | a prepared transition sets state, reviewer and rollback record and nothing else, exactly when the state is still the one read and the audit entry is written |
| Guarantees.MarkIsExact | backend/internal/repository/rollover_scenario_repository.go:98-107 | a prepared replay sets the mark and nothing else, whatever the state, exactly when the audit entry is written |
| Guarantees.RequestsArePermitted | backend/internal/service/rollover_scenario_service.go:33-38 | in every run whoever has a request under way is staff, the scenario's creator, or someone else about to verify it |
| Guarantees.SimulateGoesThroughIff | backend/internal/service/rollover_scenario_service.go:90-147 | a simulate request served alone completes exactly on a draft under a key no scenario has, so it never repeats a key |
| AuditLog.EntriesTellTrue | backend/internal/service/rollover_scenario_service.go:143-257 | in every run, against the rows before and after, a simulate or transition entry can be wrong only in the key and the replay mark, a simulate entry's `before` also in the results and only if the first simulation came in between; a replay entry has the right input and results |
| Races.OldKeyIsForgotten | backend/internal/service/rollover_scenario_service.go:195-205 | a run after which a key that completed a simulation is refused |
| Races.OneKeyCanCompleteTwice | backend/internal/service/rollover_scenario_service.go:105-132 | a run in which a simulation is completed under the key the scenario already has, which no serial run does |
| AuditLog.LogDeterminesTable | backend/internal/service/rollover_scenario_service.go:76-257 | in every run the table is what folding the log's entries rebuilds, stale columns in them notwithstanding |
| AuditLog.EveryRequestWasRead | backend/internal/service/rollover_scenario_service.go:100-104 | every request under way has been so since some read step, whatever ran in between |
| AuditLog.MarkIsReplayed | backend/internal/repository/rollover_scenario_repository.go:98-107 | in every run a scenario carries the replay mark exactly when the log has a replay of it |
| AuditLog.TransitionEntryIsRightIff | backend/internal/service/rollover_scenario_service.go:202-218 | the entry's `before` is the row as read; its key is right exactly when no simulation under another key was completed since, its mark exactly when the first replay was not since, and the whole entry exactly when both hold |
| AuditLog.SimulateEntryIsRightIff | backend/internal/service/rollover_scenario_service.go:130-147 | the same of `before`, and when its results are right; `after` is right exactly when the first replay was not since |
| AuditLog.ReplayEntryIsRightIff | backend/internal/service/rollover_scenario_service.go:251-258 | exactly when state, key, reviewer and rollback record of a replay's entry are right, and when the whole entry is |
| Races.AuditedKeyCanBeStale | backend/internal/service/rollover_scenario_service.go:202-218 | a run that violates the condition on the key, so a transition entry records one the scenario no longer has |
| Races.AuditedMarkCanBeStale | backend/internal/service/rollover_scenario_service.go:202-218 | a run that violates the condition on the mark, so a transition entry denies a mark the scenario has |
| Races.ReplayCanMarkADraft | backend/internal/repository/rollover_scenario_repository.go:98-107 | a run in which the replay mark lands on a draft |
| RateLimiting.RateLimiter.Admit | backend/internal/middleware/auth.go:113-122 | the critical section's effect on the buckets and its verdict |
| RateLimiting.BucketAdmitsExactly | backend/internal/middleware/auth.go:115-121 | a bucket admits exactly its first `limit` requests |
| RateLimiting.AtMostTwiceTheLimit | backend/internal/middleware/auth.go:107-129 | any one-minute half-open interval admits at most twice the limit per key |
| RateLimiting.RejectionMeansLimitUsed | backend/internal/middleware/auth.go:121-126 | a rejection means the key used up the limit within the minute before |
| RateLimiting.KeysAreIndependent | backend/internal/middleware/auth.go:115-120 | other keys' requests change neither bucket nor admissions |
| Redaction.HiddenNames | backend/internal/util/redaction.go:11-19 | a value is hidden under the eleven listed names, in any letter case, and under no other |
| Redaction.RedactionShowsExactlyTheRest | backend/internal/util/redaction.go:16-36 | two trees redact alike exactly when they differ only beneath sensitive keys |
| Redaction.RedactionIsIdempotent | backend/internal/util/redaction.go:16-36 | redacting twice equals redacting once |
| Redaction.OpenPositionsSurvive | backend/internal/util/redaction.go:20-34 | positions under ordinary keys survive with their scalars |
| Redaction.NothingBelowSensitive | backend/internal/util/redaction.go:17-19 | nothing can be found beneath a sensitive key |

## Left out

- Aliasing between the snapshot and the slices passed to `NewSnapshot`: the snapshot holds sequence values.
- Reason and explanation wording, `duration_ms`, timestamps and user display names: only the nesting of reasons, the
  counts and the hints are modelled.
- SHA-256 and JSON text: nothing is claimed about hash values, and columns hold decoded values; a malformed list is one
  abstract value.
- Trimming of keys, names and comments.
- Anchor, candidate and name checks of scenario creation that precede freezing: the request carries the rows already
  loaded, at most 200 chains of them, and validation repeats the checks on identifiers.
- Reads of the dependency table that fail: `ServiceStore` and `OverlappingWrites` take them to succeed.
- Seed data, which enters the table without audit entries: runs start from empty tables.
- The chain state machine and trust-anchor lifecycle flags, the role table, `Compare` of two results, list queries.
- HTTP handlers, tokens, password hashing, logging handlers, the frontend, configuration; X.509 parsing and signatures,
  whose verdicts and windows are inputs.
- Several limiter instances and clocks that go back in lock order: `RateLimiting` takes one limiter and a clock past the
  zero time that does not go back.
- Invalid UTF-8 in JSON keys and in idempotency keys, whose length is counted in bytes.
